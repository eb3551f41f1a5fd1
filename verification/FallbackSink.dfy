/** The durable sink that oversized task and skill results are moved to. */
module FallbackSink {
  import opened Options
  import opened Compaction

  /** How a write goes: it works, or it fails and may leave part of the text behind. */
  datatype Write = Works | Fails | LeavesPart(text: string)

  /** The file name for a text: a directory, a fixed prefix and sixteen digits of its digest. */
  type Naming = string -> string

  type Files = map<string, string>

  /** One call: an existing file is never written again. */
  function Persist(name: Naming, files: Files, content: string, write: Write): (Files, Option<string>) {
    var path := name(content);
    if path in files then (files, Some(path))
    else
      match write
      case Works => (files[path := content], Some(path))
      case Fails => (files, None)
      case LeavesPart(text) => (files[path := text], None)
  }

  class Store {
    var files: Files
    const name: Naming

    constructor (name: Naming)
      ensures this.name == name && files == map[]
    {
      this.name := name;
      files := map[];
    }

    method PersistFallbackContent(content: string, write: Write) returns (path: Option<string>)
      modifies this`files
      ensures (files, path) == Persist(name, old(files), content, write)
    {
      var filePath := name(content);
      if filePath !in files {
        match write
        case Works => files := files[filePath := content];
        case Fails => return None;
        case LeavesPart(text) => files := files[filePath := text]; return None;
      }
      return Some(filePath);
    }
  }

  // ---------------------------------------------------------------- runs

  datatype Call = Call(content: string, write: Write)

  function Run(name: Naming, files: Files, calls: seq<Call>): Files {
    if calls == [] then files
    else
      var last := calls[|calls| - 1];
      Persist(name, Run(name, files, calls[..|calls| - 1]), last.content, last.write).0
  }

  /** No text of the run shares the file name of another text. */
  ghost predicate NoCollision(name: Naming, calls: seq<Call>, content: string) {
    forall c | c in calls && name(c.content) == name(content) :: c.content == content
  }

  /** The first write for a text that did not fail without a trace. */
  function FirstTrace(calls: seq<Call>, content: string): Option<Write> {
    if calls == [] then None
    else
      var before := FirstTrace(calls[..|calls| - 1], content);
      var last := calls[|calls| - 1];
      if before.Some? then before
      else if last.content == content && !last.write.Fails? then Some(last.write)
      else None
  }

  /** What a write leaves in a file that was not there. */
  function Left(content: string, write: Write): string {
    if write.LeavesPart? then write.text else content
  }

  /** A file the directory had before the run stays, and any other holds what its first traced write left. */
  lemma {:induction false} FileHoldsFirstTrace(name: Naming, start: Files, calls: seq<Call>, content: string)
    requires NoCollision(name, calls, content)
    ensures var files, path := Run(name, start, calls), name(content);
            if path in start then path in files && files[path] == start[path]
            else match FirstTrace(calls, content)
                 case None => path !in files
                 case Some(w) => path in files && files[path] == Left(content, w)
    decreases |calls|
  {
    if calls != [] {
      assert calls[|calls| - 1] in calls;
      FileHoldsFirstTrace(name, start, calls[..|calls| - 1], content);
    }
  }

  /** The first write that leaves a trace stops half way and leaves something else. */
  predicate BeginsHalfWritten(calls: seq<Call>, content: string) {
    var w := FirstTrace(calls, content);
    w.Some? && Left(content, w.value) != content
  }

  /**
   * After any run from any directory, a path answered for a text holds that text if and only if the file held it
   * before the run or, when there was no such file, the first write for it that left a trace was complete.
   */
  lemma {:induction false} AnsweredPathsHoldTheirText(name: Naming, start: Files, calls: seq<Call>, content: string,
                                                      write: Write)
    requires NoCollision(name, calls, content)
    ensures var (files, path) := Persist(name, Run(name, start, calls), content, write);
            path.Some? ==> path == Some(name(content)) && path.value in files
                           && (files[path.value] == content <==>
                                 if path.value in start then start[path.value] == content
                                 else !BeginsHalfWritten(calls, content))
  {
    FileHoldsFirstTrace(name, start, calls, content);
  }

  /** The failing side occurs: a write that stops half way is answered as the whole text by every later call. */
  lemma {:induction false} UnfinishedFilesAreTrusted(name: Naming, content: string, part: string, calls: seq<Call>,
                                                     write: Write)
    requires part != content && NoCollision(name, calls, content)
    ensures var run := [Call(content, LeavesPart(part))] + calls;
            var (files, path) := Persist(name, Run(name, map[], run), content, write);
            path == Some(name(content)) && files[name(content)] == part
  {
    var run := [Call(content, LeavesPart(part))] + calls;
    FirstTraceStays(content, part, calls);
    FileHoldsFirstTrace(name, map[], run, content);
  }

  lemma {:induction false} FirstTraceStays(content: string, part: string, calls: seq<Call>)
    ensures FirstTrace([Call(content, LeavesPart(part))] + calls, content) == Some(LeavesPart(part))
    decreases |calls|
  {
    var run := [Call(content, LeavesPart(part))] + calls;
    if calls == [] {
      assert run[..0] == [];
    } else {
      FirstTraceStays(content, part, calls[..|calls| - 1]);
      assert run[..|run| - 1] == [Call(content, LeavesPart(part))] + calls[..|calls| - 1];
    }
  }

  /** Persisting the same text again writes nothing and answers the same path. */
  lemma {:induction false} PersistTwice(name: Naming, files: Files, content: string, write: Write, again: Write)
    requires Persist(name, files, content, write).1.Some?
    ensures var (first, path) := Persist(name, files, content, write);
            Persist(name, first, content, again) == (first, path)
  {
  }
}
