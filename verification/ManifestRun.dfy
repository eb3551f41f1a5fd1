/** A run over every shipped agent: write mode rewrites, check mode only reports. */
module ManifestRun {
  import opened Options
  import opened ManifestLines
  import opened ManifestMerge
  import opened ManifestGenerator
  import opened ManifestGuarantees
  import Sorting

  type Files = map<string, string>

  function FileName(agent: string): string {
    agent + ".md"
  }

  /** `failed` is a thrown error: a missing file or a refused one; earlier writes stay. */
  datatype Outcome = Outcome(files: Files, diffs: seq<string>, failed: bool)

  function NonAdvChanged(a: string, b: string): bool {
    NonAdvLines(a) != NonAdvLines(b)
  }

  type Generator = (string, string) -> Result<string>

  function GeneratorFor(policies: seq<Policy>): Generator {
    (content: string, agent: string) => Generate(policies, content, agent)
  }

  function Run(gen: Generator, todo: seq<string>, check: bool, files: Files, diffs: seq<string>): Outcome
    decreases |todo|
  {
    if todo == [] then Outcome(files, diffs, false)
    else
      var name := FileName(todo[0]);
      if name !in files then Outcome(files, diffs, true)
      else
        match gen(files[name], todo[0])
        case Err(_) => Outcome(files, diffs, true)
        case Ok(text) =>
          if text == files[name] then Run(gen, todo[1..], check, files, diffs)
          else if check then Run(gen, todo[1..], check, files, diffs + [name])
          else Run(gen, todo[1..], check, files[name := text], diffs)
  }

  function Agents(policies: seq<Policy>): seq<string> {
    seq(|policies|, i requires 0 <= i < |policies| => policies[i].agent)
  }

  function RunAll(policies: seq<Policy>, check: bool, files: Files): Outcome {
    Run(GeneratorFor(policies), Agents(policies), check, files, [])
  }

  class AgentsDirectory {
    var files: Files

    constructor (files: Files)
      ensures this.files == files
    {
      this.files := files;
    }

    method RunGenerate(policies: seq<Policy>, check: bool) returns (ok: bool, diffs: seq<string>, failed: bool)
      modifies this
      ensures Outcome(files, diffs, failed) == RunAll(policies, check, old(files))
      ensures ok <==> !failed && diffs == []
    {
      diffs := [];
      ghost var agents := Agents(policies);
      for i := 0 to |policies|
        invariant Run(GeneratorFor(policies), agents[i..], check, files, diffs) == RunAll(policies, check, old(files))
      {
        var policy := policies[i];
        assert agents[i..][1..] == agents[i + 1..];
        var name := FileName(policy.agent);
        if name !in files { return false, diffs, true; }
        var content := files[name];
        var generated := GenerateManifestContent(policies, content, policy.agent);
        if generated.Err? { return false, diffs, true; }
        var contentChanged := generated.value != content;
        var nonAdvChanged := NonAdvChanged(content, generated.value);
        if contentChanged || nonAdvChanged {
          if check {
            diffs := diffs + [name];
          } else {
            files := files[name := generated.value];
          }
        }
      }
      failed := false;
      ok := diffs == [];
    }
  }

  // ---------------------------------------------------------------- check mode

  lemma {:induction false} CheckNeverWrites(gen: Generator, todo: seq<string>, files: Files, diffs: seq<string>)
    ensures Run(gen, todo, true, files, diffs).files == files
    decreases |todo|
  {
    if todo != [] && FileName(todo[0]) in files {
      var name := FileName(todo[0]);
      match gen(files[name], todo[0])
      case Err(_) =>
      case Ok(text) =>
        CheckNeverWrites(gen, todo[1..], files, if text == files[name] then diffs else diffs + [name]);
    }
  }

  // ---------------------------------------------------------------- write, then check

  lemma {:induction false} FileNameIsInjective(a: string, b: string)
    ensures FileName(a) == FileName(b) ==> a == b
  {
    assert FileName(a)[..|a|] == a && FileName(b)[..|b|] == b;
  }

  ghost predicate OwnFiles(gen: Generator, agents: seq<string>, from: nat, before: Files, after: Files) {
    forall i | from <= i < |agents| ::
      && FileName(agents[i]) in before && FileName(agents[i]) in after
      && gen(before[FileName(agents[i])], agents[i]) == Ok(after[FileName(agents[i])])
  }

  /** A successful write run regenerates each agent's own file. */
  lemma {:induction false} WriteRunRegenerates(gen: Generator, agents: seq<string>, from: nat, files: Files)
    requires Sorting.Distinct(agents) && from <= |agents|
    requires !Run(gen, agents[from..], false, files, []).failed
    ensures OwnFiles(gen, agents, from, files, Run(gen, agents[from..], false, files, []).files)
    decreases |agents| - from
  {
    if from < |agents| {
      assert agents[from..][1..] == agents[from + 1..];
      var name := FileName(agents[from]);
      var text := gen(files[name], agents[from]).value;
      var next := if text == files[name] then files else files[name := text];
      WriteRunRegenerates(gen, agents, from + 1, next);
      forall i | from < i < |agents| ensures FileName(agents[i]) != name {
        FileNameIsInjective(agents[from], agents[i]);
      }
      assert name !in set i | from < i < |agents| :: FileName(agents[i]);
      WriteRunLeavesOthers(gen, agents[from + 1..], next, name);
    }
  }

  /** A write run touches no file but the agents' own. */
  lemma {:induction false} WriteRunLeavesOthers(gen: Generator, todo: seq<string>, files: Files, name: string)
    requires forall a | a in todo :: FileName(a) != name
    ensures var after := Run(gen, todo, false, files, []).files;
            (name in after <==> name in files) && (name in files ==> after[name] == files[name])
    decreases |todo|
  {
    if todo != [] && FileName(todo[0]) in files {
      assert todo[0] in todo;
      match gen(files[FileName(todo[0])], todo[0])
      case Err(_) =>
      case Ok(text) =>
        var next := if text == files[FileName(todo[0])] then files else files[FileName(todo[0]) := text];
        WriteRunLeavesOthers(gen, todo[1..], next, name);
    }
  }

  /** The agents' files that did not pass the note check. */
  function Unstable(stable: string -> bool, agents: seq<string>, before: Files): seq<string> {
    if agents == [] then []
    else
      var name := FileName(agents[0]);
      (if name in before && !stable(before[name]) then [name] else []) + Unstable(stable, agents[1..], before)
  }

  /** Regenerating succeeds again, and changes nothing exactly for texts that were stable. */
  ghost predicate SecondRunLaw(gen: Generator, stable: string -> bool, agents: seq<string>) {
    forall content: string, a: string | a in agents && gen(content, a).Ok? ::
      var once := gen(content, a).value;
      gen(once, a).Ok? && (gen(once, a).value == once <==> stable(content))
  }

  lemma {:induction false} CheckReports(gen: Generator, stable: string -> bool, agents: seq<string>, from: nat,
                                        before: Files, after: Files, diffs: seq<string>)
    requires SecondRunLaw(gen, stable, agents) && from <= |agents|
    requires OwnFiles(gen, agents, from, before, after)
    ensures Run(gen, agents[from..], true, after, diffs) ==
            Outcome(after, diffs + Unstable(stable, agents[from..], before), false)
    decreases |agents| - from
  {
    if from < |agents| {
      var a := agents[from];
      var name := FileName(a);
      assert agents[from..][1..] == agents[from + 1..];
      assert a in agents && gen(before[name], a).Ok?;
      CheckReports(gen, stable, agents, from + 1, before, after,
                   if stable(before[name]) then diffs else diffs + [name]);
    }
  }

  /** One row per agent, every name well formed. */
  ghost predicate ShippedPolicies(policies: seq<Policy>) {
    && Sorting.Distinct(Agents(policies))
    && (forall p | p in policies :: WellFormedPolicy(p))
  }

  lemma {:induction false} FindRow(policies: seq<Policy>, agent: string)
    requires agent in Agents(policies)
    ensures var r := FindPolicy(policies, agent); r.Some? && r.value in policies
  {
    if policies[0].agent != agent {
      assert Agents(policies) == [policies[0].agent] + Agents(policies[1..]);
      FindRow(policies[1..], agent);
    }
  }

  lemma {:induction false} GeneratorObeysSecondRunLaw(policies: seq<Policy>)
    requires ShippedPolicies(policies)
    ensures SecondRunLaw(GeneratorFor(policies), NoteCheck, Agents(policies))
  {
    var gen := GeneratorFor(policies);
    forall content: string, a: string | a in Agents(policies) && gen(content, a).Ok?
      ensures var once := gen(content, a).value;
              gen(once, a).Ok? && (gen(once, a).value == once <==> NoteCheck(content))
    {
      FindRow(policies, a);
      GenerateTwice(policies, content, a, FindPolicy(policies, a).value);
    }
  }

  /**
   * A check after a successful write run never fails, changes nothing, and reports
   * exactly the files that did not pass the note check before the write run.
   */
  lemma {:induction false} WriteThenCheck(policies: seq<Policy>, files: Files)
    requires ShippedPolicies(policies)
    requires !RunAll(policies, false, files).failed
    ensures var after := RunAll(policies, false, files).files;
            RunAll(policies, true, after) == Outcome(after, Unstable(NoteCheck, Agents(policies), files), false)
  {
    var gen, agents := GeneratorFor(policies), Agents(policies);
    assert agents[0..] == agents;
    WriteRunRegenerates(gen, agents, 0, files);
    GeneratorObeysSecondRunLaw(policies);
    CheckReports(gen, NoteCheck, agents, 0, files, RunAll(policies, false, files).files, []);
    assert [] + Unstable(NoteCheck, agents, files) == Unstable(NoteCheck, agents, files);
  }

  // ---------------------------------------------------------------- what a check reports

  /** The file of an agent is not what the generator makes of it. */
  predicate Drifted(gen: Generator, files: Files, agent: string) {
    FileName(agent) in files && gen(files[FileName(agent)], agent).Ok?
    && gen(files[FileName(agent)], agent).value != files[FileName(agent)]
  }

  predicate Readable(gen: Generator, files: Files, agent: string) {
    FileName(agent) in files && gen(files[FileName(agent)], agent).Ok?
  }

  /**
   * A check fails exactly when an agent's file is missing or refused, and otherwise names exactly the drifted
   * files.
   */
  lemma {:induction false} CheckNamesDrift(gen: Generator, todo: seq<string>, files: Files, diffs: seq<string>)
    ensures var r := Run(gen, todo, true, files, diffs);
            && (r.failed <==> exists a | a in todo :: !Readable(gen, files, a))
            && (!r.failed ==> forall name :: name in r.diffs <==>
                                name in diffs || exists a | a in todo :: FileName(a) == name && Drifted(gen, files, a))
    decreases |todo|
  {
    if todo != [] {
      var a, rest := todo[0], todo[1..];
      assert todo == [a] + rest;
      if Readable(gen, files, a) {
        CheckNamesDrift(gen, rest, files, if Drifted(gen, files, a) then diffs + [FileName(a)] else diffs);
      }
    }
  }
}
