/** The dashboard's state provider: a cache with a time to live, and one shared refresh in flight. */
module StateProvider {
  import opened Options

  /** A dashboard state, whatever it holds. */
  type State = int

  datatype Cached = Cached(state: State, expiresAt: int)

  /** The promise in flight: its build runs, or has ended while the promise is not yet cleared. */
  datatype Flight = Idle | Building(id: nat) | Built(id: nat, state: State) | Broken(id: nat)

  /** What a caller gets: a cached state, or the promise of a build. */
  datatype Answer = FromCache(state: State) | Joined(id: nat) | Started(id: nat)

  /** What can happen between two turns of the event loop. */
  datatype Event = Call(nowMs: int) | BuildEnds(state: State, nowMs: int) | BuildFails | Settles

  /** A finished build: its state and the time it was cached, or a failure. */
  datatype Finished = Success(state: State, at: int) | Failure

  /** The provider with the record of its finished builds and the last time that was read. */
  datatype World = World(
    ttl: nat, cached: Option<Cached>, inFlight: Flight, builds: nat, finished: seq<Finished>, clock: int)

  function Initial(ttl: nat, clock: int): World {
    World(ttl, None, Idle, 0, [], clock)
  }

  // ---------------------------------------------------------------- steps

  /** The clock does not go back, and a build ends only while it runs. */
  predicate Enabled(w: World, e: Event) {
    match e
    case Call(now) => w.clock <= now
    case BuildEnds(_, now) => w.inFlight.Building? && w.clock <= now
    case BuildFails => w.inFlight.Building?
    case Settles => w.inFlight.Built? || w.inFlight.Broken?
  }

  predicate Fresh(w: World, now: int) {
    w.cached.Some? && now < w.cached.value.expiresAt
  }

  function AnswerOf(w: World, now: int): Answer {
    if Fresh(w, now) then FromCache(w.cached.value.state)
    else if w.inFlight != Idle then Joined(w.inFlight.id)
    else Started(w.builds + 1)
  }

  function Step(w: World, e: Event): World
    requires Enabled(w, e)
  {
    match e
    case Call(now) =>
      if AnswerOf(w, now).Started? then w.(clock := now, inFlight := Building(w.builds + 1), builds := w.builds + 1)
      else w.(clock := now)
    case BuildEnds(state, now) =>
      w.(clock := now, cached := Some(Cached(state, now + w.ttl)), inFlight := Built(w.inFlight.id, state),
         finished := w.finished + [Success(state, now)])
    case BuildFails => w.(inFlight := Broken(w.inFlight.id), finished := w.finished + [Failure])
    case Settles => w.(inFlight := Idle)
  }

  class Provider {
    const ttl: nat
    var cached: Option<Cached>
    var inFlight: Flight
    var builds: nat
    ghost var finished: seq<Finished>
    ghost var clock: int

    constructor (ttl: nat, ghost startedAt: int)
      ensures Value() == Initial(ttl, startedAt)
    {
      this.ttl := ttl;
      cached := None;
      inFlight := Idle;
      builds := 0;
      finished := [];
      clock := startedAt;
    }

    ghost function Value(): World
      reads this
    {
      World(ttl, cached, inFlight, builds, finished, clock)
    }

    method GetDashboardState(nowMs: int) returns (answer: Answer)
      requires Enabled(Value(), Call(nowMs))
      modifies this
      ensures Value() == Step(old(Value()), Call(nowMs)) && answer == AnswerOf(old(Value()), nowMs)
    {
      clock := nowMs;
      if cached.Some? && nowMs < cached.value.expiresAt { return FromCache(cached.value.state); }
      if inFlight != Idle { return Joined(inFlight.id); }
      builds := builds + 1;
      inFlight := Building(builds);
      return Started(builds);
    }

    /** The builder's promise resolves: the state is cached before the shared promise resolves. */
    method RefreshCompletes(state: State, nowMs: int)
      requires Enabled(Value(), BuildEnds(state, nowMs))
      modifies this
      ensures Value() == Step(old(Value()), BuildEnds(state, nowMs))
    {
      cached := Some(Cached(state, nowMs + ttl));
      inFlight := Built(inFlight.id, state);
      finished := finished + [Success(state, nowMs)];
      clock := nowMs;
    }

    method RefreshFails()
      requires Enabled(Value(), BuildFails)
      modifies this
      ensures Value() == Step(old(Value()), BuildFails)
    {
      inFlight := Broken(inFlight.id);
      finished := finished + [Failure];
    }

    /** The `finally` of the refresh. */
    method Settle()
      requires Enabled(Value(), Settles)
      modifies this
      ensures Value() == Step(old(Value()), Settles)
    {
      inFlight := Idle;
    }
  }

  // ---------------------------------------------------------------- runs

  /** The world after a run, if each of its events could happen where it stands. */
  function Reached(ttl: nat, start: int, events: seq<Event>): Option<World> {
    if events == [] then Some(Initial(ttl, start))
    else
      var before, last := Reached(ttl, start, events[..|events| - 1]), events[|events| - 1];
      if before.Some? && Enabled(before.value, last) then Some(Step(before.value, last)) else None
  }

  predicate Possible(ttl: nat, start: int, events: seq<Event>) {
    Reached(ttl, start, events).Some?
  }

  function After(ttl: nat, start: int, events: seq<Event>): World
    requires Possible(ttl, start, events)
  {
    Reached(ttl, start, events).value
  }

  /** The cache holds the latest build that succeeded, until it expires; failures leave it alone. */
  ghost predicate CacheIs(w: World, k: int) {
    if w.cached.None? then k == -1 && (forall i | 0 <= i < |w.finished| :: w.finished[i] == Failure)
    else
      && 0 <= k < |w.finished| && w.finished[k].Success?
      && w.cached.value == Cached(w.finished[k].state, w.finished[k].at + w.ttl)
      && w.finished[k].at <= w.clock
      && (forall i | k < i < |w.finished| :: w.finished[i] == Failure)
  }

  /** All builds but the one in flight are finished, and a promise in flight is that of the last build. */
  ghost predicate FlightIs(w: World) {
    match w.inFlight
    case Idle => |w.finished| == w.builds
    case Building(id) => id == w.builds == |w.finished| + 1
    case Built(id, state) =>
      id == w.builds == |w.finished| > 0 && w.finished[id - 1].Success? && w.finished[id - 1].state == state
    case Broken(id) => id == w.builds == |w.finished| > 0 && w.finished[id - 1] == Failure
  }

  lemma {:induction false} StepKeeps(w: World, e: Event, k: int) returns (k': int)
    requires Enabled(w, e) && CacheIs(w, k) && FlightIs(w)
    ensures CacheIs(Step(w, e), k') && FlightIs(Step(w, e))
    ensures w.finished <= Step(w, e).finished && |Step(w, e).finished| <= |w.finished| + 1
    ensures Step(w, e).ttl == w.ttl && w.clock <= Step(w, e).clock
  {
    k' := if e.BuildEnds? then |w.finished| else k;
  }

  lemma {:induction false} Reachable(ttl: nat, start: int, events: seq<Event>) returns (k: int)
    requires Possible(ttl, start, events)
    ensures var w := After(ttl, start, events); w.ttl == ttl && CacheIs(w, k) && FlightIs(w)
    decreases |events|
  {
    if events == [] {
      k := -1;
    } else {
      var init := events[..|events| - 1];
      k := Reachable(ttl, start, init);
      k := StepKeeps(After(ttl, start, init), events[|events| - 1], k);
    }
  }

  /** In every run at most one build is unfinished, and it is the last one started. */
  lemma {:induction false} AtMostOneBuildRuns(ttl: nat, start: int, events: seq<Event>)
    requires Possible(ttl, start, events)
    ensures var w := After(ttl, start, events);
            && |w.finished| <= w.builds <= |w.finished| + 1
            && (w.builds == |w.finished| + 1 <==> w.inFlight == Building(w.builds))
  {
    var k := Reachable(ttl, start, events);
  }

  /**
   * In every run an answer from the cache is the state of the latest successful build and within its time to live;
   * a joiner gets the promise of the last started build; a build is started only when none is in flight.
   */
  lemma {:induction false} AnswersAreRight(ttl: nat, start: int, events: seq<Event>, now: int) returns (k: int)
    requires Possible(ttl, start, events) && Enabled(After(ttl, start, events), Call(now))
    ensures var w := After(ttl, start, events);
            match AnswerOf(w, now)
            case FromCache(state) =>
              && 0 <= k < |w.finished| && w.finished[k].Success? && w.finished[k].state == state
              && w.finished[k].at <= now < w.finished[k].at + ttl
              && (forall i | k < i < |w.finished| :: w.finished[i] == Failure)
            case Joined(id) => !Fresh(w, now) && id == w.builds > 0 && |w.finished| >= id - 1
            case Started(id) => !Fresh(w, now) && id == w.builds + 1 == |w.finished| + 1
  {
    k := Reachable(ttl, start, events);
  }

  /** What a build ended with never changes, so all callers that joined it see the same end. */
  lemma {:induction false} EndsAreFinal(ttl: nat, start: int, events: seq<Event>, more: seq<Event>)
    requires Possible(ttl, start, events + more)
    ensures Possible(ttl, start, events)
    ensures After(ttl, start, events).finished <= After(ttl, start, events + more).finished
    decreases |more|
  {
    if more == [] {
      assert events + more == events;
    } else {
      var init := more[..|more| - 1];
      assert (events + more)[..|events + more| - 1] == events + init;
      assert (events + more)[|events + more| - 1] == more[|more| - 1];
      EndsAreFinal(ttl, start, events, init);
      var k := Reachable(ttl, start, events + init);
      k := StepKeeps(After(ttl, start, events + init), more[|more| - 1], k);
    }
  }

  // ---------------------------------------------------------------- between the end of a build and its clearing

  ghost predicate Waiting(events: seq<Event>) {
    forall e | e in events :: e != Settles
  }

  /** Until an ended promise is cleared only calls can happen, and they change nothing but the time. */
  lemma {:induction false} WaitingChangesNothing(ttl: nat, start: int, run: seq<Event>, wait: seq<Event>)
    requires Possible(ttl, start, run + wait) && Waiting(wait)
    requires Possible(ttl, start, run) && var f := After(ttl, start, run).inFlight; f.Built? || f.Broken?
    ensures var ended, later := After(ttl, start, run), After(ttl, start, run + wait);
            later == ended.(clock := later.clock)
    decreases |wait|
  {
    if wait == [] {
      assert run + wait == run;
    } else {
      var init := wait[..|wait| - 1];
      assert wait[|wait| - 1] in wait && forall e | e in init :: e in wait;
      assert (run + wait)[..|run + wait| - 1] == run + init;
      assert (run + wait)[|run + wait| - 1] == wait[|wait| - 1];
      WaitingChangesNothing(ttl, start, run, init);
    }
  }

  lemma {:induction false} AfterOneMore(ttl: nat, start: int, events: seq<Event>, e: Event)
    ensures Possible(ttl, start, events + [e]) <==>
            Possible(ttl, start, events) && Enabled(After(ttl, start, events), e)
    ensures Possible(ttl, start, events + [e]) ==>
              After(ttl, start, events + [e]) == Step(After(ttl, start, events), e)
  {
    assert (events + [e])[..|events|] == events;
  }

  /** A run that starts with another run. */
  lemma {:induction false} PossiblePrefix(ttl: nat, start: int, run: seq<Event>, more: seq<Event>)
    requires Possible(ttl, start, run + more)
    ensures Possible(ttl, start, run)
    decreases |more|
  {
    if more == [] {
      assert run + more == run;
    } else {
      var init := more[..|more| - 1];
      assert (run + more)[..|run + more| - 1] == run + init;
      PossiblePrefix(ttl, start, run, init);
    }
  }

  /**
   * In every run in which a build fails: the cache is as it was, callers are answered from it or sent to the failed
   * promise until that is cleared, which can happen at any time, and then the next call without a fresh state builds
   * anew.
   */
  lemma {:induction false} FailureRecovers(ttl: nat, start: int, events: seq<Event>, wait: seq<Event>, now: int)
    requires Possible(ttl, start, events + [BuildFails] + wait) && Waiting(wait)
    ensures Possible(ttl, start, events) && Possible(ttl, start, events + [BuildFails] + wait + [Settles])
    ensures var w := After(ttl, start, events);
            var failed := After(ttl, start, events + [BuildFails] + wait);
            var cleared := After(ttl, start, events + [BuildFails] + wait + [Settles]);
            && failed.cached == cleared.cached == w.cached
            && AnswerOf(failed, now) == (if Fresh(w, now) then FromCache(w.cached.value.state) else Joined(w.builds))
            && AnswerOf(cleared, now) ==
               (if Fresh(w, now) then FromCache(w.cached.value.state) else Started(w.builds + 1))
  {
    PossiblePrefix(ttl, start, events + [BuildFails], wait);
    AfterOneMore(ttl, start, events, BuildFails);
    WaitingChangesNothing(ttl, start, events + [BuildFails], wait);
    AfterOneMore(ttl, start, events + [BuildFails] + wait, Settles);
    var k := Reachable(ttl, start, events);
  }

  /**
   * In every run in which a build succeeds: until its promise is cleared callers get its state while that is fresh,
   * and later are still sent to the ended promise; once it is cleared they build anew.
   */
  lemma {:induction false} EndedPromisesAreJoined(ttl: nat, start: int, events: seq<Event>, state: State, at: int,
                                                  wait: seq<Event>, now: int)
    requires Possible(ttl, start, events + [BuildEnds(state, at)] + wait) && Waiting(wait)
    ensures Possible(ttl, start, events) && Possible(ttl, start, events + [BuildEnds(state, at)] + wait + [Settles])
    ensures var w := After(ttl, start, events);
            var ended := After(ttl, start, events + [BuildEnds(state, at)] + wait);
            var cleared := After(ttl, start, events + [BuildEnds(state, at)] + wait + [Settles]);
            && AnswerOf(ended, now) == (if now < at + ttl then FromCache(state) else Joined(w.builds))
            && AnswerOf(cleared, now) == (if now < at + ttl then FromCache(state) else Started(w.builds + 1))
  {
    PossiblePrefix(ttl, start, events + [BuildEnds(state, at)], wait);
    AfterOneMore(ttl, start, events, BuildEnds(state, at));
    WaitingChangesNothing(ttl, start, events + [BuildEnds(state, at)], wait);
    AfterOneMore(ttl, start, events + [BuildEnds(state, at)] + wait, Settles);
    var k := Reachable(ttl, start, events);
  }
}
