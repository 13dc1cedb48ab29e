/**
 Replacing one container by another under two names. From a preflight state every call moves along
 one chain of states, at most one link at a time, whatever becomes of the commands it runs.
*/
module Postgresql {
  import opened Basics
  import opened Containers

  datatype Metadata = Metadata(
    primary: string, rollback: string, candidate: Spec, previous: Option<Spec>, previousRunning: bool)

  function RollbackName(name: string, suffix: string): string {
    name + "-rollback-" + suffix
  }

  /** What preflight records: names are distinct, and only an existing container can have been running. */
  predicate Coherent(m: Metadata) {
    m.primary != m.rollback && (m.previousRunning ==> m.previous.Some?)
  }

  /**
   Preflight looks at both names. `durable` says whether an existing container belongs to the same
   component, data and secrets; `image` whether its image is still the one it was made from.
  */
  function Preflight(w: World, name: string, suffix: string, candidate: Spec, durable: bool, image: bool): Result<Metadata, Error> {
    var rollback := RollbackName(name, suffix);
    if rollback in w then Err(RecoveryRequired)
    else if name !in w then Ok(Metadata(name, rollback, candidate, None, false))
    else if !durable then Err(BindingConflict)
    else if !image then Err(ImageMismatch)
    else Ok(Metadata(name, rollback, candidate, Some(w[name].spec), w[name].running))
  }

  // ---------------------------------------------------------------- the chain

  /*
   0  the previous container runs under the primary name
   1  it is stopped
   2  it waits, stopped, under the rollback name (or there never was one), and the primary name is free
   3  the candidate has been created under the primary name
   4  the candidate runs
  */
  type Place = k: int | 0 <= k <= 4

  function First(m: Metadata): Place {
    if m.previous.None? then 2 else if m.previousRunning then 0 else 1
  }

  function PrimaryAt(m: Metadata, k: Place): Option<Container>
    requires First(m) <= k
  {
    if k <= 1 then Some(Container(m.previous.value, k == 0))
    else if k == 2 then None
    else Some(Container(m.candidate, k == 4))
  }

  function RollbackAt(m: Metadata, k: Place): Option<Container>
    requires First(m) <= k
  {
    if k >= 2 && m.previous.Some? then Some(Container(m.previous.value, false)) else None
  }

  predicate IsAt(m: Metadata, w: World, k: Place) {
    First(m) <= k && Lookup(w, m.primary) == PrimaryAt(m, k) && Lookup(w, m.rollback) == RollbackAt(m, k)
  }

  function Others(m: Metadata, w: World): World {
    w - {m.primary, m.rollback}
  }

  datatype Call =
    | StopPrevious | PreservePrevious | CreateCandidate | StartCandidate
    | StopCandidate | RemoveCandidate | RestorePrevious | RestartPrevious

  /** What a call finds to do at a place: nothing, one link, or a reason to stop. */
  datatype Link = Stay | Go(place: Place) | Refuse

  function LinkOf(m: Metadata, call: Call, k: Place): Link {
    match call
    case StopPrevious =>
      if m.previous.None? then (if k == 2 then Stay else Refuse)
      else if k == 0 then Go(1) else if k <= 2 then Stay else Refuse
    case PreservePrevious =>
      if m.previous.None? then (if k == 2 then Stay else Refuse)
      else if k == 1 then Go(2) else if k == 2 then Stay else Refuse
    case CreateCandidate => if k == 2 then Go(3) else if k == 3 then Stay else Refuse
    case StartCandidate => if k == 3 then Go(4) else if k == 4 then Stay else Refuse
    case StopCandidate => if k == 4 then Go(3) else if k == 3 then Stay else Refuse
    case RemoveCandidate => if k == 3 then Go(2) else if k == 2 then Stay else Refuse
    case RestorePrevious =>
      if m.previous.None? then (if k == 2 then Stay else Refuse)
      else if k == 2 then Go(1) else if k == 1 then Stay else Refuse
    case RestartPrevious =>
      if m.previous.None? then (if k == 2 then Stay else Refuse)
      else if k == 1 && m.previousRunning then Go(0) else if k <= 1 then Stay else Refuse
  }

  /** The surroundings of one call: bindings that no longer hold, a probe, the fate of a command. */
  datatype Env = Env(bindings: Option<Error>, healthy: bool, outcome: Outcome)

  const SMOOTH := Env(None, true, Succeeded)

  function NextPlace(m: Metadata, call: Call, k: Place, env: Env): Place {
    if env.bindings.Some? then k else
    match LinkOf(m, call, k)
    case Go(next) => if env.outcome == FailedBefore then k else next
    case _ => k
  }

  function Answer(m: Metadata, call: Call, k: Place, env: Env): Option<Error> {
    if env.bindings.Some? then env.bindings else
    match LinkOf(m, call, k)
    case Stay => None
    case Go(_) => if env.outcome == Succeeded then None else Some(RecoveryRequired)
    case Refuse => Some(RecoveryRequired)
  }

  predicate Obeys(m: Metadata, call: Call, k: Place, env: Env, error: Option<Error>, after: World) {
    IsAt(m, after, NextPlace(m, call, k, env)) && error == Answer(m, call, k, env)
  }

  /** The call keeps to the chain from each of its places. */
  ghost predicate KeepsChain(m: Metadata, call: Call, env: Env, before: World, error: Option<Error>, after: World) {
    forall k: Place | IsAt(m, before, k) :: Obeys(m, call, k, env, error, after)
  }

  /** A container made from the previous specification exists under one of the two names. */
  predicate HasPrevious(m: Metadata, w: World) {
    m.previous.Some? && (Matches(Lookup(w, m.primary), m.previous.value) || Matches(Lookup(w, m.rollback), m.previous.value))
  }

  /** On or off the chain: nothing else is touched, and the previous container is never lost. */
  predicate Conserves(m: Metadata, before: World, after: World) {
    Others(m, after) == Others(m, before) && (HasPrevious(m, before) ==> HasPrevious(m, after))
  }

  predicate Matches(record: Option<Container>, spec: Spec) {
    record.Some? && record.value.spec == spec
  }

  predicate ValidRollbackPosition(record: Option<Container>, m: Metadata) {
    if m.previous.None? then record.None?
    else Matches(record, m.previous.value) && !record.value.running
  }

  datatype Desired = DesiredCandidate | DesiredPrevious

  /** The candidate is in place at the end of the chain, the previous state at the start of it. */
  predicate Verifies(m: Metadata, desired: Desired, k: Place, healthy: bool) {
    match desired
    case DesiredCandidate => k == 4 && healthy
    case DesiredPrevious => k == First(m) && (m.previousRunning ==> healthy)
  }

  class Adapter {
    const engine: Engine
    const m: Metadata

    constructor (engine: Engine, m: Metadata)
      ensures this.engine == engine && this.m == m
    {
      this.engine := engine;
      this.m := m;
    }

    method RuntimePair() returns (primary: Option<Container>, rollback: Option<Container>)
      ensures primary == Lookup(engine.containers, m.primary) && rollback == Lookup(engine.containers, m.rollback)
    {
      primary := engine.Inspect(m.primary);
      rollback := engine.Inspect(m.rollback);
    }

    method Run(c: Command, outcome: Outcome) returns (error: Option<Error>)
      requires Named(c) <= {m.primary, m.rollback}
      modifies engine`containers
      ensures engine.containers == Effect(old(engine.containers), c, outcome)
      ensures Others(m, engine.containers) == old(Others(m, engine.containers))
      ensures error == if old(Allowed(engine.containers, c)) && outcome == Succeeded then None else Some(RecoveryRequired)
    {
      OnlyNamed(engine.containers, c, outcome, {m.primary, m.rollback});
      error := engine.Run(c, outcome);
    }

    method StopPreviousContainer(env: Env) returns (error: Option<Error>)
      requires Coherent(m)
      modifies engine`containers
      ensures KeepsChain(m, StopPrevious, env, old(engine.containers), error, engine.containers)
      ensures Conserves(m, old(engine.containers), engine.containers)
    {
      if env.bindings.Some? { return env.bindings; }
      var primary, rollback := RuntimePair();
      if m.previous.None? {
        if primary.None? && rollback.None? { return None; }
        return Some(RecoveryRequired);
      }
      if Matches(rollback, m.previous.value) && !rollback.value.running && primary.None? { return None; }
      if !Matches(primary, m.previous.value) || rollback.Some? { return Some(RecoveryRequired); }
      if !primary.value.running { return None; }
      error := Run(Stop(m.primary), env.outcome);
    }

    method PreservePreviousContainer(env: Env) returns (error: Option<Error>)
      requires Coherent(m)
      modifies engine`containers
      ensures KeepsChain(m, PreservePrevious, env, old(engine.containers), error, engine.containers)
      ensures Conserves(m, old(engine.containers), engine.containers)
    {
      if env.bindings.Some? { return env.bindings; }
      var primary, rollback := RuntimePair();
      if m.previous.None? {
        if primary.None? && rollback.None? { return None; }
        return Some(RecoveryRequired);
      }
      if primary.None? && Matches(rollback, m.previous.value) && !rollback.value.running { return None; }
      if primary.None? || primary.value.running || !Matches(primary, m.previous.value) || rollback.Some? {
        return Some(RecoveryRequired);
      }
      error := Run(Rename(m.primary, m.rollback), env.outcome);
    }

    method CreateCandidateContainer(env: Env) returns (error: Option<Error>)
      requires Coherent(m)
      modifies engine`containers
      ensures KeepsChain(m, CreateCandidate, env, old(engine.containers), error, engine.containers)
      ensures Conserves(m, old(engine.containers), engine.containers)
    {
      if env.bindings.Some? { return env.bindings; }
      var primary, rollback := RuntimePair();
      if primary.Some? {
        if Matches(primary, m.candidate) && !primary.value.running && ValidRollbackPosition(rollback, m) { return None; }
        return Some(RecoveryRequired);
      }
      if !ValidRollbackPosition(rollback, m) { return Some(RecoveryRequired); }
      error := Run(Create(m.primary, m.candidate), env.outcome);
    }

    method StartCandidateContainer(env: Env) returns (error: Option<Error>)
      requires Coherent(m)
      modifies engine`containers
      ensures KeepsChain(m, StartCandidate, env, old(engine.containers), error, engine.containers)
      ensures Conserves(m, old(engine.containers), engine.containers)
    {
      if env.bindings.Some? { return env.bindings; }
      var primary, rollback := RuntimePair();
      if !Matches(primary, m.candidate) || !ValidRollbackPosition(rollback, m) { return Some(RecoveryRequired); }
      if primary.value.running { return None; }
      error := Run(Start(m.primary), env.outcome);
    }

    method StopCandidateContainer(env: Env) returns (error: Option<Error>)
      requires Coherent(m)
      modifies engine`containers
      ensures KeepsChain(m, StopCandidate, env, old(engine.containers), error, engine.containers)
      ensures Conserves(m, old(engine.containers), engine.containers)
    {
      if env.bindings.Some? { return env.bindings; }
      var primary, rollback := RuntimePair();
      if !Matches(primary, m.candidate) || !ValidRollbackPosition(rollback, m) { return Some(RecoveryRequired); }
      if !primary.value.running { return None; }
      error := Run(Stop(m.primary), env.outcome);
    }

    method RemoveCandidateContainer(env: Env) returns (error: Option<Error>)
      requires Coherent(m)
      modifies engine`containers
      ensures KeepsChain(m, RemoveCandidate, env, old(engine.containers), error, engine.containers)
      ensures Conserves(m, old(engine.containers), engine.containers)
    {
      if env.bindings.Some? { return env.bindings; }
      var primary, rollback := RuntimePair();
      if primary.None? {
        if ValidRollbackPosition(rollback, m) { return None; }
        return Some(RecoveryRequired);
      }
      if primary.value.running || !Matches(primary, m.candidate) || !ValidRollbackPosition(rollback, m) {
        return Some(RecoveryRequired);
      }
      error := Run(Remove(m.primary), env.outcome);
    }

    method RestorePreviousContainer(env: Env) returns (error: Option<Error>)
      requires Coherent(m)
      modifies engine`containers
      ensures KeepsChain(m, RestorePrevious, env, old(engine.containers), error, engine.containers)
      ensures Conserves(m, old(engine.containers), engine.containers)
    {
      if env.bindings.Some? { return env.bindings; }
      var primary, rollback := RuntimePair();
      if m.previous.None? {
        if primary.None? && rollback.None? { return None; }
        return Some(RecoveryRequired);
      }
      if Matches(primary, m.previous.value) && !primary.value.running && rollback.None? { return None; }
      if primary.Some? || rollback.None? || rollback.value.running || !Matches(rollback, m.previous.value) {
        return Some(RecoveryRequired);
      }
      error := Run(Rename(m.rollback, m.primary), env.outcome);
    }

    method RestartPreviousContainer(env: Env) returns (error: Option<Error>)
      requires Coherent(m)
      modifies engine`containers
      ensures KeepsChain(m, RestartPrevious, env, old(engine.containers), error, engine.containers)
      ensures Conserves(m, old(engine.containers), engine.containers)
    {
      if env.bindings.Some? { return env.bindings; }
      var primary, rollback := RuntimePair();
      if m.previous.None? {
        if primary.None? && rollback.None? { return None; }
        return Some(RecoveryRequired);
      }
      if !Matches(primary, m.previous.value) || rollback.Some? { return Some(RecoveryRequired); }
      if m.previousRunning == primary.value.running { return None; }
      if !m.previousRunning { return Some(RecoveryRequired); }
      error := Run(Start(m.primary), env.outcome);
    }

    /**
     On the chain, the candidate verifies exactly at the end of it and the previous state exactly at
     the start, each when it is also healthy where it should run.
    */
    method Verify(desired: Desired, env: Env) returns (error: Option<Error>)
      requires Coherent(m)
      ensures forall k: Place | IsAt(m, engine.containers, k) ::
        (error.None? <==> env.bindings.None? && Verifies(m, desired, k, env.healthy))
    {
      if env.bindings.Some? { return env.bindings; }
      var primary, rollback := RuntimePair();
      if desired == DesiredCandidate {
        if !Matches(primary, m.candidate) || !primary.value.running || !ValidRollbackPosition(rollback, m) {
          return Some(RecoveryRequired);
        }
        if !env.healthy { return Some(Unhealthy); }
        return None;
      }
      if m.previous.None? {
        if primary.Some? || rollback.Some? { return Some(RecoveryRequired); }
        return None;
      }
      if !Matches(primary, m.previous.value) || primary.value.running != m.previousRunning || rollback.Some? {
        return Some(RecoveryRequired);
      }
      if primary.value.running && !env.healthy { return Some(Unhealthy); }
      error := None;
    }

    method Perform(call: Call, env: Env) returns (error: Option<Error>)
      requires Coherent(m)
      modifies engine`containers
      ensures KeepsChain(m, call, env, old(engine.containers), error, engine.containers)
      ensures Conserves(m, old(engine.containers), engine.containers)
    {
      hide KeepsChain, Conserves;
      match call {
        case StopPrevious => error := StopPreviousContainer(env);
        case PreservePrevious => error := PreservePreviousContainer(env);
        case CreateCandidate => error := CreateCandidateContainer(env);
        case StartCandidate => error := StartCandidateContainer(env);
        case StopCandidate => error := StopCandidateContainer(env);
        case RemoveCandidate => error := RemoveCandidateContainer(env);
        case RestorePrevious => error := RestorePreviousContainer(env);
        case RestartPrevious => error := RestartPreviousContainer(env);
      }
    }

    /** Any calls in any order, refused or not. */
    method PerformAll(requests: seq<Request>) returns (answers: seq<Option<Error>>)
      requires Coherent(m)
      modifies engine`containers
      ensures forall k: Place | IsAt(m, old(engine.containers), k) ::
        IsAt(m, engine.containers, PlaceAfter(m, k, requests)) && answers == AnswersTo(m, k, requests)
      ensures Conserves(m, old(engine.containers), engine.containers)
    {
      hide Conserves, IsAt, NextPlace, Answer, First;
      answers := [];
      ConservesNothing(m, engine.containers);
      for i := 0 to |requests|
        invariant forall k: Place | IsAt(m, old(engine.containers), k) ::
          IsAt(m, engine.containers, PlaceAfter(m, k, requests[..i])) && answers == AnswersTo(m, k, requests[..i])
        invariant Conserves(m, old(engine.containers), engine.containers)
      {
        ghost var before := engine.containers;
        var error := Perform(requests[i].call, requests[i].env);
        ConservesTwice(m, old(engine.containers), before, engine.containers);
        assert requests[..i + 1][..i] == requests[..i];
        answers := answers + [error];
      }
      assert requests[..|requests|] == requests;
    }
  }

  // ---------------------------------------------------------------- whole runs

  datatype Request = Request(call: Call, env: Env)

  function PlaceAfter(m: Metadata, k: Place, requests: seq<Request>): Place {
    if requests == [] then k else
    var last := requests[|requests| - 1];
    NextPlace(m, last.call, PlaceAfter(m, k, requests[..|requests| - 1]), last.env)
  }

  function AnswersTo(m: Metadata, k: Place, requests: seq<Request>): seq<Option<Error>> {
    if requests == [] then [] else
    var front, last := requests[..|requests| - 1], requests[|requests| - 1];
    AnswersTo(m, k, front) + [Answer(m, last.call, PlaceAfter(m, k, front), last.env)]
  }

  lemma ConservesNothing(m: Metadata, w: World)
    ensures Conserves(m, w, w)
  {
  }

  lemma ConservesTwice(m: Metadata, a: World, b: World, c: World)
    requires Conserves(m, a, b) && Conserves(m, b, c)
    ensures Conserves(m, a, c)
  {
    hide HasPrevious, Others;
  }

  lemma NamesDiffer(name: string, suffix: string)
    ensures RollbackName(name, suffix) != name
  {
    assert |RollbackName(name, suffix)| > |name|;
  }

  /** Preflight records coherent metadata, and the world stands at the first place of the chain. */
  lemma PreflightStarts(w: World, name: string, suffix: string, candidate: Spec, durable: bool, image: bool)
    requires Preflight(w, name, suffix, candidate, durable, image).Ok?
    ensures var m := Preflight(w, name, suffix, candidate, durable, image).value;
      Coherent(m) && IsAt(m, w, First(m))
  {
    NamesDiffer(name, suffix);
  }

  /** A call moves at most one link, and never before the first place. */
  lemma OneLink(m: Metadata, call: Call, k: Place, env: Env)
    requires Coherent(m) && First(m) <= k
    ensures First(m) <= NextPlace(m, call, k, env) && -1 <= NextPlace(m, call, k, env) - k <= 1
    ensures NextPlace(m, call, k, env) != k ==> LinkOf(m, call, k).Go? && env.outcome != FailedBefore
  {
  }

  lemma {:induction false} RunsStayOnChain(m: Metadata, k: Place, requests: seq<Request>)
    requires Coherent(m) && First(m) <= k
    ensures First(m) <= PlaceAfter(m, k, requests)
  {
    hide NextPlace;
    if requests != [] {
      var front, last := requests[..|requests| - 1], requests[|requests| - 1];
      RunsStayOnChain(m, k, front);
      OneLink(m, last.call, PlaceAfter(m, k, front), last.env);
    }
  }

  /** The calls of a rollback, in order, and of a replacement. */
  const ROLLBACK: seq<Call> := [StopCandidate, RemoveCandidate, RestorePrevious, RestartPrevious]
  const REPLACE: seq<Call> := [StopPrevious, PreservePrevious, CreateCandidate, StartCandidate]

  function Smoothly(calls: seq<Call>): (r: seq<Request>)
    ensures |r| == |calls|
    ensures forall i | 0 <= i < |r| :: r[i] == Request(calls[i], SMOOTH)
  {
    seq(|calls|, i requires 0 <= i < |calls| => Request(calls[i], SMOOTH))
  }

  function Descend(m: Metadata, k: Place, calls: seq<Call>): Place
    decreases |calls|
  {
    if calls == [] then k else Descend(m, NextPlace(m, calls[0], k, SMOOTH), calls[1..])
  }

  lemma {:induction false} DescendIsRun(m: Metadata, k: Place, calls: seq<Call>)
    ensures Descend(m, k, calls) == PlaceAfter(m, k, Smoothly(calls))
  {
    hide NextPlace;
    if calls != [] {
      var front, last := calls[..|calls| - 1], calls[|calls| - 1];
      DescendIsRun(m, k, front);
      assert Smoothly(calls)[..|calls| - 1] == Smoothly(front);
      DescendLast(m, k, calls);
    }
  }

  lemma {:induction false} DescendLast(m: Metadata, k: Place, calls: seq<Call>)
    requires calls != []
    ensures Descend(m, k, calls) == NextPlace(m, calls[|calls| - 1], Descend(m, k, calls[..|calls| - 1]), SMOOTH)
    decreases |calls|
  {
    hide NextPlace;
    if |calls| > 1 {
      DescendLast(m, NextPlace(m, calls[0], k, SMOOTH), calls[1..]);
      assert calls[1..][..|calls| - 2] == calls[..|calls| - 1][1..];
    }
  }

  lemma RollbackReturns(m: Metadata, k: Place)
    requires Coherent(m) && First(m) <= k
    ensures Descend(m, k, ROLLBACK) == First(m)
    ensures Descend(m, First(m), REPLACE) == 4
  {
  }

  /**
   Convergence: after any calls with any outcomes, the reverse calls in order, with commands that
   succeed, bring back exactly the world that preflight saw.
  */
  lemma RollbackConverges(m: Metadata, start: World, now: World, requests: seq<Request>, end: World)
    requires Coherent(m) && IsAt(m, start, First(m))
    requires IsAt(m, now, PlaceAfter(m, First(m), requests)) && Others(m, now) == Others(m, start)
    requires IsAt(m, end, PlaceAfter(m, PlaceAfter(m, First(m), requests), Smoothly(ROLLBACK)))
    requires Others(m, end) == Others(m, now)
    ensures end == start
  {
    hide NextPlace, PlaceAfter, Descend;
    var k := PlaceAfter(m, First(m), requests);
    RunsStayOnChain(m, First(m), requests);
    RollbackReturns(m, k);
    DescendIsRun(m, k, ROLLBACK);
    SameWorld(end, start, {m.primary, m.rollback});
  }

  /**
   A whole life: preflight, any calls with any outcomes, and the rollback. Only preflight refuses; the
   calls are answered as the chain says and lead to `between`; in the end all containers are as before.
  */
  method ReplaceAndRollBack(engine: Engine, name: string, suffix: string, candidate: Spec, durable: bool, image: bool,
                            requests: seq<Request>)
    returns (m: Result<Metadata, Error>, answers: seq<Option<Error>>, undone: seq<Option<Error>>, ghost between: World)
    modifies engine`containers
    ensures m == Preflight(old(engine.containers), name, suffix, candidate, durable, image)
    ensures m.Ok? ==>
      var (first, reached) := (First(m.value), PlaceAfter(m.value, First(m.value), requests));
      && answers == AnswersTo(m.value, first, requests)
      && IsAt(m.value, between, reached) && Others(m.value, between) == Others(m.value, old(engine.containers))
      && undone == AnswersTo(m.value, reached, Smoothly(ROLLBACK))
    ensures engine.containers == old(engine.containers)
  {
    hide Preflight, IsAt, Coherent, PlaceAfter, AnswersTo, Smoothly, First, Others;
    answers, undone, between := [], [], engine.containers;
    m := Preflight(engine.containers, name, suffix, candidate, durable, image);
    if m.Err? { return; }
    PreflightStarts(engine.containers, name, suffix, candidate, durable, image);
    var adapter := new Adapter(engine, m.value);
    answers := adapter.PerformAll(requests);
    between := engine.containers;
    RunsStayOnChain(m.value, First(m.value), requests);
    undone := adapter.PerformAll(Smoothly(ROLLBACK));
    RollbackConverges(m.value, old(engine.containers), between, requests, engine.containers);
  }

  // ---------------------------------------------------------------- in the caller's terms

  /** Preflight refuses exactly when the rollback name is taken, or there is a container and a finding speaks against it. */
  lemma PreflightRefuses(w: World, name: string, suffix: string, candidate: Spec, durable: bool, image: bool)
    ensures Preflight(w, name, suffix, candidate, durable, image).Err?
      <==> RollbackName(name, suffix) in w || (name in w && (!durable || !image))
  {
  }

  /** The requested candidate runs under the name, and what was there waits, stopped, under the rollback name. */
  predicate Replaced(before: World, after: World, name: string, suffix: string, candidate: Spec) {
    && Lookup(after, name) == Some(Container(candidate, true))
    && Lookup(after, RollbackName(name, suffix)) == (if name in before then Some(Container(before[name].spec, false)) else None)
    && after - {name, RollbackName(name, suffix)} == before - {name, RollbackName(name, suffix)}
  }

  lemma EndIsReplaced(w: World, name: string, suffix: string, candidate: Spec, durable: bool, image: bool, after: World)
    requires Preflight(w, name, suffix, candidate, durable, image).Ok?
    requires var m := Preflight(w, name, suffix, candidate, durable, image).value;
      IsAt(m, after, 4) && Others(m, after) == Others(m, w)
    ensures Replaced(w, after, name, suffix, candidate)
  {
    hide RollbackName;
    NamesDiffer(name, suffix);
  }

  /**
   A replacement without trouble, from preflight to verification: unless refused, the requested
   candidate is what runs, verifies, and has taken the place of what was there.
  */
  method Replace(engine: Engine, name: string, suffix: string, candidate: Spec, durable: bool, image: bool)
    returns (refused: bool, verified: bool)
    modifies engine`containers
    ensures refused <==> old(RollbackName(name, suffix) in engine.containers || (name in engine.containers && (!durable || !image)))
    ensures refused ==> engine.containers == old(engine.containers)
    ensures !refused ==> verified && Replaced(old(engine.containers), engine.containers, name, suffix, candidate)
  {
    hide Preflight, IsAt, Coherent, PlaceAfter, AnswersTo, Smoothly, First, Others, RollbackName, Descend;
    PreflightRefuses(engine.containers, name, suffix, candidate, durable, image);
    var m := Preflight(engine.containers, name, suffix, candidate, durable, image);
    if m.Err? { return true, false; }
    PreflightStarts(engine.containers, name, suffix, candidate, durable, image);
    var adapter := new Adapter(engine, m.value);
    var answers := adapter.PerformAll(Smoothly(REPLACE));
    RollbackReturns(m.value, First(m.value));
    DescendIsRun(m.value, First(m.value), REPLACE);
    EndIsReplaced(old(engine.containers), name, suffix, candidate, durable, image, engine.containers);
    var error := adapter.Verify(DesiredCandidate, SMOOTH);
    refused, verified := false, error.None?;
  }

  /** After a call whose command did not succeed, asking again without trouble brings it to its end. */
  lemma AskingAgain(m: Metadata, call: Call, k: Place, outcome: Outcome)
    requires Coherent(m) && First(m) <= k && LinkOf(m, call, k).Go?
    ensures var next := NextPlace(m, call, k, Env(None, true, outcome));
      && NextPlace(m, call, next, SMOOTH) == LinkOf(m, call, k).place
      && Answer(m, call, next, SMOOTH) == None
  {
  }
}
