/**
 Replacing a pair of containers, a server and a worker that needs it, under four names. Every call
 names a role; the order in which roles may move is what keeps the pair on one chain of states.
*/
module Authentik {
  import opened Basics
  import opened Containers

  datatype Role = Server | Worker

  datatype Pair = Pair(server: Spec, worker: Spec)

  datatype Metadata = Metadata(
    server: string, worker: string, serverRollback: string, workerRollback: string,
    candidate: Pair, previous: Option<Pair>, serverRunning: bool, workerRunning: bool)

  function ContainerName(component: string, role: Role): string {
    component + (if role == Server then "-server" else "-worker")
  }

  function RollbackName(name: string, suffix: string): string {
    name + "-rollback-" + suffix
  }

  predicate NamesDistinct(m: Metadata) {
    && m.server != m.worker && m.server != m.serverRollback && m.server != m.workerRollback
    && m.worker != m.serverRollback && m.worker != m.workerRollback && m.serverRollback != m.workerRollback
  }

  /** What preflight records: a worker that ran did so beside a running server. */
  predicate Coherent(m: Metadata) {
    && NamesDistinct(m)
    && (m.workerRunning ==> m.serverRunning) && (m.serverRunning ==> m.previous.Some?)
  }

  /** Facts about an existing pair that are not read from the containers' names and power. */
  datatype Findings = Findings(pair: bool, durable: bool, image: bool, changed: bool)

  function NamesFor(component: string, suffix: string, candidate: Pair): Metadata {
    var server := ContainerName(component, Server);
    var worker := ContainerName(component, Worker);
    Metadata(server, worker, RollbackName(server, suffix), RollbackName(worker, suffix), candidate, None, false, false)
  }

  function Preflight(w: World, component: string, suffix: string, candidate: Pair, found: Findings): Result<Metadata, Error> {
    var m := NamesFor(component, suffix, candidate);
    if m.serverRollback in w || m.workerRollback in w then Err(RecoveryRequired)
    else if m.server !in w && m.worker !in w then Ok(m)
    else if m.server !in w || m.worker !in w then Err(RecoveryRequired)
    else if !found.pair then Err(Unhealthy)
    else if !found.durable then Err(BindingConflict)
    else if !found.image then Err(ImageMismatch)
    else if w[m.worker].running && !w[m.server].running then Err(RecoveryRequired)
    else if !found.changed then Err(BindingConflict)
    else Ok(m.(previous := Some(Pair(w[m.server].spec, w[m.worker].spec)),
               serverRunning := w[m.server].running, workerRunning := w[m.worker].running))
  }

  // ---------------------------------------------------------------- the chain

  /*
   0  the previous pair runs
   1  its worker is stopped
   2  its server is stopped too
   3  its worker waits under the rollback name
   4  its server does too (or there never was a pair), and the primary names are free
   5  the candidate server has been created
   6  the candidate worker has been created
   7  the candidate server runs
   8  the candidate worker runs too
  */
  type Place = k: int | 0 <= k <= 8

  function First(m: Metadata): Place {
    if m.previous.None? then 4 else if m.workerRunning then 0 else if m.serverRunning then 1 else 2
  }

  datatype Positions = Positions(
    server: Option<Container>, serverRollback: Option<Container>,
    worker: Option<Container>, workerRollback: Option<Container>)

  function PositionsAt(m: Metadata, k: Place): Positions
    requires First(m) <= k
  {
    Positions(
      if k <= 3 then Some(Container(m.previous.value.server, k <= 1))
      else if k == 4 then None else Some(Container(m.candidate.server, k >= 7)),
      if k >= 4 && m.previous.Some? then Some(Container(m.previous.value.server, false)) else None,
      if k <= 2 then Some(Container(m.previous.value.worker, k == 0))
      else if k <= 5 then None else Some(Container(m.candidate.worker, k == 8)),
      if k >= 3 && m.previous.Some? then Some(Container(m.previous.value.worker, false)) else None)
  }

  function PositionsIn(m: Metadata, w: World): Positions {
    Positions(Lookup(w, m.server), Lookup(w, m.serverRollback), Lookup(w, m.worker), Lookup(w, m.workerRollback))
  }

  predicate IsAt(m: Metadata, w: World, k: Place) {
    First(m) <= k && PositionsIn(m, w) == PositionsAt(m, k)
  }

  function Names(m: Metadata): set<string> {
    {m.server, m.worker, m.serverRollback, m.workerRollback}
  }

  datatype Call =
    | StopPrevious | PreservePrevious | CreateCandidate | StartCandidate
    | StopCandidate | RemoveCandidate | RestorePrevious | RestartPrevious

  datatype Link = Stay | Go(place: Place) | Refuse(error: Error)

  const REFUSE := Refuse(RecoveryRequired)

  /** Go on only beside a healthy server. */
  function IfHealthy(healthy: bool, link: Link): Link {
    if healthy then link else Refuse(Unhealthy)
  }

  function LinkOf(m: Metadata, call: Call, role: Role, k: Place, healthy: bool): Link {
    match call
    case StopPrevious =>
      if m.previous.None? then (if k == 4 then Stay else REFUSE)
      else if role == Worker then (if k == 0 then Go(1) else if k <= 2 then Stay else REFUSE)
      else if k == 1 then Go(2) else if k == 2 then Stay else REFUSE
    case PreservePrevious =>
      if m.previous.None? then (if k == 4 then Stay else REFUSE)
      else if role == Worker then (if k == 2 then Go(3) else if k == 3 then Stay else REFUSE)
      else if k == 3 then Go(4) else if k == 4 then Stay else REFUSE
    case CreateCandidate =>
      if role == Server then (if k == 4 then Go(5) else if k == 5 then Stay else REFUSE)
      else if k == 5 then Go(6) else if k == 6 then Stay else REFUSE
    case StartCandidate =>
      if role == Server then (if k == 6 then Go(7) else if k == 7 then Stay else REFUSE)
      else if k == 7 then IfHealthy(healthy, Go(8)) else if k == 8 then IfHealthy(healthy, Stay) else REFUSE
    case StopCandidate =>
      if role == Server then (if k == 7 then Go(6) else if k == 6 then Stay else REFUSE)
      else if k == 8 then Go(7) else if k >= 6 then Stay else REFUSE
    case RemoveCandidate =>
      if role == Server then (if k == 5 then Go(4) else if k == 4 then Stay else REFUSE)
      else if k == 6 then Go(5) else if k == 5 then Stay else REFUSE
    case RestorePrevious =>
      if m.previous.None? then (if k == 4 then Stay else REFUSE)
      else if role == Server then (if k == 4 then Go(3) else if k == 3 then Stay else REFUSE)
      else if k == 3 then Go(2) else if k == 2 then Stay else REFUSE
    case RestartPrevious =>
      if m.previous.None? then (if k == 4 then Stay else REFUSE)
      else if k > 2 then REFUSE
      else if role == Server then (if k == 2 && m.serverRunning then Go(1) else Stay)
      else if !m.workerRunning then Stay
      else if k == 2 then REFUSE
      else IfHealthy(healthy, if k == 1 then Go(0) else Stay)
  }

  datatype Env = Env(bindings: Option<Error>, healthy: bool, outcome: Outcome)

  const SMOOTH := Env(None, true, Succeeded)

  function NextPlace(m: Metadata, call: Call, role: Role, k: Place, env: Env): Place {
    if env.bindings.Some? then k else
    match LinkOf(m, call, role, k, env.healthy)
    case Go(next) => if env.outcome == FailedBefore then k else next
    case _ => k
  }

  function Answer(m: Metadata, call: Call, role: Role, k: Place, env: Env): Option<Error> {
    if env.bindings.Some? then env.bindings else
    match LinkOf(m, call, role, k, env.healthy)
    case Stay => None
    case Go(_) => if env.outcome == Succeeded then None else Some(RecoveryRequired)
    case Refuse(error) => Some(error)
  }

  predicate Obeys(m: Metadata, call: Call, role: Role, k: Place, env: Env, error: Option<Error>, after: World) {
    IsAt(m, after, NextPlace(m, call, role, k, env)) && error == Answer(m, call, role, k, env)
  }

  ghost predicate KeepsChain(m: Metadata, call: Call, role: Role, env: Env, before: World, error: Option<Error>, after: World) {
    forall k: Place | IsAt(m, before, k) :: Obeys(m, call, role, k, env, error, after)
  }

  predicate Matches(record: Option<Container>, spec: Spec) {
    record.Some? && record.value.spec == spec
  }

  predicate Stopped(record: Option<Container>, spec: Spec) {
    Matches(record, spec) && !record.value.running
  }

  /** Both previous containers exist, each under one of its two names. */
  predicate HasPrevious(m: Metadata, p: Positions) {
    && m.previous.Some?
    && (Matches(p.server, m.previous.value.server) || Matches(p.serverRollback, m.previous.value.server))
    && (Matches(p.worker, m.previous.value.worker) || Matches(p.workerRollback, m.previous.value.worker))
  }

  /** On or off the chain: nothing else is touched, and the previous pair is never lost. */
  predicate Conserves(m: Metadata, before: World, after: World) {
    && after - Names(m) == before - Names(m)
    && (HasPrevious(m, PositionsIn(m, before)) ==> HasPrevious(m, PositionsIn(m, after)))
  }

  predicate ValidPreviousRollbacks(m: Metadata, p: Positions) {
    if m.previous.None? then p.serverRollback.None? && p.workerRollback.None?
    else Stopped(p.serverRollback, m.previous.value.server) && Stopped(p.workerRollback, m.previous.value.worker)
  }

  predicate AllAbsent(p: Positions) {
    p.server.None? && p.worker.None? && p.serverRollback.None? && p.workerRollback.None?
  }

  function PrimaryName(m: Metadata, role: Role): string {
    if role == Server then m.server else m.worker
  }

  function RollbackOf(m: Metadata, role: Role): string {
    if role == Server then m.serverRollback else m.workerRollback
  }

  function Primary(p: Positions, role: Role): Option<Container> {
    if role == Server then p.server else p.worker
  }

  function SpecOf(pair: Pair, role: Role): Spec {
    if role == Server then pair.server else pair.worker
  }

  function RollbackSlot(p: Positions, role: Role): Option<Container> {
    if role == Server then p.serverRollback else p.workerRollback
  }

  /** The two slots of a role, replaced. */
  function Changed(p: Positions, role: Role, primary: Option<Container>, rollback: Option<Container>): Positions {
    if role == Server then p.(server := primary, serverRollback := rollback)
    else p.(worker := primary, workerRollback := rollback)
  }

  datatype Desired = DesiredCandidate | DesiredPrevious

  predicate Verifies(m: Metadata, desired: Desired, k: Place, serverHealthy: bool, workerHealthy: bool) {
    match desired
    case DesiredCandidate => k == 8 && serverHealthy && workerHealthy
    case DesiredPrevious =>
      k == First(m) && (m.serverRunning ==> serverHealthy) && (m.workerRunning ==> workerHealthy)
  }

  /** One role alone: its candidate runs, or its previous container is back as it was. */
  predicate RoleVerifies(m: Metadata, desired: Desired, role: Role, k: Place, healthy: bool) {
    match desired
    case DesiredCandidate => healthy && (if role == Server then k >= 7 else k == 8)
    case DesiredPrevious =>
      m.previous.Some? &&
      if role == Server then (if m.serverRunning then k <= 1 && healthy else k <= 3)
      else (if m.workerRunning then k == 0 && healthy else k <= 2)
  }

  class Adapter {
    const engine: Engine
    const m: Metadata

    constructor (engine: Engine, m: Metadata)
      ensures this.engine == engine && this.m == m
    {
      this.engine := engine;
      this.m := m;
    }

    method Runtime() returns (p: Positions)
      ensures p == PositionsIn(m, engine.containers)
    {
      var server := engine.Inspect(m.server);
      var serverRollback := engine.Inspect(m.serverRollback);
      var worker := engine.Inspect(m.worker);
      var workerRollback := engine.Inspect(m.workerRollback);
      p := Positions(server, serverRollback, worker, workerRollback);
    }

    /** Run a command that, applied, leaves these two containers in the slots of the role. */
    method Run(role: Role, c: Command, outcome: Outcome, ghost primary: Option<Container>, ghost rollback: Option<Container>)
      returns (error: Option<Error>)
      requires NamesDistinct(m) && Named(c) <= {PrimaryName(m, role), RollbackOf(m, role)} && Allowed(engine.containers, c)
      requires Lookup(Apply(engine.containers, c), PrimaryName(m, role)) == primary
      requires Lookup(Apply(engine.containers, c), RollbackOf(m, role)) == rollback
      modifies engine`containers
      ensures PositionsIn(m, engine.containers) == if outcome == FailedBefore then old(PositionsIn(m, engine.containers))
                else Changed(old(PositionsIn(m, engine.containers)), role, primary, rollback)
      ensures engine.containers - Names(m) == old(engine.containers) - Names(m)
      ensures error == if outcome == Succeeded then None else Some(RecoveryRequired)
    {
      OnlyNamed(engine.containers, c, outcome, Names(m));
      error := engine.Run(c, outcome);
    }

    method SetPower(role: Role, running: bool, outcome: Outcome, ghost p: Positions) returns (error: Option<Error>)
      requires NamesDistinct(m) && p == PositionsIn(m, engine.containers) && Primary(p, role).Some?
      modifies engine`containers
      ensures PositionsIn(m, engine.containers) == if outcome == FailedBefore then p
                else Changed(p, role, Some(Primary(p, role).value.(running := running)), RollbackSlot(p, role))
      ensures engine.containers - Names(m) == old(engine.containers) - Names(m)
      ensures error == if outcome == Succeeded then None else Some(RecoveryRequired)
    {
      var name := PrimaryName(m, role);
      error := Run(role, if running then Start(name) else Stop(name), outcome,
                   Some(Primary(p, role).value.(running := running)), RollbackSlot(p, role));
    }

    method MoveAside(role: Role, outcome: Outcome, ghost p: Positions) returns (error: Option<Error>)
      requires NamesDistinct(m) && p == PositionsIn(m, engine.containers)
      requires Primary(p, role).Some? && RollbackSlot(p, role).None?
      modifies engine`containers
      ensures PositionsIn(m, engine.containers) == if outcome == FailedBefore then p else Changed(p, role, None, Primary(p, role))
      ensures engine.containers - Names(m) == old(engine.containers) - Names(m)
      ensures error == if outcome == Succeeded then None else Some(RecoveryRequired)
    {
      error := Run(role, Rename(PrimaryName(m, role), RollbackOf(m, role)), outcome, None, Primary(p, role));
    }

    method MoveBack(role: Role, outcome: Outcome, ghost p: Positions) returns (error: Option<Error>)
      requires NamesDistinct(m) && p == PositionsIn(m, engine.containers)
      requires Primary(p, role).None? && RollbackSlot(p, role).Some?
      modifies engine`containers
      ensures PositionsIn(m, engine.containers) == if outcome == FailedBefore then p else Changed(p, role, RollbackSlot(p, role), None)
      ensures engine.containers - Names(m) == old(engine.containers) - Names(m)
      ensures error == if outcome == Succeeded then None else Some(RecoveryRequired)
    {
      error := Run(role, Rename(RollbackOf(m, role), PrimaryName(m, role)), outcome, RollbackSlot(p, role), None);
    }

    method CreateRole(role: Role, outcome: Outcome, ghost p: Positions) returns (error: Option<Error>)
      requires NamesDistinct(m) && p == PositionsIn(m, engine.containers) && Primary(p, role).None?
      modifies engine`containers
      ensures PositionsIn(m, engine.containers) == if outcome == FailedBefore then p
                else Changed(p, role, Some(Container(SpecOf(m.candidate, role), false)), RollbackSlot(p, role))
      ensures engine.containers - Names(m) == old(engine.containers) - Names(m)
      ensures error == if outcome == Succeeded then None else Some(RecoveryRequired)
    {
      error := Run(role, Create(PrimaryName(m, role), SpecOf(m.candidate, role)), outcome,
                   Some(Container(SpecOf(m.candidate, role), false)), RollbackSlot(p, role));
    }

    method RemoveRole(role: Role, outcome: Outcome, ghost p: Positions) returns (error: Option<Error>)
      requires NamesDistinct(m) && p == PositionsIn(m, engine.containers)
      requires Primary(p, role).Some? && !Primary(p, role).value.running
      modifies engine`containers
      ensures PositionsIn(m, engine.containers) == if outcome == FailedBefore then p
                else Changed(p, role, None, RollbackSlot(p, role))
      ensures engine.containers - Names(m) == old(engine.containers) - Names(m)
      ensures error == if outcome == Succeeded then None else Some(RecoveryRequired)
    {
      error := Run(role, Remove(PrimaryName(m, role)), outcome, None, RollbackSlot(p, role));
    }

    method StopPreviousContainer(role: Role, env: Env) returns (error: Option<Error>)
      requires Coherent(m)
      modifies engine`containers
      ensures KeepsChain(m, StopPrevious, role, env, old(engine.containers), error, engine.containers)
      ensures Conserves(m, old(engine.containers), engine.containers)
    {
      hide PositionsIn, Names, NamesDistinct;
      if env.bindings.Some? { return env.bindings; }
      var r := Runtime();
      if m.previous.None? {
        if AllAbsent(r) { return None; }
        return Some(RecoveryRequired);
      }
      var previous := m.previous.value;
      if r.serverRollback.Some? || r.workerRollback.Some? { return Some(RecoveryRequired); }
      if role == Worker {
        if !Matches(r.server, previous.server) || !Matches(r.worker, previous.worker) { return Some(RecoveryRequired); }
      } else {
        if !Matches(r.server, previous.server) || !Matches(r.worker, previous.worker) || r.worker.value.running {
          return Some(RecoveryRequired);
        }
      }
      if !Primary(r, role).value.running { return None; }
      error := SetPower(role, false, env.outcome, r);
    }

    method PreservePreviousContainer(role: Role, env: Env) returns (error: Option<Error>)
      requires Coherent(m)
      modifies engine`containers
      ensures KeepsChain(m, PreservePrevious, role, env, old(engine.containers), error, engine.containers)
      ensures Conserves(m, old(engine.containers), engine.containers)
    {
      hide PositionsIn, Names, NamesDistinct;
      if env.bindings.Some? { return env.bindings; }
      var r := Runtime();
      if m.previous.None? {
        if AllAbsent(r) { return None; }
        return Some(RecoveryRequired);
      }
      var previous := m.previous.value;
      if role == Worker {
        if Stopped(r.server, previous.server) && r.serverRollback.None? && r.worker.None?
           && Stopped(r.workerRollback, previous.worker) { return None; }
        if !Stopped(r.server, previous.server) || !Stopped(r.worker, previous.worker)
           || r.serverRollback.Some? || r.workerRollback.Some? { return Some(RecoveryRequired); }
      } else {
        if r.server.None? && Stopped(r.serverRollback, previous.server) && r.worker.None?
           && Stopped(r.workerRollback, previous.worker) { return None; }
        if !Stopped(r.server, previous.server) || r.serverRollback.Some? || r.worker.Some?
           || !Stopped(r.workerRollback, previous.worker) { return Some(RecoveryRequired); }
      }
      error := MoveAside(role, env.outcome, r);
    }

    method CreateCandidateContainer(role: Role, env: Env) returns (error: Option<Error>)
      requires Coherent(m)
      modifies engine`containers
      ensures KeepsChain(m, CreateCandidate, role, env, old(engine.containers), error, engine.containers)
      ensures Conserves(m, old(engine.containers), engine.containers)
    {
      hide PositionsIn, Names, NamesDistinct;
      if env.bindings.Some? { return env.bindings; }
      var r := Runtime();
      if !ValidPreviousRollbacks(m, r) { return Some(RecoveryRequired); }
      if role == Server {
        if r.worker.Some? { return Some(RecoveryRequired); }
      } else {
        if !Stopped(r.server, m.candidate.server) { return Some(RecoveryRequired); }
      }
      if Primary(r, role).Some? {
        if Stopped(Primary(r, role), SpecOf(m.candidate, role)) { return None; }
        return Some(RecoveryRequired);
      }
      error := CreateRole(role, env.outcome, r);
    }

    method StartCandidateContainer(role: Role, env: Env) returns (error: Option<Error>)
      requires Coherent(m)
      modifies engine`containers
      ensures KeepsChain(m, StartCandidate, role, env, old(engine.containers), error, engine.containers)
      ensures Conserves(m, old(engine.containers), engine.containers)
    {
      hide PositionsIn, Names, NamesDistinct;
      if env.bindings.Some? { return env.bindings; }
      var r := Runtime();
      if !ValidPreviousRollbacks(m, r) || !Matches(r.server, m.candidate.server) || !Matches(r.worker, m.candidate.worker) {
        return Some(RecoveryRequired);
      }
      if role == Server {
        if r.worker.value.running { return Some(RecoveryRequired); }
      } else {
        if !r.server.value.running { return Some(RecoveryRequired); }
        if !env.healthy { return Some(Unhealthy); }
      }
      if Primary(r, role).value.running { return None; }
      error := SetPower(role, true, env.outcome, r);
    }

    method StopCandidateContainer(role: Role, env: Env) returns (error: Option<Error>)
      requires Coherent(m)
      modifies engine`containers
      ensures KeepsChain(m, StopCandidate, role, env, old(engine.containers), error, engine.containers)
      ensures Conserves(m, old(engine.containers), engine.containers)
    {
      hide PositionsIn, Names, NamesDistinct;
      if env.bindings.Some? { return env.bindings; }
      var r := Runtime();
      if !ValidPreviousRollbacks(m, r) || !Matches(r.server, m.candidate.server) || !Matches(r.worker, m.candidate.worker) {
        return Some(RecoveryRequired);
      }
      if role == Server && r.worker.value.running { return Some(RecoveryRequired); }
      if !Primary(r, role).value.running { return None; }
      error := SetPower(role, false, env.outcome, r);
    }

    method RemoveCandidateContainer(role: Role, env: Env) returns (error: Option<Error>)
      requires Coherent(m)
      modifies engine`containers
      ensures KeepsChain(m, RemoveCandidate, role, env, old(engine.containers), error, engine.containers)
      ensures Conserves(m, old(engine.containers), engine.containers)
    {
      hide PositionsIn, Names, NamesDistinct;
      if env.bindings.Some? { return env.bindings; }
      var r := Runtime();
      if !ValidPreviousRollbacks(m, r) { return Some(RecoveryRequired); }
      if role == Worker {
        if !Stopped(r.server, m.candidate.server) { return Some(RecoveryRequired); }
      } else if r.worker.Some? {
        return Some(RecoveryRequired);
      }
      if Primary(r, role).None? { return None; }
      if !Stopped(Primary(r, role), SpecOf(m.candidate, role)) { return Some(RecoveryRequired); }
      error := RemoveRole(role, env.outcome, r);
    }

    method RestorePreviousContainer(role: Role, env: Env) returns (error: Option<Error>)
      requires Coherent(m)
      modifies engine`containers
      ensures KeepsChain(m, RestorePrevious, role, env, old(engine.containers), error, engine.containers)
      ensures Conserves(m, old(engine.containers), engine.containers)
    {
      hide PositionsIn, Names, NamesDistinct;
      if env.bindings.Some? { return env.bindings; }
      var r := Runtime();
      if m.previous.None? {
        if AllAbsent(r) { return None; }
        return Some(RecoveryRequired);
      }
      var previous := m.previous.value;
      if role == Server {
        if Stopped(r.server, previous.server) && r.serverRollback.None? && r.worker.None?
           && Stopped(r.workerRollback, previous.worker) { return None; }
        if r.server.Some? || r.worker.Some? || !Stopped(r.serverRollback, previous.server)
           || !Stopped(r.workerRollback, previous.worker) { return Some(RecoveryRequired); }
      } else {
        if Stopped(r.server, previous.server) && r.serverRollback.None? && Stopped(r.worker, previous.worker)
           && r.workerRollback.None? { return None; }
        if !Stopped(r.server, previous.server) || r.serverRollback.Some? || r.worker.Some?
           || !Stopped(r.workerRollback, previous.worker) { return Some(RecoveryRequired); }
      }
      error := MoveBack(role, env.outcome, r);
    }

    method RestartPreviousContainer(role: Role, env: Env) returns (error: Option<Error>)
      requires Coherent(m)
      modifies engine`containers
      ensures KeepsChain(m, RestartPrevious, role, env, old(engine.containers), error, engine.containers)
      ensures Conserves(m, old(engine.containers), engine.containers)
    {
      hide PositionsIn, Names, NamesDistinct;
      if env.bindings.Some? { return env.bindings; }
      var r := Runtime();
      if m.previous.None? {
        if AllAbsent(r) { return None; }
        return Some(RecoveryRequired);
      }
      var previous := m.previous.value;
      if !Matches(r.server, previous.server) || !Matches(r.worker, previous.worker)
         || r.serverRollback.Some? || r.workerRollback.Some? { return Some(RecoveryRequired); }
      var wanted := m.serverRunning;
      if role == Worker {
        wanted := m.workerRunning;
        if wanted {
          if !r.server.value.running { return Some(RecoveryRequired); }
          if !env.healthy { return Some(Unhealthy); }
        }
      }
      if Primary(r, role).value.running == wanted { return None; }
      if !wanted { return Some(RecoveryRequired); }
      error := SetPower(role, true, env.outcome, r);
    }

    method VerifyRole(role: Role, desired: Desired, env: Env) returns (error: Option<Error>)
      requires Coherent(m)
      ensures forall k: Place | IsAt(m, engine.containers, k) ::
        (error.None? <==> env.bindings.None? && RoleVerifies(m, desired, role, k, env.healthy))
    {
      hide PositionsIn, Names, NamesDistinct;
      if env.bindings.Some? { return env.bindings; }
      var r := Runtime();
      var spec := m.candidate;
      var running := true;
      if desired == DesiredCandidate {
        if !ValidPreviousRollbacks(m, r) { return Some(RecoveryRequired); }
      } else {
        if m.previous.None? { return Some(RecoveryRequired); }
        spec := m.previous.value;
        running := if role == Server then m.serverRunning else m.workerRunning;
        if RollbackSlot(r, role).Some? { return Some(RecoveryRequired); }
      }
      if !Matches(Primary(r, role), SpecOf(spec, role)) || Primary(r, role).value.running != running {
        return Some(RecoveryRequired);
      }
      if running && !env.healthy { return Some(Unhealthy); }
      error := None;
    }

    /**
     On the chain, the candidate pair verifies exactly at the end of it and the previous state
     exactly at the start, each when what should run is also healthy.
    */
    method Verify(desired: Desired, bindings: Option<Error>, serverHealthy: bool, workerHealthy: bool) returns (error: Option<Error>)
      requires Coherent(m)
      ensures forall k: Place | IsAt(m, engine.containers, k) ::
        (error.None? <==> bindings.None? && Verifies(m, desired, k, serverHealthy, workerHealthy))
    {
      hide PositionsIn, Names, NamesDistinct;
      if bindings.Some? { return bindings; }
      var r := Runtime();
      if desired == DesiredCandidate {
        if !ValidPreviousRollbacks(m, r) || !Matches(r.server, m.candidate.server) || !Matches(r.worker, m.candidate.worker)
           || !r.server.value.running || !r.worker.value.running { return Some(RecoveryRequired); }
        if !serverHealthy || !workerHealthy { return Some(Unhealthy); }
        return None;
      }
      if m.previous.None? {
        if AllAbsent(r) { return None; }
        return Some(RecoveryRequired);
      }
      var previous := m.previous.value;
      if r.serverRollback.Some? || r.workerRollback.Some? || !Matches(r.server, previous.server)
         || !Matches(r.worker, previous.worker) || r.server.value.running != m.serverRunning
         || r.worker.value.running != m.workerRunning { return Some(RecoveryRequired); }
      if m.serverRunning && !serverHealthy { return Some(Unhealthy); }
      if m.workerRunning && !workerHealthy { return Some(Unhealthy); }
      error := None;
    }

    method Perform(call: Call, role: Role, env: Env) returns (error: Option<Error>)
      requires Coherent(m)
      modifies engine`containers
      ensures KeepsChain(m, call, role, env, old(engine.containers), error, engine.containers)
      ensures Conserves(m, old(engine.containers), engine.containers)
    {
      hide KeepsChain, Conserves;
      match call {
        case StopPrevious => error := StopPreviousContainer(role, env);
        case PreservePrevious => error := PreservePreviousContainer(role, env);
        case CreateCandidate => error := CreateCandidateContainer(role, env);
        case StartCandidate => error := StartCandidateContainer(role, env);
        case StopCandidate => error := StopCandidateContainer(role, env);
        case RemoveCandidate => error := RemoveCandidateContainer(role, env);
        case RestorePrevious => error := RestorePreviousContainer(role, env);
        case RestartPrevious => error := RestartPreviousContainer(role, env);
      }
    }

    /** Any calls in any order, refused or not. */
    method PerformAll(requests: seq<Request>) returns (answers: seq<Option<Error>>)
      requires Coherent(m)
      modifies engine`containers
      ensures forall k: Place | IsAt(m, old(engine.containers), k) ::
        && IsAt(m, engine.containers, PlaceAfter(m, k, requests)) && answers == AnswersTo(m, k, requests)
        && SafePositions(m, PositionsIn(m, engine.containers))
      ensures Conserves(m, old(engine.containers), engine.containers)
    {
      hide Conserves, IsAt, NextPlace, Answer, First, SafePositions, PositionsIn, NamesDistinct;
      answers := [];
      ConservesNothing(m, engine.containers);
      for i := 0 to |requests|
        invariant forall k: Place | IsAt(m, old(engine.containers), k) ::
          IsAt(m, engine.containers, PlaceAfter(m, k, requests[..i])) && answers == AnswersTo(m, k, requests[..i])
        invariant Conserves(m, old(engine.containers), engine.containers)
      {
        ghost var before := engine.containers;
        var error := Perform(requests[i].call, requests[i].role, requests[i].env);
        ConservesTwice(m, old(engine.containers), before, engine.containers);
        assert requests[..i + 1][..i] == requests[..i];
        answers := answers + [error];
      }
      assert requests[..|requests|] == requests;
      forall k: Place | IsAt(m, old(engine.containers), k) ensures SafePositions(m, PositionsIn(m, engine.containers)) {
        ChainSafety(m, engine.containers, PlaceAfter(m, k, requests));
      }
    }
  }

  // ---------------------------------------------------------------- safety of the chain

  /** A running worker has a running server of its own generation beside it, and generations never mix. */
  predicate SafePositions(m: Metadata, p: Positions) {
    && (p.worker.Some? && p.worker.value.running ==> p.server.Some? && p.server.value.running)
    && (m.previous.Some? ==> HasPrevious(m, p))
    && (p.serverRollback.Some? ==> !p.serverRollback.value.running)
    && (p.workerRollback.Some? ==> !p.workerRollback.value.running)
    && (p.server.Some? && p.worker.Some? ==>
          || (m.previous.Some? && p.server.value.spec == m.previous.value.server && p.worker.value.spec == m.previous.value.worker)
          || (p.server.value.spec == m.candidate.server && p.worker.value.spec == m.candidate.worker))
    && (m.previous.Some? && p.serverRollback.None? && p.workerRollback.None? ==>
          p.server.Some? && p.server.value.spec == m.previous.value.server)
  }

  /** Every world on the chain is safe. */
  lemma ChainSafety(m: Metadata, w: World, k: Place)
    requires Coherent(m) && IsAt(m, w, k)
    ensures SafePositions(m, PositionsIn(m, w))
  {
    hide PositionsIn, NamesDistinct;
  }

  datatype Request = Request(call: Call, role: Role, env: Env)

  function PlaceAfter(m: Metadata, k: Place, requests: seq<Request>): Place {
    if requests == [] then k else
    var last := requests[|requests| - 1];
    NextPlace(m, last.call, last.role, PlaceAfter(m, k, requests[..|requests| - 1]), last.env)
  }

  function AnswersTo(m: Metadata, k: Place, requests: seq<Request>): seq<Option<Error>> {
    if requests == [] then [] else
    var front, last := requests[..|requests| - 1], requests[|requests| - 1];
    AnswersTo(m, k, front) + [Answer(m, last.call, last.role, PlaceAfter(m, k, front), last.env)]
  }

  lemma ConservesNothing(m: Metadata, w: World)
    ensures Conserves(m, w, w)
  {
  }

  lemma ConservesTwice(m: Metadata, a: World, b: World, c: World)
    requires Conserves(m, a, b) && Conserves(m, b, c)
    ensures Conserves(m, a, c)
  {
    hide HasPrevious, PositionsIn, Names;
  }

  /** A call moves at most one link, and never before the first place. */
  lemma OneLink(m: Metadata, call: Call, role: Role, k: Place, env: Env)
    requires Coherent(m) && First(m) <= k
    ensures First(m) <= NextPlace(m, call, role, k, env) && -1 <= NextPlace(m, call, role, k, env) - k <= 1
    ensures NextPlace(m, call, role, k, env) != k ==>
      env.bindings.None? && env.outcome != FailedBefore && LinkOf(m, call, role, k, env.healthy).Go?
  {
    hide NamesDistinct;
  }

  lemma {:induction false} RunsStayOnChain(m: Metadata, k: Place, requests: seq<Request>)
    requires Coherent(m) && First(m) <= k
    ensures First(m) <= PlaceAfter(m, k, requests)
  {
    hide NextPlace, Coherent, First;
    if requests != [] {
      var front, last := requests[..|requests| - 1], requests[|requests| - 1];
      RunsStayOnChain(m, k, front);
      OneLink(m, last.call, last.role, PlaceAfter(m, k, front), last.env);
    }
  }

  // ---------------------------------------------------------------- preflight and rollback

  lemma NamesForDistinct(component: string, suffix: string, candidate: Pair)
    ensures NamesDistinct(NamesFor(component, suffix, candidate))
  {
    var server, worker := ContainerName(component, Server), ContainerName(component, Worker);
    var n := |component| + 1;
    assert |server| == |worker| && server[n] == 's' && worker[n] == 'w';
    assert RollbackName(server, suffix)[n] == 's' && RollbackName(worker, suffix)[n] == 'w';
    assert |RollbackName(server, suffix)| > |server| && |RollbackName(worker, suffix)| > |server|;
  }

  /** Preflight records coherent metadata, and the world stands at the first place of the chain. */
  lemma PreflightStarts(w: World, component: string, suffix: string, candidate: Pair, found: Findings)
    requires Preflight(w, component, suffix, candidate, found).Ok?
    ensures var m := Preflight(w, component, suffix, candidate, found).value; Coherent(m) && IsAt(m, w, First(m))
  {
    hide ContainerName, RollbackName;
    NamesForDistinct(component, suffix, candidate);
  }

  datatype Move = Move(call: Call, role: Role)

  /** The calls of a rollback, in order, and of a replacement. */
  const ROLLBACK: seq<Move> := [
    Move(StopCandidate, Worker), Move(StopCandidate, Server), Move(RemoveCandidate, Worker), Move(RemoveCandidate, Server),
    Move(RestorePrevious, Server), Move(RestorePrevious, Worker), Move(RestartPrevious, Server), Move(RestartPrevious, Worker)]

  const REPLACE: seq<Move> := [
    Move(StopPrevious, Worker), Move(StopPrevious, Server), Move(PreservePrevious, Worker), Move(PreservePrevious, Server),
    Move(CreateCandidate, Server), Move(CreateCandidate, Worker), Move(StartCandidate, Server), Move(StartCandidate, Worker)]

  function Smoothly(moves: seq<Move>): (r: seq<Request>)
    ensures |r| == |moves|
    ensures forall i | 0 <= i < |r| :: r[i] == Request(moves[i].call, moves[i].role, SMOOTH)
  {
    seq(|moves|, i requires 0 <= i < |moves| => Request(moves[i].call, moves[i].role, SMOOTH))
  }

  function SmoothNext(m: Metadata, move: Move, k: Place): Place {
    NextPlace(m, move.call, move.role, k, SMOOTH)
  }

  lemma Smooth(m: Metadata, k: Place, moves: seq<Move>, n: nat)
    requires n < |moves|
    ensures PlaceAfter(m, k, Smoothly(moves)[..n + 1]) == SmoothNext(m, moves[n], PlaceAfter(m, k, Smoothly(moves)[..n]))
  {
    hide NextPlace;
    assert Smoothly(moves)[..n + 1][..n] == Smoothly(moves)[..n];
  }

  /** Stopping and removing the candidate leads to where the primary names are free, if beyond. */
  lemma Clears(m: Metadata, k: Place)
    requires Coherent(m) && First(m) <= k
    ensures PlaceAfter(m, k, Smoothly(ROLLBACK)[..4]) == if k >= 4 then 4 else k
  {
    hide NextPlace, PlaceAfter, Smoothly, NamesDistinct;
    Smooth(m, k, ROLLBACK, 0);
    Smooth(m, k, ROLLBACK, 1);
    Smooth(m, k, ROLLBACK, 2);
    Smooth(m, k, ROLLBACK, 3);
    NothingRun(m, k, Smoothly(ROLLBACK));
    ClearsStep(m, k);
  }

  lemma NothingRun(m: Metadata, k: Place, requests: seq<Request>)
    ensures PlaceAfter(m, k, requests[..0]) == k
  {
  }

  lemma ClearsStep(m: Metadata, k: Place)
    requires First(m) <= k
    ensures SmoothNext(m, ROLLBACK[3], SmoothNext(m, ROLLBACK[2], SmoothNext(m, ROLLBACK[1], SmoothNext(m, ROLLBACK[0], k))))
      == if k >= 4 then 4 else k
  {
  }

  lemma ReturnsStep(m: Metadata, k: Place)
    requires Coherent(m) && First(m) <= k <= 4
    ensures SmoothNext(m, ROLLBACK[7], SmoothNext(m, ROLLBACK[6], SmoothNext(m, ROLLBACK[5], SmoothNext(m, ROLLBACK[4], k))))
      == First(m)
  {
    hide NamesDistinct;
  }

  lemma RollbackReturns(m: Metadata, k: Place)
    requires Coherent(m) && First(m) <= k
    ensures PlaceAfter(m, k, Smoothly(ROLLBACK)) == First(m)
  {
    hide NextPlace, PlaceAfter, Smoothly, NamesDistinct;
    Clears(m, k);
    Smooth(m, k, ROLLBACK, 4);
    Smooth(m, k, ROLLBACK, 5);
    Smooth(m, k, ROLLBACK, 6);
    Smooth(m, k, ROLLBACK, 7);
    assert Smoothly(ROLLBACK)[..8] == Smoothly(ROLLBACK);
    ReturnsStep(m, if k >= 4 then 4 else k);
  }

  lemma ReplaceStep(m: Metadata)
    requires Coherent(m)
    ensures SmoothNext(m, REPLACE[3], SmoothNext(m, REPLACE[2], SmoothNext(m, REPLACE[1], SmoothNext(m, REPLACE[0], First(m))))) == 4
    ensures SmoothNext(m, REPLACE[7], SmoothNext(m, REPLACE[6], SmoothNext(m, REPLACE[5], SmoothNext(m, REPLACE[4], 4)))) == 8
  {
    hide NamesDistinct;
  }

  /** Without trouble, the calls of a replacement lead from preflight to a running candidate pair. */
  lemma ReplaceArrives(m: Metadata)
    requires Coherent(m)
    ensures PlaceAfter(m, First(m), Smoothly(REPLACE)) == 8
  {
    hide NextPlace, PlaceAfter, Smoothly, NamesDistinct, First;
    var k := First(m);
    NothingRun(m, k, Smoothly(REPLACE));
    Smooth(m, k, REPLACE, 0);
    Smooth(m, k, REPLACE, 1);
    Smooth(m, k, REPLACE, 2);
    Smooth(m, k, REPLACE, 3);
    Smooth(m, k, REPLACE, 4);
    Smooth(m, k, REPLACE, 5);
    Smooth(m, k, REPLACE, 6);
    Smooth(m, k, REPLACE, 7);
    assert Smoothly(REPLACE)[..8] == Smoothly(REPLACE);
    ReplaceStep(m);
  }

  /**
   Convergence: after any calls with any outcomes, the reverse calls in order, with commands and
   probes that succeed, bring back exactly the world that preflight saw.
  */
  lemma RollbackConverges(m: Metadata, start: World, now: World, requests: seq<Request>, end: World)
    requires Coherent(m) && IsAt(m, start, First(m))
    requires IsAt(m, now, PlaceAfter(m, First(m), requests)) && now - Names(m) == start - Names(m)
    requires IsAt(m, end, PlaceAfter(m, PlaceAfter(m, First(m), requests), Smoothly(ROLLBACK)))
    requires end - Names(m) == now - Names(m)
    ensures end == start
  {
    hide NextPlace, PlaceAfter, Smoothly, NamesDistinct, First, PositionsAt;
    RunsStayOnChain(m, First(m), requests);
    RollbackReturns(m, PlaceAfter(m, First(m), requests));
    SameWorld(end, start, Names(m));
  }

  /**
   A whole life: preflight, any calls with any outcomes, and the rollback. Only preflight refuses; the
   calls are answered as the chain says and lead to `between`; in the end all containers are as before.
  */
  method ReplaceAndRollBack(engine: Engine, component: string, suffix: string, candidate: Pair, found: Findings,
                            requests: seq<Request>)
    returns (m: Result<Metadata, Error>, answers: seq<Option<Error>>, undone: seq<Option<Error>>, ghost between: World)
    modifies engine`containers
    ensures m == Preflight(old(engine.containers), component, suffix, candidate, found)
    ensures m.Ok? ==>
      var (first, reached) := (First(m.value), PlaceAfter(m.value, First(m.value), requests));
      && answers == AnswersTo(m.value, first, requests)
      && IsAt(m.value, between, reached) && between - Names(m.value) == old(engine.containers) - Names(m.value)
      && undone == AnswersTo(m.value, reached, Smoothly(ROLLBACK))
    ensures engine.containers == old(engine.containers)
  {
    hide Preflight, IsAt, Coherent, PlaceAfter, AnswersTo, Smoothly, First, Names;
    answers, undone, between := [], [], engine.containers;
    m := Preflight(engine.containers, component, suffix, candidate, found);
    if m.Err? { return; }
    PreflightStarts(engine.containers, component, suffix, candidate, found);
    var adapter := new Adapter(engine, m.value);
    answers := adapter.PerformAll(requests);
    between := engine.containers;
    undone := adapter.PerformAll(Smoothly(ROLLBACK));
    RollbackConverges(m.value, old(engine.containers), between, requests, engine.containers);
  }

  // ---------------------------------------------------------------- in the caller's terms

  /** Preflight refuses exactly a taken rollback name, half a pair, a lone worker that runs, or a finding against the pair. */
  lemma PreflightRefuses(w: World, component: string, suffix: string, candidate: Pair, found: Findings)
    ensures var (server, worker) := (ContainerName(component, Server), ContainerName(component, Worker));
      Preflight(w, component, suffix, candidate, found).Err? <==>
        || RollbackName(server, suffix) in w || RollbackName(worker, suffix) in w
        || (server in w && worker !in w) || (worker in w && server !in w)
        || (server in w && worker in w &&
             (!found.pair || !found.durable || !found.image || !found.changed || (w[worker].running && !w[server].running)))
  {
  }

  /** The container found under this name before, stopped. */
  function Stilled(w: World, name: string): Option<Container> {
    if name in w then Some(Container(w[name].spec, false)) else None
  }

  /** The requested pair runs, and the pair that was there waits, stopped, under the rollback names. */
  predicate Replaced(before: World, after: World, component: string, suffix: string, candidate: Pair) {
    var (server, worker) := (ContainerName(component, Server), ContainerName(component, Worker));
    var names := {server, worker, RollbackName(server, suffix), RollbackName(worker, suffix)};
    && Lookup(after, server) == Some(Container(candidate.server, true))
    && Lookup(after, worker) == Some(Container(candidate.worker, true))
    && Lookup(after, RollbackName(server, suffix)) == Stilled(before, server)
    && Lookup(after, RollbackName(worker, suffix)) == Stilled(before, worker)
    && after - names == before - names
  }

  lemma EndIsReplaced(w: World, component: string, suffix: string, candidate: Pair, found: Findings, after: World)
    requires Preflight(w, component, suffix, candidate, found).Ok?
    requires var m := Preflight(w, component, suffix, candidate, found).value;
      IsAt(m, after, 8) && after - Names(m) == w - Names(m)
    ensures Replaced(w, after, component, suffix, candidate)
  {
    hide ContainerName, RollbackName;
  }

  /**
   A replacement without trouble, from preflight to verification: unless refused, the requested pair
   is what runs, verifies, and has taken the place of what was there.
  */
  method Replace(engine: Engine, component: string, suffix: string, candidate: Pair, found: Findings)
    returns (refused: bool, verified: bool)
    modifies engine`containers
    ensures refused <==> old(Preflight(engine.containers, component, suffix, candidate, found)).Err?
    ensures refused ==> engine.containers == old(engine.containers)
    ensures !refused ==> verified && Replaced(old(engine.containers), engine.containers, component, suffix, candidate)
  {
    hide Preflight, IsAt, Coherent, PlaceAfter, AnswersTo, Smoothly, First, Names, Replaced;
    var m := Preflight(engine.containers, component, suffix, candidate, found);
    if m.Err? { return true, false; }
    PreflightStarts(engine.containers, component, suffix, candidate, found);
    var adapter := new Adapter(engine, m.value);
    var answers := adapter.PerformAll(Smoothly(REPLACE));
    ReplaceArrives(m.value);
    EndIsReplaced(old(engine.containers), component, suffix, candidate, found, engine.containers);
    var error := adapter.Verify(DesiredCandidate, None, true, true);
    refused, verified := false, error.None?;
  }

  /** After a call whose command did not succeed, asking again without trouble brings it to its end. */
  lemma AskingAgain(m: Metadata, call: Call, role: Role, k: Place, outcome: Outcome)
    requires Coherent(m) && First(m) <= k && LinkOf(m, call, role, k, true).Go?
    ensures var next := NextPlace(m, call, role, k, Env(None, true, outcome));
      && NextPlace(m, call, role, next, SMOOTH) == LinkOf(m, call, role, k, true).place
      && Answer(m, call, role, next, SMOOTH) == None
  {
    hide NamesDistinct;
  }

  /** No call makes a worker run that did not, unless the server beside it was found healthy. */
  lemma HealthyFirst(m: Metadata, call: Call, role: Role, k: Place, env: Env)
    requires Coherent(m) && First(m) <= k && !env.healthy
    ensures First(m) <= NextPlace(m, call, role, k, env)
    ensures var (before, after) := (PositionsAt(m, k).worker, PositionsAt(m, NextPlace(m, call, role, k, env)).worker);
      after.Some? && after.value.running ==> before == after
  {
    hide NamesDistinct;
    OneLink(m, call, role, k, env);
  }
}
