/**
 Replacing a configuration file and the running configuration made from it. What is on disk and what
 runs are two domains; a staged transaction holds the way back for both while either is changed.
*/
module Caddy {
  import opened Basics
  import opened Containers

  datatype Failure = InvalidInput | Conflict | Unsafe | Recovery | StorageFailure | CommandFailure | Invalid | Unread

  datatype Metadata = Metadata(
    operationID: string, binding: string, previousFile: string, candidateFile: string,
    previousRuntime: string, candidateRuntime: string, reference: string)

  /** Library behaviour: digests, the configuration check, and what the server makes of a file. */
  datatype Library = Library(
    digest: Bytes -> string, valid: Bytes -> bool, adapt: Bytes -> Bytes, bindable: Bytes -> bool,
    reference: Metadata -> string, binding: string)

  datatype Prepared = Prepared(metadata: Metadata, previous: Bytes, candidate: Bytes)

  /** The metadata file as it is found: cut short, or complete. */
  datatype MetadataFile = CutShort | Complete(metadata: Metadata)

  datatype Directory = Directory(metadata: Option<MetadataFile>, previous: Option<Bytes>, candidate: Option<Bytes>)

  datatype World = World(
    target: Bytes, temporary: Option<Bytes>, runtime: Bytes, staged: Option<Directory>, staging: Option<Directory>)

  datatype Seen = Absent | IsPrevious | IsCandidate | IsOther

  /** The candidate is tried first. */
  function Classify(observed: string, previous: string, candidate: string): Seen {
    if observed == candidate then IsCandidate else if observed == previous then IsPrevious else IsOther
  }

  predicate ValidMetadata(lib: Library, m: Metadata) {
    m.reference == lib.reference(m.(reference := "")) && m.binding == lib.binding
  }

  function Load(lib: Library, d: Directory, operationID: string): Result<Prepared, Failure> {
    if d.metadata.None? || d.previous.None? || d.candidate.None? then Err(Unsafe)
    else if d.metadata.value.CutShort? then Err(Unsafe)
    else
      var m := d.metadata.value.metadata;
      if !ValidMetadata(lib, m) || m.operationID != operationID then Err(Unsafe)
      else if !lib.valid(d.previous.value) || !lib.valid(d.candidate.value)
              || lib.digest(d.previous.value) != m.previousFile || lib.digest(d.candidate.value) != m.candidateFile then Err(Unsafe)
      else Ok(Prepared(m, d.previous.value, d.candidate.value))
  }

  /** Preflight: both configurations are usable, and the server runs what the file says. */
  function Preflight(lib: Library, w: World, operationID: string, candidate: Bytes, expected: string): Result<Prepared, Failure> {
    if !lib.valid(candidate) then Err(InvalidInput)
    else if lib.digest(candidate) != expected then Err(Conflict)
    else if !lib.valid(w.target) then Err(InvalidInput)
    else if !lib.bindable(w.target) then Err(Conflict)
    else if !lib.bindable(candidate) then Err(Invalid)
    else if lib.digest(w.runtime) != lib.digest(lib.adapt(w.target)) then Err(Conflict)
    else
      var m := Metadata(operationID, lib.binding, lib.digest(w.target), lib.digest(candidate),
                        lib.digest(lib.adapt(w.target)), lib.digest(lib.adapt(candidate)), "");
      Ok(Prepared(m.(reference := lib.reference(m)), w.target, candidate))
  }

  /** What preflight makes sure of. */
  predicate Proper(lib: Library, p: Prepared) {
    && ValidMetadata(lib, p.metadata) && lib.valid(p.previous) && lib.valid(p.candidate)
    && lib.digest(p.previous) == p.metadata.previousFile && lib.digest(p.candidate) == p.metadata.candidateFile
    && lib.digest(lib.adapt(p.previous)) == p.metadata.previousRuntime
    && lib.digest(lib.adapt(p.candidate)) == p.metadata.candidateRuntime
  }

  function FullDirectory(p: Prepared): Directory {
    Directory(Some(Complete(p.metadata)), Some(p.previous), Some(p.candidate))
  }

  function Prefix(value: Bytes, n: nat): Bytes {
    if n < |value| then value[..n] else value
  }

  // ---------------------------------------------------------------- shapes of the world

  /**
   Where the transaction directory stands: not there; under its temporary name, complete or not;
   in place; or in place with a removal begun and not finished.
  */
  datatype Phase = Bare | Building(whole: bool) | Ready | Remains

  /** `installed`: the target holds the candidate. `active`: the server runs the candidate. */
  datatype Shape = Shape(phase: Phase, installed: bool, temporary: Option<Bytes>, active: bool)

  const BASELINE := Shape(Bare, false, None, false)

  predicate PhaseIs(lib: Library, p: Prepared, w: World, phase: Phase) {
    match phase
    case Bare => w.staged.None? && w.staging.None?
    case Building(whole) =>
      && w.staged.None? && w.staging.Some?
      && (if whole then w.staging.value == FullDirectory(p) else Load(lib, w.staging.value, p.metadata.operationID).Err?)
    case Ready => w.staged == Some(FullDirectory(p)) && w.staging.None?
    case Remains =>
      w.staged.Some? && Load(lib, w.staged.value, p.metadata.operationID) == Err(Unsafe) && w.staging.None?
  }

  predicate Stands(lib: Library, p: Prepared, w: World, s: Shape) {
    && PhaseIs(lib, p, w, s.phase)
    && w.target == (if s.installed then p.candidate else p.previous)
    && w.temporary == s.temporary
    && lib.digest(w.runtime) == (if s.active then p.metadata.candidateRuntime else p.metadata.previousRuntime)
  }

  predicate SameFile(p: Prepared) { p.metadata.previousFile == p.metadata.candidateFile }

  predicate SameRuntime(p: Prepared) { p.metadata.previousRuntime == p.metadata.candidateRuntime }

  /**
   Off the baseline, in either domain or with a temporary file left over, the transaction is in
   place. Where a digest does not tell the two apart, the domain is never changed.
  */
  predicate Safe(p: Prepared, s: Shape) {
    && (s.installed || s.active || s.temporary.Some? ==> s.phase == Ready)
    && (SameFile(p) ==> !s.installed) && (SameRuntime(p) ==> !s.active)
  }

  // ---------------------------------------------------------------- calls and their faults

  /** Replacing the target: stopped before, while writing the temporary file, or after the rename. */
  datatype Replacing = Replaced | NotCreated | TornAt(n: nat) | Unconfirmed

  /** Building the directory: stopped in one of its files (0, 1, 2), with all files (3), or after the rename. */
  datatype Staging = Completed | NotBegun | StoppedIn(file: nat, n: nat) | StageUnconfirmed

  /** Removing a directory: stopped with some files left, or after the removal. */
  datatype Purging = Purged | Kept(metadata: bool, previous: bool, candidate: bool) | PurgeUnconfirmed

  /** The read of the running configuration before, the reload, and the read after it. */
  datatype Reloading = Reloading(before: bool, outcome: Outcome, after: bool)

  const SMOOTH := Reloading(true, Succeeded, true)

  datatype Call =
    | Stage(sameIdentity: bool, staging: Staging)
    | ReconcileStage(rename: Outcome)
    | RollbackStage(purge: Purging, read: bool)
    | Install(replacing: Replacing)
    | Restore(removal: Outcome, replacing: Replacing)
    | Activate(reload: Reloading)
    | Reactivate(reload: Reloading)

  /** A call's effect and its answer. */
  datatype Did = Did(shape: Shape, error: Option<Failure>)

  function Looks(changed: bool, same: bool): Seen {
    if changed || same then IsCandidate else IsPrevious
  }

  function ErrorIf(failed: bool, error: Failure): Option<Failure> {
    if failed then Some(error) else None
  }

  function StageShape(s: Shape, staging: Staging): Shape {
    match staging
    case NotBegun => s
    case StoppedIn(file, _) => s.(phase := Building(file >= 3))
    case _ => s.(phase := Ready)
  }

  function PurgeShape(s: Shape, purge: Purging): Shape {
    match purge
    case Kept(metadata, previous, candidate) =>
      if metadata && previous && candidate then s
      else if s.phase.Building? then s.(phase := Building(false)) else s.(phase := Remains)
    case _ => s.(phase := Bare)
  }

  function ReplaceShape(s: Shape, value: Bytes, installs: bool, how: Replacing): Shape {
    match how
    case NotCreated => s
    case TornAt(n) => s.(temporary := Some(Prefix(value, n)))
    case _ => s.(installed := installs)
  }

  /** The answer of a call that needs the transaction in place when it is not. */
  function NotReady(s: Shape): Did {
    Did(s, Some(if s.phase == Remains then Unsafe else Recovery))
  }

  function ActivateShape(p: Prepared, s: Shape, desired: bool, reload: Reloading): Did {
    var wanted := if desired then IsCandidate else IsPrevious;
    if s.phase != Ready then NotReady(s)
    else if !reload.before then Did(s, Some(Unread))
    else if Looks(s.installed, SameFile(p)) != wanted then Did(s, Some(Recovery))
    else if Looks(s.active, SameRuntime(p)) == wanted then Did(s, None)
    else Did(if reload.outcome == FailedBefore then s else s.(active := desired),
             if reload.outcome != Succeeded then Some(CommandFailure) else ErrorIf(!reload.after, Unread))
  }

  function Does(p: Prepared, s: Shape, call: Call): Did {
    match call
    case Stage(sameIdentity, staging) =>
      (match s.phase
       case Ready => Did(s, ErrorIf(staging == StageUnconfirmed, StorageFailure))
       case Remains => Did(s, Some(Unsafe))
       case Building(_) => Did(s, Some(if sameIdentity then Recovery else Conflict))
       case Bare =>
         if !sameIdentity then Did(s, Some(Conflict))
         else Did(StageShape(s, staging), ErrorIf(staging != Completed, StorageFailure)))
    case ReconcileStage(rename) =>
      (match s.phase
       case Ready => Did(s, ErrorIf(rename != Succeeded, StorageFailure))
       case Remains => Did(s, Some(Unsafe))
       case Building(whole) =>
         if !whole then Did(s, Some(Recovery))
         else Did(if rename == FailedBefore then s else s.(phase := Ready), ErrorIf(rename != Succeeded, StorageFailure))
       case Bare => Did(s, None))
    case RollbackStage(purge, read) =>
      (match s.phase
       case Ready =>
         if !read then Did(s, Some(Unread))
         else if s.installed || s.active || s.temporary.Some? then Did(s, Some(Recovery))
         else Did(PurgeShape(s, purge), ErrorIf(purge != Purged, StorageFailure))
       case Remains => Did(s, Some(Unsafe))
       case Building(_) => Did(PurgeShape(s, purge), ErrorIf(purge != Purged, StorageFailure))
       case Bare => Did(s, None))
    case Install(how) =>
      if s.phase != Ready then NotReady(s)
      else if s.temporary.Some? then Did(s, Some(Recovery))
      else if Looks(s.installed, SameFile(p)) == IsCandidate then Did(s, None)
      else Did(ReplaceShape(s, p.candidate, true, how), ErrorIf(how != Replaced, StorageFailure))
    case Restore(removal, how) =>
      if s.phase != Ready then NotReady(s)
      else if s.temporary.Some? && removal == FailedBefore then Did(s, Some(StorageFailure))
      else if s.temporary.Some? && removal == FailedAfter then Did(s.(temporary := None), Some(StorageFailure))
      else
        var clean := s.(temporary := None);
        if Looks(s.installed, SameFile(p)) == IsPrevious then Did(clean, None)
        else Did(ReplaceShape(clean, p.previous, false, how), ErrorIf(how != Replaced, StorageFailure))
    case Activate(reload) => ActivateShape(p, s, true, reload)
    case Reactivate(reload) => ActivateShape(p, s, false, reload)
  }

  /** From every safe shape, the call does to the world what `Does` says. */
  ghost predicate Keeps(lib: Library, p: Prepared, call: Call, before: World, error: Option<Failure>, after: World) {
    forall s | Stands(lib, p, before, s) && Safe(p, s) ::
      Stands(lib, p, after, Does(p, s, call).shape) && error == Does(p, s, call).error
  }

  datatype Desired = DesiredCandidate | DesiredPrevious

  predicate Verifies(p: Prepared, s: Shape, desired: Desired) {
    var wanted := if desired == DesiredCandidate then IsCandidate else IsPrevious;
    s.phase == Ready && s.temporary.None? && Looks(s.installed, SameFile(p)) == wanted && Looks(s.active, SameRuntime(p)) == wanted
  }

  lemma FullLoads(lib: Library, p: Prepared)
    requires Proper(lib, p)
    ensures Load(lib, FullDirectory(p), p.metadata.operationID) == Ok(p)
  {
  }

  /** In a safe shape, each domain is seen as what the shape says, unless its digests coincide. */
  lemma SeenAs(lib: Library, p: Prepared, w: World, s: Shape)
    requires Proper(lib, p) && Stands(lib, p, w, s) && Safe(p, s)
    ensures Classify(lib.digest(w.target), p.metadata.previousFile, p.metadata.candidateFile) == Looks(s.installed, SameFile(p))
    ensures Classify(lib.digest(w.runtime), p.metadata.previousRuntime, p.metadata.candidateRuntime) == Looks(s.active, SameRuntime(p))
  {
    hide Load, ValidMetadata;
  }

  /** A directory loads exactly when it is a complete one, for this operation and binding, with usable files of the recorded digests. */
  lemma LoadExactly(lib: Library, d: Directory, operationID: string, p: Prepared)
    ensures Load(lib, d, operationID) == Ok(p) <==>
      && d == FullDirectory(p) && p.metadata.operationID == operationID && p.metadata.binding == lib.binding
      && p.metadata.reference == lib.reference(p.metadata.(reference := ""))
      && lib.valid(p.previous) && lib.valid(p.candidate)
      && lib.digest(p.previous) == p.metadata.previousFile && lib.digest(p.candidate) == p.metadata.candidateFile
    ensures Load(lib, d, operationID).Err? ==> Load(lib, d, operationID).error == Unsafe
  {
  }

  class Adapter {
    const lib: Library
    const operationID: string
    var target: Bytes
    var temporary: Option<Bytes>
    var runtime: Bytes
    var staged: Option<Directory>
    var staging: Option<Directory>

    constructor (lib: Library, operationID: string, w: World)
      ensures this.lib == lib && this.operationID == operationID && Now() == w
    {
      this.lib := lib;
      this.operationID := operationID;
      target, temporary, runtime, staged, staging := w.target, w.temporary, w.runtime, w.staged, w.staging;
    }

    function Now(): World
      reads this
    {
      World(target, temporary, runtime, staged, staging)
    }

    /** The committed transaction: None when there is no directory. */
    method LoadTransaction() returns (r: Option<Result<Prepared, Failure>>)
      ensures r == if staged.None? then None else Some(Load(lib, staged.value, operationID))
    {
      if staged.None? { r := None; } else { r := Some(Load(lib, staged.value, operationID)); }
    }

    /** Write the whole value to the temporary file, then rename it over the target. */
    method ReplaceTarget(value: Bytes, how: Replacing) returns (error: Option<Failure>)
      modifies this`target, this`temporary
      ensures old(temporary).Some? ==> error == Some(Recovery) && Now() == old(Now())
      ensures old(temporary).None? ==> error == ErrorIf(how != Replaced, StorageFailure)
      ensures old(temporary).None? ==> Now() == match how
                case NotCreated => old(Now())
                case TornAt(n) => old(Now()).(temporary := Some(Prefix(value, n)))
                case _ => old(Now()).(target := value)
    {
      if temporary.Some? { return Some(Recovery); }
      if how.NotCreated? { return Some(StorageFailure); }
      temporary := Some([]);
      if how.TornAt? {
        temporary := Some(Prefix(value, how.n));
        return Some(StorageFailure);
      }
      temporary := Some(value);
      target, temporary := temporary.value, None;
      if how.Unconfirmed? { return Some(StorageFailure); }
      if lib.digest(target) != lib.digest(value) { return Some(Recovery); }
      error := None;
    }

    /** What stopping in one of the files leaves of the directory. */
    function Built(prepared: Prepared, file: nat, n: nat): Directory {
      if file == 0 then Directory(None, Some(Prefix(prepared.previous, n)), None)
      else if file == 1 then Directory(None, Some(prepared.previous), Some(Prefix(prepared.candidate, n)))
      else if file == 2 then Directory(Some(CutShort), Some(prepared.previous), Some(prepared.candidate))
      else FullDirectory(prepared)
    }

    method StageTransaction(prepared: Prepared, sameIdentity: bool, how: Staging) returns (error: Option<Failure>)
      requires prepared.metadata.operationID == operationID && Proper(lib, prepared)
      modifies this`staged, this`staging
      ensures Keeps(lib, prepared, Stage(sameIdentity, how), old(Now()), error, Now())
      ensures old(staged).None? && old(staging).Some? ==>
                Now() == old(Now()) && error == Some(if sameIdentity && target == prepared.previous then Recovery else Conflict)
      ensures old(staged).Some? && Load(lib, old(staged).value, operationID).Err? ==>
                Now() == old(Now()) && error == Some(Load(lib, old(staged).value, operationID).error)
      ensures forall other | Proper(lib, other) && other.metadata.operationID == operationID && other != prepared
                && old(staged) == Some(FullDirectory(other)) :: error == Some(Conflict) && Now() == old(Now())
    {
      FullLoads(lib, prepared);
      var existing := LoadTransaction();
      if existing.Some? {
        if existing.value.Err? { return Some(existing.value.error); }
        if existing.value.value != prepared { return Some(Conflict); }
        if how == StageUnconfirmed { return Some(StorageFailure); }
        return None;
      }
      if !sameIdentity || target != prepared.previous { return Some(Conflict); }
      if staging.Some? { return Some(Recovery); }
      if how == NotBegun { return Some(StorageFailure); }
      if how.StoppedIn? {
        staging := Some(Built(prepared, how.file, how.n));
        return Some(StorageFailure);
      }
      staging := Some(FullDirectory(prepared));
      staged, staging := staging, None;
      if how == StageUnconfirmed { return Some(StorageFailure); }
      error := None;
    }

    method Reconcile(ghost p: Prepared, rename: Outcome) returns (error: Option<Failure>)
      requires p.metadata.operationID == operationID && Proper(lib, p)
      modifies this`staged, this`staging
      ensures Keeps(lib, p, ReconcileStage(rename), old(Now()), error, Now())
    {
      FullLoads(lib, p);
      var existing := LoadTransaction();
      if existing.Some? {
        if existing.value.Err? { return Some(existing.value.error); }
        if rename != Succeeded { return Some(StorageFailure); }
        return None;
      }
      if staging.None? { return None; }
      if Load(lib, staging.value, operationID).Err? { return Some(Recovery); }
      if rename == FailedBefore { return Some(StorageFailure); }
      staged, staging := staging, None;
      if rename == FailedAfter { return Some(StorageFailure); }
      error := None;
    }

    function Remaining(d: Directory, kept: Purging): Directory
      requires kept.Kept?
    {
      Directory(if kept.metadata then d.metadata else None, if kept.previous then d.previous else None,
                if kept.candidate then d.candidate else None)
    }

    method RemoveStaging(purge: Purging) returns (error: Option<Failure>)
      requires staging.Some?
      modifies this`staging
      ensures staging == if purge.Kept? then Some(Remaining(old(staging).value, purge)) else None
      ensures error == ErrorIf(purge != Purged, StorageFailure)
    {
      if purge.Kept? {
        staging := Some(Remaining(staging.value, purge));
        return Some(StorageFailure);
      }
      staging := None;
      if purge == PurgeUnconfirmed { return Some(StorageFailure); }
      error := None;
    }

    method RemoveStaged(purge: Purging) returns (error: Option<Failure>)
      requires staged.Some?
      modifies this`staged
      ensures staged == if purge.Kept? then Some(Remaining(old(staged).value, purge)) else None
      ensures error == ErrorIf(purge != Purged, StorageFailure)
    {
      if purge.Kept? {
        staged := Some(Remaining(staged.value, purge));
        return Some(StorageFailure);
      }
      staged := None;
      if purge == PurgeUnconfirmed { return Some(StorageFailure); }
      error := None;
    }

    method Rollback(ghost p: Prepared, purge: Purging, read: bool) returns (error: Option<Failure>)
      requires p.metadata.operationID == operationID && Proper(lib, p)
      modifies this`staged, this`staging
      ensures Keeps(lib, p, RollbackStage(purge, read), old(Now()), error, Now())
    {
      FullLoads(lib, p);
      var existing := LoadTransaction();
      if existing.Some? {
        if existing.value.Err? { return Some(existing.value.error); }
        var m := existing.value.value.metadata;
        if !read { return Some(Unread); }
        if lib.digest(target) != m.previousFile || lib.digest(runtime) != m.previousRuntime { return Some(Recovery); }
        if temporary.Some? { return Some(Recovery); }
        error := RemoveStaged(purge);
        return;
      }
      if staging.None? { return None; }
      error := RemoveStaging(purge);
    }

    method InstallCandidate(ghost p: Prepared, how: Replacing) returns (error: Option<Failure>)
      requires p.metadata.operationID == operationID && Proper(lib, p)
      modifies this`target, this`temporary
      ensures Keeps(lib, p, Install(how), old(Now()), error, Now())
    {
      hide Load, Proper, Classify, SameFile, SameRuntime;
      FullLoads(lib, p);
      forall s | Stands(lib, p, Now(), s) && Safe(p, s)
        ensures Classify(lib.digest(target), p.metadata.previousFile, p.metadata.candidateFile) == Looks(s.installed, SameFile(p))
        ensures Classify(lib.digest(runtime), p.metadata.previousRuntime, p.metadata.candidateRuntime) == Looks(s.active, SameRuntime(p))
      { SeenAs(lib, p, Now(), s); }
      var existing := LoadTransaction();
      if existing.None? { return Some(Recovery); }
      if existing.value.Err? { return Some(existing.value.error); }
      var t := existing.value.value;
      if temporary.Some? { return Some(Recovery); }
      match Classify(lib.digest(target), t.metadata.previousFile, t.metadata.candidateFile) {
        case IsCandidate => error := None;
        case IsPrevious => error := ReplaceTarget(t.candidate, how);
        case _ => error := Some(Recovery);
      }
    }

    method RestorePrevious(ghost p: Prepared, removal: Outcome, how: Replacing) returns (error: Option<Failure>)
      requires p.metadata.operationID == operationID && Proper(lib, p)
      modifies this`target, this`temporary
      ensures Keeps(lib, p, Restore(removal, how), old(Now()), error, Now())
    {
      hide Load, Proper, Classify, SameFile, SameRuntime;
      FullLoads(lib, p);
      forall s | Stands(lib, p, Now(), s) && Safe(p, s)
        ensures Classify(lib.digest(target), p.metadata.previousFile, p.metadata.candidateFile) == Looks(s.installed, SameFile(p))
        ensures Classify(lib.digest(runtime), p.metadata.previousRuntime, p.metadata.candidateRuntime) == Looks(s.active, SameRuntime(p))
      { SeenAs(lib, p, Now(), s); }
      var existing := LoadTransaction();
      if existing.None? { return Some(Recovery); }
      if existing.value.Err? { return Some(existing.value.error); }
      var t := existing.value.value;
      if temporary.Some? {
        if removal == FailedBefore { return Some(StorageFailure); }
        temporary := None;
        if removal == FailedAfter { return Some(StorageFailure); }
      }
      match Classify(lib.digest(target), t.metadata.previousFile, t.metadata.candidateFile) {
        case IsPrevious => error := None;
        case IsCandidate => error := ReplaceTarget(t.previous, how);
        case _ => error := Some(Recovery);
      }
    }

    method ActivateConfiguration(ghost p: Prepared, desired: bool, reload: Reloading) returns (error: Option<Failure>)
      requires p.metadata.operationID == operationID && Proper(lib, p)
      modifies this`runtime
      ensures Keeps(lib, p, if desired then Activate(reload) else Reactivate(reload), old(Now()), error, Now())
    {
      hide Load, Classify, SameFile, SameRuntime;
      FullLoads(lib, p);
      forall s | Stands(lib, p, Now(), s) && Safe(p, s)
        ensures Classify(lib.digest(target), p.metadata.previousFile, p.metadata.candidateFile) == Looks(s.installed, SameFile(p))
        ensures Classify(lib.digest(runtime), p.metadata.previousRuntime, p.metadata.candidateRuntime) == Looks(s.active, SameRuntime(p))
      { SeenAs(lib, p, Now(), s); }
      var existing := LoadTransaction();
      if existing.None? { return Some(Recovery); }
      if existing.value.Err? { return Some(existing.value.error); }
      var t := existing.value.value;
      var file := Classify(lib.digest(target), t.metadata.previousFile, t.metadata.candidateFile);
      if !reload.before { return Some(Unread); }
      var running := Classify(lib.digest(runtime), t.metadata.previousRuntime, t.metadata.candidateRuntime);
      var wanted := if desired then IsCandidate else IsPrevious;
      var allowed := if desired then IsPrevious else IsCandidate;
      var expected := if desired then t.metadata.candidateRuntime else t.metadata.previousRuntime;
      if file != wanted { return Some(Recovery); }
      if running == wanted { return None; }
      if running != allowed { return Some(Recovery); }
      if reload.outcome != FailedBefore { runtime := lib.adapt(if desired then t.candidate else t.previous); }
      if reload.outcome != Succeeded { return Some(CommandFailure); }
      if !reload.after { return Some(Unread); }
      if lib.digest(runtime) != expected { return Some(Recovery); }
      error := None;
    }

    /** Verification succeeds exactly where `Verifies` says. */
    method Verify(ghost p: Prepared, desired: Desired, read: bool) returns (error: Option<Failure>)
      requires p.metadata.operationID == operationID && Proper(lib, p)
      ensures forall s | Stands(lib, p, Now(), s) && Safe(p, s) :: (error.None? <==> read && Verifies(p, s, desired))
    {
      FullLoads(lib, p);
      var existing := LoadTransaction();
      if existing.None? { return Some(Conflict); }
      if existing.value.Err? { return Some(existing.value.error); }
      var m := existing.value.value.metadata;
      var file := Classify(lib.digest(target), m.previousFile, m.candidateFile);
      if !read { return Some(Unread); }
      var running := Classify(lib.digest(runtime), m.previousRuntime, m.candidateRuntime);
      var wanted := if desired == DesiredCandidate then IsCandidate else IsPrevious;
      if file != wanted || temporary.Some? || running != wanted { return Some(Conflict); }
      error := None;
    }

    method Perform(p: Prepared, call: Call) returns (error: Option<Failure>)
      requires p.metadata.operationID == operationID && Proper(lib, p)
      modifies this
      ensures Keeps(lib, p, call, old(Now()), error, Now())
    {
      hide Keeps, Proper;
      match call {
        case Stage(sameIdentity, staging) => error := StageTransaction(p, sameIdentity, staging);
        case ReconcileStage(rename) => error := Reconcile(p, rename);
        case RollbackStage(purge, read) => error := Rollback(p, purge, read);
        case Install(how) => error := InstallCandidate(p, how);
        case Restore(removal, how) => error := RestorePrevious(p, removal, how);
        case Activate(reload) => error := ActivateConfiguration(p, true, reload);
        case Reactivate(reload) => error := ActivateConfiguration(p, false, reload);
      }
    }

    /** Any calls in any order, each possibly interrupted. */
    method PerformAll(p: Prepared, calls: seq<Call>) returns (answers: seq<Option<Failure>>)
      requires p.metadata.operationID == operationID && Proper(lib, p)
      modifies this
      ensures forall s | Stands(lib, p, old(Now()), s) && Safe(p, s) ::
        Stands(lib, p, Now(), After(p, s, calls)) && answers == AnswersTo(p, s, calls)
    {
      hide Does, Stands, Safe, Proper;
      answers := [];
      for i := 0 to |calls|
        invariant forall s | Stands(lib, p, old(Now()), s) && Safe(p, s) ::
          Stands(lib, p, Now(), After(p, s, calls[..i])) && Safe(p, After(p, s, calls[..i]))
          && answers == AnswersTo(p, s, calls[..i])
      {
        var error := Perform(p, calls[i]);
        assert calls[..i + 1][..i] == calls[..i];
        answers := answers + [error];
        forall s | Stands(lib, p, old(Now()), s) && Safe(p, s) ensures Safe(p, After(p, s, calls[..i + 1])) {
          StaysSafe(p, After(p, s, calls[..i]), calls[i]);
        }
      }
      assert calls[..|calls|] == calls;
    }
  }

  // ---------------------------------------------------------------- whole runs

  function After(p: Prepared, s: Shape, calls: seq<Call>): Shape {
    if calls == [] then s else Does(p, After(p, s, calls[..|calls| - 1]), calls[|calls| - 1]).shape
  }

  function AnswersTo(p: Prepared, s: Shape, calls: seq<Call>): seq<Option<Failure>> {
    if calls == [] then [] else
    var front, last := calls[..|calls| - 1], calls[|calls| - 1];
    AnswersTo(p, s, front) + [Does(p, After(p, s, front), last).error]
  }

  lemma StaysSafe(p: Prepared, s: Shape, call: Call)
    requires Safe(p, s)
    ensures Safe(p, Does(p, s, call).shape)
  {
  }

  lemma {:induction false} RunsStaySafe(p: Prepared, s: Shape, calls: seq<Call>)
    requires Safe(p, s)
    ensures Safe(p, After(p, s, calls))
  {
    hide Does, Safe;
    if calls != [] {
      RunsStaySafe(p, s, calls[..|calls| - 1]);
      StaysSafe(p, After(p, s, calls[..|calls| - 1]), calls[|calls| - 1]);
    }
  }

  lemma PreflightStarts(lib: Library, w: World, operationID: string, candidate: Bytes, expected: string)
    requires Preflight(lib, w, operationID, candidate, expected).Ok?
    requires w.temporary.None? && w.staged.None? && w.staging.None?
    ensures var p := Preflight(lib, w, operationID, candidate, expected).value;
      Proper(lib, p) && p.metadata.operationID == operationID && Stands(lib, p, w, BASELINE) && Safe(p, BASELINE)
  {
    var p := Preflight(lib, w, operationID, candidate, expected).value;
    assert p.metadata.(reference := "") == Metadata(operationID, lib.binding, lib.digest(w.target), lib.digest(candidate),
      lib.digest(lib.adapt(w.target)), lib.digest(lib.adapt(candidate)), "");
  }

  lemma AfterTwo(p: Prepared, s: Shape, a: Call, b: Call)
    ensures After(p, s, [a, b]) == Does(p, Does(p, s, a).shape, b).shape
  {
    hide Does;
    assert [a, b][..1] == [a] && [a][..0] == [];
    assert After(p, s, [a]) == Does(p, s, a).shape;
  }

  const RECOVERY: seq<Call> := [Restore(Succeeded, Replaced), Reactivate(SMOOTH)]

  /**
   Recovery: with the transaction in place and both pairs of digests distinct, restoring and then
   reactivating leads from every safe shape to the one where the previous state verifies.
  */
  lemma RecoveryReturns(p: Prepared, s: Shape)
    requires Safe(p, s) && s.phase == Ready && !SameFile(p) && !SameRuntime(p)
    ensures After(p, s, RECOVERY) == Shape(Ready, false, None, false)
    ensures Verifies(p, After(p, s, RECOVERY), DesiredPrevious)
    ensures Does(p, After(p, s, RECOVERY), RollbackStage(Purged, true)) == Did(BASELINE, None)
  {
    AfterTwo(p, s, RECOVERY[0], RECOVERY[1]);
  }

  /** The previous state can be seen as such exactly when the two domains tell it from the candidate. */
  lemma PreviousVerifiesExactly(p: Prepared, s: Shape)
    requires Safe(p, s)
    ensures Verifies(p, s, DesiredPrevious)
      <==> s.phase == Ready && s.temporary.None? && !s.installed && !s.active && !SameFile(p) && !SameRuntime(p)
    ensures SameFile(p) || SameRuntime(p) ==> !Verifies(p, s, DesiredPrevious)
  {
  }

  /** When the digests coincide, "previous" is never reported. */
  lemma CandidateFirst(previous: string, candidate: string)
    ensures (exists observed :: Classify(observed, previous, candidate) == IsPrevious) <==> previous != candidate
  {
    assert Classify(previous, previous, candidate) == if previous == candidate then IsCandidate else IsPrevious;
  }

  /** Preflight accepts a candidate that is the configuration in place; its digests then coincide. */
  lemma EqualIsAccepted(lib: Library, w: World, operationID: string)
    requires lib.valid(w.target) && lib.bindable(w.target) && lib.digest(w.runtime) == lib.digest(lib.adapt(w.target))
    ensures var r := Preflight(lib, w, operationID, w.target, lib.digest(w.target));
      r.Ok? && SameFile(r.value) && SameRuntime(r.value)
  {
  }

  // ---------------------------------------------------------------- interrupted removals

  lemma {:induction false} RemainsForever(p: Prepared, s: Shape, calls: seq<Call>)
    requires s.phase == Remains
    ensures After(p, s, calls) == s
  {
    if calls != [] { RemainsForever(p, s, calls[..|calls| - 1]); }
  }

  /** A removal in place that is stopped with a file gone is reached from preflight in two calls. */
  lemma RemainsHappens(p: Prepared)
    ensures After(p, BASELINE, [Stage(true, Completed), RollbackStage(Kept(false, true, true), true)]).phase == Remains
  {
    AfterTwo(p, BASELINE, Stage(true, Completed), RollbackStage(Kept(false, true, true), true));
  }

  lemma AfterOne(p: Prepared, s: Shape, call: Call)
    ensures After(p, s, [call]) == Does(p, s, call).shape
  {
    hide Does;
    assert [call][..0] == [];
  }

  /** An interrupted removal of the transaction in place can be finished exactly when no file is gone yet. */
  lemma RemovalResumesExactly(p: Prepared, s: Shape, metadata: bool, previous: bool, candidate: bool)
    requires Safe(p, s) && s.phase == Ready && !s.installed && !s.active && s.temporary.None?
    ensures var stopped := Does(p, s, RollbackStage(Kept(metadata, previous, candidate), true)).shape;
      (exists calls :: After(p, stopped, calls).phase == Bare) <==> metadata && previous && candidate
  {
    var stopped := Does(p, s, RollbackStage(Kept(metadata, previous, candidate), true)).shape;
    if metadata && previous && candidate {
      AfterOne(p, stopped, RollbackStage(Purged, true));
      assert After(p, stopped, [RollbackStage(Purged, true)]).phase == Bare;
    } else {
      forall calls ensures After(p, stopped, calls).phase != Bare { RemainsForever(p, stopped, calls); }
    }
  }

  /**
   Under the temporary name every interrupted removal can be finished, and what is left can be
   promoted by the next reconciliation exactly when it was complete and no file is gone.
  */
  lemma TemporaryRemovalResumes(p: Prepared, s: Shape, metadata: bool, previous: bool, candidate: bool)
    requires s.phase.Building?
    ensures var stopped := Does(p, s, RollbackStage(Kept(metadata, previous, candidate), true)).shape;
      && After(p, stopped, [RollbackStage(Purged, true)]).phase == Bare
      && (After(p, stopped, [ReconcileStage(Succeeded)]).phase == Ready
          <==> s.phase.whole && metadata && previous && candidate)
  {
    var stopped := Does(p, s, RollbackStage(Kept(metadata, previous, candidate), true)).shape;
    AfterOne(p, stopped, RollbackStage(Purged, true));
    AfterOne(p, stopped, ReconcileStage(Succeeded));
  }

  /**
   A whole life: preflight, any calls, each possibly interrupted, then recovery. Only preflight
   refuses; the calls are answered as the shapes say and lead to `between`, where the target holds
   previous or candidate bytes. With distinct digests the previous bytes and runtime are back in the
   end; they verify exactly if the transaction was in place, and otherwise were never left.
  */
  method ChangeAndRecover(adapter: Adapter, candidate: Bytes, expected: string, calls: seq<Call>)
    returns (p: Result<Prepared, Failure>, answers: seq<Option<Failure>>, recovered: bool, ghost between: World)
    requires adapter.temporary.None? && adapter.staged.None? && adapter.staging.None?
    modifies adapter
    ensures p == Preflight(adapter.lib, old(adapter.Now()), adapter.operationID, candidate, expected)
    ensures p.Err? ==> adapter.Now() == old(adapter.Now())
    ensures p.Ok? ==>
      var reached := After(p.value, BASELINE, calls);
      && answers == AnswersTo(p.value, BASELINE, calls)
      && Stands(adapter.lib, p.value, between, reached) && Safe(p.value, reached)
      && Stands(adapter.lib, p.value, adapter.Now(), After(p.value, reached, RECOVERY))
    ensures p.Ok? && !SameFile(p.value) && !SameRuntime(p.value) ==>
              && adapter.target == old(adapter.target) && adapter.temporary.None?
              && adapter.lib.digest(adapter.runtime) == old(adapter.lib.digest(adapter.runtime))
              && (recovered <==> After(p.value, BASELINE, calls).phase == Ready)
  {
    hide Does, Preflight, Proper, PhaseIs, Load;
    recovered, answers, between := false, [], adapter.Now();
    p := Preflight(adapter.lib, adapter.Now(), adapter.operationID, candidate, expected);
    if p.Err? { return; }
    PreflightStarts(adapter.lib, adapter.Now(), adapter.operationID, candidate, expected);
    PreparedFrom(adapter.lib, adapter.Now(), adapter.operationID, candidate, expected);
    answers := adapter.PerformAll(p.value, calls);
    between := adapter.Now();
    ghost var reached := After(p.value, BASELINE, calls);
    RunsStaySafe(p.value, BASELINE, calls);
    var undone := adapter.PerformAll(p.value, RECOVERY);
    var error := adapter.Verify(p.value, DesiredPrevious, true);
    recovered := error.None?;
    RunsStaySafe(p.value, reached, RECOVERY);
    if !SameFile(p.value) && !SameRuntime(p.value) {
      if reached.phase == Ready { RecoveryReturns(p.value, reached); } else { RecoveryIdle(p.value, reached); }
    }
  }

  lemma PreparedFrom(lib: Library, w: World, operationID: string, candidate: Bytes, expected: string)
    requires Preflight(lib, w, operationID, candidate, expected).Ok?
    ensures Preflight(lib, w, operationID, candidate, expected).value.previous == w.target
    ensures Preflight(lib, w, operationID, candidate, expected).value.candidate == candidate
    ensures Preflight(lib, w, operationID, candidate, expected).value.metadata.previousFile == lib.digest(w.target)
    ensures Preflight(lib, w, operationID, candidate, expected).value.metadata.candidateFile == lib.digest(candidate)
    ensures Preflight(lib, w, operationID, candidate, expected).value.metadata.candidateRuntime == lib.digest(lib.adapt(candidate))
    ensures Preflight(lib, w, operationID, candidate, expected).value.metadata.previousRuntime == lib.digest(w.runtime)
  {
  }

  /** Without the transaction in place, recovery changes nothing: the baseline was never left. */
  lemma RecoveryIdle(p: Prepared, s: Shape)
    requires Safe(p, s) && s.phase != Ready
    ensures After(p, s, RECOVERY) == s && s == Shape(s.phase, false, None, false)
  {
    AfterTwo(p, s, RECOVERY[0], RECOVERY[1]);
  }

  // ---------------------------------------------------------------- in the caller's terms

  /** Preflight refuses exactly an unusable or unexpected candidate, an unusable target, or a server that runs something else. */
  lemma PreflightRefuses(lib: Library, w: World, operationID: string, candidate: Bytes, expected: string)
    ensures Preflight(lib, w, operationID, candidate, expected).Err? <==>
      || !lib.valid(candidate) || !lib.bindable(candidate) || lib.digest(candidate) != expected
      || !lib.valid(w.target) || !lib.bindable(w.target) || lib.digest(w.runtime) != lib.digest(lib.adapt(w.target))
  {
  }

  const CHANGE: seq<Call> := [Stage(true, Completed), Install(Replaced), Activate(SMOOTH)]

  lemma ChangeArrives(p: Prepared)
    ensures After(p, BASELINE, CHANGE) == Shape(Ready, !SameFile(p), None, !SameRuntime(p))
    ensures Verifies(p, After(p, BASELINE, CHANGE), DesiredCandidate)
  {
    assert CHANGE[..2] == [CHANGE[0], CHANGE[1]];
    AfterTwo(p, BASELINE, CHANGE[0], CHANGE[1]);
  }

  /**
   A change without trouble: unless refused, it verifies, the target holds the requested bytes, or had
   bytes of the same digest before, and the server runs something with the digest of what they adapt to.
  */
  method Change(adapter: Adapter, candidate: Bytes, expected: string) returns (refused: bool, verified: bool)
    requires adapter.temporary.None? && adapter.staged.None? && adapter.staging.None?
    modifies adapter
    ensures refused <==> old(Preflight(adapter.lib, adapter.Now(), adapter.operationID, candidate, expected)).Err?
    ensures refused ==> adapter.Now() == old(adapter.Now())
    ensures !refused ==>
      && verified && adapter.temporary.None?
      && adapter.target == (if adapter.lib.digest(old(adapter.target)) == adapter.lib.digest(candidate)
                            then old(adapter.target) else candidate)
      && adapter.lib.digest(adapter.runtime) == adapter.lib.digest(adapter.lib.adapt(candidate))
  {
    hide Does, Preflight, Proper, PhaseIs, Load, After;
    var p := Preflight(adapter.lib, adapter.Now(), adapter.operationID, candidate, expected);
    if p.Err? { return true, false; }
    PreflightStarts(adapter.lib, adapter.Now(), adapter.operationID, candidate, expected);
    PreparedFrom(adapter.lib, adapter.Now(), adapter.operationID, candidate, expected);
    var answers := adapter.PerformAll(p.value, CHANGE);
    ChangeArrives(p.value);
    RunsStaySafe(p.value, BASELINE, CHANGE);
    var error := adapter.Verify(p.value, DesiredCandidate, true);
    refused, verified := false, error.None?;
  }
}
