/** The container engine, as far as the replacement adapters use it: a map from name to container. */
module Containers {
  import opened Basics

  /** Everything that identifies a managed container apart from its name and power. */
  type Spec = string

  datatype Container = Container(spec: Spec, running: bool)

  type World = map<string, Container>

  datatype Command =
    | Stop(name: string) | Start(name: string) | Rename(name: string, destination: string)
    | Create(name: string, spec: Spec) | Remove(name: string)

  /** A failed command may or may not have taken effect: the caller cannot tell. */
  datatype Outcome = Succeeded | FailedAfter | FailedBefore

  datatype Error = RecoveryRequired | Unhealthy | BindingConflict | ImageMismatch

  function Lookup(w: World, name: string): Option<Container> {
    if name in w then Some(w[name]) else None
  }

  predicate Allowed(w: World, c: Command) {
    match c
    case Stop(name) => name in w
    case Start(name) => name in w
    case Rename(name, destination) => name in w && destination !in w
    case Create(name, _) => name !in w
    case Remove(name) => name in w && !w[name].running
  }

  function Apply(w: World, c: Command): World
    requires Allowed(w, c)
  {
    match c
    case Stop(name) => w[name := w[name].(running := false)]
    case Start(name) => w[name := w[name].(running := true)]
    case Rename(name, destination) => (w - {name})[destination := w[name]]
    case Create(name, spec) => w[name := Container(spec, false)]
    case Remove(name) => w - {name}
  }

  function Effect(w: World, c: Command, outcome: Outcome): World {
    if Allowed(w, c) && outcome != FailedBefore then Apply(w, c) else w
  }

  function Named(c: Command): set<string> {
    if c.Rename? then {c.name, c.destination} else {c.name}
  }

  /** A command changes nothing but what it names. */
  lemma OnlyNamed(w: World, c: Command, outcome: Outcome, names: set<string>)
    requires Named(c) <= names
    ensures Effect(w, c, outcome) - names == w - names
  {
  }

  /** Worlds with the same containers inside and outside of a set of names are equal. */
  lemma SameWorld(w: World, v: World, names: set<string>)
    requires w - names == v - names
    requires forall name | name in names :: Lookup(w, name) == Lookup(v, name)
    ensures w == v
  {
    forall name ensures Lookup(w, name) == Lookup(v, name) {
      if name !in names {
        assert name in w <==> name in w - names;
        assert name in v <==> name in v - names;
        if name in w { assert (w - names)[name] == (v - names)[name]; }
      }
    }
    forall name ensures name in w <==> name in v { assert Lookup(w, name) == Lookup(v, name); }
    forall name | name in w ensures w[name] == v[name] { assert Lookup(w, name) == Lookup(v, name); }
  }

  class Engine {
    var containers: World

    constructor (initial: World)
      ensures containers == initial
    {
      containers := initial;
    }

    method Inspect(name: string) returns (r: Option<Container>)
      ensures r == Lookup(containers, name)
    {
      if name in containers { r := Some(containers[name]); } else { r := None; }
    }

    /** An error stands for every way in which a command may not have succeeded. */
    method Run(c: Command, outcome: Outcome) returns (error: Option<Error>)
      modifies this`containers
      ensures containers == Effect(old(containers), c, outcome)
      ensures error == if old(Allowed(containers, c)) && outcome == Succeeded then None else Some(RecoveryRequired)
    {
      if !Allowed(containers, c) { return Some(RecoveryRequired); }
      if outcome != FailedBefore {
        match c {
          case Stop(name) => containers := containers[name := containers[name].(running := false)];
          case Start(name) => containers := containers[name := containers[name].(running := true)];
          case Rename(name, destination) =>
            var moved := containers[name];
            containers := containers - {name};
            containers := containers[destination := moved];
          case Create(name, spec) => containers := containers[name := Container(spec, false)];
          case Remove(name) => containers := containers - {name};
        }
      }
      if outcome == Succeeded { error := None; } else { error := Some(RecoveryRequired); }
    }
  }
}
