/** What the status object says about the monitors. A monitor holds its mutex from before it reads the object
    until it has written it, retries included, and so takes no step in between. */
module StatusContents {
  import opened Options
  import opened FilterTable
  import opened VfControl
  import opened StatusProtocol
  import MonitorSteps

  /** The monitors by the name of their interface, those inside a status update, and the entry each of them has
      filled in after its latest read. */
  datatype System = System(
    world: World, monitors: map<string, MonitorSteps.State>, locked: set<string>, filled: map<string, Entry>)

  datatype Action =
    | Act(name: string, event: MonitorSteps.Event)
    | Lock(name: string)
    | Fetch(name: string, state: string, order: seq<Mac>)   // reads and fills in, visiting addresses in this order
    | Send(name: string)
    | Abandon(name: string)                                 // a read or write failed for another reason
    | Other                                                 // somebody changes another part of the object

  /** Nobody needs the mutex to set a VF's VLAN behind the monitor's back. */
  ghost predicate Enabled(x: System, a: Action) {
    match a
    case Act(name, event) =>
      && name in x.monitors && MonitorSteps.Enabled(x.monitors[name], event)
      && (event.OutsideVlan? || name !in x.locked)
    case Lock(name) => name in x.monitors && name !in x.locked
    case Fetch(name, _, order) => name in x.monitors && name in x.locked && IsOrder(order, x.monitors[name].rec.addrs)
    case Send(name) => name in x.locked && name in x.filled
    case Abandon(name) => name in x.locked
    case Other => true
  }

  function WriteOf(x: System, name: string): Event
    requires name in x.filled
  {
    Write(name, x.filled[name].state, x.filled[name].clients)
  }

  /** A conflict keeps the monitor locked: it starts over. */
  ghost function Next(x: System, a: Action): System
    requires Enabled(x, a)
  {
    match a
    case Act(name, event) => x.(monitors := x.monitors[name := MonitorSteps.Step(x.monitors[name], event)])
    case Lock(name) => x.(locked := x.locked + {name})
    case Fetch(name, state, order) =>
      x.(world := Step(x.world, Read(name)), filled := x.filled[name := Entry(name, state, order)])
    case Send(name) =>
      x.(world := Step(x.world, WriteOf(x, name)), filled := x.filled - {name},
         locked := if Accepted(x.world, WriteOf(x, name)) then x.locked - {name} else x.locked)
    case Abandon(name) =>
      x.(world := Step(x.world, GiveUp(name)), filled := x.filled - {name}, locked := x.locked - {name})
    case Other => x.(world := Step(x.world, OtherEdit))
  }

  ghost predicate Execution(xs: seq<System>, actions: seq<Action>) {
    && |xs| == |actions| + 1
    && xs[0].world.held == map[] && xs[0].locked == {} && xs[0].filled == map[]
    && forall i :: 0 <= i < |actions| ==> Enabled(xs[i], actions[i]) && xs[i + 1] == Next(xs[i], actions[i])
  }

  ghost predicate ListsExactly(x: System, name: string, e: Entry) {
    name in x.monitors && e.name == name && IsOrder(e.clients, x.monitors[name].rec.addrs)
  }

  /** What a monitor has filled in stays true until it is sent, for only locked monitors have filled in anything. */
  ghost predicate Sound(x: System) {
    && Consistent(x.world)
    && forall name :: name in x.filled ==> name in x.locked && ListsExactly(x, name, x.filled[name])
  }

  lemma {:induction false} NextSound(x: System, a: Action)
    requires Sound(x) && Enabled(x, a)
    ensures Sound(Next(x, a))
  {
  }

  lemma {:induction false} AlwaysSound(xs: seq<System>, actions: seq<Action>, n: nat)
    requires Execution(xs, actions) && n < |xs|
    ensures Sound(xs[n])
  {
    if n > 0 {
      AlwaysSound(xs, actions, n - 1);
      NextSound(xs[n - 1], actions[n - 1]);
    }
  }

  /** The monitor of `name` writes successfully at step `i`. */
  ghost predicate Publishes(xs: seq<System>, actions: seq<Action>, i: nat, name: string) {
    && i < |actions| && i < |xs| && actions[i] == Send(name) && name in xs[i].filled
    && Accepted(xs[i].world, WriteOf(xs[i], name))
  }

  lemma {:induction false} NextEntry(x: System, a: Action, name: string)
    requires Sound(x) && Enabled(x, a)
    ensures Find(Next(x, a).world.obj.entries, name) ==
            if a == Send(name) && Accepted(x.world, WriteOf(x, name)) then Some(x.filled[name])
            else Find(x.world.obj.entries, name)
  {
    match a
    case Fetch(other, _, _) => StepEntry(x.world, Read(other), name);
    case Send(other) => StepEntry(x.world, WriteOf(x, other), name);
    case Abandon(other) => StepEntry(x.world, GiveUp(other), name);
    case _ =>
  }

  /** In every interleaving of any number of monitors, what an interface's entry says was exactly true when it
      was last written: it lists each address then authenticated once, and no other. */
  lemma {:induction false} EntryWasExact(xs: seq<System>, actions: seq<Action>, i: nat, n: nat, name: string)
    requires Execution(xs, actions) && i < n < |xs| && Publishes(xs, actions, i, name)
    requires forall j :: i < j < n ==> !Publishes(xs, actions, j, name)
    ensures var e := Find(xs[n].world.obj.entries, name);
            e.Some? && ListsExactly(xs[i], name, e.value) && ListsExactly(xs[i + 1], name, e.value)
  {
    AlwaysSound(xs, actions, n - 1);
    NextEntry(xs[n - 1], actions[n - 1], name);
    if i < n - 1 {
      EntryWasExact(xs, actions, i, n - 1, name);
      assert !Publishes(xs, actions, n - 1, name);
    }
  }

  /** What a monitor has filled in is what it filled in after its latest read. */
  lemma {:induction false} FilledAt(xs: seq<System>, actions: seq<Action>, n: nat, name: string) returns (f: nat)
    requires Execution(xs, actions) && n < |xs| && name in xs[n].filled
    ensures f < n && actions[f].Fetch? && actions[f].name == name
    ensures xs[n].filled[name] == Entry(name, actions[f].state, actions[f].order)
    ensures forall j :: f < j < n ==> !(actions[j].Fetch? && actions[j].name == name)
  {
    var a := actions[n - 1];
    if a.Fetch? && a.name == name {
      f := n - 1;
    } else {
      f := FilledAt(xs, actions, n - 1, name);
    }
  }

  /** An entry carries the interface state, and the order of the addresses, of its monitor's latest read before the
      last successful write. */
  lemma {:induction false} EntryState(xs: seq<System>, actions: seq<Action>, i: nat, n: nat, name: string)
    returns (f: nat)
    requires Execution(xs, actions) && i < n < |xs| && Publishes(xs, actions, i, name)
    requires forall j :: i < j < n ==> !Publishes(xs, actions, j, name)
    ensures f < i && actions[f].Fetch? && actions[f].name == name
    ensures forall j :: f < j < i ==> !(actions[j].Fetch? && actions[j].name == name)
    ensures Find(xs[n].world.obj.entries, name) == Some(Entry(name, actions[f].state, actions[f].order))
  {
    AlwaysSound(xs, actions, n - 1);
    NextEntry(xs[n - 1], actions[n - 1], name);
    if i < n - 1 {
      assert !Publishes(xs, actions, n - 1, name);
      f := EntryState(xs, actions, i, n - 1, name);
    } else {
      f := FilledAt(xs, actions, i, name);
    }
  }

  /** A step of the monitor that may change who is authenticated. */
  ghost predicate MayChange(a: Action, name: string) {
    a.Act? && a.name == name && (a.event.Connect? || a.event.Disconnect? || a.event.Scan?)
  }

  lemma {:induction false} SameAddrs(xs: seq<System>, actions: seq<Action>, m: nat, n: nat, name: string)
    requires Execution(xs, actions) && m <= n < |xs| && name in xs[m].monitors
    requires forall j :: m <= j < n ==> !MayChange(actions[j], name)
    ensures name in xs[n].monitors && xs[n].monitors[name].rec.addrs == xs[m].monitors[name].rec.addrs
  {
    if m < n {
      SameAddrs(xs, actions, m, n - 1, name);
    }
  }

  /** So an entry is exactly true until its monitor next takes a connect, disconnect or scan step. */
  lemma {:induction false} EntryStaysExact(xs: seq<System>, actions: seq<Action>, i: nat, n: nat, name: string)
    requires Execution(xs, actions) && i < n < |xs| && Publishes(xs, actions, i, name)
    requires forall j :: i < j < n ==> !Publishes(xs, actions, j, name) && !MayChange(actions[j], name)
    ensures var e := Find(xs[n].world.obj.entries, name);
            e.Some? && ListsExactly(xs[n], name, e.value)
  {
    EntryWasExact(xs, actions, i, n, name);
    SameAddrs(xs, actions, i + 1, n, name);
  }
}
