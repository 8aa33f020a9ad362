/** Many monitors keep their entries in one status object. Each reads the object, changes its own entry
    and writes the whole object back; the API server refuses a write whose version is not the current
    one, and the monitor starts over. */
module StatusProtocol {
  import opened Options
  import opened FilterTable
  import opened VfControl

  datatype Entry = Entry(name: string, state: string, clients: seq<Mac>)

  datatype Status = Status(version: nat, entries: seq<Entry>)

  // ----- one entry -----

  /** The entry a reader finds for a name: the first one. */
  function Find(entries: seq<Entry>, name: string): Option<Entry> {
    if entries == [] then None
    else if entries[0].name == name then Some(entries[0])
    else Find(entries[1..], name)
  }

  ghost predicate DistinctNames(entries: seq<Entry>) {
    forall i, j :: 0 <= i < j < |entries| ==> entries[i].name != entries[j].name
  }

  /** Overwrites the first entry of that name, or appends one. */
  function Upsert(entries: seq<Entry>, e: Entry): seq<Entry> {
    if entries == [] then [e]
    else if entries[0].name == e.name then [e] + entries[1..]
    else [entries[0]] + Upsert(entries[1..], e)
  }

  lemma {:induction false} UpsertFind(entries: seq<Entry>, e: Entry, name: string)
    ensures Find(Upsert(entries, e), name) == if name == e.name then Some(e) else Find(entries, name)
  {
    if entries != [] {
      if entries[0].name == e.name {
        assert ([e] + entries[1..])[1..] == entries[1..];
      } else {
        UpsertFind(entries[1..], e, name);
        assert Upsert(entries, e)[1..] == Upsert(entries[1..], e);
      }
    }
  }

  /** Names stay distinct and every other entry stays where it is. */
  lemma {:induction false} UpsertNames(entries: seq<Entry>, e: Entry)
    ensures var r := Upsert(entries, e);
            && |entries| <= |r| <= |entries| + 1
            && (forall i :: 0 <= i < |entries| && entries[i].name != e.name ==> r[i] == entries[i])
            && (forall i :: 0 <= i < |entries| ==> r[i].name == entries[i].name)
            && (|r| == |entries| + 1 ==>
                  r[|entries|] == e && forall i :: 0 <= i < |entries| ==> entries[i].name != e.name)
            && (DistinctNames(entries) ==> DistinctNames(r))
  {
    if entries != [] && entries[0].name != e.name {
      UpsertNames(entries[1..], e);
    }
  }

  /** The read-modify part of a status update, on the entries just read. `order` is the order in which
      the authenticated addresses are visited. */
  method FillStatus(entries: seq<Entry>, name: string, state: string, addrs: set<Mac>, order: seq<Mac>)
    returns (r: seq<Entry>)
    requires IsOrder(order, addrs)
    ensures r == Upsert(entries, Entry(name, state, order))
  {
    var clients: seq<Mac> := [];
    for k := 0 to |order|
      invariant clients == order[..k]
    {
      clients := clients + [order[k]];
    }
    assert clients == order;
    for i := 0 to |entries|
      invariant forall k :: 0 <= k < i ==> entries[k].name != name
    {
      if entries[i].name == name {
        r := entries[i := Entry(name, state, clients)];
        UpsertAt(entries, Entry(name, state, clients), i);
        return;
      }
    }
    r := entries + [Entry(name, state, clients)];
    UpsertNone(entries, Entry(name, state, clients));
  }

  lemma {:induction false} UpsertAt(entries: seq<Entry>, e: Entry, i: nat)
    requires i < |entries| && entries[i].name == e.name && forall k :: 0 <= k < i ==> entries[k].name != e.name
    ensures Upsert(entries, e) == entries[i := e]
  {
    if i > 0 {
      UpsertAt(entries[1..], e, i - 1);
    }
  }

  lemma {:induction false} UpsertNone(entries: seq<Entry>, e: Entry)
    requires forall k :: 0 <= k < |entries| ==> entries[k].name != e.name
    ensures Upsert(entries, e) == entries + [e]
  {
    if entries != [] {
      UpsertNone(entries[1..], e);
    }
  }

  // ----- the protocol -----

  /** A monitor holds the copy it has read until it writes or gives up. Monitors are known by the name
      of their interface. */
  datatype World = World(obj: Status, held: map<string, Status>)

  datatype Event =
    | Read(name: string)
    | Write(name: string, state: string, clients: seq<Mac>)
    | GiveUp(name: string)     // a read or write failed for another reason than a conflict
    | OtherEdit                // somebody changes another part of the object

  /** The server accepts a write based on the current version only. */
  predicate Accepted(w: World, e: Event) {
    e.Write? && e.name in w.held && w.held[e.name].version == w.obj.version
  }

  function Step(w: World, e: Event): World {
    match e
    case Read(name) => w.(held := w.held[name := w.obj])
    case Write(name, state, clients) =>
      if Accepted(w, e)
      then World(Status(w.obj.version + 1, Upsert(w.held[name].entries, Entry(name, state, clients))), w.held - {name})
      else w.(held := w.held - {name})
    case GiveUp(name) => w.(held := w.held - {name})
    case OtherEdit => w.(obj := w.obj.(version := w.obj.version + 1))
  }

  ghost predicate Run(ws: seq<World>, es: seq<Event>) {
    && |ws| == |es| + 1
    && ws[0].held == map[]
    && forall i :: 0 <= i < |es| ==> ws[i + 1] == Step(ws[i], es[i])
  }

  /** A copy of the current version is a copy of the current object. */
  ghost predicate Consistent(w: World) {
    forall name :: name in w.held ==>
      w.held[name].version <= w.obj.version && (w.held[name].version == w.obj.version ==> w.held[name] == w.obj)
  }

  lemma {:induction false} AlwaysConsistent(ws: seq<World>, es: seq<Event>, n: nat)
    requires Run(ws, es) && n < |ws|
    ensures Consistent(ws[n])
  {
    if n > 0 {
      AlwaysConsistent(ws, es, n - 1);
    }
  }

  /** The monitor of `name` writes successfully at step `i`. */
  ghost predicate Wrote(ws: seq<World>, es: seq<Event>, i: nat, name: string) {
    i < |es| && i < |ws| && Accepted(ws[i], es[i]) && es[i].name == name
  }

  /** A step changes the entry of `name` exactly if it is an accepted write of that monitor. */
  lemma {:induction false} StepEntry(w: World, e: Event, name: string)
    requires Consistent(w)
    ensures Consistent(Step(w, e))
    ensures Find(Step(w, e).obj.entries, name) ==
            if Accepted(w, e) && e.name == name then Some(Entry(name, e.state, e.clients))
            else Find(w.obj.entries, name)
  {
    if Accepted(w, e) {
      UpsertFind(w.obj.entries, Entry(e.name, e.state, e.clients), name);
    }
  }

  /** No update is lost: in every interleaving of any number of monitors, with conflicts, retries and
      failures, the entry of an interface is the one its own monitor last wrote successfully ... */
  lemma {:induction false} EntryIsLastWrite(ws: seq<World>, es: seq<Event>, i: nat, n: nat, name: string)
    requires Run(ws, es) && i < n < |ws| && Wrote(ws, es, i, name)
    requires forall j :: i < j < n ==> !Wrote(ws, es, j, name)
    ensures Find(ws[n].obj.entries, name) == Some(Entry(name, es[i].state, es[i].clients))
  {
    AlwaysConsistent(ws, es, n - 1);
    StepEntry(ws[n - 1], es[n - 1], name);
    if i < n - 1 {
      EntryIsLastWrite(ws, es, i, n - 1, name);
      assert !Wrote(ws, es, n - 1, name);
    }
  }

  /** ... and an entry whose monitor has not written is still the initial one, so no monitor ever
      changes another's entry. */
  lemma {:induction false} EntryUntouched(ws: seq<World>, es: seq<Event>, n: nat, name: string)
    requires Run(ws, es) && n < |ws|
    requires forall j :: 0 <= j < n ==> !Wrote(ws, es, j, name)
    ensures Find(ws[n].obj.entries, name) == Find(ws[0].obj.entries, name)
  {
    if n > 0 {
      EntryUntouched(ws, es, n - 1, name);
      assert !Wrote(ws, es, n - 1, name);
      AlwaysConsistent(ws, es, n - 1);
      StepEntry(ws[n - 1], es[n - 1], name);
    }
  }

  /** If names were distinct at the start they always are, and no entry ever moves or disappears. */
  lemma {:induction false} NamesStay(ws: seq<World>, es: seq<Event>, n: nat)
    requires Run(ws, es) && n < |ws|
    ensures DistinctNames(ws[0].obj.entries) ==> DistinctNames(ws[n].obj.entries)
    ensures |ws[0].obj.entries| <= |ws[n].obj.entries|
    ensures forall i :: 0 <= i < |ws[0].obj.entries| ==> ws[n].obj.entries[i].name == ws[0].obj.entries[i].name
  {
    if n > 0 {
      NamesStay(ws, es, n - 1);
      AlwaysConsistent(ws, es, n - 1);
      var w, e := ws[n - 1], es[n - 1];
      if Accepted(w, e) {
        UpsertNames(w.obj.entries, Entry(e.name, e.state, e.clients));
      }
    }
  }

  /** The version orders the writes: an accepted write has seen every write accepted before it, for
      nothing was accepted between its read and the write itself. */
  lemma {:induction false} AcceptedReadIsCurrent(ws: seq<World>, es: seq<Event>, i: nat, n: nat, name: string)
    requires Run(ws, es) && i < n < |es| && es[i] == Read(name) && Wrote(ws, es, n, name)
    requires forall j :: i < j < n ==> es[j].OtherEdit? || es[j].name != name
    ensures forall j, other :: i < j < n ==> !Wrote(ws, es, j, other)
    ensures forall j :: i <= j <= n ==> ws[j].obj == ws[i].obj
  {
    HeldSince(ws, es, i, n, name);
    forall j | i <= j <= n ensures ws[j].obj == ws[i].obj {
      VersionsGrow(ws, es, i, j);
      VersionsGrow(ws, es, j, n);
    }
    forall j, other | i < j < n ensures !Wrote(ws, es, j, other) {
      assert ws[j + 1].obj == ws[j].obj;
    }
  }

  /** A step that gives the object a new version. */
  ghost predicate Changes(ws: seq<World>, es: seq<Event>, j: nat) {
    j < |es| && j < |ws| && (es[j].OtherEdit? || Accepted(ws[j], es[j]))
  }

  lemma {:induction false} VersionKept(ws: seq<World>, es: seq<Event>, i: nat, n: nat)
    requires Run(ws, es) && i <= n < |ws|
    ensures ws[n].obj.version == ws[i].obj.version <==> forall j :: i <= j < n ==> !Changes(ws, es, j)
    ensures ws[i].obj.version <= ws[n].obj.version
    decreases n
  {
    if i < n {
      VersionKept(ws, es, i, n - 1);
      assert ws[n].obj.version == ws[n - 1].obj.version + if Changes(ws, es, n - 1) then 1 else 0;
    }
  }

  /** A write is accepted exactly if nobody has changed the object since the monitor read it. */
  lemma {:induction false} AcceptedExactly(ws: seq<World>, es: seq<Event>, i: nat, n: nat, name: string)
    requires Run(ws, es) && i < n < |es| && es[i] == Read(name) && es[n].Write? && es[n].name == name
    requires forall j :: i < j < n ==> es[j].OtherEdit? || es[j].name != name
    ensures Accepted(ws[n], es[n]) <==> forall j :: i < j < n ==> !Changes(ws, es, j)
  {
    HeldSince(ws, es, i, n, name);
    VersionKept(ws, es, i + 1, n);
  }

  lemma {:induction false} HeldSince(ws: seq<World>, es: seq<Event>, i: nat, n: nat, name: string)
    requires Run(ws, es) && i < n < |ws| && es[i] == Read(name)
    requires forall j :: i < j < n ==> es[j].OtherEdit? || es[j].name != name
    ensures name in ws[n].held && ws[n].held[name] == ws[i].obj
  {
    if i + 1 < n {
      HeldSince(ws, es, i, n - 1, name);
    }
  }

  lemma {:induction false} VersionsGrow(ws: seq<World>, es: seq<Event>, i: nat, n: nat)
    requires Run(ws, es) && i <= n < |ws|
    ensures ws[i].obj.version <= ws[n].obj.version
    ensures ws[i].obj.version == ws[n].obj.version ==> ws[i].obj == ws[n].obj
    decreases n
  {
    if i < n {
      VersionsGrow(ws, es, i, n - 1);
    }
  }
}
