/** What every run of an interface monitor keeps. */
module MonitorSafety {
  import opened FilterTable
  import opened VfControl
  import opened MonitorSteps

  // ----- control state: nothing assumed about failures or outside edits -----

  /** A prefix of the visiting order consists of requests that have all timed out. */
  predicate AllExpired(reqs: map<Mac, int>, now: int, order: seq<Mac>) {
    forall k :: 0 <= k < |order| && order[k] in reqs ==> Expired(now, reqs[order[k]])
  }

  /** The addresses a scan removes: those before the first request that has not timed out. */
  function Removed(reqs: map<Mac, int>, now: int, order: seq<Mac>): set<Mac> {
    set k | 0 <= k < |order| && order[k] in reqs && AllExpired(reqs, now, order[..k + 1]) :: order[k]
  }

  ghost predicate Without(before: Records, gone: set<Mac>, after: Records) {
    after.addrs == before.addrs - gone && after.reqs == before.reqs - gone && after.oper == before.oper
  }

  lemma {:induction false} VisitRecords(rec: Records, r: Outcome, gone: set<Mac>, now: int, mac: Mac,
                                        vfOrder: seq<int>, fails: set<Call>)
    requires Control(r.s.rec) && Without(rec, gone, r.s.rec)
    ensures var v := ScanVisit(r, now, mac, vfOrder, fails);
            var expired := mac in rec.reqs ==> Expired(now, rec.reqs[mac]);
            && Control(v.s.rec)
            && Without(rec, if r.ok && expired && mac in rec.reqs then gone + {mac} else gone, v.s.rec)
            && (mac !in gone ==> (v.ok <==> r.ok && expired))
            && (mac in gone ==> v.ok == r.ok)
  {
  }

  /** What a scan does to the records, exactly and for every visiting order. */
  lemma {:induction false} ScanRecords(s: State, now: int, order: seq<Mac>, vfOrder: seq<int>, fails: set<Call>)
    requires Control(s.rec)
    ensures var r := ScanStep(s, now, order, vfOrder, fails);
            && Control(r.s.rec)
            && Without(s.rec, Removed(s.rec.reqs, now, order), r.s.rec)
            && (r.ok <==> AllExpired(s.rec.reqs, now, order))
  {
    if order == [] {
      assert Removed(s.rec.reqs, now, order) == {};
    } else {
      var n := |order| - 1;
      ScanRecords(s, now, order[..n], vfOrder, fails);
      RemovedSnoc(s.rec.reqs, now, order);
      var r := ScanStep(s, now, order[..n], vfOrder, fails);
      VisitRecords(s.rec, r, Removed(s.rec.reqs, now, order[..n]), now, order[n], vfOrder, fails);
    }
  }

  lemma {:induction false} RemovedSnoc(reqs: map<Mac, int>, now: int, order: seq<Mac>)
    requires order != []
    ensures var n := |order| - 1;
            var head := Removed(reqs, now, order[..n]);
            && Removed(reqs, now, order) ==
               (if order[n] in reqs && AllExpired(reqs, now, order) then head + {order[n]} else head)
            && (AllExpired(reqs, now, order) <==>
                AllExpired(reqs, now, order[..n]) && (order[n] in reqs ==> Expired(now, reqs[order[n]])))
            && (order[n] in head ==> order[n] in reqs && Expired(now, reqs[order[n]]))
  {
    var n := |order| - 1;
    assert order[..n + 1] == order;
    assert forall k :: 0 <= k < n ==> order[..n][..k + 1] == order[..k + 1] && order[..n][k] == order[k];
  }

  /** A visited address is removed exactly when it and all addresses before it have timed out. */
  lemma {:induction false} RemovedAt(reqs: map<Mac, int>, now: int, order: seq<Mac>, j: nat)
    requires IsOrder(order, reqs.Keys) && j < |order|
    ensures order[j] in reqs
    ensures order[j] in Removed(reqs, now, order) <==>
            forall i :: 0 <= i <= j ==> order[i] in reqs && Expired(now, reqs[order[i]])
  {
  }

  /** `gone` holds timed-out addresses only, and all addresses if all have timed out. */
  ghost predicate ExpiredOnly(reqs: map<Mac, int>, now: int, gone: set<Mac>) {
    && (forall mac :: mac in gone ==> mac in reqs && Expired(now, reqs[mac]))
    && ((forall mac :: mac in reqs ==> Expired(now, reqs[mac])) ==> gone == reqs.Keys)
  }

  lemma {:induction false} RemovedBounds(reqs: map<Mac, int>, now: int, order: seq<Mac>)
    requires IsOrder(order, reqs.Keys)
    ensures ExpiredOnly(reqs, now, Removed(reqs, now, order))
  {
    forall mac | mac in order
      ensures mac in reqs
      ensures mac in Removed(reqs, now, order) ==> Expired(now, reqs[mac])
      ensures (forall m :: m in reqs ==> Expired(now, reqs[m])) ==> mac in Removed(reqs, now, order)
    {
      var j :| 0 <= j < |order| && order[j] == mac;
      RemovedAt(reqs, now, order, j);
      assert forall k :: 0 <= k < |order| ==> order[k] in order;
    }
    assert forall mac :: mac in Removed(reqs, now, order) ==> mac in order;
  }

  /** Despite the early stop a scan removes no request that has not timed out, none at all while the
      oldest has not, and all of them once the newest has. */
  ghost predicate RemovesExpired(before: Records, now: int, after: Records) {
    && (forall mac :: mac in before.reqs && mac !in after.reqs ==> Expired(now, before.reqs[mac]))
    && ((forall mac :: mac in before.reqs ==> !Expired(now, before.reqs[mac])) ==>
          after.reqs == before.reqs && after.addrs == before.addrs)
    && ((forall mac :: mac in before.reqs ==> Expired(now, before.reqs[mac])) ==>
          after.reqs == map[] && after.addrs == before.addrs - before.reqs.Keys)
  }

  lemma {:induction false} ExpiredRemovals(before: Records, now: int, gone: set<Mac>, after: Records)
    requires ExpiredOnly(before.reqs, now, gone) && Without(before, gone, after)
    ensures RemovesExpired(before, now, after)
  {
  }

  lemma {:induction false} ScanRemovals(s: State, now: int, order: seq<Mac>, vfOrder: seq<int>, fails: set<Call>)
    requires Control(s.rec) && IsOrder(order, s.rec.reqs.Keys)
    ensures RemovesExpired(s.rec, now, ScanStep(s, now, order, vfOrder, fails).s.rec)
  {
    ScanRecords(s, now, order, vfOrder, fails);
    RemovedBounds(s.rec.reqs, now, order);
    ExpiredRemovals(s.rec, now, Removed(s.rec.reqs, now, order), ScanStep(s, now, order, vfOrder, fails).s.rec);
  }

  /** No request that has timed out is visited after one that has not. */
  ghost predicate OldestFirst(reqs: map<Mac, int>, now: int, order: seq<Mac>) {
    forall i, j :: 0 <= i < j < |order| && order[i] in reqs && order[j] in reqs && Expired(now, reqs[order[j]]) ==>
                     Expired(now, reqs[order[i]])
  }

  ghost predicate RemovesAllExpired(before: Records, now: int, after: Records) {
    forall mac :: mac in before.reqs && Expired(now, before.reqs[mac]) ==> mac !in after.reqs
  }

  lemma {:induction false} RemovedComplete(reqs: map<Mac, int>, now: int, order: seq<Mac>)
    requires IsOrder(order, reqs.Keys)
    ensures (forall mac :: mac in reqs && Expired(now, reqs[mac]) ==> mac in Removed(reqs, now, order)) <==>
            OldestFirst(reqs, now, order)
  {
    if OldestFirst(reqs, now, order) {
      forall mac | mac in reqs && Expired(now, reqs[mac]) ensures mac in Removed(reqs, now, order) {
        assert mac in order;
        var j :| 0 <= j < |order| && order[j] == mac;
        RemovedAt(reqs, now, order, j);
        assert forall i :: 0 <= i <= j ==> order[i] in order;
      }
    }
    if forall mac :: mac in reqs && Expired(now, reqs[mac]) ==> mac in Removed(reqs, now, order) {
      forall i, j | 0 <= i < j < |order| && order[i] in reqs && order[j] in reqs && Expired(now, reqs[order[j]])
        ensures Expired(now, reqs[order[i]])
      {
        RemovedAt(reqs, now, order, j);
      }
    }
  }

  /** What the early stop gives up: a request that has timed out stays if one that has not is visited
      before it; so all timed-out requests go exactly when none of them is visited after such a one. */
  lemma {:induction false} ScanComplete(s: State, now: int, order: seq<Mac>, vfOrder: seq<int>, fails: set<Call>)
    requires Control(s.rec) && IsOrder(order, s.rec.reqs.Keys)
    ensures RemovesAllExpired(s.rec, now, ScanStep(s, now, order, vfOrder, fails).s.rec) <==>
            OldestFirst(s.rec.reqs, now, order)
  {
    ScanRecords(s, now, order, vfOrder, fails);
    RemovedComplete(s.rec.reqs, now, order);
  }

  /** The requests have all timed out, or none has. */
  ghost predicate SameAge(reqs: map<Mac, int>, now: int) {
    forall a, b :: a in reqs && b in reqs ==> (Expired(now, reqs[a]) <==> Expired(now, reqs[b]))
  }

  lemma {:induction false} AnOrder(keys: set<Mac>) returns (order: seq<Mac>)
    ensures IsOrder(order, keys)
  {
    order := [];
    if keys != {} {
      var x :| x in keys;
      var rest := AnOrder(keys - {x});
      order := [x] + rest;
    }
  }

  /** Whichever order the map happens to have, a scan removes all timed-out requests: this is certain exactly
      if there are no two requests of which one has timed out and the other has not. */
  lemma {:induction false} ScanCompleteInAnyOrder(s: State, now: int, vfOrder: seq<int>, fails: set<Call>)
    requires Control(s.rec)
    ensures (forall order :: IsOrder(order, s.rec.reqs.Keys) ==>
               RemovesAllExpired(s.rec, now, ScanStep(s, now, order, vfOrder, fails).s.rec)) <==>
            SameAge(s.rec.reqs, now)
  {
    var reqs := s.rec.reqs;
    if SameAge(reqs, now) {
      forall order | IsOrder(order, reqs.Keys)
        ensures RemovesAllExpired(s.rec, now, ScanStep(s, now, order, vfOrder, fails).s.rec)
      {
        ScanComplete(s, now, order, vfOrder, fails);
      }
    } else {
      var a, b :| a in reqs && b in reqs && Expired(now, reqs[a]) && !Expired(now, reqs[b]);
      var rest := AnOrder(reqs.Keys - {a, b});
      var order := [b, a] + rest;
      assert IsOrder(order, reqs.Keys) && order[0] == b && order[1] == a;
      ScanComplete(s, now, order, vfOrder, fails);
    }
  }

  lemma {:induction false} ConnectRecords(s: State, mac: Mac, vfOrder: seq<int>, fails: set<Call>)
    requires Control(s.rec)
    ensures var r := Step(s, Connect(mac, vfOrder, fails));
            && r.rec == Records(s.rec.addrs + {mac}, s.rec.reqs - {mac}, true, s.rec.oper)
            && r.port.saved == s.port.saved
  {
  }

  lemma {:induction false} OneMore(ss: seq<State>, es: seq<Event>, e: Event, s: State)
    requires Run(ss, es) && Enabled(ss[|es|], e) && s == Step(ss[|es|], e)
    ensures Run(ss + [s], es + [e])
  {
  }

  const STAMPED := Records({"a", "b"}, map["a" := 0, "b" := 1], true, Down)

  lemma {:induction false} StampTwo(port: Port)
    ensures Step(State(Records({"a", "b"}, map[], true, Unknown), port), LinkOper(Down, STAMPED.reqs)) ==
            State(STAMPED, port)
  {
  }

  /** Two addresses connect, the link goes down, and they are stamped one microsecond apart. */
  lemma {:induction false} TwoStamped(port: Port, vfOrder: seq<int>, fails: set<Call>)
    returns (ss: seq<State>, es: seq<Event>)
    requires IsOrder(vfOrder, port.saved.Keys)
    ensures Run(ss, es) && ss[0] == State(FRESH, port)
    ensures ss[|es|].rec == STAMPED && ss[|es|].port.saved == port.saved
  {
    var s0 := State(FRESH, port);
    var a, b := Connect("a", vfOrder, fails), Connect("b", vfOrder, fails);
    var down := LinkOper(Down, STAMPED.reqs);
    var s1 := Step(s0, a);
    ConnectRecords(s0, "a", vfOrder, fails);
    var s2 := Step(s1, b);
    ConnectRecords(s1, "b", vfOrder, fails);
    assert s2 == State(Records({"a", "b"}, map[], true, Unknown), s2.port);
    var s3 := State(STAMPED, s2.port);
    StampTwo(s2.port);
    OneMore([s0], [], a, s1);
    OneMore([s0, s1], [a], b, s2);
    OneMore([s0, s1, s2], [a, b], down, s3);
    ss, es := [s0, s1, s2, s3], [a, b, down];
  }

  /** Such requests do arise, and then a scan that visits the younger first misses the older although it has
      timed out. */
  lemma {:induction false} EarlyStopMisses(port: Port, vfOrder: seq<int>, fails: set<Call>)
    returns (ss: seq<State>, es: seq<Event>, n: nat)
    requires IsOrder(vfOrder, port.saved.Keys)
    ensures Run(ss, es) && ss[0] == State(FRESH, port) && n < |es| && es[n].Scan?
    ensures "a" in ss[n].rec.reqs && Expired(es[n].now, ss[n].rec.reqs["a"]) && "a" in ss[n + 1].rec.reqs
  {
    var head, events := TwoStamped(port, vfOrder, fails);
    var order := ["b", "a"];
    assert order[0] == "b" && order[1] == "a" && IsOrder(order, STAMPED.reqs.Keys);
    n := |events|;
    var scan := Scan(REQUEST_TIMEOUT, order, vfOrder, fails);
    ScanComplete(head[n], REQUEST_TIMEOUT, order, vfOrder, fails);
    OneMore(head, events, scan, Step(head[n], scan));
    ss, es := head + [Step(head[n], scan)], events + [scan];
  }

  lemma {:induction false} StepControl(s: State, e: Event)
    requires Control(s.rec) && Enabled(s, e)
    ensures Control(Step(s, e).rec)
  {
    match e
    case Scan(now, order, vfOrder, fails) => ScanRecords(s, now, order, vfOrder, fails);
    case _ =>
  }

  /** In every state of every run, whatever fails and whatever others do to the VFs, the PF counts as
      authenticated exactly when some address is, and only authenticated addresses have requests. */
  lemma {:induction false} AlwaysControl(ss: seq<State>, es: seq<Event>, n: nat)
    requires Run(ss, es) && n < |ss| && ss[0].rec == FRESH
    ensures Control(ss[n].rec)
  {
    if n > 0 {
      AlwaysControl(ss, es, n - 1);
      StepControl(ss[n - 1], es[n - 1]);
    }
  }

  /** So going down leaves a request for exactly the authenticated addresses, and coming up leaves none
      although it only deletes the requests of authenticated addresses. Other new states are only recorded, and a
      state already recorded changes nothing. */
  lemma {:induction false} LinkChanges(s: State, oper: OperState, stamps: map<Mac, int>)
    requires Control(s.rec) && Enabled(s, LinkOper(oper, stamps))
    ensures Step(s, LinkOper(oper, stamps)).port == s.port
    ensures var r := Step(s, LinkOper(oper, stamps)).rec;
            if oper == s.rec.oper then r == s.rec
            else
              && r.oper == oper && r.addrs == s.rec.addrs && r.auth == s.rec.auth
              && (oper == Down ==> r.reqs.Keys == r.addrs && forall a :: a in r.addrs ==> r.reqs[a] == stamps[a])
              && (oper == Up ==> r.reqs == map[])
              && (oper != Down && oper != Up ==> r.reqs == s.rec.reqs)
  {
  }

  /** The devices of the port never change. */
  lemma {:induction false} ScanDevs(s: State, now: int, order: seq<Mac>, vfOrder: seq<int>, fails: set<Call>)
    ensures ScanStep(s, now, order, vfOrder, fails).s.port.devs == s.port.devs
  {
    if order != [] {
      ScanDevs(s, now, order[..|order| - 1], vfOrder, fails);
    }
  }

  lemma {:induction false} StepDevs(s: State, e: Event)
    ensures Step(s, e).port.devs == s.port.devs
  {
    if e.Scan? {
      ScanDevs(s, e.now, e.addrOrder, e.vfOrder, e.fails);
    }
  }
}
