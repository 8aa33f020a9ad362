/** When a decision about an address takes effect on its packets, and when it does not. */
module TrafficEffect {
  import opened FilterTable
  import opened InterfaceInit
  import opened VfControl
  import opened MonitorSteps
  import opened MonitorSafety
  import opened PortSafety
  import opened TrafficSafety

  /** None of the calls made to set the filters of `mac`, and to reconfigure the VFs before where asked to, fails. */
  ghost predicate Unhindered(port: Port, reconfigure: bool, mac: Mac, fails: set<Call>) {
    && LookUpTc(mac) !in fails && LookUpDevs(mac) !in fails
    && (forall d :: d in port.devs ==> SetFilter(d, mac) !in fails)
    && (reconfigure ==> forall i :: i in port.saved ==> VfSucceeds(i, fails))
  }

  /** The command for device `d` is reached and succeeds: none fails up to one of its places in the list. */
  ghost predicate Reached(devs: seq<string>, d: string, mac: Mac, fails: set<Call>) {
    exists k :: 0 <= k < |devs| && ReachedAt(devs, k, d, mac, fails)
  }

  ghost predicate ReachedAt(devs: seq<string>, k: nat, d: string, mac: Mac, fails: set<Call>) {
    k < |devs| && devs[k] == d && forall j :: 0 <= j <= k ==> SetFilter(devs[j], mac) !in fails
  }

  lemma {:induction false} ReachedSnoc(devs: seq<string>, d: string, mac: Mac, fails: set<Call>)
    requires devs != []
    ensures var n := |devs| - 1;
            Reached(devs, d, mac, fails) <==>
            Reached(devs[..n], d, mac, fails) ||
            (devs[n] == d && forall x :: x in devs ==> SetFilter(x, mac) !in fails)
  {
    var n := |devs| - 1;
    forall k | 0 <= k < n
      ensures ReachedAt(devs[..n], k, d, mac, fails) <==> ReachedAt(devs, k, d, mac, fails)
    {
      assert forall j :: 0 <= j <= k ==> devs[..n][j] == devs[j];
    }
    if devs[n] == d && forall x :: x in devs ==> SetFilter(x, mac) !in fails {
      assert forall j :: 0 <= j <= n ==> devs[j] in devs;
      assert ReachedAt(devs, n, d, mac, fails);
    }
    if ReachedAt(devs, n, d, mac, fails) {
      forall x | x in devs ensures SetFilter(x, mac) !in fails {
        var j :| 0 <= j < |devs| && devs[j] == x;
      }
    }
  }

  /** Replacing the filters of an address is a success if no command fails ... */
  lemma {:induction false} ReplaceOnSucceeds(tables: map<string, Qdisc>, all: seq<string>, devs: seq<string>, mac: Mac,
                                             action: Action, fails: set<Call>)
    requires Controlled(tables, all) && forall x :: x in devs ==> x in all
    ensures ReplaceOn(tables, devs, mac, action, fails).ok <==> forall x :: x in devs ==> SetFilter(x, mac) !in fails
  {
    if devs != [] {
      var n := |devs| - 1;
      ReplaceOnSucceeds(tables, all, devs[..n], mac, action, fails);
      ReplaceOnVerdict(tables, all, devs[..n], mac, action, fails, Packet(mac, Other));
      assert devs == devs[..n] + [devs[n]];
    }
  }

  /** ... and otherwise goes on until one does. */
  lemma {:induction false} ReplaceOnReached(tables: map<string, Qdisc>, all: seq<string>, devs: seq<string>, mac: Mac,
                                            action: Action, fails: set<Call>, d: string, p: Packet)
    requires Controlled(tables, all) && (forall x :: x in devs ==> x in all) && d in all && p.src == mac
    ensures Passes(ReplaceOn(tables, devs, mac, action, fails).tables, d, p) <==>
            if Reached(devs, d, mac, fails) then action == Ok else Passes(tables, d, p)
  {
    if devs != [] {
      var n := |devs| - 1;
      assert devs == devs[..n] + [devs[n]];
      ReplaceOnReached(tables, all, devs[..n], mac, action, fails, d, p);
      ReplaceOnSucceeds(tables, all, devs, mac, action, fails);
      ReplaceOnVerdict(tables, all, devs[..n], mac, action, fails, p);
      ReachedSnoc(devs, d, mac, fails);
      ReplaceDevice(ReplaceOn(tables, devs[..n], mac, action, fails).tables, all, devs[n], mac, action, p);
    }
  }

  /** Device `d` gets its new filter for `mac`. */
  ghost predicate Gets(port: Port, reconfigure: bool, mac: Mac, fails: set<Call>, d: string) {
    && LookUpTc(mac) !in fails && LookUpDevs(mac) !in fails
    && (reconfigure ==> forall i :: i in port.saved ==> VfSucceeds(i, fails))
    && Reached(port.devs, d, mac, fails)
  }

  /** All devices do exactly if no call fails. */
  lemma {:induction false} AllGet(port: Port, reconfigure: bool, mac: Mac, fails: set<Call>)
    requires port.devs != []
    ensures (forall d :: d in port.devs ==> Gets(port, reconfigure, mac, fails, d)) <==>
            Unhindered(port, reconfigure, mac, fails)
  {
    var devs := port.devs;
    if forall d :: d in devs ==> Gets(port, reconfigure, mac, fails, d) {
      assert devs[0] in devs;
      forall d | d in devs ensures SetFilter(d, mac) !in fails {
        var k :| 0 <= k < |devs| && ReachedAt(devs, k, d, mac, fails);
      }
    }
    if Unhindered(port, reconfigure, mac, fails) {
      forall d | d in devs ensures Gets(port, reconfigure, mac, fails, d) {
        var k :| 0 <= k < |devs| && devs[k] == d;
        assert forall j :: 0 <= j <= k ==> devs[j] in devs;
        assert ReachedAt(devs, k, d, mac, fails);
      }
    }
  }

  lemma {:induction false} TrafficAtDevice(port: Port, reconfigure: bool, auth: bool, mac: Mac, action: Action,
                                           vfOrder: seq<int>, fails: set<Call>, d: string, p: Packet)
    requires Ready(port) && IsOrder(vfOrder, port.saved.Keys) && p.src == mac && d in port.devs
    ensures Passes(SetTraffic(port, reconfigure, auth, mac, action, vfOrder, fails).port.tables, d, p) <==>
            if Gets(port, reconfigure, mac, fails, d) then action == Ok else Passes(port.tables, d, p)
  {
    ConfigureVfsSucceeds(port.vf, auth, port.saved, vfOrder, fails);
    ReplaceOnReached(port.tables, port.devs, port.devs, mac, action, fails, d, p);
  }

  lemma {:induction false} TrafficSucceeds(port: Port, reconfigure: bool, auth: bool, mac: Mac, action: Action,
                                           vfOrder: seq<int>, fails: set<Call>)
    requires Ready(port) && IsOrder(vfOrder, port.saved.Keys)
    ensures SetTraffic(port, reconfigure, auth, mac, action, vfOrder, fails).ok <==>
            Unhindered(port, reconfigure, mac, fails)
  {
    ConfigureVfsSucceeds(port.vf, auth, port.saved, vfOrder, fails);
    ReplaceOnSucceeds(port.tables, port.devs, port.devs, mac, action, fails);
  }

  /** A connect or disconnect reports success exactly if none of the calls made for it fails. */
  lemma {:induction false} DecisionSucceeds(s: State, mac: Mac, vfOrder: seq<int>, fails: set<Call>)
    requires Ready(s.port) && IsOrder(vfOrder, s.port.saved.Keys)
    ensures ConnectStep(s, mac, vfOrder, fails).ok <==>
            Unhindered(s.port, |s.rec.addrs + {mac}| == 1, mac, fails)
    ensures DisconnectStep(s, mac, vfOrder, fails).ok <==>
            Unhindered(s.port, |s.rec.addrs - {mac}| == 0, mac, fails)
  {
    TrafficSucceeds(s.port, |s.rec.addrs + {mac}| == 1, true, mac, Ok, vfOrder, fails);
    TrafficSucceeds(s.port, |s.rec.addrs - {mac}| == 0, false, mac, Drop, vfOrder, fails);
  }

  // ----- devices of other ports -----

  ghost predicate SameTable(before: map<string, Qdisc>, after: map<string, Qdisc>, d: string) {
    (d in after <==> d in before) && (d in before ==> after[d] == before[d])
  }

  lemma {:induction false} ReplaceOnElsewhere(tables: map<string, Qdisc>, devs: seq<string>, mac: Mac, action: Action,
                                              fails: set<Call>, d: string)
    requires d !in devs
    ensures SameTable(tables, ReplaceOn(tables, devs, mac, action, fails).tables, d)
  {
    if devs != [] {
      ReplaceOnElsewhere(tables, devs[..|devs| - 1], mac, action, fails, d);
    }
  }

  lemma {:induction false} ScanElsewhere(s: State, now: int, order: seq<Mac>, vfOrder: seq<int>, fails: set<Call>,
                                         d: string)
    requires d !in s.port.devs
    ensures SameTable(s.port.tables, ScanStep(s, now, order, vfOrder, fails).s.port.tables, d)
  {
    if order != [] {
      var n := |order| - 1;
      ScanElsewhere(s, now, order[..n], vfOrder, fails, d);
      ScanDevs(s, now, order[..n], vfOrder, fails);
      var m := ScanStep(s, now, order[..n], vfOrder, fails).s;
      ReplaceOnElsewhere(m.port.tables, s.port.devs, order[n], Drop, fails, d);
    }
  }

  /** No step touches the filters of a device that is none of the port's. */
  lemma {:induction false} StepElsewhere(s: State, e: Event, d: string)
    requires d !in s.port.devs
    ensures SameTable(s.port.tables, Step(s, e).port.tables, d)
  {
    match e
    case Connect(mac, _, fails) => ReplaceOnElsewhere(s.port.tables, s.port.devs, mac, Ok, fails, d);
    case Disconnect(mac, _, fails) => ReplaceOnElsewhere(s.port.tables, s.port.devs, mac, Drop, fails, d);
    case Scan(now, order, vfOrder, fails) => ScanElsewhere(s, now, order, vfOrder, fails, d);
    case _ =>
  }

  // ----- expiries -----

  /** All addresses before a removed one are removed before it, and none behind it. */
  lemma {:induction false} RemovedBefore(reqs: map<Mac, int>, now: int, order: seq<Mac>, k: nat)
    requires IsOrder(order, reqs.Keys) && k < |order| && order[k] in Removed(reqs, now, order)
    ensures order[k] in reqs && Expired(now, reqs[order[k]]) && AllExpired(reqs, now, order[..k])
    ensures forall j :: k <= j < |order| ==> order[j] in reqs && order[j] !in Removed(reqs, now, order[..k])
    ensures k == |order| - 1 ==> Removed(reqs, now, order) == Removed(reqs, now, order[..k]) + {order[k]}
  {
    RemovedAt(reqs, now, order, k);
    assert forall j :: 0 <= j < |order| ==> order[j] in order;
    forall j | k <= j < |order| ensures order[j] !in Removed(reqs, now, order[..k]) {
      assert forall i :: 0 <= i < k ==> order[..k][i] == order[i] && order[i] != order[j];
    }
    if k == |order| - 1 {
      RemovedSnoc(reqs, now, order);
    }
  }

  /** So the address visited at place `k` is the last to go exactly if nobody stays and it is visited last. */
  lemma {:induction false} LastToGo(addrs: set<Mac>, head: set<Mac>, gone: set<Mac>, order: seq<Mac>, k: nat)
    requires k < |order| && forall i, j :: 0 <= i < j < |order| ==> order[i] != order[j]
    requires forall j :: k <= j < |order| ==> order[j] in addrs && order[j] !in head
    requires k == |order| - 1 ==> gone == head + {order[k]}
    ensures addrs - head - {order[k]} == {} <==> addrs - gone == {} && k == |order| - 1
  {
    if k < |order| - 1 {
      assert order[k + 1] in addrs - head - {order[k]};
    }
  }

  /** The records when the scan comes to place `k`, at which an address stands that it removes. */
  lemma {:induction false} BeforeVisit(s: State, now: int, order: seq<Mac>, vfOrder: seq<int>, fails: set<Call>, k: nat)
    requires Control(s.rec) && IsOrder(order, s.rec.reqs.Keys) && k < |order|
    requires Left(s, ScanStep(s, now, order, vfOrder, fails).s, order[k])
    ensures var m := ScanStep(s, now, order[..k], vfOrder, fails);
            && m.ok && Control(m.s.rec)
            && order[k] in m.s.rec.addrs && order[k] in m.s.rec.reqs && Expired(now, m.s.rec.reqs[order[k]])
            && (|m.s.rec.addrs - {order[k]}| == 0 <==>
                ScanStep(s, now, order, vfOrder, fails).s.rec.addrs == {} && k == |order| - 1)
  {
    var reqs := s.rec.reqs;
    ScanRecords(s, now, order, vfOrder, fails);
    ScanRecords(s, now, order[..k], vfOrder, fails);
    RemovedBefore(reqs, now, order, k);
    LastToGo(s.rec.addrs, Removed(reqs, now, order[..k]), Removed(reqs, now, order), order, k);
  }

  lemma {:induction false} VisitDeparted(r: Outcome, now: int, mac: Mac, vfOrder: seq<int>, fails: set<Call>, p: Packet)
    requires Control(r.s.rec) && Ready(r.s.port) && p.src !in r.s.rec.addrs
    ensures var v := ScanVisit(r, now, mac, vfOrder, fails).s;
            SameVerdict(r.s.port, v.port, p) && p.src !in v.rec.addrs
  {
    VisitVerdict(r, now, mac, vfOrder, fails, p);
  }

  /** Visits behind a departed address leave its packets alone. */
  lemma {:induction false} AfterVisit(s: State, now: int, order: seq<Mac>, vfOrder: seq<int>, fails: set<Call>, k: nat,
                                      p: Packet)
    requires Control(s.rec) && Ready(s.port) && k <= |order|
    requires p.src !in ScanStep(s, now, order[..k], vfOrder, fails).s.rec.addrs
    ensures SameVerdict(ScanStep(s, now, order[..k], vfOrder, fails).s.port,
                        ScanStep(s, now, order, vfOrder, fails).s.port, p)
    ensures p.src !in ScanStep(s, now, order, vfOrder, fails).s.rec.addrs
    decreases |order|
  {
    if k == |order| {
      assert order[..k] == order;
    } else {
      var n := |order| - 1;
      assert order[..n][..k] == order[..k];
      AfterVisit(s, now, order[..n], vfOrder, fails, k, p);
      ScanDevs(s, now, order[..k], vfOrder, fails);
      ScanVerdict(s, now, order[..n], vfOrder, fails, p);
      ScanRecords(s, now, order[..n], vfOrder, fails);
      VisitDeparted(ScanStep(s, now, order[..n], vfOrder, fails), now, order[n], vfOrder, fails, p);
    }
  }

  lemma {:induction false} AtVisit(r: Outcome, now: int, vfOrder: seq<int>, fails: set<Call>, d: string, p: Packet)
    requires r.ok && p.src in r.s.rec.reqs && Expired(now, r.s.rec.reqs[p.src])
    requires Ready(r.s.port) && IsOrder(vfOrder, r.s.port.saved.Keys) && d in r.s.port.devs
    ensures var v := ScanVisit(r, now, p.src, vfOrder, fails).s;
            && p.src !in v.rec.addrs
            && (Passes(v.port.tables, d, p) <==>
                if Gets(r.s.port, |r.s.rec.addrs - {p.src}| == 0, p.src, fails, d) then false
                else Passes(r.s.port.tables, d, p))
  {
    TrafficAtDevice(r.s.port, |r.s.rec.addrs - {p.src}| == 0, false, p.src, Drop, vfOrder, fails, d, p);
  }

  lemma {:induction false} ExpiryAtDevice(s: State, now: int, order: seq<Mac>, vfOrder: seq<int>, fails: set<Call>,
                                          k: nat, d: string, p: Packet)
    requires Control(s.rec) && IsOrder(order, s.rec.reqs.Keys) && k < |order| && order[k] == p.src
    requires Ready(s.port) && IsOrder(vfOrder, s.port.saved.Keys) && d in s.port.devs
    requires Left(s, ScanStep(s, now, order, vfOrder, fails).s, p.src)
    ensures var r := ScanStep(s, now, order, vfOrder, fails).s;
            Passes(r.port.tables, d, p) <==>
            if Gets(s.port, r.rec.addrs == {} && k == |order| - 1, p.src, fails, d) then false
            else Passes(s.port.tables, d, p)
  {
    var m := ScanStep(s, now, order[..k], vfOrder, fails);
    BeforeVisit(s, now, order, vfOrder, fails, k);
    ScanVerdict(s, now, order[..k], vfOrder, fails, p);
    ScanPort(s, now, order[..k], vfOrder, fails, false);
    AtVisit(m, now, vfOrder, fails, d, p);
    assert order[..k + 1][..k] == order[..k];
    assert ScanStep(s, now, order[..k + 1], vfOrder, fails) == ScanVisit(m, now, p.src, vfOrder, fails);
    ScanDevs(s, now, order[..k + 1], vfOrder, fails);
    AfterVisit(s, now, order, vfOrder, fails, k + 1, p);
  }

  lemma {:induction false} ExpiryTakesEffect(s: State, now: int, order: seq<Mac>, vfOrder: seq<int>, fails: set<Call>,
                                             k: nat, p: Packet)
    requires Control(s.rec) && IsOrder(order, s.rec.reqs.Keys) && k < |order| && order[k] == p.src
    requires Ready(s.port) && IsOrder(vfOrder, s.port.saved.Keys)
    requires Left(s, ScanStep(s, now, order, vfOrder, fails).s, p.src)
    requires s.port.devs != [] && Everywhere(s.port, p, true)
    ensures var r := ScanStep(s, now, order, vfOrder, fails).s;
            Everywhere(r.port, p, false) <==>
            Unhindered(s.port, r.rec.addrs == {} && k == |order| - 1, p.src, fails)
  {
    var r := ScanStep(s, now, order, vfOrder, fails).s;
    ScanDevs(s, now, order, vfOrder, fails);
    AllGet(s.port, r.rec.addrs == {} && k == |order| - 1, p.src, fails);
    forall d | d in s.port.devs
      ensures Passes(r.port.tables, d, p) <==>
              !Gets(s.port, r.rec.addrs == {} && k == |order| - 1, p.src, fails, d)
    {
      ExpiryAtDevice(s, now, order, vfOrder, fails, k, d, p);
    }
  }

  // ----- all decisions -----

  /** The step reconfigures all VFs in deciding about `mac`: of a scan that removes every address, this is so for
      the address visited last. */
  ghost predicate ReconfiguresFor(s: State, e: Event, mac: Mac) {
    Reconfigures(s, e) && (e.Scan? ==> e.addrOrder != [] && e.addrOrder[|e.addrOrder| - 1] == mac)
  }

  /** What a connect, disconnect or expiry does to the packets of its address on one device: they pass or are
      dropped there as decided if the device gets its new filter, and are treated as before otherwise. A device
      gets it exactly if the calls made before it for the address succeed. These include the VF calls if the VFs
      are reconfigured for it, for they come first and the filters are not set after one has failed. */
  lemma {:induction false} DecisionAtDevice(s: State, e: Event, d: string, p: Packet)
    requires Ready(s.port) && Enabled(s, e) && Decides(s, e, p.src) && (e.Scan? ==> Control(s.rec))
    requires d in s.port.devs
    ensures Passes(Step(s, e).port.tables, d, p) <==>
            if Gets(s.port, ReconfiguresFor(s, e, p.src), p.src, e.fails, d) then e.Connect?
            else Passes(s.port.tables, d, p)
  {
    match e
    case Connect(mac, vfOrder, fails) =>
      TrafficAtDevice(s.port, |s.rec.addrs + {mac}| == 1, true, mac, Ok, vfOrder, fails, d, p);
    case Disconnect(mac, vfOrder, fails) =>
      TrafficAtDevice(s.port, |s.rec.addrs - {mac}| == 0, false, mac, Drop, vfOrder, fails, d, p);
    case Scan(now, order, vfOrder, fails) =>
      var k := PlaceOf(s, now, order, vfOrder, fails, p.src);
      ExpiryAtDevice(s, now, order, vfOrder, fails, k, d, p);
    case _ =>
  }

  /** So connecting an address whose packets were dropped lets them pass everywhere, and disconnecting or expiring
      one whose packets passed drops them everywhere, exactly if none of the calls made for it fails. */
  lemma {:induction false} DecisionTakesEffect(s: State, e: Event, p: Packet)
    requires Ready(s.port) && Enabled(s, e) && Decides(s, e, p.src) && (e.Scan? ==> Control(s.rec))
    requires s.port.devs != [] && Everywhere(s.port, p, !e.Connect?)
    ensures Everywhere(Step(s, e).port, p, e.Connect?) <==>
            Unhindered(s.port, ReconfiguresFor(s, e, p.src), p.src, e.fails)
  {
    StepDevs(s, e);
    AllGet(s.port, ReconfiguresFor(s, e, p.src), p.src, e.fails);
    forall d | d in s.port.devs
      ensures Passes(Step(s, e).port.tables, d, p) == e.Connect? <==>
              Gets(s.port, ReconfiguresFor(s, e, p.src), p.src, e.fails, d)
    {
      DecisionAtDevice(s, e, d, p);
    }
  }

  /** A removed address stands at one place of the visiting order. */
  lemma {:induction false} PlaceOf(s: State, now: int, order: seq<Mac>, vfOrder: seq<int>, fails: set<Call>, mac: Mac)
    returns (k: nat)
    requires Control(s.rec) && IsOrder(order, s.rec.reqs.Keys)
    requires Left(s, ScanStep(s, now, order, vfOrder, fails).s, mac)
    ensures k < |order| && order[k] == mac
    ensures order[|order| - 1] == mac <==> k == |order| - 1
  {
    ScanRecords(s, now, order, vfOrder, fails);
    k :| 0 <= k < |order| && order[k] == mac;
  }

  /** All addresses have a request that has timed out, so a scan in any order leaves none. */
  ghost predicate AllDue(rec: Records, now: int) {
    rec.reqs.Keys == rec.addrs && forall mac :: mac in rec.reqs ==> Expired(now, rec.reqs[mac])
  }

  lemma {:induction false} EmptiesIffAllDue(s: State, now: int, order: seq<Mac>, vfOrder: seq<int>, fails: set<Call>)
    requires Control(s.rec) && IsOrder(order, s.rec.reqs.Keys)
    ensures ScanStep(s, now, order, vfOrder, fails).s.rec.addrs == {} <==> AllDue(s.rec, now)
  {
    ScanRecords(s, now, order, vfOrder, fails);
    RemovedBounds(s.rec.reqs, now, order);
    NoneLeft(s.rec, now, Removed(s.rec.reqs, now, order), ScanStep(s, now, order, vfOrder, fails).s.rec);
  }

  lemma {:induction false} NoneLeft(s: Records, now: int, gone: set<Mac>, r: Records)
    requires Control(s) && ExpiredOnly(s.reqs, now, gone) && Without(s, gone, r)
    ensures r.addrs == {} <==> AllDue(s, now)
  {
    if r.addrs == {} {
      forall mac | mac in s.addrs ensures mac in gone {
        assert mac !in r.addrs;
      }
    }
  }

  /** Whichever order the map happens to have, a scan that removes an address drops its packets everywhere: this is
      certain exactly if no lookup and no filter command for the address fails and, should all addresses be due,
      no VF call. */
  lemma {:induction false} ExpiryInAnyOrder(s: State, now: int, vfOrder: seq<int>, fails: set<Call>, p: Packet)
    requires Control(s.rec) && Ready(s.port) && IsOrder(vfOrder, s.port.saved.Keys)
    requires p.src in s.rec.reqs && Expired(now, s.rec.reqs[p.src])
    requires s.port.devs != [] && Everywhere(s.port, p, true)
    ensures (forall order :: IsOrder(order, s.rec.reqs.Keys) ==>
               var r := ScanStep(s, now, order, vfOrder, fails).s;
               p.src !in r.rec.addrs ==> Everywhere(r.port, p, false)) <==>
            Unhindered(s.port, AllDue(s.rec, now), p.src, fails)
  {
    var keys := s.rec.reqs.Keys;
    if Unhindered(s.port, AllDue(s.rec, now), p.src, fails) {
      forall order | IsOrder(order, keys) && p.src !in ScanStep(s, now, order, vfOrder, fails).s.rec.addrs
        ensures Everywhere(ScanStep(s, now, order, vfOrder, fails).s.port, p, false)
      {
        var k := PlaceOf(s, now, order, vfOrder, fails, p.src);
        EmptiesIffAllDue(s, now, order, vfOrder, fails);
        ExpiryTakesEffect(s, now, order, vfOrder, fails, k, p);
      }
    } else {
      var order := WorstOrder(s, now, p.src);
      var k :| 0 <= k < |order| && order[k] == p.src;
      ScanRecords(s, now, order, vfOrder, fails);
      EmptiesIffAllDue(s, now, order, vfOrder, fails);
      ExpiryTakesEffect(s, now, order, vfOrder, fails, k, p);
    }
  }

  /** An order in which the address is removed, and after all others if they are all due. */
  lemma {:induction false} WorstOrder(s: State, now: int, mac: Mac) returns (order: seq<Mac>)
    requires Control(s.rec) && mac in s.rec.reqs && Expired(now, s.rec.reqs[mac])
    ensures IsOrder(order, s.rec.reqs.Keys) && mac in order && mac in Removed(s.rec.reqs, now, order)
    ensures AllDue(s.rec, now) ==> order[|order| - 1] == mac
  {
    var rest := AnOrder(s.rec.reqs.Keys - {mac});
    if AllDue(s.rec, now) {
      order := rest + [mac];
      RemovedBounds(s.rec.reqs, now, order);
    } else {
      order := [mac] + rest;
      assert order[0] == mac;
      RemovedAt(s.rec.reqs, now, order, 0);
    }
  }

  // ----- decisions that do not take effect -----

  /** So when the only address goes and some VF cannot be parked, its packets go on passing everywhere although it
      is no longer authenticated; of addresses that all go in one scan, this befalls the one visited last. */
  lemma {:induction false} DepartedStillPasses(ss: seq<State>, es: seq<Event>, i: nat, n: nat, p: Packet, id: int)
    requires Run(ss, es) && i < n < |es| && ss[0].rec == FRESH && Ready(ss[0].port)
    requires es[i].Connect? && es[i].mac == p.src && Clear(es[i].fails, p.src)
    requires forall j :: i < j < n ==> !DecidesAt(ss, es, j, p.src)
    requires Left(ss[n], ss[n + 1], p.src) && ReconfiguresFor(ss[n], es[n], p.src)
    requires id in ss[n].port.saved && !VfSucceeds(id, es[n].fails)
    ensures Everywhere(ss[n + 1].port, p, true)
  {
    AlwaysReady(ss, es, n, p);
    LatestDecision(ss, es, i, n, p);
    StepDevs(ss[n], es[n]);
    StepMembership(ss[n], es[n], p.src);
    forall d | d in ss[n].port.devs ensures Passes(ss[n + 1].port.tables, d, p) {
      DecisionAtDevice(ss[n], es[n], d, p);
    }
  }
}
