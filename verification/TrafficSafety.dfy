/** Which packets the filter tables let through, after runs with and without faults. */
module TrafficSafety {
  import opened FilterTable
  import opened InterfaceInit
  import opened VfControl
  import opened MonitorSteps
  import opened MonitorSafety
  import opened PortSafety
  import opened MonitorHistory

  /** Every device of the port has a sorted table that tries source addresses first. */
  ghost predicate Controlled(tables: map<string, Qdisc>, devs: seq<string>) {
    forall d :: d in devs ==>
      d in tables && tables[d].Qdisc? && MacFirst(tables[d].filters) && Sorted(tables[d].filters)
  }

  predicate Passes(tables: map<string, Qdisc>, dev: string, p: Packet) {
    dev in tables && tables[dev].Qdisc? ==> Verdict(tables[dev].filters, p) == Ok
  }

  lemma {:induction false} ReplaceDevice(tables: map<string, Qdisc>, all: seq<string>, dev: string, mac: Mac,
                                         action: Action, p: Packet)
    requires Controlled(tables, all) && dev in all
    ensures var q := tables[dev];
            var r := tables[dev := q.(filters := Replace(q.filters, Filter(MAC_PREF, SrcMac(mac), action)))];
            && Controlled(r, all)
            && forall d :: d in all ==>
                 (Passes(r, d, p) <==> if d == dev && p.src == mac then action == Ok else Passes(tables, d, p))
  {
    ReplaceVerdict(tables[dev].filters, mac, action, p);
    ReplaceSorted(tables[dev].filters, Filter(MAC_PREF, SrcMac(mac), action));
  }

  /** Replacing the filters of `mac` concerns its packets only, opens the port to them only if they are to be
      passed, and settles them on every device visited if no command fails. */
  lemma {:induction false} ReplaceOnVerdict(tables: map<string, Qdisc>, all: seq<string>, devs: seq<string>, mac: Mac,
                                            action: Action, fails: set<Call>, p: Packet)
    requires Controlled(tables, all) && forall d :: d in devs ==> d in all
    ensures var r := ReplaceOn(tables, devs, mac, action, fails);
            && Controlled(r.tables, all)
            && (p.src != mac ==> forall d :: d in all ==> (Passes(r.tables, d, p) <==> Passes(tables, d, p)))
            && (forall d :: d in all && Passes(r.tables, d, p) ==> Passes(tables, d, p) || action == Ok)
            && ((forall d :: d in devs ==> SetFilter(d, mac) !in fails) && p.src == mac ==>
                  r.ok && forall d :: d in devs ==> (Passes(r.tables, d, p) <==> action == Ok))
  {
    if devs != [] {
      var n := |devs| - 1;
      ReplaceOnVerdict(tables, all, devs[..n], mac, action, fails, p);
      var r := ReplaceOn(tables, devs[..n], mac, action, fails);
      assert devs == devs[..n] + [devs[n]];
      ReplaceDevice(r.tables, all, devs[n], mac, action, p);
    }
  }

  /** Neither a VF call nor a call on behalf of `mac` fails. */
  ghost predicate Clear(fails: set<Call>, mac: Mac) {
    && VfCallsSucceed(fails)
    && LookUpTc(mac) !in fails && LookUpDevs(mac) !in fails
    && forall d :: SetFilter(d, mac) !in fails
  }

  /** From `before` to `after` the packet is treated as before on every device. */
  ghost predicate SameVerdict(before: Port, after: Port, p: Packet) {
    forall d :: d in before.devs ==> (Passes(after.tables, d, p) <==> Passes(before.tables, d, p))
  }

  ghost predicate Everywhere(port: Port, p: Packet, pass: bool) {
    forall d :: d in port.devs ==> (Passes(port.tables, d, p) <==> pass)
  }

  ghost predicate NotOpened(before: Port, after: Port, p: Packet) {
    forall d :: d in before.devs && Passes(after.tables, d, p) ==> Passes(before.tables, d, p)
  }

  ghost predicate Ready(port: Port) {
    Known(port) && Controlled(port.tables, port.devs)
  }

  lemma {:induction false} TrafficVerdict(port: Port, reconfigure: bool, auth: bool, mac: Mac, action: Action,
                                          vfOrder: seq<int>, fails: set<Call>, p: Packet)
    requires Ready(port)
    ensures var r := SetTraffic(port, reconfigure, auth, mac, action, vfOrder, fails).port;
            && Ready(r) && r.devs == port.devs
            && (p.src != mac ==> SameVerdict(port, r, p))
            && (action == Drop ==> NotOpened(port, r, p))
            && (p.src == mac && Clear(fails, mac) ==> Everywhere(r, p, action == Ok))
  {
    TrafficPort(port, reconfigure, auth, mac, action, vfOrder, fails);
    if VfCallsSucceed(fails) {
      ConfigureVfsSucceeds(port.vf, auth, port.saved, vfOrder, fails);
    }
    ReplaceOnVerdict(port.tables, port.devs, port.devs, mac, action, fails, p);
  }

  /** The step connects, disconnects or expires the address. */
  ghost predicate Decides(s: State, e: Event, mac: Mac) {
    || ((e.Connect? || e.Disconnect?) && e.mac == mac)
    || (e.Scan? && mac in s.rec.addrs && mac !in Step(s, e).rec.addrs)
  }

  /** What a step does to the packets of the address `p.src`, whatever fails: nothing unless it decides about
      the address, it opens the port to them only by connecting it, and a step that decides about it without
      failing calls makes them pass exactly if the address is authenticated then. */
  ghost predicate Decided(s: State, decides: bool, connects: bool, clear: bool, r: State, p: Packet) {
    && Ready(r.port) && r.port.devs == s.port.devs
    && (!decides ==> SameVerdict(s.port, r.port, p))
    && (!connects ==> NotOpened(s.port, r.port, p))
    && (decides && clear ==> Everywhere(r.port, p, p.src in r.rec.addrs))
  }

  ghost predicate Left(s: State, r: State, mac: Mac) {
    mac in s.rec.addrs && mac !in r.rec.addrs
  }

  lemma {:induction false} VisitVerdict(r: Outcome, now: int, mac: Mac, vfOrder: seq<int>, fails: set<Call>, p: Packet)
    requires Control(r.s.rec) && Ready(r.s.port)
    ensures var v := ScanVisit(r, now, mac, vfOrder, fails).s;
            Decided(r.s, Left(r.s, v, p.src), false, Clear(fails, p.src), v, p)
  {
    TrafficVerdict(r.s.port, |r.s.rec.addrs - {mac}| == 0, false, mac, Drop, vfOrder, fails, p);
  }

  lemma {:induction false} ScanVerdict(s: State, now: int, order: seq<Mac>, vfOrder: seq<int>, fails: set<Call>,
                                       p: Packet)
    requires Control(s.rec) && Ready(s.port)
    ensures var r := ScanStep(s, now, order, vfOrder, fails).s;
            Decided(s, Left(s, r, p.src), false, Clear(fails, p.src), r, p)
  {
    if order != [] {
      var n := |order| - 1;
      ScanVerdict(s, now, order[..n], vfOrder, fails, p);
      ScanRecords(s, now, order[..n], vfOrder, fails);
      ScanRecords(s, now, order, vfOrder, fails);
      VisitVerdict(ScanStep(s, now, order[..n], vfOrder, fails), now, order[n], vfOrder, fails, p);
    }
  }

  ghost predicate ClearAt(e: Event, mac: Mac) {
    e.LinkOper? || e.OutsideVlan? || Clear(e.fails, mac)
  }

  lemma {:induction false} StepVerdict(s: State, e: Event, p: Packet)
    requires Control(s.rec) && Ready(s.port) && Enabled(s, e)
    ensures Decided(s, Decides(s, e, p.src), e.Connect? && e.mac == p.src, ClearAt(e, p.src), Step(s, e), p)
  {
    match e
    case Connect(mac, vfOrder, fails) =>
      TrafficVerdict(s.port, |s.rec.addrs + {mac}| == 1, true, mac, Ok, vfOrder, fails, p);
    case Disconnect(mac, vfOrder, fails) =>
      TrafficVerdict(s.port, |s.rec.addrs - {mac}| == 0, false, mac, Drop, vfOrder, fails, p);
    case Scan(now, order, vfOrder, fails) => ScanVerdict(s, now, order, vfOrder, fails, p);
    case VlanEvent(order, fails) => VlanSaved(s, order, fails);
    case LinkOper(_, _) =>
    case OutsideVlan(_, _) =>
  }

  // ----- runs: the latest decision about an address settles its packets -----

  lemma {:induction false} AlwaysReady(ss: seq<State>, es: seq<Event>, n: nat, p: Packet)
    requires Run(ss, es) && n < |ss| && ss[0].rec == FRESH && Ready(ss[0].port)
    ensures Control(ss[n].rec) && Ready(ss[n].port) && ss[n].port.devs == ss[0].port.devs
    ensures n < |es| ==>
              Decided(ss[n], Decides(ss[n], es[n], p.src), es[n].Connect? && es[n].mac == p.src, ClearAt(es[n], p.src),
                      ss[n + 1], p)
  {
    if n > 0 {
      AlwaysReady(ss, es, n - 1, p);
    }
    AlwaysControl(ss, es, n);
    if n < |es| {
      StepVerdict(ss[n], es[n], p);
    }
  }

  ghost predicate DecidesAt(ss: seq<State>, es: seq<Event>, j: nat, mac: Mac) {
    j < |es| && j < |ss| && Decides(ss[j], es[j], mac)
  }

  function TouchedBy(e: Event): set<Mac> {
    if e.Connect? || e.Disconnect? then {e.mac} else {}
  }

  /** Who a step may add or remove, in terms of what it decides about. */
  ghost predicate Membership(s: Records, decides: bool, named: set<Mac>, mac: Mac, r: Records) {
    && (!decides ==> (mac in r.addrs <==> mac in s.addrs))
    && r.addrs <= s.addrs + named
    && (decides ==> mac in s.addrs + named)
    && (mac in named ==> decides)
  }

  lemma {:induction false} StepMembership(s: State, e: Event, mac: Mac)
    requires Control(s.rec) && Enabled(s, e)
    ensures Membership(s.rec, Decides(s, e, mac), TouchedBy(e), mac, Step(s, e).rec)
  {
    StepEffect(s, e);
  }

  lemma {:induction false} Undecided(ss: seq<State>, es: seq<Event>, m: nat, n: nat, p: Packet)
    requires Run(ss, es) && m <= n < |ss| && ss[0].rec == FRESH && Ready(ss[0].port)
    requires forall j :: m <= j < n ==> !DecidesAt(ss, es, j, p.src)
    ensures SameVerdict(ss[m].port, ss[n].port, p) && (p.src in ss[n].rec.addrs <==> p.src in ss[m].rec.addrs)
  {
    AlwaysReady(ss, es, m, p);
    if m < n {
      Undecided(ss, es, m, n - 1, p);
      AlwaysReady(ss, es, n - 1, p);
      assert !DecidesAt(ss, es, n - 1, p.src);
      StepMembership(ss[n - 1], es[n - 1], p.src);
    }
  }

  /** Whatever fails for others, before and after: if the latest connect, disconnect or expiry of an address
      met no failing call, its packets pass everywhere exactly if it is authenticated. */
  lemma {:induction false} LatestDecision(ss: seq<State>, es: seq<Event>, i: nat, n: nat, p: Packet)
    requires Run(ss, es) && i < n < |ss| && ss[0].rec == FRESH && Ready(ss[0].port)
    requires DecidesAt(ss, es, i, p.src) && ClearAt(es[i], p.src)
    requires forall j :: i < j < n ==> !DecidesAt(ss, es, j, p.src)
    ensures Everywhere(ss[n].port, p, p.src in ss[n].rec.addrs) && ss[n].port.devs == ss[0].port.devs
  {
    AlwaysReady(ss, es, i, p);
    AlwaysReady(ss, es, i + 1, p);
    AlwaysReady(ss, es, n, p);
    Undecided(ss, es, i + 1, n, p);
  }

  // ----- runs without faults -----

  /** What first-match evaluation amounts to: an address that was ever named by an event passes exactly
      while it is authenticated; any other is treated as by the tables `base` of start-up. */
  ghost predicate Refines(s: State, base: map<string, Qdisc>, touched: set<Mac>, p: Packet) {
    && Known(s.port) && Controlled(s.port.tables, s.port.devs)
    && s.rec.addrs <= touched
    && forall d :: d in s.port.devs ==>
         (Passes(s.port.tables, d, p) <==> if p.src in touched then p.src in s.rec.addrs else Passes(base, d, p))
  }

  /** The addresses named by connect and disconnect events. */
  function Touched(es: seq<Event>): set<Mac> {
    set i | 0 <= i < |es| && (es[i].Connect? || es[i].Disconnect?) :: es[i].mac
  }

  lemma {:induction false} StepRefines(s: State, e: Event, base: map<string, Qdisc>, touched: set<Mac>, p: Packet)
    requires Control(s.rec) && Refines(s, base, touched, p) && Enabled(s, e) && NoFaults(e)
    ensures Refines(Step(s, e), base, touched + TouchedBy(e), p)
  {
    StepVerdict(s, e, p);
    StepMembership(s, e, p.src);
    NextRefines(s, Decides(s, e, p.src), e.Connect? && e.mac == p.src, TouchedBy(e), Step(s, e), base, touched, p);
  }

  lemma {:induction false} NextRefines(s: State, decides: bool, connects: bool, named: set<Mac>, r: State,
                                       base: map<string, Qdisc>, touched: set<Mac>, p: Packet)
    requires Refines(s, base, touched, p)
    requires Decided(s, decides, connects, true, r, p) && Membership(s.rec, decides, named, p.src, r.rec)
    ensures Refines(r, base, touched + named, p)
  {
  }

  ghost predicate NoFaultsIn(es: seq<Event>) {
    forall i :: 0 <= i < |es| ==> NoFaults(es[i])
  }

  lemma {:induction false} AlwaysRefines(ss: seq<State>, es: seq<Event>, n: nat, p: Packet)
    requires Run(ss, es) && n < |ss| && NoFaultsIn(es)
    requires ss[0].rec == FRESH && Known(ss[0].port) && Controlled(ss[0].port.tables, ss[0].port.devs)
    ensures Refines(ss[n], ss[0].port.tables, Touched(es[..n]), p)
  {
    if n > 0 {
      AlwaysRefines(ss, es, n - 1, p);
      AlwaysControl(ss, es, n - 1);
      StepRefines(ss[n - 1], es[n - 1], ss[0].port.tables, Touched(es[..n - 1]), p);
      TouchedSnoc(es, n);
    }
  }

  lemma {:induction false} TouchedSnoc(es: seq<Event>, n: nat)
    requires 0 < n <= |es|
    ensures Touched(es[..n]) == Touched(es[..n - 1]) + TouchedBy(es[n - 1])
  {
  }

  /** Port-based access control: after initialisation and any fault-free run, a packet passes on a
      device of the port exactly if its source is authenticated, or no event ever named the source and
      the packet is unprotected, which on a VF's interface no packet is. */
  lemma {:induction false} PortBasedControl(ss: seq<State>, es: seq<Event>, n: nat, vf: map<int, Vf>,
                                            tables: map<string, Qdisc>, devs: seq<string>, pfs: set<string>,
                                            tcp: seq<int>, udp: seq<int>, d: string, p: Packet)
    requires Run(ss, es) && n < |ss| && NoFaultsIn(es) && Started(ss[0], vf, tables, devs)
    requires forall dev :: dev in devs ==>
               dev in tables && tables[dev] == Qdisc(Clsact, InitFilters(dev in pfs, tcp, udp))
    requires d in devs
    ensures Passes(ss[n].port.tables, d, p) <==>
            p.src in ss[n].rec.addrs || (p.src !in Touched(es[..n]) && Unprotected(d in pfs, tcp, udp, p))
  {
    StartParks(ss[0], vf, tables, devs);
    forall dev | dev in devs ensures MacFirst(tables[dev].filters) && Sorted(tables[dev].filters) {
      InitVerdict(dev in pfs, tcp, udp, p);
    }
    AlwaysRefines(ss, es, n, p);
    AlwaysKnown(ss, es, n);
    InitVerdict(d in pfs, tcp, udp, p);
  }

  /** So EAPOL frames do not always pass: on a PF they do exactly while their source is authenticated or has
      never been named by an event, and a source that has been refused cannot be heard any more. */
  lemma {:induction false} EapolPasses(ss: seq<State>, es: seq<Event>, n: nat, vf: map<int, Vf>,
                                       tables: map<string, Qdisc>, devs: seq<string>, pfs: set<string>,
                                       tcp: seq<int>, udp: seq<int>, d: string, mac: Mac)
    requires Run(ss, es) && n < |ss| && NoFaultsIn(es) && Started(ss[0], vf, tables, devs)
    requires forall dev :: dev in devs ==>
               dev in tables && tables[dev] == Qdisc(Clsact, InitFilters(dev in pfs, tcp, udp))
    requires d in devs && d in pfs
    ensures Passes(ss[n].port.tables, d, Packet(mac, Eapol)) <==> mac in ss[n].rec.addrs || mac !in Touched(es[..n])
  {
    PortBasedControl(ss, es, n, vf, tables, devs, pfs, tcp, udp, d, Packet(mac, Eapol));
  }

  /** If some port filters could not be installed, the same bound still holds in one direction. */
  lemma {:induction false} PortBasedControlAtLeast(ss: seq<State>, es: seq<Event>, n: nat, vf: map<int, Vf>,
                                                   tables: map<string, Qdisc>, devs: seq<string>, pfs: set<string>,
                                                   tcp: seq<int>, udp: seq<int>, d: string, p: Packet)
    requires Run(ss, es) && n < |ss| && NoFaultsIn(es) && Started(ss[0], vf, tables, devs)
    requires forall dev :: dev in devs ==>
               dev in tables && tables[dev].Qdisc? && Guarded(tables[dev].filters, dev in pfs, tcp, udp)
    requires d in devs && Passes(ss[n].port.tables, d, p)
    ensures p.src in ss[n].rec.addrs || (p.src !in Touched(es[..n]) && Unprotected(d in pfs, tcp, udp, p))
  {
    StartParks(ss[0], vf, tables, devs);
    forall dev | dev in devs ensures MacFirst(tables[dev].filters) {
      GuardedVerdict(tables[dev].filters, dev in pfs, tcp, udp, p);
    }
    AlwaysRefines(ss, es, n, p);
    AlwaysKnown(ss, es, n);
    GuardedVerdict(tables[d].filters, d in pfs, tcp, udp, p);
  }

  // ----- whatever fails -----

  /** The packets of an address that has never connected pass only where they passed at start-up. */
  lemma {:induction false} NeverConnected(ss: seq<State>, es: seq<Event>, n: nat, p: Packet)
    requires Run(ss, es) && n < |ss| && ss[0].rec == FRESH && Ready(ss[0].port)
    requires forall i :: 0 <= i < n && es[i].Connect? ==> es[i].mac != p.src
    ensures NotOpened(ss[0].port, ss[n].port, p)
  {
    if n > 0 {
      NeverConnected(ss, es, n - 1, p);
      AlwaysReady(ss, es, n - 1, p);
    }
  }

  /** Whatever fails: on an initialised port a packet whose source has never connected passes only if
      it is unprotected. */
  lemma {:induction false} StrangersStayOut(ss: seq<State>, es: seq<Event>, n: nat, vf: map<int, Vf>,
                                            tables: map<string, Qdisc>, devs: seq<string>, pfs: set<string>,
                                            tcp: seq<int>, udp: seq<int>, d: string, p: Packet)
    requires Run(ss, es) && n < |ss| && Started(ss[0], vf, tables, devs)
    requires forall dev :: dev in devs ==>
               dev in tables && tables[dev].Qdisc? && Guarded(tables[dev].filters, dev in pfs, tcp, udp)
    requires d in devs && Passes(ss[n].port.tables, d, p)
    requires forall i :: 0 <= i < n && es[i].Connect? ==> es[i].mac != p.src
    ensures Unprotected(d in pfs, tcp, udp, p)
  {
    StartParks(ss[0], vf, tables, devs);
    forall dev | dev in devs ensures MacFirst(tables[dev].filters) {
      GuardedVerdict(tables[dev].filters, dev in pfs, tcp, udp, p);
    }
    NeverConnected(ss, es, n, p);
    GuardedVerdict(tables[d].filters, d in pfs, tcp, udp, p);
  }
}
