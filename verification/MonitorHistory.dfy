/** Which events of a run remove an authenticated address, and when all of them are gone. */
module MonitorHistory {
  import opened FilterTable
  import opened InterfaceInit
  import opened VfControl
  import opened MonitorSteps
  import opened MonitorSafety
  import opened PortSafety

  /** A scan forgets timed-out requests together with their addresses. */
  ghost predicate ScanEffect(s: Records, now: int, r: Records) {
    && RemovesExpired(s, now, r)
    && r.oper == s.oper
    && r.addrs <= s.addrs
    && (forall mac :: mac in r.reqs ==> mac in s.reqs && r.reqs[mac] == s.reqs[mac])
    && (forall mac :: mac in s.addrs ==> (mac !in r.addrs <==> mac in s.reqs && mac !in r.reqs))
  }

  /** The effect of each event on the records. */
  ghost predicate Effect(s: Records, e: Event, r: Records) {
    match e
    case Connect(mac, _, _) => r.addrs == s.addrs + {mac} && r.reqs == s.reqs - {mac} && r.oper == s.oper
    case Disconnect(mac, _, _) => r.addrs == s.addrs - {mac} && r.reqs == s.reqs - {mac} && r.oper == s.oper
    case LinkOper(oper, stamps) => r == OperStep(s, oper, stamps)
    case VlanEvent(_, _) => r == s
    case Scan(now, _, _, _) => ScanEffect(s, now, r)
    case OutsideVlan(_, _) => r == s
  }

  lemma {:induction false} WithoutEffect(s: Records, now: int, gone: set<Mac>, r: Records)
    requires Control(s) && ExpiredOnly(s.reqs, now, gone) && Without(s, gone, r)
    ensures ScanEffect(s, now, r)
  {
  }

  lemma {:induction false} ScanEffects(s: State, now: int, order: seq<Mac>, vfOrder: seq<int>, fails: set<Call>)
    requires Control(s.rec) && IsOrder(order, s.rec.reqs.Keys)
    ensures ScanEffect(s.rec, now, ScanStep(s, now, order, vfOrder, fails).s.rec)
  {
    ScanRecords(s, now, order, vfOrder, fails);
    RemovedBounds(s.rec.reqs, now, order);
    WithoutEffect(s.rec, now, Removed(s.rec.reqs, now, order), ScanStep(s, now, order, vfOrder, fails).s.rec);
  }

  lemma {:induction false} StepEffect(s: State, e: Event)
    requires Control(s.rec) && Enabled(s, e)
    ensures Effect(s.rec, e, Step(s, e).rec)
  {
    match e
    case Scan(now, order, vfOrder, fails) => ScanEffects(s, now, order, vfOrder, fails);
    case _ =>
  }

  // ----- where pending requests come from -----

  /** Step `j` is one at which the link is found to have gone to `oper`. */
  ghost predicate Pass(ss: seq<State>, es: seq<Event>, j: nat, oper: OperState) {
    j < |ss| && j < |es| && es[j].LinkOper? && es[j].oper == oper && ss[j].rec.oper != oper
  }

  /** Step `k` withdraws a request for `mac`, or replaces all requests. */
  ghost predicate Renews(ss: seq<State>, es: seq<Event>, k: nat, mac: Mac) {
    || Pass(ss, es, k, Down)
    || Pass(ss, es, k, Up)
    || (k < |es| && (es[k].Connect? || es[k].Disconnect?) && es[k].mac == mac)
  }

  /** Before step `n`, a request for `mac` stamped at the down pass `j` is still standing. */
  ghost predicate Standing(ss: seq<State>, es: seq<Event>, n: nat, j: nat, mac: Mac) {
    && j < n <= |es| && |ss| == |es| + 1
    && Pass(ss, es, j, Down) && mac in ss[j].rec.addrs && mac in es[j].stamps
    && forall k :: j < k < n ==> !Renews(ss, es, k, mac)
  }

  /** A request that was there before a step, and is not renewed by it. */
  lemma {:induction false} OldRequest(ss: seq<State>, es: seq<Event>, n: nat, mac: Mac)
    requires Run(ss, es) && n < |es| && Control(ss[n].rec) && mac in ss[n + 1].rec.reqs && !Pass(ss, es, n, Down)
    ensures mac in ss[n].rec.reqs && ss[n + 1].rec.reqs[mac] == ss[n].rec.reqs[mac] && !Renews(ss, es, n, mac)
  {
    StepEffect(ss[n], es[n]);
  }

  /** Every pending request stands since the latest down pass, with the stamp that pass gave it. */
  lemma {:induction false} RequestOrigin(ss: seq<State>, es: seq<Event>, n: nat, mac: Mac) returns (j: nat)
    requires Run(ss, es) && n < |ss| && ss[0].rec == FRESH && mac in ss[n].rec.reqs
    ensures Standing(ss, es, n, j, mac) && ss[n].rec.reqs[mac] == es[j].stamps[mac]
  {
    var p := n - 1;
    AlwaysControl(ss, es, p);
    AlwaysControl(ss, es, n);
    if Pass(ss, es, p, Down) {
      j := p;
      LinkChanges(ss[p], Down, es[p].stamps);
    } else {
      OldRequest(ss, es, p, mac);
      j := RequestOrigin(ss, es, p, mac);
    }
  }

  /** An authenticated address leaves only by its own disconnect event, or by a scan no earlier than
      the timeout after its stamp of the latest down pass, with no connect or disconnect of the address
      and no link-up in between. */
  lemma {:induction false} Departures(ss: seq<State>, es: seq<Event>, n: nat, mac: Mac)
    requires Run(ss, es) && n < |es| && ss[0].rec == FRESH
    requires mac in ss[n].rec.addrs && mac !in ss[n + 1].rec.addrs
    ensures (es[n].Disconnect? && es[n].mac == mac) ||
            (es[n].Scan? && exists j: nat ::
               Standing(ss, es, n, j, mac) && es[n].now - es[j].stamps[mac] >= 2_000_000)
  {
    AlwaysControl(ss, es, n);
    StepEffect(ss[n], es[n]);
    if es[n].Scan? {
      var j := RequestOrigin(ss, es, n, mac);
    }
  }

  // ----- when everything is gone -----

  /** Step `k` neither authenticates anyone nor notices the link going up or down. */
  ghost predicate Quiet(ss: seq<State>, es: seq<Event>, k: nat) {
    k < |es| && !es[k].Connect? && !Pass(ss, es, k, Down) && !Pass(ss, es, k, Up)
  }

  /** All authenticated addresses have a request with the stamp of the down pass `j`. */
  ghost predicate Draining(s: Records, stamps: map<Mac, int>, down: set<Mac>) {
    && s.reqs.Keys == s.addrs && s.addrs <= down && down <= stamps.Keys
    && forall mac :: mac in s.reqs ==> s.reqs[mac] == stamps[mac]
  }

  lemma {:induction false} DrainingStep(s: Records, e: Event, r: Records, stamps: map<Mac, int>, down: set<Mac>)
    requires Draining(s, stamps, down) && Effect(s, e, r) && !e.Connect?
    requires e.LinkOper? ==> e.oper == s.oper || (e.oper != Down && e.oper != Up)
    ensures Draining(r, stamps, down)
  {
  }

  lemma {:induction false} StaysDraining(ss: seq<State>, es: seq<Event>, j: nat, n: nat)
    requires Run(ss, es) && ss[0].rec == FRESH && j < n < |ss| && Pass(ss, es, j, Down)
    requires forall k :: j < k < n ==> Quiet(ss, es, k)
    ensures Draining(ss[n].rec, es[j].stamps, ss[j].rec.addrs)
  {
    var p := n - 1;
    AlwaysControl(ss, es, p);
    if p == j {
      LinkChanges(ss[p], Down, es[p].stamps);
    } else {
      StaysDraining(ss, es, j, p);
      StepEffect(ss[p], es[p]);
      assert Quiet(ss, es, p);
      DrainingStep(ss[p].rec, es[p], ss[n].rec, es[j].stamps, ss[j].rec.addrs);
    }
  }

  /** After the link has gone down, with nobody authenticating and the link not noticed to change, a
      scan no earlier than the timeout after the last stamp of that pass leaves no authenticated
      address, no request and the PF unauthenticated, whatever fails. */
  lemma {:induction false} Drained(ss: seq<State>, es: seq<Event>, j: nat, n: nat)
    requires Run(ss, es) && ss[0].rec == FRESH && j < n < |es| && Pass(ss, es, j, Down)
    requires forall k :: j < k < n ==> Quiet(ss, es, k)
    requires es[n].Scan?
    requires forall mac :: mac in ss[j].rec.addrs && mac in es[j].stamps ==>
               es[n].now - es[j].stamps[mac] >= 2_000_000
    ensures ss[n + 1].rec.addrs == {} && ss[n + 1].rec.reqs == map[] && !ss[n + 1].rec.auth
  {
    StaysDraining(ss, es, j, n);
    AlwaysControl(ss, es, n);
    AlwaysControl(ss, es, n + 1);
    StepEffect(ss[n], es[n]);
  }

  /** If the VF calls of the run succeed, every VF is then down as well, outside edits or not. */
  lemma {:induction false} DrainedVfsDown(ss: seq<State>, es: seq<Event>, j: nat, n: nat,
                                          vf: map<int, Vf>, tables: map<string, Qdisc>, devs: seq<string>)
    requires Run(ss, es) && Started(ss[0], vf, tables, devs) && j < n < |es| && Pass(ss, es, j, Down)
    requires forall k :: j < k < n ==> Quiet(ss, es, k)
    requires es[n].Scan? && NoVfFaultsIn(es)
    requires forall mac :: mac in ss[j].rec.addrs && mac in es[j].stamps ==>
               es[n].now - es[j].stamps[mac] >= REQUEST_TIMEOUT
    ensures ss[n + 1].port.vf.Keys == vf.Keys
    ensures forall i :: i in vf ==> ss[n + 1].port.vf[i].link == Disable
  {
    StartParks(ss[0], vf, tables, devs);
    Drained(ss, es, j, n);
    LinksAgree(ss, es, n + 1, vf, tables, devs);
  }
}
