/** What every run keeps of the VFs of the port: on runs whose VF calls succeed, the kernel agrees with
    the monitor's records although VFs are only reconfigured when the first address comes or the last
    one goes. */
module PortSafety {
  import opened FilterTable
  import opened InterfaceInit
  import opened VfControl
  import opened MonitorSteps
  import opened MonitorSafety

  /** The monitor knows exactly the kernel's VFs. */
  ghost predicate Known(port: Port) {
    port.saved.Keys == port.vf.Keys
  }

  /** Every VF is configured as the control state demands: in link state and VLAN, or, where others
      may edit VLANs, in link state. */
  ghost predicate Coherent(port: Port, auth: bool, vlans: bool) {
    && Known(port)
    && forall i :: i in port.vf ==>
         var target := Target(auth, port.saved[i]);
         if vlans then port.vf[i] == target else port.vf[i].link == target.link
  }

  lemma {:induction false} TrafficPort(port: Port, reconfigure: bool, auth: bool, mac: Mac, action: Action,
                                       vfOrder: seq<int>, fails: set<Call>)
    requires Known(port)
    ensures var r := SetTraffic(port, reconfigure, auth, mac, action, vfOrder, fails).port;
            && r.saved == port.saved && r.devs == port.devs && Known(r)
            && (forall i :: i in port.vf ==> OnTheWay(port.vf[i], Target(auth, port.saved[i]), r.vf[i]))
            && (!reconfigure ==> r.vf == port.vf)
            && (reconfigure && IsOrder(vfOrder, port.saved.Keys) && VfCallsSucceed(fails) ==> Coherent(r, auth, true))
  {
    ConfigureVfsBounds(port.vf, auth, port.saved, vfOrder, fails);
    if VfCallsSucceed(fails) {
      ConfigureVfsSucceeds(port.vf, auth, port.saved, vfOrder, fails);
      ConfigureVfsOk(port.vf, auth, port.saved, vfOrder, fails);
    }
  }

  // ----- one step -----

  lemma {:induction false} VisitPort(r: Outcome, now: int, mac: Mac, vfOrder: seq<int>, fails: set<Call>, vlans: bool)
    requires Control(r.s.rec) && Known(r.s.port)
    ensures var v := ScanVisit(r, now, mac, vfOrder, fails).s;
            && v.port.saved == r.s.port.saved && v.port.devs == r.s.port.devs && Known(v.port)
            && (forall i :: i in r.s.port.vf ==> v.port.vf[i].vlan in {r.s.port.vf[i].vlan, RESERVED_VLAN})
            && (Coherent(r.s.port, r.s.rec.auth, vlans) &&
                IsOrder(vfOrder, r.s.port.saved.Keys) && VfCallsSucceed(fails) ==>
                  Coherent(v.port, v.rec.auth, vlans))
  {
    var s := r.s;
    TrafficPort(s.port, |s.rec.addrs - {mac}| == 0, false, mac, Drop, vfOrder, fails);
  }

  lemma {:induction false} ScanPort(s: State, now: int, order: seq<Mac>, vfOrder: seq<int>, fails: set<Call>,
                                    vlans: bool)
    requires Control(s.rec) && Known(s.port)
    ensures var r := ScanStep(s, now, order, vfOrder, fails).s;
            && r.port.saved == s.port.saved && r.port.devs == s.port.devs && Known(r.port)
            && (forall i :: i in s.port.vf ==> r.port.vf[i].vlan in {s.port.vf[i].vlan, RESERVED_VLAN})
            && (Coherent(s.port, s.rec.auth, vlans) && IsOrder(vfOrder, s.port.saved.Keys) && VfCallsSucceed(fails) ==>
                  Coherent(r.port, r.rec.auth, vlans))
  {
    if order != [] {
      var n := |order| - 1;
      ScanPort(s, now, order[..n], vfOrder, fails, vlans);
      ScanRecords(s, now, order[..n], vfOrder, fails);
      VisitPort(ScanStep(s, now, order[..n], vfOrder, fails), now, order[n], vfOrder, fails, vlans);
    }
  }

  /** A VLAN event leaves the records of addresses and the filters alone, and a saved VLAN it changes
      becomes the VLAN found in the kernel, which is not the reserved one. */
  lemma {:induction false} VlanSaved(s: State, order: seq<int>, fails: set<Call>)
    requires Known(s.port) && IsOrder(order, s.port.vf.Keys)
    ensures var r := VlanStep(s, order, fails).s;
            && r.rec == s.rec && Known(r.port) && r.port.devs == s.port.devs && r.port.tables == s.port.tables
            && r.port.saved.Keys == s.port.saved.Keys
            && (forall i :: i in s.port.saved && r.port.saved[i] != s.port.saved[i] ==>
                  r.port.saved[i] != RESERVED_VLAN && r.port.saved[i] == s.port.vf[i].vlan && ListPf !in fails)
  {
    var port := s.port;
    assert forall k :: 0 <= k < |order| ==> order[k] in order;
    var listing := Listing(port.vf, order);
    TakeOverSaved(port.saved, port.vf, s.rec.auth, listing, fails);
    forall i, v | i in port.vf && Lists(listing, i, v) ensures v == port.vf[i].vlan {
      var k :| 0 <= k < |listing| && listing[k] == Listed(i, v);
    }
  }

  lemma {:induction false} VlanLinks(s: State, order: seq<int>, fails: set<Call>)
    requires Coherent(s.port, s.rec.auth, false) && VfCallsSucceed(fails)
    ensures var r := VlanStep(s, order, fails).s;
            Coherent(r.port, r.rec.auth, false)
  {
    if forall k :: 0 <= k < |order| ==> order[k] in s.port.vf {
      TakeOverLinks(s.port, s.rec.auth, Listing(s.port.vf, order), fails);
    }
  }

  /** Where every VF carries its own VLAN or the reserved one, a VLAN event changes nothing. */
  ghost predicate OwnVlans(port: Port) {
    Known(port) && forall i :: i in port.vf ==> port.vf[i].vlan == RESERVED_VLAN || port.vf[i].vlan == port.saved[i]
  }

  lemma {:induction false} VlanQuiet(s: State, order: seq<int>, fails: set<Call>)
    requires OwnVlans(s.port) && IsOrder(order, s.port.vf.Keys)
    ensures VlanStep(s, order, fails) == Outcome(s, ListPf !in fails)
  {
    assert forall k :: 0 <= k < |order| ==> order[k] in order;
    TakeOverQuiet(s.port.saved, s.port.vf, s.rec.auth, Listing(s.port.vf, order), fails);
  }

  lemma {:induction false} TakeOverLinks(port: Port, auth: bool, listing: seq<Listed>, fails: set<Call>)
    requires VfCallsSucceed(fails) && Coherent(port, auth, false)
    ensures var r := TakeOver(port.saved, port.vf, auth, listing, fails);
            Coherent(port.(saved := r.saved, vf := r.vf), auth, false)
  {
    if listing != [] {
      TakeOverLinks(port, auth, listing[..|listing| - 1], fails);
    }
  }

  // ----- steps and runs -----

  /** Whatever fails, a step changes saved VLANs only at a VLAN event. */
  lemma {:induction false} StepKnown(s: State, e: Event)
    requires Control(s.rec) && Known(s.port) && Enabled(s, e)
    ensures var r := Step(s, e);
            && Known(r.port) && r.port.devs == s.port.devs && r.port.saved.Keys == s.port.saved.Keys
            && (!e.VlanEvent? ==> r.port.saved == s.port.saved)
            && (OwnVlans(s.port) && !e.OutsideVlan? ==> OwnVlans(r.port) && r.port.saved == s.port.saved)
  {
    match e
    case Connect(mac, vfOrder, fails) =>
      TrafficPort(s.port, |s.rec.addrs + {mac}| == 1, true, mac, Ok, vfOrder, fails);
    case Disconnect(mac, vfOrder, fails) =>
      TrafficPort(s.port, |s.rec.addrs - {mac}| == 0, false, mac, Drop, vfOrder, fails);
    case Scan(now, order, vfOrder, fails) =>
      ScanPort(s, now, order, vfOrder, fails, false);
    case VlanEvent(order, fails) =>
      VlanSaved(s, order, fails);
      if OwnVlans(s.port) { VlanQuiet(s, order, fails); }
    case LinkOper(_, _) =>
    case OutsideVlan(_, _) =>
  }

  /** Whatever else fails, a step whose VF calls succeed keeps kernel and records in agreement. */
  lemma {:induction false} StepCoherent(s: State, e: Event, vlans: bool)
    requires Control(s.rec) && Coherent(s.port, s.rec.auth, vlans) && Enabled(s, e)
    requires NoVfFaults(e) && (vlans ==> !e.OutsideVlan?)
    ensures var r := Step(s, e);
            Coherent(r.port, r.rec.auth, vlans)
  {
    match e
    case Connect(mac, vfOrder, fails) =>
      TrafficPort(s.port, |s.rec.addrs + {mac}| == 1, true, mac, Ok, vfOrder, fails);
    case Disconnect(mac, vfOrder, fails) =>
      TrafficPort(s.port, |s.rec.addrs - {mac}| == 0, false, mac, Drop, vfOrder, fails);
    case Scan(now, order, vfOrder, fails) =>
      ScanPort(s, now, order, vfOrder, fails, vlans);
    case VlanEvent(order, fails) =>
      if vlans { VlanQuiet(s, order, fails); } else { VlanLinks(s, order, fails); }
    case LinkOper(_, _) =>
    case OutsideVlan(_, _) =>
  }

  /** A monitor starts exactly if its VFs can be listed and no call to park one fails; without VFs nothing can. */
  lemma {:induction false} StartSucceeds(vf: map<int, Vf>, tables: map<string, Qdisc>, devs: seq<string>,
                                         vfOrder: seq<int>, fails: set<Call>)
    requires IsOrder(vfOrder, vf.Keys)
    ensures StartStep(vf, tables, devs, vfOrder, fails).ok <==>
            ListPf !in fails && forall i :: i in vf ==> VfSucceeds(i, fails)
  {
    ConfigureVfsSucceeds(vf, false, map i | i in vf :: vf[i].vlan, vfOrder, fails);
  }

  /** Shutting down succeeds exactly if there is nothing to restore or no call to restore a VF fails. */
  lemma {:induction false} StopSucceeds(s: State, vfOrder: seq<int>, fails: set<Call>)
    requires Known(s.port) && IsOrder(vfOrder, s.port.saved.Keys)
    ensures StopStep(s, vfOrder, fails).ok <==> s.rec.auth || forall i :: i in s.port.saved ==> VfSucceeds(i, fails)
  {
    ConfigureVfsSucceeds(s.port.vf, true, s.port.saved, vfOrder, fails);
  }

  /** A monitor that has started knows every VF's VLAN and has parked all of them. */
  lemma {:induction false} StartParks(s: State, vf: map<int, Vf>, tables: map<string, Qdisc>, devs: seq<string>)
    requires Started(s, vf, tables, devs)
    ensures s.rec == FRESH && s.port.tables == tables && s.port.devs == devs && s.port.vf.Keys == vf.Keys
    ensures s.port.saved == map i | i in vf :: vf[i].vlan
    ensures Coherent(s.port, false, true) && OwnVlans(s.port)
  {
    var vfOrder, fails :| IsOrder(vfOrder, vf.Keys) && StartStep(vf, tables, devs, vfOrder, fails) == Outcome(s, true);
    ConfigureVfsOk(vf, false, map i | i in vf :: vf[i].vlan, vfOrder, fails);
  }

  ghost predicate NoOutsideEdits(es: seq<Event>) {
    forall i :: 0 <= i < |es| ==> !es[i].OutsideVlan?
  }

  /** The VF calls of every step succeed; calls to `tc` may fail. */
  ghost predicate NoVfFaultsIn(es: seq<Event>) {
    forall i :: 0 <= i < |es| ==> NoVfFaults(es[i])
  }

  lemma {:induction false} AlwaysKnown(ss: seq<State>, es: seq<Event>, n: nat)
    requires Run(ss, es) && n < |ss| && ss[0].rec == FRESH && Known(ss[0].port)
    ensures Known(ss[n].port) && ss[n].port.devs == ss[0].port.devs && ss[n].port.saved.Keys == ss[0].port.saved.Keys
  {
    if n > 0 {
      AlwaysKnown(ss, es, n - 1);
      AlwaysControl(ss, es, n - 1);
      StepKnown(ss[n - 1], es[n - 1]);
    }
  }

  lemma {:induction false} AlwaysCoherent(ss: seq<State>, es: seq<Event>, n: nat, vlans: bool)
    requires Run(ss, es) && n < |ss| && ss[0].rec == FRESH && Coherent(ss[0].port, false, vlans)
    requires NoVfFaultsIn(es) && (vlans ==> NoOutsideEdits(es))
    ensures Coherent(ss[n].port, ss[n].rec.auth, vlans)
  {
    if n > 0 {
      AlwaysCoherent(ss, es, n - 1, vlans);
      AlwaysControl(ss, es, n - 1);
      StepCoherent(ss[n - 1], es[n - 1], vlans);
    }
  }

  /** Nobody edits a VLAN at the steps from `m` up to `n`. */
  ghost predicate NoEditsBetween(es: seq<Event>, m: nat, n: nat) {
    forall i :: m <= i < n && i < |es| ==> !es[i].OutsideVlan?
  }

  /** Once every VF carries its own VLAN or the reserved one, this stays so and the saved VLANs stay, whatever
      fails, until the next outside edit. */
  lemma {:induction false} StaysOwn(ss: seq<State>, es: seq<Event>, m: nat, n: nat)
    requires Run(ss, es) && m <= n < |ss| && ss[0].rec == FRESH && OwnVlans(ss[m].port) && NoEditsBetween(es, m, n)
    ensures OwnVlans(ss[n].port) && ss[n].port.saved == ss[m].port.saved
  {
    if m < n {
      StaysOwn(ss, es, m, n - 1);
      AlwaysControl(ss, es, n - 1);
      StepKnown(ss[n - 1], es[n - 1]);
    }
  }

  /** A VLAN event that succeeds, whatever others have done to the VFs before. */
  ghost predicate TakesOver(s: State, e: Event) {
    e.VlanEvent? && VlanStep(s, e.listOrder, e.fails).ok
  }

  /** Somebody has put the VF on a VLAN that is neither the recorded nor the reserved one. */
  predicate Edited(port: Port, i: int)
    requires i in port.vf && i in port.saved
  {
    port.vf[i].vlan != RESERVED_VLAN && port.vf[i].vlan != port.saved[i]
  }

  /** A VLAN event succeeds exactly if the listing does and no call for an edited VF fails; without a listing
      nothing changes. */
  lemma {:induction false} VlanSucceeds(s: State, order: seq<int>, fails: set<Call>)
    requires Known(s.port) && IsOrder(order, s.port.vf.Keys)
    ensures VlanStep(s, order, fails).ok <==>
            && ListPf !in fails
            && forall i :: i in s.port.vf && i in s.port.saved && Edited(s.port, i) ==> VfSucceeds(i, fails)
    ensures ListPf in fails ==> VlanStep(s, order, fails).s == s
  {
    assert forall k :: 0 <= k < |order| ==> order[k] in order;
    var listing := Listing(s.port.vf, order);
    TakeOverSucceeds(s.port.saved, s.port.vf, s.rec.auth, listing, fails);
    forall i | i in s.port.vf ensures exists k :: 0 <= k < |order| && order[k] == i {
      assert i in order;
    }
    assert forall k :: 0 <= k < |listing| ==> listing[k] == Listed(order[k], s.port.vf[order[k]].vlan);
    assert forall k :: 0 <= k < |listing| ==> (Changed(s.port.saved, listing[k]) <==> Edited(s.port, order[k]));
  }

  /** What a VLAN event that succeeds makes of one VF: a VLAN listed that is neither the recorded nor the reserved
      one is recorded and the VF is configured; otherwise nothing happens to it. */
  lemma {:induction false} TakenOver(s: State, e: Event, i: int)
    requires Known(s.port) && Enabled(s, e) && TakesOver(s, e) && i in s.port.vf
    ensures var r := Step(s, e);
            && r.rec == s.rec && i in r.port.vf && i in r.port.saved
            && if Edited(s.port, i)
               then r.port.saved[i] == s.port.vf[i].vlan && r.port.vf[i] == Target(s.rec.auth, s.port.vf[i].vlan)
               else r.port.saved[i] == s.port.saved[i] && r.port.vf[i] == s.port.vf[i]
  {
    var order := e.listOrder;
    assert forall k :: 0 <= k < |order| ==> order[k] in order;
    var listing := Listing(s.port.vf, order);
    TakeOverOk(s.port.saved, s.port.vf, s.rec.auth, listing, e.fails);
    assert i in order;
    var k :| 0 <= k < |order| && order[k] == i;
    assert listing[k] == Listed(i, s.port.vf[i].vlan);
  }

  lemma {:induction false} TakesOverOwn(s: State, e: Event)
    requires Known(s.port) && Enabled(s, e) && TakesOver(s, e)
    ensures OwnVlans(Step(s, e).port)
  {
    var r := Step(s, e);
    VlanSaved(s, e.listOrder, e.fails);
    forall i | i in r.port.vf
      ensures r.port.vf[i].vlan == RESERVED_VLAN || r.port.vf[i].vlan == r.port.saved[i]
    {
      assert i in s.port.vf by {
        assert r.port.vf.Keys == r.port.saved.Keys == s.port.saved.Keys;
      }
      TakenOver(s, e, i);
    }
  }

  /** No feedback: after any earlier edits and failures, from a VLAN event that succeeds until the next outside
      edit, however often VFs are parked and restored in between and whatever fails, no saved VLAN changes,
      every VF carries its own VLAN or the reserved one, and every further VLAN event changes nothing and
      succeeds if the listing does. */
  lemma {:induction false} VlansSettle(ss: seq<State>, es: seq<Event>, m: nat, n: nat)
    requires Run(ss, es) && m < n < |ss| && ss[0].rec == FRESH && Known(ss[0].port)
    requires TakesOver(ss[m], es[m]) && NoEditsBetween(es, m, n)
    ensures OwnVlans(ss[n].port) && ss[n].port.saved == ss[m + 1].port.saved
    ensures n < |es| && es[n].VlanEvent? ==>
              ss[n + 1] == ss[n] && (VlanStep(ss[n], es[n].listOrder, es[n].fails).ok <==> ListPf !in es[n].fails)
  {
    AlwaysKnown(ss, es, m);
    TakesOverOwn(ss[m], es[m]);
    StaysOwn(ss, es, m + 1, n);
    if n < |es| && es[n].VlanEvent? {
      VlanQuiet(ss[n], es[n].listOrder, es[n].fails);
    }
  }

  /** Without outside edits no saved VLAN ever changes, whatever fails, and every VF carries its own
      VLAN or the reserved one: the monitor never takes its own writes for somebody's edits. */
  lemma {:induction false} SavedVlansStay(ss: seq<State>, es: seq<Event>, n: nat, vf: map<int, Vf>,
                                          tables: map<string, Qdisc>, devs: seq<string>)
    requires Run(ss, es) && n < |ss| && Started(ss[0], vf, tables, devs) && NoOutsideEdits(es)
    ensures ss[n].port.saved == map i | i in vf :: vf[i].vlan
    ensures OwnVlans(ss[n].port)
  {
    StartParks(ss[0], vf, tables, devs);
    StaysOwn(ss, es, 0, n);
  }

  /** Reconfiguring only when the first address comes or the last goes is as good as reconfiguring all
      VFs after every step: that would change nothing. With VF calls that succeed and no outside edits
      every VF is parked while no address is authenticated and has its start-up VLAN otherwise. */
  lemma {:induction false} KernelAgrees(ss: seq<State>, es: seq<Event>, n: nat, vf: map<int, Vf>,
                                        tables: map<string, Qdisc>, devs: seq<string>)
    requires Run(ss, es) && n < |ss| && Started(ss[0], vf, tables, devs)
    requires NoVfFaultsIn(es) && NoOutsideEdits(es)
    ensures var s := ss[n];
            && s.port.vf.Keys == vf.Keys
            && (forall i :: i in vf ==>
                  s.port.vf[i] == if s.rec.addrs == {} then Vf(4095, Disable) else Vf(vf[i].vlan, Auto))
            && (forall order :: IsOrder(order, vf.Keys) ==>
                  ConfigureVfs(s.port.vf, s.rec.addrs != {}, s.port.saved, order, {}) == VfOutcome(s.port.vf, true))
  {
    StartParks(ss[0], vf, tables, devs);
    SavedVlansStay(ss, es, n, vf, tables, devs);
    AlwaysControl(ss, es, n);
    AlwaysCoherent(ss, es, n, true);
    forall order | IsOrder(order, vf.Keys)
      ensures ConfigureVfs(ss[n].port.vf, ss[n].rec.addrs != {}, ss[n].port.saved, order, {}) ==
              VfOutcome(ss[n].port.vf, true)
    {
      ReconfigureIdle(ss[n].port, ss[n].rec.addrs != {}, order);
    }
  }

  lemma {:induction false} ReconfigureIdle(port: Port, auth: bool, order: seq<int>)
    requires Coherent(port, auth, true)
    ensures ConfigureVfs(port.vf, auth, port.saved, order, {}) == VfOutcome(port.vf, true)
  {
    ConfigureVfsSucceeds(port.vf, auth, port.saved, order, {});
    ConfigureVfsOk(port.vf, auth, port.saved, order, {});
    var r := Configured(port.vf, auth, port.saved, order);
    assert forall i :: i in port.vf ==> port.vf[i] == Target(auth, port.saved[i]) && r[i] == port.vf[i];
    assert r == port.vf;
  }

  // ----- after failures -----

  /** A step that reconfigures all VFs: the first address comes, or none is left after a disconnect or after a
      scan that has removed one. */
  ghost predicate Reconfigures(s: State, e: Event) {
    || (e.Connect? && |s.rec.addrs + {e.mac}| == 1)
    || (e.Disconnect? && |s.rec.addrs - {e.mac}| == 0)
    || (e.Scan? && s.rec.addrs != {} && Step(s, e).rec.addrs == {})
  }

  /** A visit that removes the last address restores agreement, and one after it keeps it. */
  lemma {:induction false} VisitRestores(r: Outcome, now: int, mac: Mac, vfOrder: seq<int>, fails: set<Call>)
    requires Control(r.s.rec) && Known(r.s.port) && IsOrder(vfOrder, r.s.port.saved.Keys) && VfCallsSucceed(fails)
    requires r.s.rec.addrs == {} ==> Coherent(r.s.port, false, true)
    ensures var v := ScanVisit(r, now, mac, vfOrder, fails).s;
            v.rec.addrs == {} ==> Coherent(v.port, false, true)
  {
    TrafficPort(r.s.port, |r.s.rec.addrs - {mac}| == 0, false, mac, Drop, vfOrder, fails);
  }

  lemma {:induction false} ScanRestores(s: State, now: int, order: seq<Mac>, vfOrder: seq<int>, fails: set<Call>)
    requires Control(s.rec) && Known(s.port) && IsOrder(vfOrder, s.port.saved.Keys) && VfCallsSucceed(fails)
    requires s.rec.addrs != {}
    ensures var r := ScanStep(s, now, order, vfOrder, fails).s;
            r.rec.addrs == {} ==> Coherent(r.port, false, true)
  {
    if order != [] {
      var n := |order| - 1;
      ScanRestores(s, now, order[..n], vfOrder, fails);
      ScanRecords(s, now, order[..n], vfOrder, fails);
      ScanPort(s, now, order[..n], vfOrder, fails, true);
      VisitRestores(ScanStep(s, now, order[..n], vfOrder, fails), now, order[n], vfOrder, fails);
    }
  }

  /** Whatever has failed before, a step that reconfigures all VFs without VF faults restores agreement. */
  lemma {:induction false} StepRestores(s: State, e: Event)
    requires Control(s.rec) && Known(s.port) && Enabled(s, e) && Reconfigures(s, e) && NoVfFaults(e)
    ensures var r := Step(s, e);
            Coherent(r.port, r.rec.auth, true)
  {
    match e
    case Connect(mac, vfOrder, fails) =>
      TrafficPort(s.port, true, true, mac, Ok, vfOrder, fails);
    case Disconnect(mac, vfOrder, fails) =>
      TrafficPort(s.port, true, false, mac, Drop, vfOrder, fails);
    case Scan(now, order, vfOrder, fails) =>
      ScanRestores(s, now, order, vfOrder, fails);
      ScanRecords(s, now, order, vfOrder, fails);
    case _ =>
  }

  lemma {:induction false} StaysRestored(ss: seq<State>, es: seq<Event>, m: nat, n: nat)
    requires Run(ss, es) && ss[0].rec == FRESH && Known(ss[0].port) && m < n < |ss| && NoEditsBetween(es, m, n)
    requires Reconfigures(ss[m], es[m]) && forall i :: m <= i < n ==> NoVfFaults(es[i])
    ensures Coherent(ss[n].port, ss[n].rec.auth, true)
  {
    AlwaysControl(ss, es, n - 1);
    if m == n - 1 {
      AlwaysKnown(ss, es, m);
      StepRestores(ss[m], es[m]);
    } else {
      StaysRestored(ss, es, m, n - 1);
      StepCoherent(ss[n - 1], es[n - 1], true);
    }
  }

  /** Agreement returns: whatever VF calls have failed and whoever has edited VLANs before, from the first address
      to come or the last to go, by its own disconnect or by a scan, without VF faults every VF is as it should
      be with the VLAN recorded then, until a VF call fails or somebody edits a VLAN again. */
  lemma {:induction false} AgreementReturns(ss: seq<State>, es: seq<Event>, m: nat, n: nat, vf: map<int, Vf>,
                                            tables: map<string, Qdisc>, devs: seq<string>)
    requires Run(ss, es) && Started(ss[0], vf, tables, devs) && m < n < |ss| && NoEditsBetween(es, m, n)
    requires Reconfigures(ss[m], es[m]) && forall i :: m <= i < n ==> NoVfFaults(es[i])
    ensures ss[n].port.vf.Keys == vf.Keys && ss[n].port.saved == ss[m].port.saved && ss[m].port.saved.Keys == vf.Keys
    ensures forall i :: i in vf ==>
              ss[n].port.vf[i] ==
              if ss[n].rec.addrs == {} then Vf(RESERVED_VLAN, Disable) else Vf(ss[m].port.saved[i], Auto)
    ensures NoOutsideEdits(es) ==> ss[m].port.saved == map i | i in vf :: vf[i].vlan
  {
    StartParks(ss[0], vf, tables, devs);
    AlwaysKnown(ss, es, m);
    AlwaysKnown(ss, es, n);
    AlwaysControl(ss, es, n);
    RestoredSaved(ss, es, m, n);
    StaysRestored(ss, es, m, n);
    if NoOutsideEdits(es) {
      SavedVlansStay(ss, es, m, vf, tables, devs);
    }
  }

  lemma {:induction false} RestoredSaved(ss: seq<State>, es: seq<Event>, m: nat, n: nat)
    requires Run(ss, es) && ss[0].rec == FRESH && Known(ss[0].port) && m < n < |ss| && NoEditsBetween(es, m, n)
    requires Reconfigures(ss[m], es[m]) && forall i :: m <= i < n ==> NoVfFaults(es[i])
    ensures ss[n].port.saved == ss[m].port.saved
  {
    AlwaysKnown(ss, es, m);
    AlwaysControl(ss, es, m);
    StepKnown(ss[m], es[m]);
    StaysRestored(ss, es, m, m + 1);
    StaysOwn(ss, es, m + 1, n);
  }

  // ----- outside edits -----

  /** A listing made by an earlier step showed VF `i` with this VLAN. */
  ghost predicate Seen(ss: seq<State>, es: seq<Event>, n: nat, i: int, vlan: int) {
    exists j :: 0 <= j < n && ListedAt(ss, es, j, i, vlan)
  }

  ghost predicate ListedAt(ss: seq<State>, es: seq<Event>, j: nat, i: int, vlan: int) {
    && j < |ss| && j < |es| && es[j].VlanEvent? && ListPf !in es[j].fails
    && i in ss[j].port.vf && ss[j].port.vf[i].vlan == vlan
  }

  /** With arbitrary outside edits and failures, a saved VLAN is the start-up one or one seen in a
      listing, and never the reserved VLAN unless it started so. */
  lemma {:induction false} SavedVlanOrigin(ss: seq<State>, es: seq<Event>, n: nat, vf: map<int, Vf>,
                                           tables: map<string, Qdisc>, devs: seq<string>)
    requires Run(ss, es) && n < |ss| && Started(ss[0], vf, tables, devs)
    ensures ss[n].port.saved.Keys == vf.Keys
    ensures forall i :: i in vf ==>
              var vlan := ss[n].port.saved[i];
              vlan == vf[i].vlan || (vlan != RESERVED_VLAN && Seen(ss, es, n, i, vlan))
  {
    StartParks(ss[0], vf, tables, devs);
    AlwaysKnown(ss, es, n);
    forall i | i in vf
      ensures var vlan := ss[n].port.saved[i];
              vlan == vf[i].vlan || (vlan != RESERVED_VLAN && Seen(ss, es, n, i, vlan))
    {
      SavedOrSeen(ss, es, n, i);
    }
  }

  lemma {:induction false} SavedOrSeen(ss: seq<State>, es: seq<Event>, n: nat, i: int)
    requires Run(ss, es) && n < |ss| && ss[0].rec == FRESH && Known(ss[0].port) && i in ss[0].port.saved
    ensures i in ss[n].port.saved
    ensures var vlan := ss[n].port.saved[i];
            vlan == ss[0].port.saved[i] || (vlan != RESERVED_VLAN && Seen(ss, es, n, i, vlan))
  {
    if n > 0 {
      SavedOrSeen(ss, es, n - 1, i);
      AlwaysControl(ss, es, n - 1);
      AlwaysKnown(ss, es, n - 1);
      NewSavedVlan(ss, es, n - 1, i);
      SeenNext(ss, es, n - 1, i, ss[n].port.saved[i]);
    }
  }

  lemma {:induction false} SeenNext(ss: seq<State>, es: seq<Event>, n: nat, i: int, vlan: int)
    ensures Seen(ss, es, n + 1, i, vlan) <==> Seen(ss, es, n, i, vlan) || ListedAt(ss, es, n, i, vlan)
  {
  }

  /** A saved VLAN changes only to one that the step lists. */
  lemma {:induction false} NewSavedVlan(ss: seq<State>, es: seq<Event>, n: nat, i: int)
    requires Run(ss, es) && n < |es| && Control(ss[n].rec) && Known(ss[n].port) && i in ss[n].port.saved
    ensures i in ss[n + 1].port.saved
    ensures ss[n + 1].port.saved[i] == ss[n].port.saved[i] ||
            (ss[n + 1].port.saved[i] != RESERVED_VLAN && ListedAt(ss, es, n, i, ss[n + 1].port.saved[i]))
  {
    StepKnown(ss[n], es[n]);
    if es[n].VlanEvent? {
      VlanSaved(ss[n], es[n].listOrder, es[n].fails);
    }
  }

  /** An edit the handler does not notice: a VF put on the reserved VLAN while it should have its own, or put
      back on its recorded VLAN while it should be parked. */
  predicate Overlooked(s: State, i: int)
    requires i in s.port.vf && i in s.port.saved
  {
    s.port.saved[i] != RESERVED_VLAN && s.port.vf[i].vlan == if s.rec.auth then RESERVED_VLAN else s.port.saved[i]
  }

  lemma {:induction false} ScanIdle(s: State, now: int, order: seq<Mac>, vfOrder: seq<int>, fails: set<Call>)
    requires Control(s.rec)
    requires s.rec.addrs == {} || ScanStep(s, now, order, vfOrder, fails).s.rec.addrs != {}
    ensures ScanStep(s, now, order, vfOrder, fails).s.port.vf == s.port.vf
  {
    if order != [] {
      var n := |order| - 1;
      ScanRecords(s, now, order, vfOrder, fails);
      ScanRecords(s, now, order[..n], vfOrder, fails);
      ScanIdle(s, now, order[..n], vfOrder, fails);
    }
  }

  /** Between reconfigurations and outside edits nothing happens to the VFs. */
  lemma {:induction false} StepIdle(s: State, e: Event)
    requires Control(s.rec) && OwnVlans(s.port) && Enabled(s, e) && !Reconfigures(s, e) && !e.OutsideVlan?
    ensures Step(s, e).port.vf == s.port.vf && Step(s, e).rec.auth == s.rec.auth
  {
    StepControl(s, e);
    match e
    case Scan(now, order, vfOrder, fails) =>
      ScanIdle(s, now, order, vfOrder, fails);
      ScanRecords(s, now, order, vfOrder, fails);
    case VlanEvent(order, fails) => VlanQuiet(s, order, fails);
    case _ =>
  }

  lemma {:induction false} StaysIdle(ss: seq<State>, es: seq<Event>, m: nat, n: nat)
    requires Run(ss, es) && m <= n < |ss| && ss[0].rec == FRESH && OwnVlans(ss[m].port) && NoEditsBetween(es, m, n)
    requires forall j :: m <= j < n ==> !Reconfigures(ss[j], es[j])
    ensures ss[n].port.vf == ss[m].port.vf && ss[n].rec.auth == ss[m].rec.auth
  {
    if m < n {
      StaysIdle(ss, es, m, n - 1);
      StaysOwn(ss, es, m, n - 1);
      AlwaysControl(ss, es, n - 1);
      StepIdle(ss[n - 1], es[n - 1]);
    }
  }

  /** Which outside edits a VLAN event makes good: after one that succeeds, and until the next reconfiguration of
      all VFs or the next edit, a VF has the VLAN it should have exactly if its edit is not an overlooked one. */
  lemma {:induction false} EditsMadeGood(ss: seq<State>, es: seq<Event>, m: nat, n: nat, i: int)
    requires Run(ss, es) && m < n < |ss| && ss[0].rec == FRESH && Known(ss[0].port)
    requires TakesOver(ss[m], es[m]) && NoEditsBetween(es, m, n) && i in ss[m].port.vf && i in ss[m].port.saved
    requires forall j :: m < j < n ==> !Reconfigures(ss[j], es[j])
    ensures i in ss[n].port.vf && i in ss[n].port.saved
    ensures ss[n].port.vf[i].vlan == Target(ss[n].rec.auth, ss[n].port.saved[i]).vlan <==> !Overlooked(ss[m], i)
  {
    AlwaysKnown(ss, es, m);
    TakenOver(ss[m], es[m], i);
    VlansSettle(ss, es, m, m + 1);
    VlansSettle(ss, es, m, n);
    StaysIdle(ss, es, m + 1, n);
  }

  /** With arbitrary outside edits, a VF's link is up exactly while some address is authenticated. */
  lemma {:induction false} LinksAgree(ss: seq<State>, es: seq<Event>, n: nat, vf: map<int, Vf>,
                                      tables: map<string, Qdisc>, devs: seq<string>)
    requires Run(ss, es) && n < |ss| && Started(ss[0], vf, tables, devs) && NoVfFaultsIn(es)
    ensures ss[n].port.vf.Keys == vf.Keys
    ensures forall i :: i in vf ==> ss[n].port.vf[i].link == if ss[n].rec.addrs == {} then Disable else Auto
  {
    StartParks(ss[0], vf, tables, devs);
    AlwaysControl(ss, es, n);
    AlwaysKnown(ss, es, n);
    AlwaysCoherent(ss, es, n, false);
  }

  lemma {:induction false} StopCoherent(s: State, vfOrder: seq<int>, fails: set<Call>)
    requires Coherent(s.port, s.rec.auth, true) && IsOrder(vfOrder, s.port.saved.Keys) && VfCallsSucceed(fails)
    ensures var r := StopStep(s, vfOrder, fails);
            r.ok && r.s.rec.auth && r.s.port.saved == s.port.saved && Coherent(r.s.port, true, true)
  {
    if !s.rec.auth {
      ConfigureVfsSucceeds(s.port.vf, true, s.port.saved, vfOrder, fails);
      ConfigureVfsOk(s.port.vf, true, s.port.saved, vfOrder, fails);
    }
  }

  /** Round trip: shutting down after any run without VF faults and outside edits leaves every VF with
      its start-up VLAN and link state `Auto`. */
  lemma {:induction false} StopRestores(ss: seq<State>, es: seq<Event>, vf: map<int, Vf>, tables: map<string, Qdisc>,
                                        devs: seq<string>, vfOrder: seq<int>, fails: set<Call>)
    requires Run(ss, es) && Started(ss[0], vf, tables, devs) && NoVfFaultsIn(es) && NoOutsideEdits(es)
    requires IsOrder(vfOrder, vf.Keys) && VfCallsSucceed(fails)
    ensures var r := StopStep(ss[|es|], vfOrder, fails);
            r.ok && r.s.rec.auth && r.s.port.vf == map i | i in vf :: Vf(vf[i].vlan, Auto)
  {
    var s := ss[|es|];
    StartParks(ss[0], vf, tables, devs);
    SavedVlansStay(ss, es, |es|, vf, tables, devs);
    AlwaysCoherent(ss, es, |es|, true);
    StopCoherent(s, vfOrder, fails);
  }
}
