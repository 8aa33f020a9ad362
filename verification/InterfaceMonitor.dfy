/** The monitor object. Its methods are the critical sections of the program; each takes exactly the
    step of the state machine, so what is proved of runs holds of any interleaving of calls. */
module HostapMonitor {
  import opened FilterTable
  import opened VfControl
  import opened MonitorSteps
  import opened PortSafety
  import opened Sriov
  import opened TrafficControl

  class InterfaceMonitor {
    const PfInfo: PFInfo
    var deauthRequests: map<Mac, int>
    var operState: OperState

    ghost predicate Valid()
      reads this, PfInfo
    {
      PfInfo.Valid()
    }

    ghost function Model(): State
      reads this, PfInfo, PfInfo.VFs.Values, PfInfo.NetLinkMgr
    {
      State(Records(PfInfo.AuthenticatedAddrs, deauthRequests, PfInfo.Authenticated, operState), PfInfo.Model())
    }

    constructor (pf: PFInfo)
      requires pf.Valid()
      ensures PfInfo == pf && deauthRequests == map[] && operState == Unknown && Valid()
    {
      PfInfo, deauthRequests, operState := pf, map[], Unknown;
    }

    /** Null when the VFs could not be listed or parked, or hostapd could not be attached to: then the monitor is
        stopped again, before any event has come in, with its own order of VFs and failing calls. */
    static method StartMonitor(kernel: Kernel, listOrder: seq<int>, vfOrder: seq<int>, fails: set<Call>,
                               attached: bool, stopOrder: seq<int>, stopFails: set<Call>)
      returns (m: InterfaceMonitor?)
      requires IsOrder(listOrder, kernel.vf.Keys) && IsOrder(vfOrder, kernel.vf.Keys)
      requires IsOrder(stopOrder, kernel.vf.Keys)
      modifies kernel`vf
      ensures var r := StartStep(old(kernel.vf), kernel.tables, kernel.devs, vfOrder, fails);
              && (m != null <==> r.ok && attached)
              && (r.ok <==> ListPf !in fails && forall i :: i in old(kernel.vf) ==> VfSucceeds(i, fails))
              && kernel.vf == (if r.ok && !attached then StopStep(r.s, stopOrder, stopFails).s else r.s).port.vf
              && (m != null ==> fresh(m) && fresh(m.PfInfo) && m.PfInfo.NetLinkMgr == kernel && m.Valid())
              && (m != null ==> m.Model() == r.s)
    {
      StartSucceeds(kernel.vf, kernel.tables, kernel.devs, vfOrder, fails);
      m := Park(kernel, listOrder, vfOrder, fails);
      if m != null && !attached {
        assert m.PfInfo.VFs.Keys == m.Model().port.saved.Keys == old(kernel.vf).Keys;
        var _ := m.StopMonitor(stopOrder, stopFails);
        m := null;
      }
    }

    static method Park(kernel: Kernel, listOrder: seq<int>, vfOrder: seq<int>, fails: set<Call>)
      returns (m: InterfaceMonitor?)
      requires IsOrder(listOrder, kernel.vf.Keys) && IsOrder(vfOrder, kernel.vf.Keys)
      modifies kernel`vf
      ensures var r := StartStep(old(kernel.vf), kernel.tables, kernel.devs, vfOrder, fails);
              && (m != null <==> r.ok)
              && kernel.vf == r.s.port.vf
              && (m != null ==> fresh(m) && fresh(m.PfInfo) && m.PfInfo.NetLinkMgr == kernel && m.Valid())
              && (m != null ==> m.Model() == r.s)
    {
      ghost var vf0 := kernel.vf;
      var pf, ok := PFInfo.GetSriovPFInfo(kernel, listOrder, fails);
      if !ok {
        return null;
      }
      assert pf.VFs.Keys == pf.Saved().Keys == vf0.Keys;
      ok := pf.ConfigureVlanStateForVFs(vfOrder, fails);
      assert Outcome(State(FRESH, pf.Model()), ok) == StartStep(vf0, kernel.tables, kernel.devs, vfOrder, fails);
      if !ok {
        return null;
      }
      m := new InterfaceMonitor(pf);
    }

    method HandleAuthenticateEvent(mac: Mac, vfOrder: seq<int>, fails: set<Call>) returns (ok: bool)
      requires Valid() && IsOrder(vfOrder, PfInfo.VFs.Keys)
      modifies this`deauthRequests, PfInfo`AuthenticatedAddrs, PfInfo`Authenticated, PfInfo.NetLinkMgr
      ensures Valid() && Outcome(Model(), ok) == ConnectStep(old(Model()), mac, vfOrder, fails)
    {
      PfInfo.AuthenticatedAddrs := PfInfo.AuthenticatedAddrs + {mac};
      deauthRequests := deauthRequests - {mac};
      ok := Admit(mac, vfOrder, fails);
    }

    method Admit(mac: Mac, vfOrder: seq<int>, fails: set<Call>) returns (ok: bool)
      requires Valid() && IsOrder(vfOrder, PfInfo.VFs.Keys)
      modifies PfInfo`Authenticated, PfInfo.NetLinkMgr
      ensures Valid() && Outcome(Model(), ok) == AllowTraffic(old(Model()), mac, vfOrder, fails)
    {
      ok := AllowTrafficFromMac(PfInfo, mac, vfOrder, fails);
    }

    method HandleDeAuthenticateEvent(mac: Mac, vfOrder: seq<int>, fails: set<Call>) returns (ok: bool)
      requires Valid() && IsOrder(vfOrder, PfInfo.VFs.Keys)
      modifies this`deauthRequests, PfInfo`AuthenticatedAddrs, PfInfo`Authenticated, PfInfo.NetLinkMgr
      ensures Valid() && Outcome(Model(), ok) == DisconnectStep(old(Model()), mac, vfOrder, fails)
    {
      PfInfo.AuthenticatedAddrs := PfInfo.AuthenticatedAddrs - {mac};
      deauthRequests := deauthRequests - {mac};
      ok := Refuse(mac, vfOrder, fails);
    }

    method Refuse(mac: Mac, vfOrder: seq<int>, fails: set<Call>) returns (ok: bool)
      requires Valid() && IsOrder(vfOrder, PfInfo.VFs.Keys)
      modifies PfInfo`Authenticated, PfInfo.NetLinkMgr
      ensures Valid() && Outcome(Model(), ok) == DenyTraffic(old(Model()), mac, vfOrder, fails)
    {
      ok := DenyTrafficFromMac(PfInfo, mac, vfOrder, fails);
    }

    /** A link update as the event loop treats it first: ignored unless it brings a new state. `order`
        is the order in which the authenticated addresses are visited, `clock` what the clock reads
        when an address is stamped. */
    method HandlePfEventForOpStateChange(oper: OperState, order: seq<Mac>, clock: map<Mac, int>)
      requires Valid() && IsOrder(order, PfInfo.AuthenticatedAddrs) && PfInfo.AuthenticatedAddrs <= clock.Keys
      modifies this
      ensures Valid() && Model() == Step(old(Model()), LinkOper(oper, clock))
    {
      if oper == operState {
        return;
      }
      operState := oper;
      if operState == Down {
        Stamp(order, clock);
      } else if operState == Up {
        Forget(order);
      }
    }

    /** Stamps the addresses of `order`, in this order. */
    method Stamp(order: seq<Mac>, clock: map<Mac, int>)
      requires IsOrder(order, PfInfo.AuthenticatedAddrs) && PfInfo.AuthenticatedAddrs <= clock.Keys
      modifies this`deauthRequests
      ensures deauthRequests == old(deauthRequests) + map a | a in PfInfo.AuthenticatedAddrs && a in clock :: clock[a]
    {
      StampsAll(clock, order, PfInfo.AuthenticatedAddrs);
      for k := 0 to |order|
        invariant deauthRequests == old(deauthRequests) + Stamps(clock, order[..k])
      {
        StampsNext(old(deauthRequests), clock, order, k);
        deauthRequests := deauthRequests[order[k] := clock[order[k]]];
      }
      assert order[..|order|] == order;
    }

    /** Forgets the requests of the addresses of `order`. */
    method Forget(order: seq<Mac>)
      requires IsOrder(order, PfInfo.AuthenticatedAddrs)
      modifies this`deauthRequests
      ensures deauthRequests == old(deauthRequests) - PfInfo.AuthenticatedAddrs
    {
      for k := 0 to |order|
        invariant deauthRequests == old(deauthRequests) - set a | a in order[..k]
      {
        deauthRequests := deauthRequests - {order[k]};
        assert order[..k + 1] == order[..k] + [order[k]];
      }
      assert order[..|order|] == order;
      assert (set a | a in order) == PfInfo.AuthenticatedAddrs;
    }

    method HandlePfEventForVfVlanChange(listOrder: seq<int>, fails: set<Call>)
      requires Valid() && IsOrder(listOrder, PfInfo.NetLinkMgr.vf.Keys)
      modifies PfInfo.NetLinkMgr`vf, PfInfo.VFs.Values
      ensures Valid() && Model() == Step(old(Model()), VlanEvent(listOrder, fails))
    {
      assert forall k :: 0 <= k < |listOrder| ==> listOrder[k] in listOrder;
      var _ := PfInfo.HandlePfEventForVlanChange(listOrder, fails);
    }

    /** One pass of the timeout loop. The clock was read before the pass began. */
    method HandleRequestsTimeout(now: int, addrOrder: seq<Mac>, vfOrder: seq<int>, fails: set<Call>)
      requires Valid() && IsOrder(addrOrder, deauthRequests.Keys) && IsOrder(vfOrder, PfInfo.VFs.Keys)
      modifies this`deauthRequests, PfInfo`AuthenticatedAddrs, PfInfo`Authenticated, PfInfo.NetLinkMgr
      ensures Valid() && Model() == Step(old(Model()), Scan(now, addrOrder, vfOrder, fails))
    {
      ghost var s := Model();
      for k := 0 to |addrOrder|
        invariant Valid() && IsOrder(vfOrder, PfInfo.VFs.Keys)
        invariant ScanStep(s, now, addrOrder[..k], vfOrder, fails) == Outcome(Model(), true)
      {
        var addr := addrOrder[k];
        ScanNext(s, now, addrOrder, vfOrder, fails, k);
        if addr in deauthRequests {
          if now - deauthRequests[addr] < REQUEST_TIMEOUT {
            ScanStuck(s, now, addrOrder, vfOrder, fails, k + 1);
            return;
          }
          Expire(addr, vfOrder, fails);
        }
      }
      assert addrOrder[..|addrOrder|] == addrOrder;
    }

    method Expire(addr: Mac, vfOrder: seq<int>, fails: set<Call>)
      requires Valid() && IsOrder(vfOrder, PfInfo.VFs.Keys)
      modifies this`deauthRequests, PfInfo`AuthenticatedAddrs, PfInfo`Authenticated, PfInfo.NetLinkMgr
      ensures Valid() && Model() == ExpireStep(old(Model()), addr, vfOrder, fails)
    {
      PfInfo.AuthenticatedAddrs := PfInfo.AuthenticatedAddrs - {addr};
      var _ := Refuse(addr, vfOrder, fails);  // a failure is logged
      deauthRequests := deauthRequests - {addr};
    }

    /** Gives parked VFs back. Only as the last call of all. */
    method StopMonitor(vfOrder: seq<int>, fails: set<Call>) returns (ok: bool)
      requires Valid() && IsOrder(vfOrder, PfInfo.VFs.Keys)
      modifies PfInfo`Authenticated, PfInfo.NetLinkMgr`vf
      ensures Valid() && Outcome(Model(), ok) == StopStep(old(Model()), vfOrder, fails)
    {
      ok := true;
      if !PfInfo.Authenticated {
        PfInfo.Authenticated := true;
        ok := PfInfo.ConfigureVlanStateForVFs(vfOrder, fails);
      }
    }
  }

  ghost function Stamps(clock: map<Mac, int>, order: seq<Mac>): map<Mac, int> {
    map a | a in clock && a in order :: clock[a]
  }

  lemma {:induction false} StampsNext(reqs: map<Mac, int>, clock: map<Mac, int>, order: seq<Mac>, k: nat)
    requires k < |order| && order[k] in clock
    ensures reqs + Stamps(clock, order[..k + 1]) == (reqs + Stamps(clock, order[..k]))[order[k] := clock[order[k]]]
  {
  }

  lemma {:induction false} StampsAll(clock: map<Mac, int>, order: seq<Mac>, addrs: set<Mac>)
    requires IsOrder(order, addrs) && addrs <= clock.Keys
    ensures forall k :: 0 <= k < |order| ==> order[k] in clock
    ensures Stamps(clock, order) == map a | a in addrs && a in clock :: clock[a]
  {
  }

  lemma {:induction false} ScanNext(s: State, now: int, order: seq<Mac>, vfOrder: seq<int>, fails: set<Call>, k: nat)
    requires k < |order|
    ensures ScanStep(s, now, order[..k + 1], vfOrder, fails) ==
            ScanVisit(ScanStep(s, now, order[..k], vfOrder, fails), now, order[k], vfOrder, fails)
  {
    assert order[..k + 1][..k] == order[..k];
  }

  lemma {:induction false} ScanStuck(s: State, now: int, order: seq<Mac>, vfOrder: seq<int>, fails: set<Call>, k: nat)
    requires k <= |order| && !ScanStep(s, now, order[..k], vfOrder, fails).ok
    ensures ScanStep(s, now, order, vfOrder, fails) == ScanStep(s, now, order[..k], vfOrder, fails)
    decreases |order|
  {
    if k == |order| {
      assert order[..k] == order;
    } else {
      var n := |order| - 1;
      assert order[..n][..k] == order[..k];
      ScanStuck(s, now, order[..n], vfOrder, fails, k);
    }
  }
}
