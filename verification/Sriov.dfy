/** The records of a PF and its VFs as the monitor keeps them, over the kernel they drive. The
    environment chooses map iteration orders and failing calls, which are parameters here. */
module Sriov {
  import opened FilterTable
  import opened InterfaceInit
  import opened VfControl
  import opened MonitorSteps

  /** The kernel as one PF's monitor sees it through netlink and `tc`: the PF's VFs and all filter tables. */
  class Kernel {
    var vf: map<int, Vf>
    var tables: map<string, Qdisc>
    const devs: seq<string>  // the PF's interface, then those of its VFs

    constructor (vf: map<int, Vf>, tables: map<string, Qdisc>, devs: seq<string>)
      ensures this.vf == vf && this.tables == tables && this.devs == devs
    {
      this.vf, this.tables, this.devs := vf, tables, devs;
    }

    method LinkSetVfVlan(i: int, vlan: int, fails: set<Call>) returns (ok: bool)
      modifies this`vf
      ensures ok <==> SetVlan(i) !in fails && i in old(vf)
      ensures vf == if ok then old(vf)[i := old(vf)[i].(vlan := vlan)] else old(vf)
    {
      ok := SetVlan(i) !in fails && i in vf;
      if ok {
        vf := vf[i := vf[i].(vlan := vlan)];
      }
    }

    method LinkSetVfState(i: int, link: LinkState, fails: set<Call>) returns (ok: bool)
      modifies this`vf
      ensures ok <==> SetLink(i) !in fails && i in old(vf)
      ensures vf == if ok then old(vf)[i := old(vf)[i].(link := link)] else old(vf)
    {
      ok := SetLink(i) !in fails && i in vf;
      if ok {
        vf := vf[i := vf[i].(link := link)];
      }
    }

    method TcFilterReplace(dev: string, mac: Mac, action: Action, fails: set<Call>) returns (ok: bool)
      modifies this`tables
      ensures ok <==> SetFilter(dev, mac) !in fails && dev in old(tables) && old(tables)[dev].Qdisc?
      ensures tables == if ok
                        then
                          var q := old(tables)[dev];
                          old(tables)[dev := q.(filters := Replace(q.filters, Filter(MAC_PREF, SrcMac(mac), action)))]
                        else old(tables)
    {
      ok := SetFilter(dev, mac) !in fails && dev in tables && tables[dev].Qdisc?;
      if ok {
        var q := tables[dev];
        tables := tables[dev := q.(filters := Replace(q.filters, Filter(MAC_PREF, SrcMac(mac), action)))];
      }
    }
  }

  class VFInfo {
    const Parent: PFInfo
    const Index: int
    var Vlan: int

    constructor (parent: PFInfo, index: int, vlan: int)
      ensures Parent == parent && Index == index && Vlan == vlan
    {
      Parent, Index, Vlan := parent, index, vlan;
    }

    method ConfigureVlanState(fails: set<Call>) returns (ok: bool)
      modifies Parent.NetLinkMgr`vf
      ensures VfOutcome(Parent.NetLinkMgr.vf, ok) ==
              ConfigureVf(old(Parent.NetLinkMgr.vf), Index, Parent.Authenticated, Vlan, fails)
    {
      if FindPf(Index) in fails {
        return false;
      }
      var vlan, state;
      if !Parent.Authenticated {
        vlan, state := RESERVED_VLAN, Disable;
      } else {
        vlan, state := Vlan, Auto;
      }
      ok := Parent.NetLinkMgr.LinkSetVfVlan(Index, vlan, fails);
      if ok {
        ok := Parent.NetLinkMgr.LinkSetVfState(Index, state, fails);
      }
    }
  }

  class PFInfo {
    var Authenticated: bool
    var AuthenticatedAddrs: set<Mac>
    var VFs: map<int, VFInfo>
    const NetLinkMgr: Kernel

    constructor (kernel: Kernel)
      ensures NetLinkMgr == kernel && !Authenticated && AuthenticatedAddrs == {} && VFs == map[]
    {
      NetLinkMgr, Authenticated, AuthenticatedAddrs, VFs := kernel, false, {}, map[];
    }

    /** Every VF record points back to this PF and carries the id it is filed under. */
    ghost predicate Valid()
      reads this`VFs
    {
      forall i :: i in VFs ==> VFs[i].Parent == this && VFs[i].Index == i
    }

    ghost function Saved(): map<int, int>
      reads this`VFs, VFs.Values
    {
      map i | i in VFs :: VFs[i].Vlan
    }

    ghost function Model(): Port
      reads this`VFs, VFs.Values, NetLinkMgr
    {
      Port(Saved(), NetLinkMgr.vf, NetLinkMgr.tables, NetLinkMgr.devs)
    }

    /** Reads the VFs from a link listing, in the order the kernel lists them. */
    static method GetSriovPFInfo(kernel: Kernel, listOrder: seq<int>, fails: set<Call>) returns (pf: PFInfo, ok: bool)
      requires IsOrder(listOrder, kernel.vf.Keys)
      ensures fresh(pf) && (forall i :: i in pf.VFs ==> fresh(pf.VFs[i])) && pf.Valid() && pf.NetLinkMgr == kernel
      ensures !pf.Authenticated && pf.AuthenticatedAddrs == {}
      ensures ok <==> ListPf !in fails
      ensures ok ==> pf.Saved() == map i | i in kernel.vf :: kernel.vf[i].vlan
    {
      pf := new PFInfo(kernel);
      ok := ListPf !in fails;
      if !ok {
        return;
      }
      for k := 0 to |listOrder|
        invariant fresh(pf) && (forall i :: i in pf.VFs ==> fresh(pf.VFs[i])) && pf.Valid()
        invariant !pf.Authenticated && pf.AuthenticatedAddrs == {}
        invariant pf.Saved() == VlansOf(kernel.vf, listOrder[..k])
      {
        VlansNext(kernel.vf, listOrder, k);
        pf.AddVf(listOrder[k], kernel.vf[listOrder[k]].vlan);
      }
      VlansAll(kernel.vf, listOrder);
    }

    method AddVf(id: int, vlan: int)
      requires Valid()
      modifies this`VFs
      ensures id in VFs && fresh(VFs[id]) && VFs == old(VFs)[id := VFs[id]] && Valid()
      ensures Saved() == old(Saved())[id := vlan]
    {
      var vf := new VFInfo(this, id, vlan);
      VFs := VFs[id := vf];
    }

    /** `vfOrder` is the order in which the VFs are visited. */
    method ConfigureVlanStateForVFs(vfOrder: seq<int>, fails: set<Call>) returns (ok: bool)
      requires Valid() && IsOrder(vfOrder, VFs.Keys)
      modifies NetLinkMgr`vf
      ensures VfOutcome(NetLinkMgr.vf, ok) == ConfigureVfs(old(NetLinkMgr.vf), Authenticated, Saved(), vfOrder, fails)
    {
      assert forall k :: 0 <= k < |vfOrder| ==> vfOrder[k] in vfOrder;
      ok := ConfigureEach(vfOrder, fails);
    }

    method ConfigureEach(vfOrder: seq<int>, fails: set<Call>) returns (ok: bool)
      requires Valid() && forall k :: 0 <= k < |vfOrder| ==> vfOrder[k] in VFs
      modifies NetLinkMgr`vf
      ensures VfOutcome(NetLinkMgr.vf, ok) == ConfigureVfs(old(NetLinkMgr.vf), Authenticated, Saved(), vfOrder, fails)
    {
      ghost var saved, vf0 := Saved(), NetLinkMgr.vf;
      for k := 0 to |vfOrder|
        invariant ConfigureVfs(vf0, Authenticated, saved, vfOrder[..k], fails) == VfOutcome(NetLinkMgr.vf, true)
      {
        ConfigureNext(vf0, Authenticated, saved, vfOrder, fails, k);
        ok := VFs[vfOrder[k]].ConfigureVlanState(fails);
        if !ok {
          ConfigureStuck(vf0, Authenticated, saved, vfOrder, fails, k + 1);
          return;
        }
      }
      assert vfOrder[..|vfOrder|] == vfOrder;
      ok := true;
    }

    /** Takes over the VLAN of one listed VF. */
    method HandleListed(l: Listed, fails: set<Call>) returns (ok: bool)
      requires Valid()
      modifies NetLinkMgr`vf, VFs.Values
      ensures Valid()
      ensures !Changed(old(Saved()), l) ==> ok && Saved() == old(Saved()) && NetLinkMgr.vf == old(NetLinkMgr.vf)
      ensures Changed(old(Saved()), l) ==>
                && Saved() == old(Saved())[l.id := l.vlan]
                && VfOutcome(NetLinkMgr.vf, ok) == ConfigureVf(old(NetLinkMgr.vf), l.id, Authenticated, l.vlan, fails)
    {
      if l.id in VFs && l.vlan != RESERVED_VLAN && VFs[l.id].Vlan != l.vlan {
        ghost var before := Saved();
        assert forall j :: j in VFs && j != l.id ==> VFs[j] != VFs[l.id];
        VFs[l.id].Vlan := l.vlan;
        assert forall j :: j in VFs && j != l.id ==> Saved()[j] == before[j];
        assert Saved() == before[l.id := l.vlan];
        ok := VFs[l.id].ConfigureVlanState(fails);
      } else {
        ok := true;
      }
    }

    /** Takes over VLANs that others have set, from a listing in the order the kernel lists its VFs. */
    method HandlePfEventForVlanChange(listOrder: seq<int>, fails: set<Call>) returns (ok: bool)
      requires Valid() && IsOrder(listOrder, NetLinkMgr.vf.Keys)
      modifies NetLinkMgr`vf, VFs.Values
      ensures Valid()
      ensures ok ==> ListPf !in fails
      ensures ListPf in fails ==> Saved() == old(Saved()) && NetLinkMgr.vf == old(NetLinkMgr.vf)
      ensures ListPf !in fails ==>
                ListOutcome(Saved(), NetLinkMgr.vf, ok) ==
                TakeOver(old(Saved()), old(NetLinkMgr.vf), Authenticated, Listing(old(NetLinkMgr.vf), listOrder), fails)
    {
      ok := ListPf !in fails;
      if !ok {
        return;
      }
      assert forall k :: 0 <= k < |listOrder| ==> listOrder[k] in listOrder;
      ghost var saved0, vf0 := Saved(), NetLinkMgr.vf;
      var listing := Listing(NetLinkMgr.vf, listOrder);
      for k := 0 to |listing|
        invariant Valid()
        invariant TakeOver(saved0, vf0, Authenticated, listing[..k], fails) == ListOutcome(Saved(), NetLinkMgr.vf, true)
      {
        TakeOverNext(saved0, vf0, Authenticated, listing, fails, k);
        ok := HandleListed(listing[k], fails);
        if !ok {
          TakeOverStuck(saved0, vf0, Authenticated, listing, fails, k + 1);
          return;
        }
      }
      assert listing[..|listing|] == listing;
      ok := true;
    }
  }

  /** The VLANs of the VFs in a listing. */
  ghost function VlansOf(vf: map<int, Vf>, order: seq<int>): map<int, int> {
    map i | i in vf && i in order :: vf[i].vlan
  }

  lemma {:induction false} VlansNext(vf: map<int, Vf>, order: seq<int>, k: nat)
    requires IsOrder(order, vf.Keys) && k < |order|
    ensures order[k] in vf
    ensures VlansOf(vf, order[..k + 1]) == VlansOf(vf, order[..k])[order[k] := vf[order[k]].vlan]
  {
    assert order[k] in order;
    assert order[..k + 1] == order[..k] + [order[k]];
  }

  lemma {:induction false} VlansAll(vf: map<int, Vf>, order: seq<int>)
    requires IsOrder(order, vf.Keys)
    ensures VlansOf(vf, order[..|order|]) == map i | i in vf :: vf[i].vlan
  {
    assert order[..|order|] == order;
  }

  lemma {:induction false} ConfigureNext(vf: map<int, Vf>, auth: bool, saved: map<int, int>, order: seq<int>,
                                         fails: set<Call>, k: nat)
    requires k < |order|
    ensures var r := ConfigureVfs(vf, auth, saved, order[..k], fails);
            ConfigureVfs(vf, auth, saved, order[..k + 1], fails) ==
            if r.ok && order[k] in saved then ConfigureVf(r.vf, order[k], auth, saved[order[k]], fails) else r
  {
    assert order[..k + 1][..k] == order[..k];
  }

  lemma {:induction false} TakeOverNext(saved: map<int, int>, vf: map<int, Vf>, auth: bool, listing: seq<Listed>,
                                        fails: set<Call>, k: nat)
    requires k < |listing|
    ensures var r := TakeOver(saved, vf, auth, listing[..k], fails);
            var l := listing[k];
            TakeOver(saved, vf, auth, listing[..k + 1], fails) ==
            if !r.ok || !Changed(r.saved, l) then r
            else
              var c := ConfigureVf(r.vf, l.id, auth, l.vlan, fails);
              ListOutcome(r.saved[l.id := l.vlan], c.vf, c.ok)
  {
    assert listing[..k + 1][..k] == listing[..k];
  }

  /** Once a VF could not be configured, those behind it are not visited. */
  lemma {:induction false} ConfigureStuck(vf: map<int, Vf>, auth: bool, saved: map<int, int>, order: seq<int>,
                                          fails: set<Call>, k: nat)
    requires k <= |order| && !ConfigureVfs(vf, auth, saved, order[..k], fails).ok
    ensures ConfigureVfs(vf, auth, saved, order, fails) == ConfigureVfs(vf, auth, saved, order[..k], fails)
    decreases |order|
  {
    if k == |order| {
      assert order[..k] == order;
    } else {
      var n := |order| - 1;
      assert order[..n][..k] == order[..k];
      ConfigureStuck(vf, auth, saved, order[..n], fails, k);
    }
  }

  lemma {:induction false} TakeOverStuck(saved: map<int, int>, vf: map<int, Vf>, auth: bool, listing: seq<Listed>,
                                         fails: set<Call>, k: nat)
    requires k <= |listing| && !TakeOver(saved, vf, auth, listing[..k], fails).ok
    ensures TakeOver(saved, vf, auth, listing, fails) == TakeOver(saved, vf, auth, listing[..k], fails)
    decreases |listing|
  {
    if k == |listing| {
      assert listing[..k] == listing;
    } else {
      var n := |listing| - 1;
      assert listing[..n][..k] == listing[..k];
      TakeOverStuck(saved, vf, auth, listing[..n], fails, k);
    }
  }
}
