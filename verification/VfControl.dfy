/** The kernel's view of the virtual functions of one PF, and how the monitor drives it: parking
    every VF on the reserved VLAN while nobody is authenticated, restoring its own VLAN otherwise. */
module VfControl {
  import opened FilterTable

  const RESERVED_VLAN := 4095

  datatype LinkState = Auto | Enable | Disable

  datatype Vf = Vf(vlan: int, link: LinkState)

  /** The fallible calls a handler makes, named so that the environment can choose which fail. */
  datatype Call =
    | ListPf
    | FindPf(vf: int)
    | SetVlan(vf: int)
    | SetLink(vf: int)
    | LookUpTc(mac: Mac)
    | LookUpDevs(mac: Mac)
    | SetFilter(dev: string, mac: Mac)

  /** `order` visits every element of `s` once: one way of ranging over a Go map with these keys. */
  ghost predicate IsOrder<T(!new)>(order: seq<T>, s: set<T>) {
    && (forall x :: x in order <==> x in s)
    && (forall i, j :: 0 <= i < j < |order| ==> order[i] != order[j])
  }

  datatype VfOutcome = VfOutcome(vf: map<int, Vf>, ok: bool)

  function Target(auth: bool, saved: int): Vf {
    if auth then Vf(saved, Auto) else Vf(RESERVED_VLAN, Disable)
  }

  /** Sets VLAN and link state of one VF, in this order; the first failing call ends it. */
  function ConfigureVf(vf: map<int, Vf>, i: int, auth: bool, saved: int, fails: set<Call>): VfOutcome {
    var target := Target(auth, saved);
    if FindPf(i) in fails || SetVlan(i) in fails || i !in vf then VfOutcome(vf, false)
    else if SetLink(i) in fails then VfOutcome(vf[i := vf[i].(vlan := target.vlan)], false)
    else VfOutcome(vf[i := target], true)
  }

  /** Configures the VFs of `order` one after the other until one fails. */
  function ConfigureVfs(vf: map<int, Vf>, auth: bool, saved: map<int, int>, order: seq<int>,
                        fails: set<Call>): VfOutcome
  {
    if order == [] then VfOutcome(vf, true)
    else
      var n := |order| - 1;
      var r := ConfigureVfs(vf, auth, saved, order[..n], fails);
      if r.ok && order[n] in saved then ConfigureVf(r.vf, order[n], auth, saved[order[n]], fails) else r
  }

  /** One line of a link listing. */
  datatype Listed = Listed(id: int, vlan: int)

  function Listing(vf: map<int, Vf>, order: seq<int>): seq<Listed>
    requires forall k :: 0 <= k < |order| ==> order[k] in vf
  {
    seq(|order|, k requires 0 <= k < |order| => Listed(order[k], vf[order[k]].vlan))
  }

  datatype ListOutcome = ListOutcome(saved: map<int, int>, vf: map<int, Vf>, ok: bool)

  /** A listed VF whose VLAN someone else has changed. */
  predicate Changed(saved: map<int, int>, l: Listed) {
    l.id in saved && l.vlan != RESERVED_VLAN && saved[l.id] != l.vlan
  }

  /** Takes over the VLANs of a listing, reconfiguring each VF whose VLAN it changes. */
  function TakeOver(saved: map<int, int>, vf: map<int, Vf>, auth: bool, listing: seq<Listed>,
                    fails: set<Call>): ListOutcome
  {
    if listing == [] then ListOutcome(saved, vf, true)
    else
      var n := |listing| - 1;
      var r := TakeOver(saved, vf, auth, listing[..n], fails);
      var l := listing[n];
      if !r.ok || !Changed(r.saved, l) then r
      else
        var c := ConfigureVf(r.vf, l.id, auth, l.vlan, fails);
        ListOutcome(r.saved[l.id := l.vlan], c.vf, c.ok)
  }

  // ----- configuring all VFs -----

  /** No call that touches a VF fails. */
  ghost predicate VfCallsSucceed(fails: set<Call>) {
    forall i :: FindPf(i) !in fails && SetVlan(i) !in fails && SetLink(i) !in fails
  }

  ghost function Configured(vf: map<int, Vf>, auth: bool, saved: map<int, int>, order: seq<int>): map<int, Vf> {
    map i | i in vf :: if i in order && i in saved then Target(auth, saved[i]) else vf[i]
  }

  lemma {:induction false} ConfiguredSnoc(vf: map<int, Vf>, auth: bool, saved: map<int, int>, order: seq<int>)
    requires order != []
    ensures var n := |order| - 1;
            var head := Configured(vf, auth, saved, order[..n]);
            Configured(vf, auth, saved, order) ==
            if order[n] in saved && order[n] in vf then head[order[n] := Target(auth, saved[order[n]])] else head
  {
  }

  /** Success means that every visited VF has its target configuration and no other VF has changed. */
  lemma {:induction false} ConfigureVfsOk(vf: map<int, Vf>, auth: bool, saved: map<int, int>, order: seq<int>,
                                          fails: set<Call>)
    requires ConfigureVfs(vf, auth, saved, order, fails).ok
    ensures ConfigureVfs(vf, auth, saved, order, fails).vf == Configured(vf, auth, saved, order)
    ensures forall i :: i in order && i in saved ==> i in vf && VfSucceeds(i, fails)
  {
    if order != [] {
      var n := |order| - 1;
      ConfigureVfsOk(vf, auth, saved, order[..n], fails);
      ConfiguredSnoc(vf, auth, saved, order);
      assert forall i :: i in order ==> i in order[..n] || i == order[n];
    }
  }

  /** No call for VF `i` fails. */
  predicate VfSucceeds(i: int, fails: set<Call>) {
    FindPf(i) !in fails && SetVlan(i) !in fails && SetLink(i) !in fails
  }

  /** The configuration succeeds exactly if no call for a visited VF fails. */
  lemma {:induction false} ConfigureVfsSucceeds(vf: map<int, Vf>, auth: bool, saved: map<int, int>, order: seq<int>,
                                                fails: set<Call>)
    requires saved.Keys <= vf.Keys
    ensures ConfigureVfs(vf, auth, saved, order, fails).ok <==>
            forall i :: i in order && i in saved ==> VfSucceeds(i, fails)
  {
    if order != [] {
      var n := |order| - 1;
      ConfigureVfsSucceeds(vf, auth, saved, order[..n], fails);
      ConfigureVfsBounds(vf, auth, saved, order[..n], fails);
      assert order == order[..n] + [order[n]];
    }
  }

  /** A VF on its way from `before` to `target`: the VLAN is set first, the link state after it. */
  predicate OnTheWay(before: Vf, target: Vf, now: Vf) {
    now == before || now == before.(vlan := target.vlan) || now == target
  }

  /** Whatever fails, every VF is somewhere on its way, so no link state is changed before the VLAN. */
  lemma {:induction false} ConfigureVfsBounds(vf: map<int, Vf>, auth: bool, saved: map<int, int>, order: seq<int>,
                                              fails: set<Call>)
    ensures var r := ConfigureVfs(vf, auth, saved, order, fails).vf;
            && r.Keys == vf.Keys
            && forall i :: i in vf ==>
                 if i in saved then OnTheWay(vf[i], Target(auth, saved[i]), r[i]) else r[i] == vf[i]
  {
    if order != [] {
      ConfigureVfsBounds(vf, auth, saved, order[..|order| - 1], fails);
    }
  }

  /** What failing calls leave of a VF: its VLAN is set unless finding the PF or setting it failed. */
  function LeftBy(before: Vf, target: Vf, i: int, fails: set<Call>): Vf {
    if FindPf(i) in fails || SetVlan(i) in fails then before else before.(vlan := target.vlan)
  }

  /** A failure leaves the VFs before some place of the order configured, the VF at that place, which is the first
      with a failing call, as far as its calls succeed, and all others as they were. */
  lemma {:induction false} ConfigureVfsStops(vf: map<int, Vf>, auth: bool, saved: map<int, int>, order: seq<int>,
                                             fails: set<Call>) returns (k: nat)
    requires !ConfigureVfs(vf, auth, saved, order, fails).ok
    ensures k < |order| && order[k] in saved && !(order[k] in vf && VfSucceeds(order[k], fails))
    ensures forall j :: 0 <= j < k && order[j] in saved ==> order[j] in vf && VfSucceeds(order[j], fails)
    ensures var done := Configured(vf, auth, saved, order[..k]);
            var i := order[k];
            ConfigureVfs(vf, auth, saved, order, fails).vf ==
            if i in vf then done[i := LeftBy(done[i], Target(auth, saved[i]), i, fails)] else done
  {
    var n := |order| - 1;
    if ConfigureVfs(vf, auth, saved, order[..n], fails).ok {
      ConfigureVfsOk(vf, auth, saved, order[..n], fails);
      assert forall j :: 0 <= j < n ==> order[j] in order[..n];
      k := n;
    } else {
      k := ConfigureVfsStops(vf, auth, saved, order[..n], fails);
      assert order[..n][..k] == order[..k];
      assert forall j :: 0 <= j < n ==> order[..n][j] == order[j];
    }
  }

  // ----- taking over a listing -----

  /** Distinct ids, as in any link listing. */
  ghost predicate DistinctIds(listing: seq<Listed>) {
    forall i, j :: 0 <= i < j < |listing| ==> listing[i].id != listing[j].id
  }

  ghost predicate Lists(listing: seq<Listed>, id: int, vlan: int) {
    exists k :: 0 <= k < |listing| && listing[k] == Listed(id, vlan)
  }

  ghost predicate ListsChange(saved: map<int, int>, listing: seq<Listed>, id: int) {
    exists k :: 0 <= k < |listing| && listing[k].id == id && Changed(saved, listing[k])
  }

  /** Whatever fails, a saved VLAN is the old one or a listed one that is not the reserved VLAN. */
  lemma {:induction false} TakeOverSaved(saved: map<int, int>, vf: map<int, Vf>, auth: bool, listing: seq<Listed>,
                                         fails: set<Call>)
    ensures var r := TakeOver(saved, vf, auth, listing, fails);
            && r.saved.Keys == saved.Keys
            && r.vf.Keys == vf.Keys
            && forall i :: i in saved && r.saved[i] != saved[i] ==>
                 r.saved[i] != RESERVED_VLAN && Lists(listing, i, r.saved[i])
  {
    if listing != [] {
      var n := |listing| - 1;
      TakeOverSaved(saved, vf, auth, listing[..n], fails);
      assert listing[n] == Listed(listing[n].id, listing[n].vlan);
      forall i | i in saved && Lists(listing[..n], i, TakeOver(saved, vf, auth, listing[..n], fails).saved[i])
        ensures Lists(listing, i, TakeOver(saved, vf, auth, listing[..n], fails).saved[i])
      {
        var v := TakeOver(saved, vf, auth, listing[..n], fails).saved[i];
        var k :| 0 <= k < n && listing[..n][k] == Listed(i, v);
        assert listing[k] == Listed(i, v);
      }
    }
  }

  /** A listing without outside changes changes nothing and makes no call at all. */
  lemma {:induction false} TakeOverQuiet(saved: map<int, int>, vf: map<int, Vf>, auth: bool, listing: seq<Listed>,
                                         fails: set<Call>)
    requires forall k :: 0 <= k < |listing| ==> !Changed(saved, listing[k])
    ensures TakeOver(saved, vf, auth, listing, fails) == ListOutcome(saved, vf, true)
  {
    if listing != [] {
      TakeOverQuiet(saved, vf, auth, listing[..|listing| - 1], fails);
    }
  }

  /** After success every listed VF that had changed carries its listed VLAN in the records and its
      target configuration in the kernel; all others are as before. */
  lemma {:induction false} TakeOverOk(saved: map<int, int>, vf: map<int, Vf>, auth: bool, listing: seq<Listed>,
                                      fails: set<Call>)
    requires DistinctIds(listing)
    requires TakeOver(saved, vf, auth, listing, fails).ok
    ensures var r := TakeOver(saved, vf, auth, listing, fails);
            && r.saved.Keys == saved.Keys && r.vf.Keys == vf.Keys
            && (forall k :: 0 <= k < |listing| && Changed(saved, listing[k]) ==>
                 var l := listing[k];
                 r.saved[l.id] == l.vlan && l.id in vf && r.vf[l.id] == Target(auth, l.vlan))
            && (forall i :: i in saved && !ListsChange(saved, listing, i) ==> r.saved[i] == saved[i])
            && (forall i :: i in vf && !ListsChange(saved, listing, i) ==> r.vf[i] == vf[i])
  {
    if listing != [] {
      var n := |listing| - 1;
      var head := listing[..n];
      TakeOverOk(saved, vf, auth, head, fails);
      assert forall k :: 0 <= k < n ==> head[k] == listing[k];
      var r := TakeOver(saved, vf, auth, head, fails);
      var l := listing[n];
      assert l.id in saved ==> r.saved[l.id] == saved[l.id];
      assert Changed(r.saved, l) <==> Changed(saved, l);
    }
  }

  /** A take-over succeeds exactly if no call fails for a VF that it has to configure. */
  lemma {:induction false} TakeOverSucceeds(saved: map<int, int>, vf: map<int, Vf>, auth: bool, listing: seq<Listed>,
                                            fails: set<Call>)
    requires DistinctIds(listing) && saved.Keys <= vf.Keys
    ensures TakeOver(saved, vf, auth, listing, fails).ok <==>
            forall k :: 0 <= k < |listing| && Changed(saved, listing[k]) ==> VfSucceeds(listing[k].id, fails)
  {
    if listing != [] {
      var n := |listing| - 1;
      var head := listing[..n];
      TakeOverSucceeds(saved, vf, auth, head, fails);
      assert forall k :: 0 <= k < n ==> head[k] == listing[k];
      if TakeOver(saved, vf, auth, head, fails).ok {
        TakeOverOk(saved, vf, auth, head, fails);
        assert Changed(TakeOver(saved, vf, auth, head, fails).saved, listing[n]) <==> Changed(saved, listing[n]);
      }
    }
  }

  /** A failure leaves everything listed before some place taken over, the VLAN at that place recorded although its
      VF, which is the first with a failing call, is configured only as far as the calls succeed, and everything
      behind it as it was. */
  lemma {:induction false} TakeOverStops(saved: map<int, int>, vf: map<int, Vf>, auth: bool, listing: seq<Listed>,
                                         fails: set<Call>) returns (k: nat)
    requires DistinctIds(listing) && saved.Keys <= vf.Keys && !TakeOver(saved, vf, auth, listing, fails).ok
    ensures k < |listing| && Changed(saved, listing[k]) && !VfSucceeds(listing[k].id, fails)
    ensures var head := TakeOver(saved, vf, auth, listing[..k], fails);
            var r := TakeOver(saved, vf, auth, listing, fails);
            var l := listing[k];
            && head.ok && l.id in head.vf && r.saved == head.saved[l.id := l.vlan]
            && r.vf == head.vf[l.id := LeftBy(head.vf[l.id], Target(auth, l.vlan), l.id, fails)]
  {
    var n := |listing| - 1;
    var head := TakeOver(saved, vf, auth, listing[..n], fails);
    if head.ok {
      k := n;
      TakeOverOk(saved, vf, auth, listing[..n], fails);
      assert forall j :: 0 <= j < n ==> listing[..n][j] == listing[j];
      assert Changed(head.saved, listing[n]) <==> Changed(saved, listing[n]);
    } else {
      k := TakeOverStops(saved, vf, auth, listing[..n], fails);
      assert listing[..n][..k] == listing[..k];
    }
  }

  /** The handler does not feed itself: after a successful call on the full listing of the kernel's
      VFs, in whatever order, a second call on a fresh listing changes nothing and makes no call. */
  lemma {:induction false} NoFeedback(saved: map<int, int>, vf: map<int, Vf>, auth: bool, order: seq<int>,
                                      again: seq<int>, fails: set<Call>, failsAgain: set<Call>)
    requires IsOrder(order, vf.Keys) && IsOrder(again, vf.Keys)
    requires TakeOver(saved, vf, auth, Listing(vf, order), fails).ok
    ensures var r := TakeOver(saved, vf, auth, Listing(vf, order), fails);
            && r.vf.Keys == vf.Keys
            && TakeOver(r.saved, r.vf, auth, Listing(r.vf, again), failsAgain) == ListOutcome(r.saved, r.vf, true)
  {
    var first := Listing(vf, order);
    var r := TakeOver(saved, vf, auth, first, fails);
    TakeOverOk(saved, vf, auth, first, fails);
    var second := Listing(r.vf, again);
    forall k | 0 <= k < |second| ensures !Changed(r.saved, second[k]) {
      var i := again[k];
      assert i in again && i in order;
      var j :| 0 <= j < |order| && order[j] == i;
      assert first[j] == Listed(i, vf[i].vlan);
    }
    TakeOverQuiet(r.saved, r.vf, auth, second, failsAgain);
  }
}
