/** Admitting and refusing the traffic of an address, and putting interfaces under control. */
module TrafficControl {
  import opened FilterTable
  import opened InterfaceInit
  import opened VfControl
  import opened MonitorSteps
  import opened Sriov

  // ----- one address -----

  lemma {:induction false} ReplaceNext(tables: map<string, Qdisc>, devs: seq<string>, mac: Mac, action: Action,
                                       fails: set<Call>, k: nat)
    requires k < |devs|
    ensures var r := ReplaceOn(tables, devs[..k], mac, action, fails);
            var dev := devs[k];
            ReplaceOn(tables, devs[..k + 1], mac, action, fails) ==
            if !r.ok then r
            else if SetFilter(dev, mac) in fails || dev !in r.tables || r.tables[dev].NoQdisc?
            then TableOutcome(r.tables, false)
            else
              var q := r.tables[dev];
              var filters := Replace(q.filters, Filter(MAC_PREF, SrcMac(mac), action));
              TableOutcome(r.tables[dev := q.(filters := filters)], true)
  {
    assert devs[..k + 1][..k] == devs[..k];
  }

  lemma {:induction false} ReplaceStuck(tables: map<string, Qdisc>, devs: seq<string>, mac: Mac, action: Action,
                                        fails: set<Call>, k: nat)
    requires k <= |devs| && !ReplaceOn(tables, devs[..k], mac, action, fails).ok
    ensures ReplaceOn(tables, devs, mac, action, fails) == ReplaceOn(tables, devs[..k], mac, action, fails)
    decreases |devs|
  {
    if k == |devs| {
      assert devs[..k] == devs;
    } else {
      var n := |devs| - 1;
      assert devs[..n][..k] == devs[..k];
      ReplaceStuck(tables, devs[..n], mac, action, fails, k);
    }
  }

  /** The `tc` part that admitting and refusing share. */
  method FilterMac(pf: PFInfo, mac: Mac, action: Action, fails: set<Call>) returns (ok: bool)
    modifies pf.NetLinkMgr`tables
    ensures PortOutcome(pf.Model(), ok) == SetMacFilter(old(pf.Model()), mac, action, fails)
  {
    if LookUpTc(mac) in fails || LookUpDevs(mac) in fails {
      return false;
    }
    ok := FilterDevices(pf.NetLinkMgr, mac, action, fails);
  }

  method FilterDevices(kernel: Kernel, mac: Mac, action: Action, fails: set<Call>) returns (ok: bool)
    modifies kernel`tables
    ensures TableOutcome(kernel.tables, ok) == ReplaceOn(old(kernel.tables), kernel.devs, mac, action, fails)
  {
    var devs := kernel.devs;
    ghost var tables := kernel.tables;
    for k := 0 to |devs|
      invariant ReplaceOn(tables, devs[..k], mac, action, fails) == TableOutcome(kernel.tables, true)
    {
      ReplaceNext(tables, devs, mac, action, fails, k);
      ok := kernel.TcFilterReplace(devs[k], mac, action, fails);
      if !ok {
        ReplaceStuck(tables, devs, mac, action, fails, k + 1);
        return;
      }
    }
    assert devs[..|devs|] == devs;
    ok := true;
  }

  method AllowTrafficFromMac(pf: PFInfo, mac: Mac, vfOrder: seq<int>, fails: set<Call>) returns (ok: bool)
    requires pf.Valid() && IsOrder(vfOrder, pf.VFs.Keys)
    modifies pf`Authenticated, pf.NetLinkMgr
    ensures pf.Valid()
    ensures pf.Authenticated == (old(pf.Authenticated) || |pf.AuthenticatedAddrs| == 1)
    ensures PortOutcome(pf.Model(), ok) ==
            SetTraffic(old(pf.Model()), |pf.AuthenticatedAddrs| == 1, true, mac, Ok, vfOrder, fails)
  {
    if |pf.AuthenticatedAddrs| == 1 {
      pf.Authenticated := true;
      ok := pf.ConfigureVlanStateForVFs(vfOrder, fails);
      if !ok {
        return;
      }
    }
    ok := FilterMac(pf, mac, Ok, fails);
  }

  method DenyTrafficFromMac(pf: PFInfo, mac: Mac, vfOrder: seq<int>, fails: set<Call>) returns (ok: bool)
    requires pf.Valid() && IsOrder(vfOrder, pf.VFs.Keys)
    modifies pf`Authenticated, pf.NetLinkMgr
    ensures pf.Valid()
    ensures pf.Authenticated == (old(pf.Authenticated) && |pf.AuthenticatedAddrs| != 0)
    ensures PortOutcome(pf.Model(), ok) ==
            SetTraffic(old(pf.Model()), |pf.AuthenticatedAddrs| == 0, false, mac, Drop, vfOrder, fails)
  {
    if |pf.AuthenticatedAddrs| == 0 {
      pf.Authenticated := false;
      ok := pf.ConfigureVlanStateForVFs(vfOrder, fails);
      if !ok {
        return;
      }
    }
    ok := FilterMac(pf, mac, Drop, fails);
  }

  // ----- whole interfaces -----

  function QdiscOf(tables: map<string, Qdisc>, dev: string): Qdisc {
    if dev in tables then tables[dev] else NoQdisc
  }

  /** Runs one command on an interface. */
  method Execute(kernel: Kernel, dev: string, c: Command, fault: Fault) returns (ok: bool)
    modifies kernel`tables
    ensures Progress(QdiscOf(kernel.tables, dev), ok) == RunOne(old(QdiscOf(kernel.tables, dev)), c, fault)
    ensures kernel.tables - {dev} == old(kernel.tables) - {dev}
  {
    var r := RunOne(QdiscOf(kernel.tables, dev), c, fault);
    kernel.tables := kernel.tables[dev := r.q];
    ok := r.ok;
  }

  /** A script that has failed stays where it is. */
  lemma {:induction false} RunStuck(q: Qdisc, script: seq<Command>, faults: nat -> Fault, base: nat, k: nat, n: nat)
    requires k <= n <= |script| && !RunTo(q, script, faults, base, k).ok
    ensures RunTo(q, script, faults, base, n) == RunTo(q, script, faults, base, k)
  {
    if k < n {
      RunStuck(q, script, faults, base, k, n - 1);
    }
  }

  method ResetInterface(kernel: Kernel, dev: string, faults: nat -> Fault) returns (ok: bool)
    modifies kernel`tables
    ensures Progress(QdiscOf(kernel.tables, dev), ok) == RunScript(old(QdiscOf(kernel.tables, dev)), RESET, faults, 0)
    ensures kernel.tables - {dev} == old(kernel.tables) - {dev}
  {
    ghost var q := QdiscOf(kernel.tables, dev);
    ok := Execute(kernel, dev, FindTc, faults(0));
    assert RunTo(q, RESET, faults, 0, 1) == Progress(QdiscOf(kernel.tables, dev), ok);
    if ok {
      ok := Execute(kernel, dev, Delete(Ingress), faults(1));
    }
    assert RunTo(q, RESET, faults, 0, 2) == Progress(QdiscOf(kernel.tables, dev), ok);
    if ok {
      ok := Execute(kernel, dev, Delete(Clsact), faults(2));
    }
  }

  /** Installs port filters one by one; a failing one is logged and skipped. `UnprotectPorts` and
      `UnprotectIPv6Ports` differ in the filters only. */
  method UnprotectPorts(kernel: Kernel, dev: string, fs: seq<Filter>, faults: nat -> Fault, base: nat)
    returns (ok: bool)
    modifies kernel`tables
    ensures Progress(QdiscOf(kernel.tables, dev), ok) ==
            RunScript(old(QdiscOf(kernel.tables, dev)), [FindTc] + InstallAll(fs), faults, base)
    ensures kernel.tables - {dev} == old(kernel.tables) - {dev}
  {
    ghost var q, script := QdiscOf(kernel.tables, dev), [FindTc] + InstallAll(fs);
    ok := Execute(kernel, dev, FindTc, faults(base));
    assert RunTo(q, script, faults, base, 1) == Progress(QdiscOf(kernel.tables, dev), ok);
    if !ok {
      RunStuck(q, script, faults, base, 1, |script|);
      return;
    }
    for k := 0 to |fs|
      invariant ok
      invariant RunTo(q, script, faults, base, k + 1) == Progress(QdiscOf(kernel.tables, dev), true)
      invariant kernel.tables - {dev} == old(kernel.tables) - {dev}
    {
      assert script[k + 1] == InstallPort(fs[k]);
      var _ := Execute(kernel, dev, InstallPort(fs[k]), faults(base + k + 1));
    }
  }

  method UnprotectSome(kernel: Kernel, dev: string, fs: seq<Filter>, faults: nat -> Fault, base: nat) returns (ok: bool)
    modifies kernel`tables
    ensures Progress(QdiscOf(kernel.tables, dev), ok) ==
            RunScript(old(QdiscOf(kernel.tables, dev)), PortScript(fs), faults, base)
    ensures kernel.tables - {dev} == old(kernel.tables) - {dev}
  {
    ok := true;
    if |fs| > 0 {
      ok := UnprotectPorts(kernel, dev, fs, faults, base);
    }
  }

  /** The part of `InitInterfaceForEAPTraffic` that only a PF gets. */
  method UnprotectPf(kernel: Kernel, dev: string, tcp: seq<int>, udp: seq<int>, faults: nat -> Fault, base: nat)
    returns (ok: bool)
    modifies kernel`tables
    ensures Progress(QdiscOf(kernel.tables, dev), ok) ==
            RunScript(old(QdiscOf(kernel.tables, dev)), PfScript(tcp, udp), faults, base)
    ensures kernel.tables - {dev} == old(kernel.tables) - {dev}
  {
    var a, b, c := PortFilters(Tcp, tcp), PortFilters(Udp, udp), Ipv6Filters(tcp + udp);
    ghost var q := QdiscOf(kernel.tables, dev);
    ghost var s1 := [Install(PASS_EAPOL)];
    ghost var s2 := s1 + PortScript(a);
    ghost var s3 := s2 + PortScript(b);
    RunConcat(q, s1, PortScript(a), faults, base);
    RunConcat(q, s2, PortScript(b), faults, base);
    RunConcat(q, s3, PortScript(c), faults, base);
    RunSingle(q, s1, faults, base);
    ok := Execute(kernel, dev, Install(PASS_EAPOL), faults(base));
    var next := base + 1;
    if ok {
      ok := UnprotectSome(kernel, dev, a, faults, next);
      next := next + |PortScript(a)|;
    }
    if ok {
      ok := UnprotectSome(kernel, dev, b, faults, next);
      next := next + |PortScript(b)|;
    }
    if ok {
      ok := UnprotectSome(kernel, dev, c, faults, next);
    }
  }

  method InitInterfaceForEAPTraffic(kernel: Kernel, dev: string, isPf: bool, tcp: seq<int>, udp: seq<int>,
                                    faults: nat -> Fault)
    returns (ok: bool)
    modifies kernel`tables
    ensures Progress(QdiscOf(kernel.tables, dev), ok) ==
            RunScript(old(QdiscOf(kernel.tables, dev)), InitScript(isPf, tcp, udp), faults, 0)
    ensures kernel.tables - {dev} == old(kernel.tables) - {dev}
  {
    ghost var q, head := QdiscOf(kernel.tables, dev), ControlScript();
    RunConcat(q, head, PfScript(tcp, udp), faults, 0);
    RunPrefix(q, RESET, [AddClsact, Install(DROP_ALL)], faults, 0, 3);
    ok := ResetInterface(kernel, dev, faults);
    assert RunTo(q, head, faults, 0, 3) == Progress(QdiscOf(kernel.tables, dev), ok);
    if ok {
      ok := Execute(kernel, dev, AddClsact, faults(3));
    }
    assert RunTo(q, head, faults, 0, 4) == Progress(QdiscOf(kernel.tables, dev), ok);
    if ok {
      ok := Execute(kernel, dev, Install(DROP_ALL), faults(4));
    }
    assert RunScript(q, head, faults, 0) == Progress(QdiscOf(kernel.tables, dev), ok);
    if ok && isPf {
      ok := UnprotectPf(kernel, dev, tcp, udp, faults, 5);
    }
  }

  /** `dev` is under control: it lets through at most unprotected frames. */
  ghost predicate UnderControl(tables: map<string, Qdisc>, dev: string, isPf: bool, tcp: seq<int>, udp: seq<int>) {
    var q := QdiscOf(tables, dev);
    q.Qdisc? && Guarded(q.filters, isPf, tcp, udp)
  }

  /** `dev` has exactly the table of a fault-free initialisation. */
  ghost predicate Initialised(tables: map<string, Qdisc>, dev: string, isPf: bool, tcp: seq<int>, udp: seq<int>) {
    QdiscOf(tables, dev) == Qdisc(Clsact, InitFilters(isPf, tcp, udp))
  }

  /** A successful initialisation has put the interface under control, even where port filters failed. */
  lemma {:induction false} InitControls(q: Qdisc, isPf: bool, tcp: seq<int>, udp: seq<int>, faults: nat -> Fault)
    requires RunScript(q, InitScript(isPf, tcp, udp), faults, 0).ok
    ensures var r := RunScript(q, InitScript(isPf, tcp, udp), faults, 0).q;
            r.Qdisc? && Guarded(r.filters, isPf, tcp, udp)
  {
    var script := InitScript(isPf, tcp, udp);
    if isPf {
      RunConcat(q, ControlScript(), PfScript(tcp, udp), faults, 0);
    }
    InitAlwaysGuarded(q, isPf, tcp, udp, faults, |script|, Packet("", Other));
  }

  /** What the callers of `InitInterfaceForEAPTraffic` rely on. */
  method InitDevice(kernel: Kernel, dev: string, isPf: bool, tcp: seq<int>, udp: seq<int>, faults: nat -> Fault)
    returns (ok: bool)
    modifies kernel`tables
    ensures ok <==> InitSucceeds(old(QdiscOf(kernel.tables, dev)), isPf, tcp, udp, faults)
    ensures ok ==> UnderControl(kernel.tables, dev, isPf, tcp, udp)
    ensures (forall k :: faults(k) == NoFault) ==>
              ok && Initialised(kernel.tables, dev, isPf, tcp, udp)
    ensures forall d :: d != dev ==> QdiscOf(kernel.tables, d) == old(QdiscOf(kernel.tables, d))
  {
    ghost var q, before := QdiscOf(kernel.tables, dev), kernel.tables;
    ok := InitInterfaceForEAPTraffic(kernel, dev, isPf, tcp, udp, faults);
    InitExact(q, isPf, tcp, udp, faults);
    if ok {
      InitControls(q, isPf, tcp, udp, faults);
    }
    if forall k :: faults(k) == NoFault {
      InitWithoutFaults(q, isPf, tcp, udp, faults);
    }
    forall d | d != dev ensures QdiscOf(kernel.tables, d) == QdiscOf(before, d) {
      assert d in kernel.tables <==> d in kernel.tables - {dev};
      assert d in before <==> d in before - {dev};
    }
  }

  /** Initialising device `j` of interface `i` fails from the qdisc `q`. */
  ghost predicate InitFails(q: Qdisc, isPf: bool, tcp: seq<int>, udp: seq<int>, faults: (nat, nat, nat) -> Fault,
                            i: nat, j: nat)
  {
    !InitSucceeds(q, isPf, tcp, udp, (k: nat) => faults(i, j, k))
  }

  /** A failing device ends the loop: those before it are under control, those behind it untouched. */
  method InitDevices(kernel: Kernel, devs: seq<string>, pfs: set<string>, tcp: seq<int>, udp: seq<int>,
                     faults: (nat, nat, nat) -> Fault, i: nat)
    returns (ok: bool, ghost done: nat)
    modifies kernel`tables
    ensures done <= |devs| && (ok <==> done == |devs|)
    ensures !ok ==> exists q :: InitFails(q, devs[done] in pfs, tcp, udp, faults, i, done)
    ensures forall dev :: dev in devs[..done] && (!ok ==> dev != devs[done]) ==>
              UnderControl(kernel.tables, dev, dev in pfs, tcp, udp)
    ensures (forall j, k :: faults(i, j, k) == NoFault) ==>
              ok && forall dev :: dev in devs ==>
                      Initialised(kernel.tables, dev, dev in pfs, tcp, udp)
    ensures forall dev :: dev !in devs[..done] && (!ok ==> dev != devs[done]) ==>
              QdiscOf(kernel.tables, dev) == old(QdiscOf(kernel.tables, dev))
  {
    ghost var clean := forall j, k :: faults(i, j, k) == NoFault;
    for j := 0 to |devs|
      invariant forall dev :: dev in devs[..j] ==> UnderControl(kernel.tables, dev, dev in pfs, tcp, udp)
      invariant clean ==> forall dev :: dev in devs[..j] ==>
                      Initialised(kernel.tables, dev, dev in pfs, tcp, udp)
      invariant forall dev :: dev !in devs[..j] ==> QdiscOf(kernel.tables, dev) == old(QdiscOf(kernel.tables, dev))
    {
      assert forall dev :: dev in devs[..j + 1] <==> dev in devs[..j] || dev == devs[j];
      ghost var q := QdiscOf(kernel.tables, devs[j]);
      ok := InitDevice(kernel, devs[j], devs[j] in pfs, tcp, udp, (k: nat) => faults(i, j, k));
      if !ok {
        assert InitFails(q, devs[j] in pfs, tcp, udp, faults, i, j);
        done := j;
        return;
      }
    }
    assert devs[..|devs|] == devs;
    ok, done := true, |devs|;
  }

  /** The interfaces associated with one of `interfaces`. */
  function Covered(interfaces: seq<string>, assoc: map<string, seq<string>>): set<string> {
    set i, dev | 0 <= i < |interfaces| && interfaces[i] in assoc && dev in assoc[interfaces[i]] :: dev
  }

  lemma {:induction false} CoveredNext(interfaces: seq<string>, assoc: map<string, seq<string>>, i: nat)
    requires i < |interfaces| && interfaces[i] in assoc
    ensures Covered(interfaces[..i + 1], assoc) ==
            Covered(interfaces[..i], assoc) + set dev | dev in assoc[interfaces[i]]
  {
  }

  lemma {:induction false} CoveredOne(interface: string, assoc: map<string, seq<string>>)
    requires interface in assoc
    ensures Covered([interface], assoc) == set dev | dev in assoc[interface]
  {
    assert [interface][0] == interface;
  }

  /** Puts every interface and the interfaces associated with it under control. `assoc` gives the
      interfaces found for each name, if they can be found at all. An interface that cannot be found or
      initialised ends the loop: those before it are under control, those behind it untouched. */
  method InitInterfaces(kernel: Kernel, interfaces: seq<string>, assoc: map<string, seq<string>>, pfs: set<string>,
                        tcp: seq<int>, udp: seq<int>, faults: (nat, nat, nat) -> Fault)
    returns (ok: bool, ghost done: nat)
    modifies kernel`tables
    ensures ok ==> forall i :: 0 <= i < |interfaces| ==> interfaces[i] in assoc
    ensures ok ==> forall dev :: dev in Covered(interfaces, assoc) ==>
                     UnderControl(kernel.tables, dev, dev in pfs, tcp, udp)
    ensures done <= |interfaces| && (ok <==> done == |interfaces|)
    ensures forall i :: 0 <= i < done ==> interfaces[i] in assoc
    ensures !ok && interfaces[done] in assoc ==>
              exists q, j :: 0 <= j < |assoc[interfaces[done]]| &&
                             InitFails(q, assoc[interfaces[done]][j] in pfs, tcp, udp, faults, done, j)
    ensures forall dev :: dev in Covered(interfaces[..done], assoc) &&
                          (!ok ==> dev !in Covered([interfaces[done]], assoc)) ==>
              UnderControl(kernel.tables, dev, dev in pfs, tcp, udp)
    ensures (forall i, j, k :: faults(i, j, k) == NoFault) &&
            (forall i :: 0 <= i < |interfaces| ==> interfaces[i] in assoc) ==>
              ok && forall dev :: dev in Covered(interfaces, assoc) ==>
                      Initialised(kernel.tables, dev, dev in pfs, tcp, udp)
    ensures forall dev :: dev !in Covered(interfaces[..done], assoc) &&
                          (!ok ==> dev !in Covered([interfaces[done]], assoc)) ==>
              QdiscOf(kernel.tables, dev) == old(QdiscOf(kernel.tables, dev))
  {
    ghost var clean := forall i, j, k :: faults(i, j, k) == NoFault;
    for i := 0 to |interfaces|
      invariant forall k :: 0 <= k < i ==> interfaces[k] in assoc
      invariant forall dev :: dev in Covered(interfaces[..i], assoc) ==>
                  UnderControl(kernel.tables, dev, dev in pfs, tcp, udp)
      invariant clean ==> forall dev :: dev in Covered(interfaces[..i], assoc) ==>
                      Initialised(kernel.tables, dev, dev in pfs, tcp, udp)
      invariant forall dev :: dev !in Covered(interfaces[..i], assoc) ==>
                  QdiscOf(kernel.tables, dev) == old(QdiscOf(kernel.tables, dev))
    {
      if interfaces[i] !in assoc {
        ok, done := false, i;
        return;
      }
      CoveredNext(interfaces, assoc, i);
      CoveredOne(interfaces[i], assoc);
      ghost var reached;
      ok, reached := InitDevices(kernel, assoc[interfaces[i]], pfs, tcp, udp, faults, i);
      if !ok {
        done := i;
        return;
      }
      assert assoc[interfaces[i]][..reached] == assoc[interfaces[i]];
    }
    assert interfaces[..|interfaces|] == interfaces;
    ok, done := true, |interfaces|;
  }
}
