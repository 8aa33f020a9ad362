/** The commands that put an interface under control, run one by one against its queueing
    discipline. Any command may fail; most failures end the run, a failed port filter is only logged. */
module InterfaceInit {
  import opened FilterTable

  datatype Kind = Ingress | Clsact

  datatype Qdisc = NoQdisc | Qdisc(kind: Kind, filters: seq<Filter>)

  datatype Command =
    | FindTc
    | Delete(kind: Kind)          // `tc qdisc del ... || true`
    | AddClsact
    | Install(f: Filter)          // the run ends when this fails
    | InstallPort(f: Filter)      // a failure is logged and the run goes on

  /** How the environment treats one command: `TcError` is a failing `tc`, `NoShell` a shell that
      could not be started. */
  datatype Fault = NoFault | TcError | NoShell

  /** The state of one interface during a run, and whether the run is still going. */
  datatype Progress = Progress(q: Qdisc, ok: bool)

  function RunOne(q: Qdisc, c: Command, fault: Fault): Progress {
    match c
    case FindTc => Progress(q, fault.NoFault?)
    case Delete(kind) =>
      if fault.NoShell? then Progress(q, false)
      else if fault.TcError? || !q.Qdisc? || q.kind != kind then Progress(q, true)
      else Progress(NoQdisc, true)
    case AddClsact =>
      if fault.NoFault? && q.NoQdisc? then Progress(Qdisc(Clsact, []), true) else Progress(q, false)
    case Install(f) =>
      if fault.NoFault? && q.Qdisc? then Progress(q.(filters := Add(q.filters, f)), true) else Progress(q, false)
    case InstallPort(f) =>
      if fault.NoFault? && q.Qdisc? then Progress(q.(filters := Add(q.filters, f)), true) else Progress(q, true)
  }

  /** Runs the first `n` commands of `script`; the i-th command meets the fault `faults(base + i)`. */
  function RunTo(q: Qdisc, script: seq<Command>, faults: nat -> Fault, base: nat, n: nat): Progress
    requires n <= |script|
  {
    if n == 0 then Progress(q, true)
    else
      var before := RunTo(q, script, faults, base, n - 1);
      if before.ok then RunOne(before.q, script[n - 1], faults(base + n - 1)) else before
  }

  function RunScript(q: Qdisc, script: seq<Command>, faults: nat -> Fault, base: nat): Progress {
    RunTo(q, script, faults, base, |script|)
  }

  const DROP_ALL := Filter(DROP_PREF, Everything, Drop)
  const PASS_EAPOL := Filter(EAPOL_PREF, EapolFrames, Ok)

  const RESET: seq<Command> := [FindTc, Delete(Ingress), Delete(Clsact)]

  function PortFilter(proto: Proto, port: int): Filter {
    Filter(PORT_PREF, Ipv4Port(proto, port), Ok)
  }

  function Ipv6Filter(port: int): Filter {
    Filter(PORT_PREF, Ipv6Port(port), Ok)
  }

  function PortFilters(proto: Proto, ports: seq<int>): seq<Filter> {
    seq(|ports|, i requires 0 <= i < |ports| => PortFilter(proto, ports[i]))
  }

  function Ipv6Filters(ports: seq<int>): seq<Filter> {
    seq(|ports|, i requires 0 <= i < |ports| => Ipv6Filter(ports[i]))
  }

  function InstallAll(fs: seq<Filter>): seq<Command> {
    seq(|fs|, i requires 0 <= i < |fs| => InstallPort(fs[i]))
  }

  /** Nothing at all for an empty port list, as the callers skip it. */
  function PortScript(fs: seq<Filter>): seq<Command> {
    if fs == [] then [] else [FindTc] + InstallAll(fs)
  }

  function ControlScript(): seq<Command> {
    RESET + [AddClsact, Install(DROP_ALL)]
  }

  function PfScript(tcp: seq<int>, udp: seq<int>): seq<Command> {
    [Install(PASS_EAPOL)] + PortScript(PortFilters(Tcp, tcp)) + PortScript(PortFilters(Udp, udp)) +
    PortScript(Ipv6Filters(tcp + udp))
  }

  function InitScript(isPf: bool, tcp: seq<int>, udp: seq<int>): seq<Command> {
    if isPf then ControlScript() + PfScript(tcp, udp) else ControlScript()
  }

  /** The filters a fault-free run installs. */
  function InitFilters(isPf: bool, tcp: seq<int>, udp: seq<int>): seq<Filter> {
    if isPf
    then PortFilters(Tcp, tcp) + PortFilters(Udp, udp) + Ipv6Filters(tcp + udp) + [PASS_EAPOL, DROP_ALL]
    else [DROP_ALL]
  }

  /** The frames that are let through before any authentication. */
  predicate Unprotected(isPf: bool, tcp: seq<int>, udp: seq<int>, p: Packet) {
    isPf && match p.payload
            case Eapol => true
            case Ipv4(proto, port) => port in (if proto == Tcp then tcp else udp)
            case Ipv6(_, port) => port in tcp || port in udp
            case Other => false
  }

  // ----- runs compose -----

  lemma {:induction false} RunPrefix(q: Qdisc, a: seq<Command>, b: seq<Command>, faults: nat -> Fault, base: nat,
                                     n: nat)
    requires n <= |a|
    ensures RunTo(q, a + b, faults, base, n) == RunTo(q, a, faults, base, n)
  {
    if n > 0 {
      RunPrefix(q, a, b, faults, base, n - 1);
    }
  }

  lemma {:induction false} RunSuffix(q: Qdisc, a: seq<Command>, b: seq<Command>, faults: nat -> Fault, base: nat,
                                     n: nat)
    requires n <= |b|
    ensures var first := RunScript(q, a, faults, base);
            RunTo(q, a + b, faults, base, |a| + n) ==
            if first.ok then RunTo(first.q, b, faults, base + |a|, n) else first
  {
    if n == 0 {
      RunPrefix(q, a, b, faults, base, |a|);
    } else {
      RunSuffix(q, a, b, faults, base, n - 1);
    }
  }

  lemma {:induction false} RunConcat(q: Qdisc, a: seq<Command>, b: seq<Command>, faults: nat -> Fault, base: nat)
    ensures var first := RunScript(q, a, faults, base);
            RunScript(q, a + b, faults, base) ==
            if first.ok then RunScript(first.q, b, faults, base + |a|) else first
  {
    RunSuffix(q, a, b, faults, base, |b|);
  }

  lemma {:induction false} RunSingle(q: Qdisc, script: seq<Command>, faults: nat -> Fault, base: nat)
    requires script != []
    ensures RunTo(q, script, faults, base, 1) == RunOne(q, script[0], faults(base))
  {
  }

  // ----- what holds at every point once the drop filter is in place -----

  /** A filter the script may put in front of the final drop. */
  ghost predicate Permitted(f: Filter, tcp: seq<int>, udp: seq<int>) {
    f == PASS_EAPOL || f in PortFilters(Tcp, tcp) || f in PortFilters(Udp, udp) || f in Ipv6Filters(tcp + udp)
  }

  lemma {:induction false} PermittedMeaning(f: Filter, tcp: seq<int>, udp: seq<int>, p: Packet)
    requires Permitted(f, tcp, udp)
    ensures f.action == Ok && MAC_PREF < f.pref < DROP_PREF
    ensures Matches(f.on, p) ==> Unprotected(true, tcp, udp, p)
  {
  }

  ghost predicate Guarded(fs: seq<Filter>, isPf: bool, tcp: seq<int>, udp: seq<int>) {
    && fs != []
    && fs[|fs| - 1] == DROP_ALL
    && Sorted(fs)
    && forall i :: 0 <= i < |fs| - 1 ==> isPf && Permitted(fs[i], tcp, udp)
  }

  lemma {:induction false} AddGuarded(fs: seq<Filter>, f: Filter, isPf: bool, tcp: seq<int>, udp: seq<int>)
    requires Guarded(fs, isPf, tcp, udp) && isPf && Permitted(f, tcp, udp)
    ensures Guarded(Add(fs, f), isPf, tcp, udp)
  {
    PermittedMeaning(f, tcp, udp, Packet("", Other));
    AddSorted(fs, f);
    if fs[0].pref <= f.pref {
      assert |fs| > 1;
      AddGuarded(fs[1..], f, isPf, tcp, udp);
      ConsGuarded(fs[0], Add(fs[1..], f), isPf, tcp, udp);
    } else {
      ConsGuarded(f, fs, isPf, tcp, udp);
    }
  }

  lemma {:induction false} ConsGuarded(f: Filter, fs: seq<Filter>, isPf: bool, tcp: seq<int>, udp: seq<int>)
    requires Guarded(fs, isPf, tcp, udp) && isPf && Permitted(f, tcp, udp) && Sorted([f] + fs)
    ensures Guarded([f] + fs, isPf, tcp, udp)
  {
    var r := [f] + fs;
    assert r[|r| - 1] == fs[|fs| - 1];
    assert forall i :: 0 < i < |r| ==> r[i] == fs[i - 1];
  }

  lemma {:induction false} GuardedVerdict(fs: seq<Filter>, isPf: bool, tcp: seq<int>, udp: seq<int>, p: Packet)
    requires Guarded(fs, isPf, tcp, udp)
    ensures MacFirst(fs)
    ensures Verdict(fs, p) == Ok ==> Unprotected(isPf, tcp, udp, p)
  {
    if |fs| > 1 {
      PermittedMeaning(fs[0], tcp, udp, p);
      GuardedVerdict(fs[1..], isPf, tcp, udp, p);
      assert fs == [fs[0]] + fs[1..];
    }
  }

  /** A command that installs a permitted filter or nothing. */
  ghost predicate Harmless(c: Command, tcp: seq<int>, udp: seq<int>) {
    c.FindTc? || ((c.Install? || c.InstallPort?) && Permitted(c.f, tcp, udp))
  }

  lemma {:induction false} PortScriptHarmless(fs: seq<Filter>, tcp: seq<int>, udp: seq<int>)
    requires forall f :: f in fs ==> Permitted(f, tcp, udp)
    ensures forall c :: c in PortScript(fs) ==> Harmless(c, tcp, udp)
  {
  }

  lemma {:induction false} PfScriptHarmless(tcp: seq<int>, udp: seq<int>)
    ensures forall c :: c in PfScript(tcp, udp) ==> Harmless(c, tcp, udp)
  {
    PortScriptHarmless(PortFilters(Tcp, tcp), tcp, udp);
    PortScriptHarmless(PortFilters(Udp, udp), tcp, udp);
    PortScriptHarmless(Ipv6Filters(tcp + udp), tcp, udp);
  }

  /** At every point of a run that has got past the drop filter, whichever later command fails, the
      interface lets through only unprotected frames; an interface that is no PF lets nothing through. */
  lemma {:induction false} InitAlwaysGuarded(q: Qdisc, isPf: bool, tcp: seq<int>, udp: seq<int>,
                                             faults: nat -> Fault, n: nat, p: Packet)
    requires |ControlScript()| <= n <= |InitScript(isPf, tcp, udp)|
    requires RunScript(q, ControlScript(), faults, 0).ok
    ensures var now := RunTo(q, InitScript(isPf, tcp, udp), faults, 0, n).q;
            && now.Qdisc? && now.kind == Clsact
            && Guarded(now.filters, isPf, tcp, udp)
            && MacFirst(now.filters)
            && (Verdict(now.filters, p) == Ok ==> Unprotected(isPf, tcp, udp, p))
  {
    var script := InitScript(isPf, tcp, udp);
    if n == |ControlScript()| {
      RunPrefix(q, ControlScript(), if isPf then PfScript(tcp, udp) else [], faults, 0, n);
      assert script == ControlScript() + if isPf then PfScript(tcp, udp) else [];
      ControlResult(q, faults);
    } else {
      InitAlwaysGuarded(q, isPf, tcp, udp, faults, n - 1, p);
      PfScriptHarmless(tcp, udp);
      assert script[n - 1] == PfScript(tcp, udp)[n - 1 - |ControlScript()|];
      HarmlessStep(RunTo(q, script, faults, 0, n - 1).q, script[n - 1], faults(n - 1), tcp, udp);
    }
    GuardedVerdict(RunTo(q, script, faults, 0, n).q.filters, isPf, tcp, udp, p);
  }

  lemma {:induction false} HarmlessStep(q: Qdisc, c: Command, fault: Fault, tcp: seq<int>, udp: seq<int>)
    requires q.Qdisc? && q.kind == Clsact && Guarded(q.filters, true, tcp, udp) && Harmless(c, tcp, udp)
    ensures var r := RunOne(q, c, fault).q;
            r.Qdisc? && r.kind == Clsact && Guarded(r.filters, true, tcp, udp)
  {
    if c.Install? || c.InstallPort? {
      AddGuarded(q.filters, c.f, true, tcp, udp);
    }
  }

  /** A reset succeeds unless `tc` is missing or a shell cannot be started, and takes away the qdisc whose deletion
      meets no fault. */
  lemma {:induction false} ResetExact(q: Qdisc, faults: nat -> Fault)
    ensures var r := RunScript(q, RESET, faults, 0);
            && (r.ok <==> faults(0).NoFault? && !faults(1).NoShell? && !faults(2).NoShell?)
            && (r.ok ==> r.q == if q.Qdisc? && (if q.kind.Ingress? then faults(1) else faults(2)).NoFault?
                                then NoQdisc else q)
  {
    RunSingle(q, RESET, faults, 0);
    var r1 := RunTo(q, RESET, faults, 0, 1);
    var r2 := RunTo(q, RESET, faults, 0, 2);
    assert r1.ok ==> r2 == RunOne(r1.q, Delete(Ingress), faults(1));
  }

  /** What it takes for the reset, the new qdisc and the drop filter: a failing `tc qdisc del` is no failure, but a
      qdisc must not be left. */
  ghost predicate ControlSucceeds(q: Qdisc, faults: nat -> Fault) {
    && faults(0).NoFault? && !faults(1).NoShell? && !faults(2).NoShell?
    && (q.Qdisc? ==> (if q.kind.Ingress? then faults(1) else faults(2)).NoFault?)
    && faults(3).NoFault? && faults(4).NoFault?
  }

  lemma {:induction false} ControlResult(q: Qdisc, faults: nat -> Fault)
    ensures var r := RunScript(q, ControlScript(), faults, 0);
            && (r.ok ==> r.q == Qdisc(Clsact, [DROP_ALL]))
            && (r.ok <==> ControlSucceeds(q, faults))
  {
    var s := ControlScript();
    RunSingle(q, s, faults, 0);
    var r1 := RunTo(q, s, faults, 0, 1);
    var r2 := RunTo(q, s, faults, 0, 2);
    var r3 := RunTo(q, s, faults, 0, 3);
    var r4 := RunTo(q, s, faults, 0, 4);
    assert r1.ok ==> r2 == RunOne(r1.q, Delete(Ingress), faults(1));
    assert r2.ok ==> r3 == RunOne(r2.q, Delete(Clsact), faults(2));
    assert r3.ok ==> r4 == RunOne(r3.q, AddClsact, faults(3));
    assert Add([], DROP_ALL) == [DROP_ALL];
  }

  // ----- what a run leaves -----

  /** The tables a run goes through on a PF: port filters in front of the last two. */
  function Table(ports: seq<Filter>): Qdisc {
    Qdisc(Clsact, ports + [PASS_EAPOL, DROP_ALL])
  }

  /** A filter of preference `PORT_PREF` goes behind the port filters and before the last two. */
  lemma {:induction false} AddPort(ports: seq<Filter>, f: Filter)
    requires f.pref == PORT_PREF && forall g :: g in ports ==> g.pref == PORT_PREF
    ensures Add(ports + [PASS_EAPOL, DROP_ALL], f) == ports + [f] + [PASS_EAPOL, DROP_ALL]
  {
    var t := ports + [PASS_EAPOL, DROP_ALL];
    if ports == [] {
      assert t == [PASS_EAPOL, DROP_ALL];
    } else {
      AddPort(ports[1..], f);
      assert t[1..] == ports[1..] + [PASS_EAPOL, DROP_ALL];
      assert t[0] == ports[0] && ports[0] in ports;
    }
  }

  /** The filters whose commands meet no fault; the i-th command meets the fault `faults(base + i)`. */
  function Kept(fs: seq<Filter>, faults: nat -> Fault, base: nat): seq<Filter> {
    if fs == [] then []
    else
      var n := |fs| - 1;
      Kept(fs[..n], faults, base) + if faults(base + n).NoFault? then [fs[n]] else []
  }

  lemma {:induction false} KeptExactly(fs: seq<Filter>, faults: nat -> Fault, base: nat, f: Filter)
    ensures f in Kept(fs, faults, base) <==> exists i :: 0 <= i < |fs| && fs[i] == f && faults(base + i).NoFault?
  {
    if fs != [] {
      var n := |fs| - 1;
      KeptExactly(fs[..n], faults, base, f);
      assert forall i :: 0 <= i < n ==> fs[..n][i] == fs[i];
    }
  }

  lemma {:induction false} KeptAll(fs: seq<Filter>, faults: nat -> Fault, base: nat)
    requires forall i :: faults(i) == NoFault
    ensures Kept(fs, faults, base) == fs
  {
    if fs != [] {
      KeptAll(fs[..|fs| - 1], faults, base);
    }
  }

  ghost predicate AllPortPref(fs: seq<Filter>) {
    forall f :: f in fs ==> f.pref == PORT_PREF
  }

  lemma {:induction false} KeptPrefs(fs: seq<Filter>, faults: nat -> Fault, base: nat)
    requires AllPortPref(fs)
    ensures AllPortPref(Kept(fs, faults, base))
  {
    forall f | f in Kept(fs, faults, base) ensures f.pref == PORT_PREF {
      KeptExactly(fs, faults, base, f);
    }
  }

  /** Port filters are installed in order, without those that fail. */
  lemma {:induction false} InstallAllAppends(ports: seq<Filter>, fs: seq<Filter>, faults: nat -> Fault, base: nat)
    requires AllPortPref(ports) && AllPortPref(fs)
    ensures RunScript(Table(ports), InstallAll(fs), faults, base) ==
            Progress(Table(ports + Kept(fs, faults, base)), true)
    decreases |fs|
  {
    if fs == [] {
      assert ports + [] == ports;
    } else {
      var n := |fs| - 1;
      var kept := Kept(fs[..n], faults, base);
      assert InstallAll(fs) == InstallAll(fs[..n]) + [InstallPort(fs[n])];
      RunConcat(Table(ports), InstallAll(fs[..n]), [InstallPort(fs[n])], faults, base);
      RunSingle(Table(ports + kept), [InstallPort(fs[n])], faults, base + n);
      InstallAllAppends(ports, fs[..n], faults, base);
      KeptPrefs(fs[..n], faults, base);
      AddPort(ports + kept, fs[n]);
      assert ports + kept + [fs[n]] == ports + (kept + [fs[n]]) && ports + (kept + []) == ports + kept;
    }
  }

  /** The lookup before a list of ports can fail, unless the list is empty. */
  lemma {:induction false} PortScriptAppends(ports: seq<Filter>, fs: seq<Filter>, faults: nat -> Fault, base: nat)
    requires AllPortPref(ports) && AllPortPref(fs)
    ensures RunScript(Table(ports), PortScript(fs), faults, base) ==
            if fs == [] || faults(base).NoFault? then Progress(Table(ports + Kept(fs, faults, base + 1)), true)
            else Progress(Table(ports), false)
  {
    if fs == [] {
      assert ports + [] == ports;
    } else {
      RunSingle(Table(ports), [FindTc], faults, base);
      InstallAllAppends(ports, fs, faults, base + 1);
      RunConcat(Table(ports), [FindTc], InstallAll(fs), faults, base);
    }
  }

  lemma {:induction false} EapolInstalled(faults: nat -> Fault, base: nat)
    ensures var r := RunScript(Qdisc(Clsact, [DROP_ALL]), [Install(PASS_EAPOL)], faults, base);
            Leaves(r, faults(base).NoFault?, [])
  {
    RunSingle(Qdisc(Clsact, [DROP_ALL]), [Install(PASS_EAPOL)], faults, base);
    assert Add([DROP_ALL], PASS_EAPOL) == [] + [PASS_EAPOL, DROP_ALL];
  }

  /** The run succeeds under a condition, and then leaves the table of these port filters. */
  ghost predicate Leaves(r: Progress, succeeds: bool, ports: seq<Filter>) {
    (r.ok <==> succeeds) && (succeeds ==> r.q == Table(ports))
  }

  /** A list of port filters, looked up at place `n` of the run. */
  lemma {:induction false} PortsAppended(q: Qdisc, s: seq<Command>, succeeds: bool, ports: seq<Filter>, fs: seq<Filter>,
                                         faults: nat -> Fault, base: nat, n: nat)
    requires AllPortPref(ports) && AllPortPref(fs) && n == base + |s|
    requires Leaves(RunScript(q, s, faults, base), succeeds, ports)
    ensures Leaves(RunScript(q, s + PortScript(fs), faults, base),
                   succeeds && (fs == [] || faults(n).NoFault?), ports + Kept(fs, faults, n + 1))
    ensures AllPortPref(ports + Kept(fs, faults, n + 1))
  {
    PortScriptAppends(ports, fs, faults, n);
    RunConcat(q, s, PortScript(fs), faults, base);
    KeptPrefs(fs, faults, n + 1);
  }

  /** How many commands a list of ports takes. */
  function Length(ports: seq<int>): nat {
    if ports == [] then 0 else 1 + |ports|
  }

  /** The places of the lookups before the port filters for TCP, for UDP and for IPv6. */
  const TCP_PLACE: nat := 6

  function UdpPlace(tcp: seq<int>): nat {
    TCP_PLACE + Length(tcp)
  }

  function Ipv6Place(tcp: seq<int>, udp: seq<int>): nat {
    UdpPlace(tcp) + Length(udp)
  }

  /** What it takes on a PF behind the drop filter: the EAPOL filter and the lookups, but no port filter. */
  ghost predicate PfSucceeds(tcp: seq<int>, udp: seq<int>, faults: nat -> Fault) {
    && faults(5).NoFault?
    && (tcp == [] || faults(TCP_PLACE).NoFault?)
    && (udp == [] || faults(UdpPlace(tcp)).NoFault?)
    && (tcp + udp == [] || faults(Ipv6Place(tcp, udp)).NoFault?)
  }

  /** The port filters that meet no fault: for TCP, for UDP and for IPv6. */
  function KeptPorts(tcp: seq<int>, udp: seq<int>, faults: nat -> Fault): seq<Filter> {
    Kept(PortFilters(Tcp, tcp), faults, TCP_PLACE + 1) +
    Kept(PortFilters(Udp, udp), faults, UdpPlace(tcp) + 1) +
    Kept(Ipv6Filters(tcp + udp), faults, Ipv6Place(tcp, udp) + 1)
  }

  lemma {:induction false} PortPrefs(proto: Proto, ports: seq<int>)
    ensures AllPortPref(PortFilters(proto, ports)) && |PortScript(PortFilters(proto, ports))| == Length(ports)
    ensures AllPortPref(Ipv6Filters(ports)) && (PortFilters(proto, ports) == [] <==> ports == [])
    ensures Ipv6Filters(ports) == [] <==> ports == []
  {
  }

  lemma {:induction false} PfScriptExact(tcp: seq<int>, udp: seq<int>, faults: nat -> Fault)
    ensures Leaves(RunScript(Qdisc(Clsact, [DROP_ALL]), PfScript(tcp, udp), faults, 5),
                   PfSucceeds(tcp, udp, faults), KeptPorts(tcp, udp, faults))
  {
    EapolInstalled(faults, 5);
    PortListsExact(Qdisc(Clsact, [DROP_ALL]), [Install(PASS_EAPOL)], tcp, udp, faults, 5);
  }

  lemma {:induction false} PortListsExact(q: Qdisc, s: seq<Command>, tcp: seq<int>, udp: seq<int>, faults: nat -> Fault,
                                          base: nat)
    requires base == 5 && |s| == 1 && Leaves(RunScript(q, s, faults, base), faults(base).NoFault?, [])
    ensures Leaves(RunScript(q, s + PortScript(PortFilters(Tcp, tcp)) + PortScript(PortFilters(Udp, udp)) +
                                PortScript(Ipv6Filters(tcp + udp)), faults, base),
                   PfSucceeds(tcp, udp, faults), KeptPorts(tcp, udp, faults))
  {
    var a, b, c := PortFilters(Tcp, tcp), PortFilters(Udp, udp), Ipv6Filters(tcp + udp);
    var n, m, l := PlacesOf(tcp, udp, faults);
    ThreeLists(q, s, a, b, c, faults, base, n, m, l);
  }

  lemma {:induction false} PlacesOf(tcp: seq<int>, udp: seq<int>, faults: nat -> Fault) returns (n: nat, m: nat, l: nat)
    ensures var a, b, c := PortFilters(Tcp, tcp), PortFilters(Udp, udp), Ipv6Filters(tcp + udp);
            && n == 6 && m == n + |PortScript(a)| && l == m + |PortScript(b)|
            && AllPortPref(a) && AllPortPref(b) && AllPortPref(c)
            && KeptPorts(tcp, udp, faults) ==
               Kept(a, faults, n + 1) + Kept(b, faults, m + 1) + Kept(c, faults, l + 1)
            && (PfSucceeds(tcp, udp, faults) <==>
                && faults(5).NoFault? && (a == [] || faults(n).NoFault?) && (b == [] || faults(m).NoFault?)
                && (c == [] || faults(l).NoFault?))
  {
    n, m, l := TCP_PLACE, UdpPlace(tcp), Ipv6Place(tcp, udp);
    PortPrefs(Tcp, tcp);
    PortPrefs(Udp, udp);
    PortPrefs(Tcp, tcp + udp);
  }

  lemma {:induction false} ThreeLists(q: Qdisc, s: seq<Command>, a: seq<Filter>, b: seq<Filter>, c: seq<Filter>,
                                      faults: nat -> Fault, base: nat, n: nat, m: nat, l: nat)
    requires AllPortPref(a) && AllPortPref(b) && AllPortPref(c)
    requires n == base + |s| && m == n + |PortScript(a)| && l == m + |PortScript(b)|
    requires Leaves(RunScript(q, s, faults, base), faults(base).NoFault?, [])
    ensures Leaves(RunScript(q, s + PortScript(a) + PortScript(b) + PortScript(c), faults, base),
                   && faults(base).NoFault? && (a == [] || faults(n).NoFault?) && (b == [] || faults(m).NoFault?)
                   && (c == [] || faults(l).NoFault?),
                   Kept(a, faults, n + 1) + Kept(b, faults, m + 1) + Kept(c, faults, l + 1))
  {
    PortsAppended(q, s, faults(base).NoFault?, [], a, faults, base, n);
    assert [] + Kept(a, faults, n + 1) == Kept(a, faults, n + 1);
    TwoMoreLists(q, s + PortScript(a), faults(base).NoFault? && (a == [] || faults(n).NoFault?),
                 Kept(a, faults, n + 1), b, c, faults, base, m, l);
  }

  lemma {:induction false} TwoMoreLists(q: Qdisc, s: seq<Command>, succeeds: bool, ports: seq<Filter>, b: seq<Filter>,
                                        c: seq<Filter>, faults: nat -> Fault, base: nat, n: nat, m: nat)
    requires AllPortPref(ports) && AllPortPref(b) && AllPortPref(c) && n == base + |s| && m == n + |PortScript(b)|
    requires Leaves(RunScript(q, s, faults, base), succeeds, ports)
    ensures Leaves(RunScript(q, s + PortScript(b) + PortScript(c), faults, base),
                   succeeds && (b == [] || faults(n).NoFault?) && (c == [] || faults(m).NoFault?),
                   ports + Kept(b, faults, n + 1) + Kept(c, faults, m + 1))
  {
    PortsAppended(q, s, succeeds, ports, b, faults, base, n);
    PortsAppended(q, s + PortScript(b), succeeds && (b == [] || faults(n).NoFault?),
                  ports + Kept(b, faults, n + 1), c, faults, base, m);
  }

  /** Whether an initialisation succeeds: a failing delete is tolerated if no qdisc is left, and failing port filters
      always are. */
  ghost predicate InitSucceeds(q: Qdisc, isPf: bool, tcp: seq<int>, udp: seq<int>, faults: nat -> Fault) {
    ControlSucceeds(q, faults) && (isPf ==> PfSucceeds(tcp, udp, faults))
  }

  /** From whatever was configured before, an initialisation succeeds exactly if no command fails that has to
      succeed, and then leaves exactly the port filters that met no fault, EAPOL and the final drop. */
  lemma {:induction false} InitExact(q: Qdisc, isPf: bool, tcp: seq<int>, udp: seq<int>, faults: nat -> Fault)
    ensures var r := RunScript(q, InitScript(isPf, tcp, udp), faults, 0);
            && (r.ok <==> InitSucceeds(q, isPf, tcp, udp, faults))
            && (r.ok ==> r.q == if isPf then Table(KeptPorts(tcp, udp, faults)) else Qdisc(Clsact, [DROP_ALL]))
  {
    ControlResult(q, faults);
    if isPf {
      PfScriptExact(tcp, udp, faults);
      PfAfterControl(q, PfScript(tcp, udp), PfSucceeds(tcp, udp, faults), KeptPorts(tcp, udp, faults), faults);
    }
  }

  lemma {:induction false} PfAfterControl(q: Qdisc, s: seq<Command>, succeeds: bool, ports: seq<Filter>,
                                          faults: nat -> Fault)
    requires Leaves(RunScript(Qdisc(Clsact, [DROP_ALL]), s, faults, 5), succeeds, ports)
    ensures Leaves(RunScript(q, ControlScript() + s, faults, 0), ControlSucceeds(q, faults) && succeeds, ports)
  {
    ControlResult(q, faults);
    RunConcat(q, ControlScript(), s, faults, 0);
  }

  lemma {:induction false} KeptPortsAll(tcp: seq<int>, udp: seq<int>, faults: nat -> Fault)
    requires forall i :: faults(i) == NoFault
    ensures KeptPorts(tcp, udp, faults) == PortFilters(Tcp, tcp) + PortFilters(Udp, udp) + Ipv6Filters(tcp + udp)
  {
    KeptAll(PortFilters(Tcp, tcp), faults, TCP_PLACE + 1);
    KeptAll(PortFilters(Udp, udp), faults, UdpPlace(tcp) + 1);
    KeptAll(Ipv6Filters(tcp + udp), faults, Ipv6Place(tcp, udp) + 1);
  }

  lemma {:induction false} NothingFails(q: Qdisc, isPf: bool, tcp: seq<int>, udp: seq<int>, faults: nat -> Fault)
    requires forall i :: faults(i) == NoFault
    ensures InitSucceeds(q, isPf, tcp, udp, faults)
  {
  }

  /** So a fault-free run leaves exactly `InitFilters`, and running it a second time changes nothing. */
  lemma {:induction false} InitWithoutFaults(q: Qdisc, isPf: bool, tcp: seq<int>, udp: seq<int>, faults: nat -> Fault)
    requires forall i :: faults(i) == NoFault
    ensures RunScript(q, InitScript(isPf, tcp, udp), faults, 0) ==
            Progress(Qdisc(Clsact, InitFilters(isPf, tcp, udp)), true)
  {
    NothingFails(q, isPf, tcp, udp, faults);
    InitExact(q, isPf, tcp, udp, faults);
    if isPf {
      KeptPortsAll(tcp, udp, faults);
      assert Table(KeptPorts(tcp, udp, faults)).filters == InitFilters(true, tcp, udp);
    }
  }

  lemma {:induction false} PassingFilters(ports: seq<Filter>, rest: seq<Filter>, p: Packet)
    requires forall f :: f in ports ==> f.action == Ok
    ensures Verdict(ports + rest, p) ==
            if exists f :: f in ports && Matches(f.on, p) then Ok else Verdict(rest, p)
  {
    if ports == [] {
      assert ports + rest == rest;
    } else {
      assert (ports + rest)[1..] == ports[1..] + rest && (ports + rest)[0] == ports[0];
      assert ports[0] in ports;
      PassingFilters(ports[1..], rest, p);
      assert ports == [ports[0]] + ports[1..];
    }
  }

  lemma {:induction false} ConcatSorted(a: seq<Filter>, b: seq<Filter>, pref: nat)
    requires forall f :: f in a ==> f.pref == pref
    requires Sorted(b) && AtLeast(b, pref)
    ensures Sorted(a + b) && AtLeast(a + b, pref)
  {
    if a == [] {
      assert a + b == b;
    } else {
      ConcatSorted(a[1..], b, pref);
      assert (a + b)[1..] == a[1..] + b;
      assert a[0] in a;
    }
  }

  /** Some port filter matches exactly the frames for a listed port. */
  lemma {:induction false} PortFiltersMatch(tcp: seq<int>, udp: seq<int>, p: Packet)
    ensures var ports := PortFilters(Tcp, tcp) + PortFilters(Udp, udp) + Ipv6Filters(tcp + udp);
            (exists f :: f in ports && Matches(f.on, p)) <==>
            !p.payload.Eapol? && Unprotected(true, tcp, udp, p)
  {
    var a, b, c := PortFilters(Tcp, tcp), PortFilters(Udp, udp), Ipv6Filters(tcp + udp);
    match p.payload {
      case Ipv4(proto, port) =>
        var ports := if proto == Tcp then tcp else udp;
        if i :| 0 <= i < |ports| && ports[i] == port {
          assert PortFilters(proto, ports)[i] in a + b + c;
        }
      case Ipv6(_, port) =>
        assert port in tcp + udp <==> port in tcp || port in udp;
        if i :| 0 <= i < |tcp + udp| && (tcp + udp)[i] == port {
          assert c[i] in a + b + c;
        }
      case _ =>
    }
  }

  /** The initial filters let through exactly the unprotected frames. */
  lemma {:induction false} InitVerdict(isPf: bool, tcp: seq<int>, udp: seq<int>, p: Packet)
    ensures MacFirst(InitFilters(isPf, tcp, udp))
    ensures Sorted(InitFilters(isPf, tcp, udp))
    ensures Verdict(InitFilters(isPf, tcp, udp), p) == Ok <==> Unprotected(isPf, tcp, udp, p)
  {
    if isPf {
      var ports := PortFilters(Tcp, tcp) + PortFilters(Udp, udp) + Ipv6Filters(tcp + udp);
      var last := [PASS_EAPOL, DROP_ALL];
      assert last[1..] == [DROP_ALL];
      PassingFilters(ports, last, p);
      PortFiltersMatch(tcp, udp, p);
      ConcatSorted(ports, last, PORT_PREF);
    }
  }

  /** A filter for this port has met no fault. */
  ghost predicate Opened(ports: seq<int>, port: int, faults: nat -> Fault, base: nat) {
    exists i :: 0 <= i < |ports| && ports[i] == port && faults(base + i).NoFault?
  }

  lemma {:induction false} OpenedIpv4(proto: Proto, ports: seq<int>, faults: nat -> Fault, base: nat, p: Packet)
    ensures (exists f :: f in Kept(PortFilters(proto, ports), faults, base) && Matches(f.on, p)) <==>
            p.payload.Ipv4? && p.payload.proto == proto && Opened(ports, p.payload.dport, faults, base)
  {
    var fs := PortFilters(proto, ports);
    if f :| f in Kept(fs, faults, base) && Matches(f.on, p) {
      KeptExactly(fs, faults, base, f);
    }
    if p.payload.Ipv4? && p.payload.proto == proto {
      if i :| 0 <= i < |ports| && ports[i] == p.payload.dport && faults(base + i).NoFault? {
        KeptExactly(fs, faults, base, fs[i]);
        assert fs[i] in Kept(fs, faults, base);
      }
    }
  }

  lemma {:induction false} OpenedIpv6(ports: seq<int>, faults: nat -> Fault, base: nat, p: Packet)
    ensures (exists f :: f in Kept(Ipv6Filters(ports), faults, base) && Matches(f.on, p)) <==>
            p.payload.Ipv6? && Opened(ports, p.payload.dport6, faults, base)
  {
    var fs := Ipv6Filters(ports);
    if f :| f in Kept(fs, faults, base) && Matches(f.on, p) {
      KeptExactly(fs, faults, base, f);
    }
    if p.payload.Ipv6? {
      if i :| 0 <= i < |ports| && ports[i] == p.payload.dport6 && faults(base + i).NoFault? {
        KeptExactly(fs, faults, base, fs[i]);
        assert fs[i] in Kept(fs, faults, base);
      }
    }
  }

  lemma {:induction false} KeptPass(fs: seq<Filter>, faults: nat -> Fault, base: nat)
    requires forall f :: f in fs ==> f.action == Ok
    ensures forall f :: f in Kept(fs, faults, base) ==> f.action == Ok
  {
    forall f | f in Kept(fs, faults, base) ensures f.action == Ok {
      KeptExactly(fs, faults, base, f);
    }
  }

  /** What an initialised PF lets through when port filters have failed: EAPOL, and the frames for a listed port
      whose filter has met no fault. */
  lemma {:induction false} KeptVerdict(tcp: seq<int>, udp: seq<int>, faults: nat -> Fault, p: Packet)
    ensures Verdict(Table(KeptPorts(tcp, udp, faults)).filters, p) == Ok <==>
            match p.payload
            case Eapol => true
            case Ipv4(Tcp, port) => Opened(tcp, port, faults, TCP_PLACE + 1)
            case Ipv4(Udp, port) => Opened(udp, port, faults, UdpPlace(tcp) + 1)
            case Ipv6(_, port) => Opened(tcp + udp, port, faults, Ipv6Place(tcp, udp) + 1)
            case Other => false
  {
    var a, b, c := PortFilters(Tcp, tcp), PortFilters(Udp, udp), Ipv6Filters(tcp + udp);
    var last := [PASS_EAPOL, DROP_ALL];
    assert last[1..] == [DROP_ALL];
    KeptPass(a, faults, TCP_PLACE + 1);
    KeptPass(b, faults, UdpPlace(tcp) + 1);
    KeptPass(c, faults, Ipv6Place(tcp, udp) + 1);
    PassingFilters(KeptPorts(tcp, udp, faults), last, p);
    OpenedIpv4(Tcp, tcp, faults, TCP_PLACE + 1, p);
    OpenedIpv4(Udp, udp, faults, UdpPlace(tcp) + 1, p);
    OpenedIpv6(tcp + udp, faults, Ipv6Place(tcp, udp) + 1, p);
  }
}
