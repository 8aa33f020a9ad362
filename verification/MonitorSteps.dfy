/** One interface monitor as a state machine. Each critical section of the monitor is one step; the
    environment chooses map iteration orders, clock readings and which calls fail. */
module MonitorSteps {
  import opened FilterTable
  import opened InterfaceInit
  import opened VfControl

  const REQUEST_TIMEOUT := 2_000_000  // microseconds

  datatype OperState = Unknown | NotPresent | Down | LowerLayerDown | Testing | Dormant | Up

  /** The monitor's records of who is authenticated, which deauthentications are pending since when,
      whether the PF counts as authenticated, and the last link state seen. */
  datatype Records = Records(addrs: set<Mac>, reqs: map<Mac, int>, auth: bool, oper: OperState)

  /** The port under control: the VLANs recorded for the VFs, the kernel's VF configuration and
      filter tables, and the interfaces of the PF and its VFs. */
  datatype Port = Port(saved: map<int, int>, vf: map<int, Vf>, tables: map<string, Qdisc>, devs: seq<string>)

  datatype State = State(rec: Records, port: Port)

  datatype PortOutcome = PortOutcome(port: Port, ok: bool)

  datatype Outcome = Outcome(s: State, ok: bool)

  /** `Scan` is one pass of the timeout loop; `OutsideVlan` is somebody else setting a VF's VLAN. */
  datatype Event =
    | Connect(mac: Mac, vfOrder: seq<int>, fails: set<Call>)
    | Disconnect(mac: Mac, vfOrder: seq<int>, fails: set<Call>)
    | LinkOper(oper: OperState, stamps: map<Mac, int>)
    | VlanEvent(listOrder: seq<int>, fails: set<Call>)
    | Scan(now: int, addrOrder: seq<Mac>, vfOrder: seq<int>, fails: set<Call>)
    | OutsideVlan(id: int, vlan: int)

  // ----- VFs and filters -----

  function ConfigureAll(port: Port, auth: bool, order: seq<int>, fails: set<Call>): PortOutcome {
    var r := ConfigureVfs(port.vf, auth, port.saved, order, fails);
    PortOutcome(port.(vf := r.vf), r.ok)
  }

  datatype TableOutcome = TableOutcome(tables: map<string, Qdisc>, ok: bool)

  /** Replaces the filter of `mac` on one device after the other until a command fails. */
  function ReplaceOn(tables: map<string, Qdisc>, devs: seq<string>, mac: Mac, action: Action,
                     fails: set<Call>): TableOutcome
  {
    if devs == [] then TableOutcome(tables, true)
    else
      var n := |devs| - 1;
      var r := ReplaceOn(tables, devs[..n], mac, action, fails);
      var dev := devs[n];
      if !r.ok then r
      else if SetFilter(dev, mac) in fails || dev !in r.tables || r.tables[dev].NoQdisc?
      then TableOutcome(r.tables, false)
      else
        var q := r.tables[dev];
        TableOutcome(r.tables[dev := q.(filters := Replace(q.filters, Filter(MAC_PREF, SrcMac(mac), action)))], true)
  }

  function SetMacFilter(port: Port, mac: Mac, action: Action, fails: set<Call>): PortOutcome {
    if LookUpTc(mac) in fails || LookUpDevs(mac) in fails then PortOutcome(port, false)
    else
      var r := ReplaceOn(port.tables, port.devs, mac, action, fails);
      PortOutcome(port.(tables := r.tables), r.ok)
  }

  /** Reconfigures the VFs where asked to, then sets the filters of `mac`. */
  function SetTraffic(port: Port, reconfigure: bool, auth: bool, mac: Mac, action: Action,
                      vfOrder: seq<int>, fails: set<Call>): PortOutcome
  {
    var r := if reconfigure then ConfigureAll(port, auth, vfOrder, fails) else PortOutcome(port, true);
    if r.ok then SetMacFilter(r.port, mac, action, fails) else r
  }

  /** Only the first authenticated address restores the VFs. */
  function AllowTraffic(s: State, mac: Mac, vfOrder: seq<int>, fails: set<Call>): Outcome {
    var first := |s.rec.addrs| == 1;
    var r := SetTraffic(s.port, first, true, mac, Ok, vfOrder, fails);
    Outcome(State(s.rec.(auth := first || s.rec.auth), r.port), r.ok)
  }

  /** Only an empty set of authenticated addresses parks the VFs. */
  function DenyTraffic(s: State, mac: Mac, vfOrder: seq<int>, fails: set<Call>): Outcome {
    var last := |s.rec.addrs| == 0;
    var r := SetTraffic(s.port, last, false, mac, Drop, vfOrder, fails);
    Outcome(State(s.rec.(auth := !last && s.rec.auth), r.port), r.ok)
  }

  // ----- the steps -----

  function ConnectStep(s: State, mac: Mac, vfOrder: seq<int>, fails: set<Call>): Outcome {
    AllowTraffic(State(s.rec.(addrs := s.rec.addrs + {mac}, reqs := s.rec.reqs - {mac}), s.port), mac, vfOrder, fails)
  }

  function DisconnectStep(s: State, mac: Mac, vfOrder: seq<int>, fails: set<Call>): Outcome {
    DenyTraffic(State(s.rec.(addrs := s.rec.addrs - {mac}, reqs := s.rec.reqs - {mac}), s.port), mac, vfOrder, fails)
  }

  /** Nothing happens when the state is the one already recorded. Going down stamps every
      authenticated address with a clock reading; going up forgets the stamps of those addresses. */
  function OperStep(rec: Records, oper: OperState, stamps: map<Mac, int>): Records {
    if oper == rec.oper then rec
    else if oper == Down then
      rec.(oper := oper, reqs := rec.reqs + (map a | a in rec.addrs && a in stamps :: stamps[a]))
    else if oper == Up then rec.(oper := oper, reqs := rec.reqs - rec.addrs)
    else rec.(oper := oper)
  }

  function VlanStep(s: State, listOrder: seq<int>, fails: set<Call>): Outcome {
    if ListPf in fails || !(forall k :: 0 <= k < |listOrder| ==> listOrder[k] in s.port.vf) then Outcome(s, false)
    else
      var r := TakeOver(s.port.saved, s.port.vf, s.rec.auth, Listing(s.port.vf, listOrder), fails);
      Outcome(s.(port := s.port.(saved := r.saved, vf := r.vf)), r.ok)
  }

  predicate Expired(now: int, stamp: int) {
    now - stamp >= REQUEST_TIMEOUT
  }

  /** Removing one address whose request has timed out; a failing call is only logged. */
  function ExpireStep(s: State, mac: Mac, vfOrder: seq<int>, fails: set<Call>): State {
    var r := DenyTraffic(State(s.rec.(addrs := s.rec.addrs - {mac}), s.port), mac, vfOrder, fails).s;
    State(r.rec.(reqs := r.rec.reqs - {mac}), r.port)
  }

  /** The scan visits one request after the other and stops for good at the first that has not timed
      out. `ok` says that it has not stopped yet. */
  function ScanVisit(r: Outcome, now: int, mac: Mac, vfOrder: seq<int>, fails: set<Call>): Outcome {
    if !r.ok || mac !in r.s.rec.reqs then r
    else if !Expired(now, r.s.rec.reqs[mac]) then Outcome(r.s, false)
    else Outcome(ExpireStep(r.s, mac, vfOrder, fails), true)
  }

  function ScanStep(s: State, now: int, addrOrder: seq<Mac>, vfOrder: seq<int>, fails: set<Call>): Outcome {
    if addrOrder == [] then Outcome(s, true)
    else
      var n := |addrOrder| - 1;
      ScanVisit(ScanStep(s, now, addrOrder[..n], vfOrder, fails), now, addrOrder[n], vfOrder, fails)
  }

  function OutsideStep(port: Port, id: int, vlan: int): Port {
    if id in port.vf then port.(vf := port.vf[id := port.vf[id].(vlan := vlan)]) else port
  }

  function Step(s: State, e: Event): State {
    match e
    case Connect(mac, vfOrder, fails) => ConnectStep(s, mac, vfOrder, fails).s
    case Disconnect(mac, vfOrder, fails) => DisconnectStep(s, mac, vfOrder, fails).s
    case LinkOper(oper, stamps) => State(OperStep(s.rec, oper, stamps), s.port)
    case VlanEvent(listOrder, fails) => VlanStep(s, listOrder, fails).s
    case Scan(now, addrOrder, vfOrder, fails) => ScanStep(s, now, addrOrder, vfOrder, fails).s
    case OutsideVlan(id, vlan) => State(s.rec, OutsideStep(s.port, id, vlan))
  }

  /** The environment's choices fit the state: every iteration visits each key once, and every
      authenticated address gets a clock reading when the link goes down. */
  ghost predicate Enabled(s: State, e: Event) {
    match e
    case Connect(_, vfOrder, _) => IsOrder(vfOrder, s.port.saved.Keys)
    case Disconnect(_, vfOrder, _) => IsOrder(vfOrder, s.port.saved.Keys)
    case LinkOper(_, stamps) => s.rec.addrs <= stamps.Keys
    case VlanEvent(listOrder, _) => IsOrder(listOrder, s.port.vf.Keys)
    case Scan(_, addrOrder, vfOrder, _) => IsOrder(addrOrder, s.rec.reqs.Keys) && IsOrder(vfOrder, s.port.saved.Keys)
    case OutsideVlan(_, _) => true
  }

  const FRESH := Records({}, map[], false, Unknown)

  /** Start-up: the VLANs found on the VFs are recorded and all VFs are parked. Without success the
      monitor does not start. */
  function StartStep(vf: map<int, Vf>, tables: map<string, Qdisc>, devs: seq<string>,
                     vfOrder: seq<int>, fails: set<Call>): Outcome
  {
    var port := Port(map i | i in vf :: vf[i].vlan, vf, tables, devs);
    if ListPf in fails then Outcome(State(FRESH, port), false)
    else
      var r := ConfigureAll(port, false, vfOrder, fails);
      Outcome(State(FRESH, r.port), r.ok)
  }

  ghost predicate Started(s: State, vf: map<int, Vf>, tables: map<string, Qdisc>, devs: seq<string>) {
    exists vfOrder, fails ::
      IsOrder(vfOrder, vf.Keys) && StartStep(vf, tables, devs, vfOrder, fails) == Outcome(s, true)
  }

  /** Shutdown: VFs that are parked are given back. */
  function StopStep(s: State, vfOrder: seq<int>, fails: set<Call>): Outcome {
    if s.rec.auth then Outcome(s, true)
    else
      var r := ConfigureAll(s.port, true, vfOrder, fails);
      Outcome(State(s.rec.(auth := true), r.port), r.ok)
  }

  // ----- runs -----

  /** `ss` are the states of a run that takes the steps `es`. */
  ghost predicate Run(ss: seq<State>, es: seq<Event>) {
    && |ss| == |es| + 1
    && forall i :: 0 <= i < |es| ==> Enabled(ss[i], es[i]) && ss[i + 1] == Step(ss[i], es[i])
  }

  /** What the monitor's records always satisfy. */
  ghost predicate Control(rec: Records) {
    && (rec.auth <==> rec.addrs != {})
    && rec.reqs.Keys <= rec.addrs
  }

  ghost predicate NoVfFaults(e: Event) {
    match e
    case LinkOper(_, _) => true
    case OutsideVlan(_, _) => true
    case _ => VfCallsSucceed(e.fails)
  }

  ghost predicate NoFaults(e: Event) {
    e.LinkOper? || e.OutsideVlan? || e.fails == {}
  }
}
