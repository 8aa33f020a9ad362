/** Runs in which an expectation of the program or its documentation is not met. The early stop of a scan and the
    lost owner of a ConfigMap are shown where they are analysed. */
module FailingRuns {
  import opened FilterTable
  import opened InterfaceInit
  import opened VfControl
  import opened MonitorSteps
  import opened MonitorSafety
  import opened PortSafety
  import opened TrafficSafety
  import opened TrafficEffect

  /** An address connects, and nothing fails. */
  lemma {:induction false} Connected(s: State, mac: Mac, vfOrder: seq<int>)
    returns (ss: seq<State>, es: seq<Event>)
    requires s.rec == FRESH && IsOrder(vfOrder, s.port.saved.Keys)
    ensures es == [Connect(mac, vfOrder, {})] && ss == [s, Step(s, es[0])] && Run(ss, es)
    ensures ss[1].rec == Records({mac}, map[], true, Unknown) && ss[1].port.saved == s.port.saved
  {
    es := [Connect(mac, vfOrder, {})];
    ss := [s, Step(s, es[0])];
    ConnectRecords(s, mac, vfOrder, {});
    OneMore([s], [], es[0], ss[1]);
  }

  /** EAPOL of an address that has connected and disconnected is dropped on an initialised PF, although nothing
      has failed. */
  lemma {:induction false} EapolRefused(s: State, vf: map<int, Vf>, tables: map<string, Qdisc>, devs: seq<string>,
                                        pfs: set<string>, tcp: seq<int>, udp: seq<int>, d: string, mac: Mac,
                                        vfOrder: seq<int>)
    returns (ss: seq<State>, es: seq<Event>)
    requires Started(s, vf, tables, devs) && IsOrder(vfOrder, s.port.saved.Keys)
    requires forall dev :: dev in devs ==>
               dev in tables && tables[dev] == Qdisc(Clsact, InitFilters(dev in pfs, tcp, udp))
    requires d in devs && d in pfs
    ensures Run(ss, es) && ss[0] == s && NoFaultsIn(es)
    ensures !Passes(ss[|es|].port.tables, d, Packet(mac, Eapol))
  {
    StartParks(s, vf, tables, devs);
    ss, es := Connected(s, mac, vfOrder);
    var e := Disconnect(mac, vfOrder, {});
    var last := Step(ss[1], e);
    OneMore(ss, es, e, last);
    ss, es := ss + [last], es + [e];
    assert es[..2] == es && mac in Touched(es) by {
      assert es[0].mac == mac;
    }
    EapolPasses(ss, es, 2, vf, tables, devs, pfs, tcp, udp, d, mac);
  }

  /** The only address disconnects and a VLAN cannot be set: its packets still pass. */
  lemma {:induction false} DepartedByDisconnect(s: State, vfOrder: seq<int>, id: int, p: Packet)
    returns (ss: seq<State>, es: seq<Event>)
    requires s.rec == FRESH && Ready(s.port) && IsOrder(vfOrder, s.port.saved.Keys) && id in s.port.saved
    ensures Run(ss, es) && ss[0] == s && es != [] && es[|es| - 1].Disconnect?
    ensures ss[|es|].rec.addrs == {} && Everywhere(ss[|es|].port, p, true)
  {
    ss, es := Connected(s, p.src, vfOrder);
    var e := Disconnect(p.src, vfOrder, {SetVlan(id)});
    var last := Step(ss[1], e);
    OneMore(ss, es, e, last);
    ss, es := ss + [last], es + [e];
    DepartedStillPasses(ss, es, 0, 1, p, id);
  }

  /** An address connects, then the link goes down. */
  lemma {:induction false} ConnectedThenDown(s: State, mac: Mac, vfOrder: seq<int>)
    returns (ss: seq<State>, es: seq<Event>)
    requires s.rec == FRESH && IsOrder(vfOrder, s.port.saved.Keys)
    ensures es == [Connect(mac, vfOrder, {}), LinkOper(Down, map[mac := 0])] && Run(ss, es) && ss[0] == s
    ensures ss[2].rec == Records({mac}, map[mac := 0], true, Down) && ss[2].port.saved == s.port.saved
  {
    ss, es := Connected(s, mac, vfOrder);
    var down := LinkOper(Down, map[mac := 0]);
    var s2 := Step(ss[1], down);
    OneMore(ss, es, down, s2);
    ss, es := ss + [s2], es + [down];
  }

  lemma {:induction false} ScanOfOne(s: State, mac: Mac, vfOrder: seq<int>, fails: set<Call>)
    requires s.rec == Records({mac}, map[mac := 0], true, Down) && IsOrder(vfOrder, s.port.saved.Keys)
    ensures var scan := Scan(REQUEST_TIMEOUT, [mac], vfOrder, fails);
            Enabled(s, scan) && Step(s, scan).rec.addrs == {} && ReconfiguresFor(s, scan, mac)
  {
    ScanRemovals(s, REQUEST_TIMEOUT, [mac], vfOrder, fails);
  }

  /** The same when the link goes down and a scan removes the address. */
  lemma {:induction false} DepartedByScan(s: State, vfOrder: seq<int>, id: int, p: Packet)
    returns (ss: seq<State>, es: seq<Event>)
    requires s.rec == FRESH && Ready(s.port) && IsOrder(vfOrder, s.port.saved.Keys) && id in s.port.saved
    ensures Run(ss, es) && ss[0] == s && es != [] && es[|es| - 1].Scan?
    ensures ss[|es|].rec.addrs == {} && Everywhere(ss[|es|].port, p, true)
  {
    ss, es := ConnectedThenDown(s, p.src, vfOrder);
    var scan := Scan(REQUEST_TIMEOUT, [p.src], vfOrder, {SetVlan(id)});
    var last := Step(ss[2], scan);
    ScanOfOne(ss[2], p.src, vfOrder, scan.fails);
    OneMore(ss, es, scan, last);
    ss, es := ss + [last], es + [scan];
    assert !DecidesAt(ss, es, 1, p.src);
    DepartedStillPasses(ss, es, 0, 2, p, id);
  }

  lemma {:induction false} OwnEdit(s: State, i: int)
    requires OwnVlans(s.port) && i in s.port.vf
    ensures var r := Step(s, OutsideVlan(i, s.port.saved[i]));
            && OwnVlans(r.port) && r.rec == s.rec && r.port.vf.Keys == s.port.vf.Keys
            && r.port.vf[i].vlan == s.port.saved[i]
  {
  }

  /** While nobody is authenticated somebody puts a VF back on its own VLAN: the VLAN event that follows succeeds and
      leaves it there. */
  lemma {:induction false} EditOverlooked(s: State, vf: map<int, Vf>, tables: map<string, Qdisc>, devs: seq<string>,
                                          listOrder: seq<int>, i: int)
    returns (ss: seq<State>, es: seq<Event>)
    requires Started(s, vf, tables, devs) && IsOrder(listOrder, vf.Keys) && i in vf && vf[i].vlan != RESERVED_VLAN
    ensures Run(ss, es) && ss[0] == s && |es| == 2 && TakesOver(ss[1], es[1])
    ensures ss[2].rec.addrs == {} && i in ss[2].port.vf && ss[2].port.vf[i].vlan == vf[i].vlan
  {
    StartParks(s, vf, tables, devs);
    var edit, event := OutsideVlan(i, vf[i].vlan), VlanEvent(listOrder, {});
    var s1 := Step(s, edit);
    OwnEdit(s, i);
    VlanQuiet(s1, listOrder, {});
    OneMore([s], [], edit, s1);
    OneMore([s] + [s1], [edit], event, s1);
    ss, es := [s] + [s1] + [s1], [edit] + [event];
  }
}
