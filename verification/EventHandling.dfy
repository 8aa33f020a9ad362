/** From the text of a message to the step of the monitor. */
module EventHandling {
  import opened Options
  import opened Text
  import opened HostapdEvents
  import opened VfControl
  import opened MonitorSteps
  import opened HostapMonitor

  /** A message makes the monitor take a connect step exactly if it is a connect event, a disconnect step
      exactly if it is a disconnect event, and otherwise leaves its state alone. `ifState` is the
      interface state a status reply reports; `publish` says that the status object is to be updated. */
  method HandleHostapdEvent(m: InterfaceMonitor, text: string, vfOrder: seq<int>, fails: set<Call>)
    returns (ok: bool, ifState: Option<IfState>, publish: bool)
    requires m.Valid() && IsOrder(vfOrder, m.PfInfo.VFs.Keys)
    modifies m`deauthRequests, m.PfInfo`AuthenticatedAddrs, m.PfInfo`Authenticated, m.PfInfo.NetLinkMgr
    ensures m.Valid()
    ensures forall mac :: IsEvent(text, STA_CONNECTED, mac) ==>
              Outcome(m.Model(), ok) == ConnectStep(old(m.Model()), mac, vfOrder, fails)
    ensures forall mac :: IsEvent(text, STA_DISCONNECTED, mac) ==>
              Outcome(m.Model(), ok) == DisconnectStep(old(m.Model()), mac, vfOrder, fails)
    ensures (forall mac :: !IsEvent(text, STA_CONNECTED, mac) && !IsEvent(text, STA_DISCONNECTED, mac)) ==>
              ok && m.Model() == old(m.Model())
    ensures ifState == if ' ' !in text && Contains(text, STATUS_REPLY) then Some(StateOf(text)) else None
    ensures publish <==> ' ' in text || ifState.Some?
  {
    SplitFree(text, ' ');
    HandlersExact(text);
    ok, ifState, publish := true, None, false;
    var words := Split(text, ' ');
    if |words| < 2 {
      if Solicited(text) && Contains(text, STATUS_REPLY) {
        var state := GetIfState(text);
        ifState, publish := Some(state), true;
      }
      return;
    }
    publish := true;
    var key := AfterPriority(words[0]);
    if key == STA_CONNECTED {
      assert IsEvent(text, STA_CONNECTED, words[1]);
      ok := m.HandleAuthenticateEvent(words[1], vfOrder, fails);
    } else if key == STA_DISCONNECTED {
      assert IsEvent(text, STA_DISCONNECTED, words[1]);
      ok := m.HandleDeAuthenticateEvent(words[1], vfOrder, fails);
    }
  }

  lemma {:induction false} HandlersExact(text: string)
    ensures forall mac :: IsEvent(text, STA_CONNECTED, mac) <==> Dispatch(text) == Authenticate(mac)
    ensures forall mac :: IsEvent(text, STA_DISCONNECTED, mac) <==> Dispatch(text) == Deauthenticate(mac)
  {
    forall mac
      ensures IsEvent(text, STA_CONNECTED, mac) <==> Dispatch(text) == Authenticate(mac)
      ensures IsEvent(text, STA_DISCONNECTED, mac) <==> Dispatch(text) == Deauthenticate(mac)
    {
      DispatchExact(text, STA_CONNECTED, mac);
      DispatchExact(text, STA_DISCONNECTED, mac);
      HandlersDiffer(STA_CONNECTED, mac, STA_CONNECTED, mac);
    }
  }
}
