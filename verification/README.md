# A Dafny model of eapol-operator

The operator puts 802.1X port access control on the interfaces of a Kubernetes node. This project models
the parts of it that decide who gets through, and proves what they guarantee over whole runs:

- **The interface monitor** (`MonitorSteps`, `MonitorSafety`, `PortSafety`, `MonitorHistory`,
  `TrafficSafety`, `TrafficEffect`, `FailingRuns`; classes in `Sriov`, `TrafficControl`, `HostapMonitor`, `EventHandling`). The monitor
  keeps the set of authenticated addresses, pending deauthentication requests with time stamps, the VLAN of
  every SR-IOV VF, and drives the VFs and the `tc` filters of the kernel. Each critical section under the
  monitor's mutex is one step of a state machine; a run is any sequence of steps. The environment chooses the
  iteration order of every Go map, every clock reading, which netlink and `tc` calls fail, and edits VLANs
  behind the monitor's back. The classes take exactly these steps.
- **Interface initialisation** (`FilterTable`, `InterfaceInit`): the `tc` commands as a script in which any
  command may fail, on tables in which the first matching filter decides.
- **The status object** (`StatusProtocol`, `StatusContents`): many monitors, one versioned object, conflicts and
  retries, and what the object then says about the monitors.
- **The reconciler** (`ReconcilePasses`, `Reconciler`): passes for any Authenticators against a store in which any
  call may fail and which others edit between passes; a call of the class is exactly one such pass.
- **The texts** that one part prints and another parses (`Text`, `EnvArgs`, `HostapdEvents`).

Every theorem about runs is for all runs, all iteration orders and all numbers of VFs, addresses and devices.
Where nothing is said about failures, any pattern of failures is allowed.

## Where the code and its documentation disagree

The model follows the code.

- A scan skips all further requests at the first one that has not timed out, on the ground that the others
  have not either (`pkg/hostap/monitor.go:313`). Requests of one pass carry different stamps, so this is not so:
  `EarlyStopMisses` is a run in which it is wrong, `ScanCompleteInAnyOrder` the exact condition whatever the map
  order, `ScanComplete` that for a given order, `Drained` what holds nevertheless.
- The sample configuration lists two UDP ports (`README.md:49-52`). The operator separates ports with spaces,
  the monitor expects commas: `PortsRoundTrip` says that every list of two or more ports is rejected.
- Deleting an Authenticator relies on garbage collection of the objects it owns
  (`controllers/authenticator_controller.go:77`). The RBAC objects are shared templates that keep their first
  owner, and the error of setting an owner is ignored: `RbacOwner` says when an object made for an
  Authenticator belongs to it, `SecondOwner` what happens to the second of two. A ConfigMap loses its owner
  when it is first updated: `ConfigMapOwner`, with a run in `OrphanedConfigMap`.
- EAPOL is let through at preference 10000 (`internal/trafficcontrol/tc.go:106`), but a refused address is
  dropped at 9000, EAPOL included: `EapolPasses`, with a run in `EapolRefused`.
- Traffic of an address that is gone is meant to be dropped (`internal/trafficcontrol/tc.go:62-71`), but if the
  last address goes and a VF cannot be parked, its filter is left as it was: `DepartedStillPasses`, with runs in
  `DepartedByDisconnect` and `DepartedByScan`. When a connect, disconnect or expiry takes effect exactly is
  `DecisionTakesEffect`, and for an expiry whatever the map order `ExpiryInAnyOrder`.
- A VLAN event is meant to bring a VF whose VLAN was changed back under control
  (`internal/trafficcontrol/sriov.go:49-63`), but two edits go unnoticed: a parked VF put back on its recorded
  VLAN, and a restored one put on 4095. `EditsMadeGood` is the exact statement, `EditOverlooked` a run.

## Assumptions

- `tc filter replace` at preference 9000 overwrites the filter of that device and address. Filters are tried
  in increasing preference and the first match decides; a frame that no filter matches passes. An IPv4 port
  filter matches the protocol it names. Action indexes play no role. IPv4 and IPv6 filters can share preference
  9999 (`internal/trafficcontrol/tc.go:152`, `:166`); on a kernel that ties a preference to one protocol the
  filters of the later family are refused, and `PortBasedControlAtLeast` applies instead of `PortBasedControl`.
- The interfaces associated with a PF and its VFs are fixed during a run, and VF ids in a listing are unique.
- `now` of a scan is read before the lock is taken, so it is arbitrary. Clock readings do not overflow.
- `StopMonitor` works without the lock; it is modelled as the last step of a run.
- The API server stores copies, adds no defaults, refuses stale versions, and refuses to create an object that
  carries a version. Nobody else writes during a pass of the reconciler, and its reads see its own earlier
  writes; the manager's client reads from a cache by default (`main.go:68-82`), so this means a cache that has
  caught up. Setting a controller fails for an owner in another namespace and for an object controlled by an
  owner of another name.
- Monitors that share a status object have different interface names. The same interface name on two nodes
  would be one entry written by two monitors.

## Model

| member | source | states |
|---|---|---|
| MonitorSafety.AlwaysControl | pkg/hostap/monitor.go:278-356 | in every state of every run, whatever fails, the PF counts as authenticated iff some address is, and requests exist for authenticated addresses only |
| MonitorSafety.LinkChanges | pkg/hostap/monitor.go:260-298 | going down leaves a request with its clock reading for exactly the authenticated addresses; coming up leaves none, although only those of authenticated addresses are deleted; any other new state is only recorded and a state already recorded changes nothing |
| MonitorSafety.ScanRecords | pkg/hostap/monitor.go:309-322 | for every visiting order, the scan removes from addresses and requests exactly those visited before the first request that has not timed out |
| MonitorSafety.ScanRemovals | pkg/hostap/monitor.go:309-322 | a scan in any order removes timed-out requests only, none while the oldest has not timed out, all of them together with their addresses once the newest has |
| MonitorSafety.ScanComplete | pkg/hostap/monitor.go:311-315 | a scan removes all timed-out requests iff none of them is visited after one that has not timed out |
| MonitorSafety.ScanCompleteInAnyOrder | pkg/hostap/monitor.go:311-315 | a scan is certain to remove all timed-out requests, whatever the map's iteration order, iff there are no two requests of which one has timed out and the other has not |
| MonitorSafety.EarlyStopMisses | pkg/hostap/monitor.go:311-315 | from the fresh records, on any port, there is a run whose scan leaves a timed-out request: two addresses stamped one microsecond apart |
| MonitorHistory.RequestOrigin | pkg/hostap/monitor.go:278-300 | every pending request carries the stamp of the latest pass in which the link went down, with no connect or disconnect of its address and no link-up since |
| MonitorHistory.Departures | pkg/hostap/monitor.go:309-356 | in every run an authenticated address leaves only by its own disconnect event or by a scan at least 2,000,000 microseconds after its stamp of the latest down pass, with its request standing since |
| MonitorHistory.StaysDraining | pkg/hostap/monitor.go:282-322 | after a down pass, while nobody connects and no further link change is noticed, requests and authenticated addresses stay the same set with the stamps of that pass |
| MonitorHistory.Drained | pkg/hostap/monitor.go:282-322 | then a scan no earlier than the timeout after the last of these stamps leaves no address, no request and the PF unauthenticated, whatever fails |
| MonitorHistory.DrainedVfsDown | internal/trafficcontrol/tc.go:62-71 | if VF calls succeed, every VF is then disabled, outside VLAN edits or not |
| PortSafety.KernelAgrees | internal/trafficcontrol/tc.go:35-71 | without VF faults and outside edits every VF is (4095, disabled) while no address is authenticated and (start-up VLAN, auto) otherwise, and reconfiguring all VFs in any order after any step would change nothing |
| PortSafety.VlansSettle | internal/trafficcontrol/sriov.go:49-100 | no feedback: after any edits and failures, from a VLAN event that succeeds until the next outside edit, however often VFs are parked and restored and whatever fails, no recorded VLAN changes, every VF carries its own VLAN or 4095, and every further VLAN event changes nothing and succeeds iff its listing does |
| PortSafety.SavedVlansStay | internal/trafficcontrol/sriov.go:49-100 | the same from start-up: without outside edits no recorded VLAN ever changes, whatever fails, and every VF carries its own VLAN or 4095 |
| PortSafety.EditsMadeGood | internal/trafficcontrol/sriov.go:54-63 | after a VLAN event that succeeds, until the next full reconfiguration or edit, a VF has the VLAN it should have iff it was listed neither with 4095 while authenticated nor with its recorded VLAN while not, its recorded VLAN being another than 4095 |
| FailingRuns.EditOverlooked | internal/trafficcontrol/sriov.go:55-56 | a run in which a parked VF is put back on its own VLAN, the VLAN event succeeds, and the VF stays there |
| PortSafety.SavedVlanOrigin | internal/trafficcontrol/sriov.go:54-63 | under arbitrary outside edits and failures a recorded VLAN is the start-up one or one seen in a listing that succeeded, and not 4095 unless it started so |
| PortSafety.LinksAgree | internal/trafficcontrol/sriov.go:78-100 | with VF calls that succeed and arbitrary outside edits, every VF's link is auto while some address is authenticated and disabled otherwise |
| PortSafety.StopRestores | pkg/hostap/monitor.go:129-136 | round trip: after any run without VF faults and outside edits, shutting down leaves every VF with its start-up VLAN and link auto |
| PortSafety.AgreementReturns | internal/trafficcontrol/tc.go:38-71 | however many VF calls have failed and VLANs were edited before, from the first address to come or the last to go, by its disconnect or by a timeout scan, without VF faults every VF is as it should be with the VLAN recorded then, until a VF call fails or somebody edits a VLAN again; without edits at all that is the start-up VLAN |
| PortSafety.StartParks | pkg/hostap/monitor.go:102-110 | a monitor that has started has recorded every VF's VLAN and parked all VFs |
| PortSafety.StartSucceeds | pkg/hostap/monitor.go:102-110 | a monitor starts iff the listing succeeds and no call to park a VF fails, so always on an interface without VFs that can be listed |
| PortSafety.StopSucceeds | pkg/hostap/monitor.go:129-136 | shutting down succeeds iff there is nothing to restore or no call to restore a VF fails |
| PortSafety.VlanSucceeds | internal/trafficcontrol/sriov.go:49-66 | a VLAN event succeeds iff the listing does and no call fails for a VF whose VLAN is neither 4095 nor the recorded one; without a listing nothing changes |
| PortSafety.StepCoherent | internal/trafficcontrol/tc.go:35-87 | a step whose VF calls succeed keeps kernel and records in agreement, although VFs are reconfigured only when the first address comes or the last goes |
| VfControl.NoFeedback | internal/trafficcontrol/sriov.go:49-66 | after a listing was taken over successfully, taking over a second one in any order changes nothing and succeeds even if every VF call would fail |
| VfControl.TakeOverOk | internal/trafficcontrol/sriov.go:54-63 | after a successful VLAN event exactly the VFs listed with a foreign VLAN other than 4095 have it recorded and have their target configuration |
| VfControl.TakeOverSucceeds | internal/trafficcontrol/sriov.go:54-63 | taking over a listing succeeds iff no call fails for a VF listed with a foreign VLAN other than 4095 |
| VfControl.TakeOverStops | internal/trafficcontrol/sriov.go:54-63 | a failure leaves what is listed before it taken over, the failing VF's VLAN recorded although it is configured only as far as its calls succeed, and the rest as it was |
| VfControl.ConfigureVfsOk | internal/trafficcontrol/sriov.go:68-76 | success means that every visited VF has its target configuration and no other VF has changed |
| VfControl.ConfigureVfsSucceeds | internal/trafficcontrol/sriov.go:68-100 | the configuration succeeds iff no call for a visited VF fails |
| VfControl.ConfigureVfsBounds | internal/trafficcontrol/sriov.go:78-100 | whatever fails, every VF is unchanged, has its target VLAN with the old link state, or is configured; the link state never changes before the VLAN |
| VfControl.ConfigureVfsStops | internal/trafficcontrol/sriov.go:68-100 | a failure leaves the VFs before the first with a failing call configured, that one with its VLAN set unless finding the PF or setting the VLAN failed, all others as they were |
| TrafficSafety.PortBasedControl | internal/trafficcontrol/tc.go:35-131 | after fault-free initialisation and any fault-free run a packet passes on a device of the port iff its source is authenticated, or no event ever named the source and the frame is EAPOL or for an unprotected port on the PF |
| TrafficSafety.LatestDecision | internal/trafficcontrol/tc.go:35-87 | in any run, whatever fails for others or earlier: if the latest connect, disconnect or expiry of an address met no failing VF call and no failing call of its own, its packets pass on every device iff it is authenticated |
| TrafficSafety.Undecided | internal/trafficcontrol/tc.go:52-86 | whatever fails, the packets of an address are treated alike between two of its connects, disconnects and expiries, and as at start-up before the first |
| TrafficEffect.DecisionTakesEffect | internal/trafficcontrol/tc.go:35-87 | a connect opens the port everywhere to an address whose packets were dropped, and a disconnect or expiry closes it to one whose packets passed, iff none of the lookups and filter commands for it fails and, when it is the first to come or the last to go, no VF call; in a scan that removes every address the last to go is the one visited last |
| TrafficEffect.DecisionAtDevice | internal/trafficcontrol/tc.go:35-87 | on each device of the port, after a connect, disconnect or expiry the packets of its address are treated as decided iff the lookups, the commands for the devices up to this one and, when the VFs are reconfigured for it, the VF calls succeed, and as before otherwise |
| TrafficEffect.DecisionSucceeds | internal/trafficcontrol/tc.go:35-87 | a connect or disconnect reports success iff none of the lookups and filter commands for its address fails and, when it is the first to come or the last to go, no VF call |
| TrafficEffect.StepElsewhere | internal/trafficcontrol/tc.go:48-86 | no step touches the filters of an interface that is none of the port's |
| TrafficEffect.ExpiryInAnyOrder | pkg/hostap/monitor.go:311-322 | a scan that removes an address is certain to drop its packets, whatever the map's iteration order, iff no lookup and no filter command for it fails and, if every address is due, no VF call |
| TrafficEffect.DepartedStillPasses | internal/trafficcontrol/tc.go:65-71 | after the only address disconnects, or a scan removes all addresses, and some VF cannot be parked, the packets of that address, in the scan of the one visited last, still pass on every device |
| FailingRuns.DepartedByDisconnect | internal/trafficcontrol/tc.go:65-71 | from any port with a VF there is such a run that ends with a disconnect |
| FailingRuns.DepartedByScan | pkg/hostap/monitor.go:311-322 | and one that ends with a scan |
| FailingRuns.EapolRefused | internal/trafficcontrol/tc.go:80-108 | a fault-free run on any initialised PF after which EAPOL of an address is dropped |
| TrafficSafety.EapolPasses | internal/trafficcontrol/tc.go:80-108 | EAPOL frames on a PF pass iff their source is authenticated or was never named by an event: a refused source is not heard any more |
| TrafficSafety.PortBasedControlAtLeast | internal/trafficcontrol/tc.go:89-172 | if port filters could not be installed, the same holds from left to right |
| TrafficSafety.StrangersStayOut | internal/trafficcontrol/tc.go:35-131 | on an initialised port, whatever fails in a run, a packet whose source never connected passes only if it is EAPOL or for an unprotected port on the PF |
| TrafficSafety.AlwaysRefines | internal/trafficcontrol/tc.go:52-86 | over any sorted start-up tables that try addresses first, first-match evaluation after a fault-free run amounts to: named addresses pass iff authenticated, all others as at start-up |
| FilterTable.ReplaceVerdict | internal/trafficcontrol/tc.go:53-53 | replacing the filter of an address settles the packets of that address and no others |
| FilterTable.VerdictHasLowestPref | internal/trafficcontrol/tc.go:98-108 | in a sorted table the verdict is that of a matching filter of the lowest preference |
| InterfaceInit.InitAlwaysGuarded | internal/trafficcontrol/tc.go:89-172 | at every point after the drop filter is in place, whichever command fails, only EAPOL and listed ports pass on a PF and nothing on any other interface |
| InterfaceInit.InitExact | internal/trafficcontrol/tc.go:89-172 | from any earlier configuration, initialisation succeeds iff no command fails except deletes that leave no qdisc behind and port filters; it then leaves exactly the port filters that met no fault, in order, before EAPOL and the final drop |
| InterfaceInit.KeptVerdict | internal/trafficcontrol/tc.go:98-172 | a PF so initialised lets through exactly EAPOL and the frames for a listed port whose own filter met no fault |
| InterfaceInit.ResetExact | internal/trafficcontrol/tc.go:133-144 | a reset succeeds iff `tc` is found and both shells start, and removes the qdisc whose deletion met no fault |
| InterfaceInit.InitWithoutFaults | internal/trafficcontrol/tc.go:89-144 | from any earlier configuration a fault-free initialisation leaves the same table, so a second one changes nothing |
| InterfaceInit.InitVerdict | internal/trafficcontrol/tc.go:98-128 | that table is sorted and lets through exactly EAPOL and listed ports on a PF and nothing elsewhere |
| TrafficControl.InitInterfaceForEAPTraffic | internal/trafficcontrol/tc.go:89-131 | runs exactly the script of an interface, with its order, its early returns and its tolerated failures, and touches no other interface |
| TrafficControl.ResetInterface | internal/trafficcontrol/tc.go:133-144 | runs exactly the reset commands, of which a failing `tc` is ignored |
| TrafficControl.UnprotectPorts | internal/trafficcontrol/tc.go:146-172 | installs every port filter it can, in order, skipping those that fail |
| TrafficControl.InitInterfaces | monitor/main.go:163-181 | success means that every name was found and every interface found for it is under control; without faults each has exactly the initial table; a name that is not found or an interface that fails ends it, with those before it under control and those behind it untouched |
| TrafficControl.AllowTrafficFromMac | internal/trafficcontrol/tc.go:35-60 | marks the PF authenticated and restores the VFs iff this is the only address, then sets the filters of the address, stopping at the first failure |
| TrafficControl.DenyTrafficFromMac | internal/trafficcontrol/tc.go:62-87 | marks the PF unauthenticated and parks the VFs iff no address is left, then sets the filters of the address, stopping at the first failure |
| Sriov.VFInfo.ConfigureVlanState | internal/trafficcontrol/sriov.go:78-100 | sets VLAN then link state of one VF through its parent, with every failure outcome |
| Sriov.PFInfo.ConfigureVlanStateForVFs | internal/trafficcontrol/sriov.go:68-76 | configures the VFs in the map's iteration order until one fails |
| Sriov.PFInfo.HandlePfEventForVlanChange | internal/trafficcontrol/sriov.go:49-66 | takes over the VLANs of the kernel's listing until one VF fails |
| Sriov.PFInfo.GetSriovPFInfo | internal/trafficcontrol/sriov.go:102-113 | one record per listed VF with its VLAN, pointing back to the PF |
| HostapMonitor.InterfaceMonitor.StartMonitor | pkg/hostap/monitor.go:86-127 | the object exists iff the VFs could be listed, no call to park one failed and hostapd was attached to, and is then in the start state; if only attaching failed the VFs are as after the stop step |
| HostapMonitor.InterfaceMonitor.HandleAuthenticateEvent | pkg/hostap/monitor.go:342-348 | the object takes exactly the connect step |
| HostapMonitor.InterfaceMonitor.HandleDeAuthenticateEvent | pkg/hostap/monitor.go:350-356 | the object takes exactly the disconnect step |
| HostapMonitor.InterfaceMonitor.HandlePfEventForOpStateChange | pkg/hostap/monitor.go:260-298 | the object takes exactly the link step, for every order of visiting the addresses |
| HostapMonitor.InterfaceMonitor.HandlePfEventForVfVlanChange | pkg/hostap/monitor.go:268-276 | the object takes exactly the VLAN step |
| HostapMonitor.InterfaceMonitor.HandleRequestsTimeout | pkg/hostap/monitor.go:309-323 | the object takes exactly the scan step |
| HostapMonitor.InterfaceMonitor.StopMonitor | pkg/hostap/monitor.go:129-136 | the object takes exactly the stop step |
| EventHandling.HandleHostapdEvent | pkg/hostap/monitor.go:175-213 | a message makes the monitor take the connect (disconnect) step of an address iff it is a connect (disconnect) event for it, and otherwise leaves its state alone; when a state is reported and the status published |
| HostapdEvents.DispatchExact | pkg/hostap/monitor.go:175-213 | a handler runs with an address iff the text is an optional priority up to the first '>', its key, a space, that space-free address and possibly more words |
| HostapdEvents.EventNames | pkg/hostap/monitor.go:176-195 | for every priority, key, address and further words, splitting and prefix removal recover key and address |
| HostapdEvents.StateIsLastLine | pkg/hostap/monitor.go:426-457 | the state is decided by the last line that is the bare word "state" or "state=" and a value without '='; each of the seven names gives its state and any other value none of them |
| HostapdEvents.StateUnknownOtherwise | pkg/hostap/monitor.go:438-456 | without such a line the state is unknown |
| HostapdEvents.GetIfState | pkg/hostap/monitor.go:426-457 | collecting all lines in a map gives the state that the last deciding line gives |
| StatusProtocol.EntryIsLastWrite | pkg/hostap/monitor.go:358-387 | in every interleaving of reads, writes, conflicts, retries and failures of any number of monitors, an interface's entry is the last one its own monitor wrote successfully |
| StatusProtocol.EntryUntouched | pkg/hostap/monitor.go:358-387 | an entry whose monitor has not written is the initial one: no monitor changes another's entry |
| StatusProtocol.NamesStay | pkg/hostap/monitor.go:369-379 | names stay distinct if they began so, and no entry moves or disappears |
| StatusProtocol.AcceptedReadIsCurrent | pkg/hostap/monitor.go:364-386 | the object has not changed between the read an accepted write is based on and that write |
| StatusProtocol.AcceptedExactly | pkg/hostap/monitor.go:364-386 | a write is accepted iff nobody has changed the object since its monitor read it |
| StatusProtocol.FillStatus | pkg/hostap/monitor.go:369-384 | overwrites the first entry of the interface or appends one, with the addresses in the order visited |
| StatusContents.EntryWasExact | pkg/hostap/monitor.go:358-387 | in every interleaving of monitor steps and status updates, which hold the mutex from read to write over all retries, an entry lists exactly the addresses that were authenticated when it was last written, each once |
| StatusContents.EntryState | pkg/hostap/monitor.go:364-386 | an entry carries the interface state its monitor filled in after its latest read before the last successful write |
| StatusContents.EntryStaysExact | pkg/hostap/monitor.go:358-387 | and exactly those authenticated now, unless its monitor has taken a connect, disconnect or scan step since |
| ReconcilePasses.StaysSettled | controllers/authenticator_controller.go:69-156 | after any run of passes and outside edits, a pass for an Authenticator that succeeds, and one without failing calls does, settles its objects: from then on they stay as generated under passes for any Authenticators with any failures, and no further pass for it makes a write call, until somebody edits its specification or objects |
| ReconcilePasses.PassSettles | controllers/authenticator_controller.go:69-156 | from any store, success means that the ConfigMap and DaemonSet named like the Authenticator hold the data and specification generated for it, and that the three RBAC objects with their loaded names are in its namespace; without failing calls a pass succeeds if the configuration can be generated |
| ReconcilePasses.PassSucceeds | controllers/authenticator_controller.go:69-197 | a pass succeeds iff the Authenticator can be read and, if it exists, its configuration can be generated and no get, needed creation or needed update of its five objects fails |
| ReconcilePasses.PassIdle | controllers/authenticator_controller.go:69-156 | on such a store a pass changes nothing and makes no write call, whatever fails |
| ReconcilePasses.PassWrites | controllers/authenticator_controller.go:69-219 | whatever fails, every object is as before the pass or is one of the five of the Authenticator with the content generated for it; the owner of a made ConfigMap or DaemonSet is the Authenticator, a changed DaemonSet keeps its owner and a changed ConfigMap has none; nothing is removed and existing RBAC objects are left alone |
| ReconcilePasses.PassInOrder | controllers/authenticator_controller.go:91-153 | whatever fails, no RBAC object is made before the ConfigMap is as generated, nor the DaemonSet written before the RBAC objects are there |
| ReconcilePasses.PassCounted | controllers/authenticator_controller.go:91-153 | a pass without a write call changes nothing |
| ReconcilePasses.RbacOwner | controllers/authenticator_controller.go:158-219 | in every run, an RBAC object made for an Authenticator belongs to it iff the Authenticator for which one of its kind was first to be made has the same name, and otherwise to one with that first name |
| ReconcilePasses.SecondOwner | controllers/authenticator_controller.go:158-219 | after passes for two Authenticators on an empty cluster the RBAC objects of the second belong to the first unless they have the same name |
| ReconcilePasses.FailedFirstUse | controllers/authenticator_controller.go:158-219 | even if the call to create the first service account fails, the service account of a second Authenticator of another name belongs to the first |
| ReconcilePasses.ConfigMapOwner | controllers/authenticator_controller.go:91-117 | in every run without outside edits of it, a ConfigMap keeps its owner until its data first change and belongs to nobody ever after |
| ReconcilePasses.OrphanedConfigMap | controllers/authenticator_controller.go:91-117 | whenever two specifications generate different data there is a fault-free run in which the ConfigMap first belongs to its Authenticator and then to nobody |
| Reconciler.AuthenticatorReconciler.Reconcile | controllers/authenticator_controller.go:69-156 | the object takes exactly one pass; it succeeds iff no call it has to make fails; success means a settled store, on which nothing is written |
| Reconciler.AuthenticatorReconciler.SyncRbacResources | controllers/authenticator_controller.go:158-197 | takes exactly the three RBAC turns of a pass, stopping at the first failure |
| Reconciler.AuthenticatorReconciler.SyncRbac | controllers/authenticator_controller.go:158-219 | creates a missing RBAC object from the shared loaded one, which is left with the owner it then has, whether or not the call succeeds |
| Reconciler.AuthenticatorReconciler.SyncConfigMap | controllers/authenticator_controller.go:91-117 | takes exactly the ConfigMap's turn: create with owner, or update with the generated object, which has none |
| Reconciler.AuthenticatorReconciler.SyncDaemonSet | controllers/authenticator_controller.go:125-153 | takes exactly the DaemonSet's turn: create with owner, or update of the object found |
| EnvArgs.NamesRoundTrip | pkg/configgen/configgen.go:179-179 | a list of interface names survives joining and parsing iff every name is trimmed and comma-free and the list is not one empty name |
| EnvArgs.PaddedNames | monitor/main.go:236-246 | names are recovered whatever white space is put around them |
| EnvArgs.PortsRoundTrip | monitor/main.go:220-234 | a printed port list is recovered if it has at most one port and rejected if it has more |
| EnvArgs.AtoiAllExact | monitor/main.go:220-234 | a list of texts is accepted iff each writes a number in the range of int, and gives these numbers |
| EnvArgs.SamplePortsRejected | README.md:49-52 | the two ports of the sample configuration are printed as "319 320" and rejected |
| EnvArgs.ParseStringsArgs | monitor/main.go:236-246 | splits at commas and trims every part; nothing for an empty or missing argument |
| EnvArgs.ParseIntArgs | monitor/main.go:220-234 | all parts as numbers, or an error if one is none |
| EnvArgs.ParsePorts | pkg/configgen/configgen.go:353-372 | both lists with single spaces between decimal numbers, or empty |
| Text.TrimSpaceCuts | monitor/main.go:243-243 | trimming cuts off white space only, and only at the ends |
| Text.SplitJoin | pkg/configgen/configgen.go:179-179 | joining pieces without separator is undone by splitting |
| Text.JoinSplit | monitor/main.go:241-241 | splitting is undone by joining |
| Text.AtoiItoa | monitor/main.go:227-231 | every int survives printing and parsing |
| Text.AtoiExact | monitor/main.go:227-231 | a text is accepted as a number iff it is its decimal digits, possibly behind zeros and a fitting sign, within the range of int |

## Left out

- Socket I/O, keep-alive and attach loops, logging, Prometheus gauges, HTTP handlers and Kubernetes events.
- StartMonitor: link events that arrive between the start of the handlers and a failing attach
  (`pkg/hostap/monitor.go:111-119`) are not modelled.
- Shutdown while handlers are still running: nothing orders the unlocked restore of `StopMonitor`
  (`pkg/hostap/monitor.go:130-136`) against them.
- Retrying a failed netlink or `tc` call: the code does not, so agreement of the kernel with the records is
  proved for runs whose calls succeed, and from the next full reconfiguration on.
- Status being current after a timeout scan, which does not publish it (`pkg/hostap/monitor.go:302-327`).
- `resetInterfaces`, `LinkEventHandler` and the configuration fields of `Daemonset`: easy members only.
- The bound on retries of a status write; giving up at any time is modelled instead.
- Discovery of VFs in sysfs, and VFs that vanish from the kernel during a run.
- The text of `hostapd.conf`, the loading of RBAC manifests and the specification of the DaemonSet are
  parameters; hostapd's own state machines are not part of this model.
