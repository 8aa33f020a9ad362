/** Passes of the reconciler over the cluster's objects as a state machine: any Authenticators, any failing
    calls, and others who edit anything between passes. */
module ReconcilePasses {
  import opened Options

  datatype Kind = ConfigMap | DaemonSet | ServiceAccount | Role | RoleBinding

  datatype Key = Key(kind: Kind, namespace: string, name: string)

  datatype Content =
    | Data(data: map<string, string>)            // of a ConfigMap
    | Spec(spec: string)                         // of a DaemonSet
    | Rules(rules: string)                       // of a ServiceAccount or a Role
    | Binding(rules: string, subject: string)    // of a RoleBinding, with the namespace it binds

  /** An Authenticator, also as the controller an object belongs to. */
  datatype Owner = Owner(namespace: string, name: string)

  datatype Object = Object(content: Content, owner: Option<Owner>, version: nat)

  /** The API calls of one pass, each made at most once. */
  datatype Call = GetAuthenticator | Get(kind: Kind) | Create(kind: Kind) | Update(kind: Kind)

  /** What no use changes in an RBAC object loaded at start-up. */
  datatype Shape = Shape(name: string, rules: string)

  /** What is fixed while the operator runs: the RBAC objects it has loaded, and the generators of the
      configuration, which can fail, and of the DaemonSet, which is told the service account. */
  datatype Setup = Setup(
    serviceAccount: Shape, role: Shape, roleBinding: Shape,
    configData: (Owner, string) -> Option<map<string, string>>,
    daemonSetSpec: (Owner, string, string) -> string)

  /** The cluster's objects and the specifications of its Authenticators; `owners` are those left in the
      loaded RBAC objects by earlier uses, `writes` counts the create and update calls made so far. */
  datatype World = World(
    objects: map<Key, Object>, specs: map<Owner, string>, revision: nat, owners: map<Kind, Owner>, writes: nat)

  datatype Outcome = Outcome(w: World, ok: bool)

  predicate IsRbac(kind: Kind) {
    kind.ServiceAccount? || kind.Role? || kind.RoleBinding?
  }

  function ShapeOf(setup: Setup, kind: Kind): Shape
    requires IsRbac(kind)
  {
    match kind
    case ServiceAccount => setup.serviceAccount
    case Role => setup.role
    case RoleBinding => setup.roleBinding
  }

  /** An Authenticator has one object of each kind, in its namespace. */
  function KeyOf(setup: Setup, kind: Kind, req: Owner): Key {
    Key(kind, req.namespace, if IsRbac(kind) then ShapeOf(setup, kind).name else req.name)
  }

  // ----- one pass -----

  /** What a pass generates for the specification it has read. */
  datatype Plan = Plan(data: map<string, string>, spec: string)

  function Wanted(setup: Setup, plan: Plan, kind: Kind, req: Owner): Content {
    match kind
    case ConfigMap => Data(plan.data)
    case DaemonSet => Spec(plan.spec)
    case RoleBinding => Binding(ShapeOf(setup, kind).rules, req.namespace)
    case _ => Rules(ShapeOf(setup, kind).rules)
  }

  /** The owner a loaded RBAC object has after it was made to belong to `req`: this fails, unnoticed, if it
      belongs to an owner of another name. */
  function Adopted(owners: map<Kind, Owner>, kind: Kind, req: Owner): Owner {
    if kind in owners && owners[kind].name != req.name then owners[kind] else req
  }

  /** The owner of an object as it is sent. A changed DaemonSet is the object found, a changed ConfigMap the
      generated one, which has no owner. */
  function SentOwner(w: World, key: Key, req: Owner): Option<Owner> {
    if IsRbac(key.kind) then Some(Adopted(w.owners, key.kind, req))
    else if key !in w.objects then Some(req)
    else if key.kind == DaemonSet then w.objects[key].owner
    else None
  }

  /** Nothing has to be written: the object exists and, unless it is an RBAC object, is as generated. */
  predicate Fits(w: World, key: Key, content: Content) {
    key in w.objects && (IsRbac(key.kind) || w.objects[key].content == content)
  }

  /** An RBAC object is made from the loaded one, which adopts `req` whether or not the call succeeds. */
  function WriteStep(w: World, key: Key, content: Content, req: Owner, fails: set<Call>): Outcome {
    var call := if key in w.objects then Update(key.kind) else Create(key.kind);
    var owners := if IsRbac(key.kind) then w.owners[key.kind := Adopted(w.owners, key.kind, req)] else w.owners;
    if call in fails then Outcome(w.(owners := owners, writes := w.writes + 1), false)
    else
      var obj := Object(content, SentOwner(w, key, req), w.revision + 1);
      Outcome(World(w.objects[key := obj], w.specs, w.revision + 1, owners, w.writes + 1), true)
  }

  /** Gets the object of one kind and creates or updates it where needed. */
  function SyncStep(setup: Setup, plan: Plan, w: World, kind: Kind, req: Owner, fails: set<Call>): Outcome {
    var key := KeyOf(setup, kind, req);
    var content := Wanted(setup, plan, kind, req);
    if Get(kind) in fails then Outcome(w, false)
    else if Fits(w, key, content) then Outcome(w, true)
    else WriteStep(w, key, content, req, fails)
  }

  const KINDS := 5

  /** The order in which a pass takes the kinds. */
  function Turn(kind: Kind): (n: nat)
    ensures n < KINDS && KindAt(n) == kind
  {
    match kind
    case ConfigMap => 0
    case ServiceAccount => 1
    case Role => 2
    case RoleBinding => 3
    case DaemonSet => 4
  }

  function KindAt(n: nat): Kind {
    if n == 0 then ConfigMap else if n == 1 then ServiceAccount else if n == 2 then Role
    else if n == 3 then RoleBinding else DaemonSet
  }

  /** The first `n` kinds, one after the other until one fails. */
  function SyncTo(setup: Setup, plan: Plan, w: World, n: nat, req: Owner, fails: set<Call>): Outcome {
    if n == 0 then Outcome(w, true)
    else
      var r := SyncTo(setup, plan, w, n - 1, req, fails);
      if r.ok then SyncStep(setup, plan, r.w, KindAt(n - 1), req, fails) else r
  }

  /** After a failure no further kind has its turn. */
  lemma {:induction false} SyncToStuck(setup: Setup, plan: Plan, w: World, m: nat, n: nat, req: Owner, fails: set<Call>)
    requires m <= n && !SyncTo(setup, plan, w, m, req, fails).ok
    ensures SyncTo(setup, plan, w, n, req, fails) == SyncTo(setup, plan, w, m, req, fails)
    decreases n
  {
    if m < n {
      SyncToStuck(setup, plan, w, m, n - 1, req, fails);
    }
  }

  function PlanOf(setup: Setup, w: World, req: Owner): Option<Plan>
    requires req in w.specs
  {
    var data := setup.configData(req, w.specs[req]);
    if data.None? then None
    else Some(Plan(data.value, setup.daemonSetSpec(req, w.specs[req], setup.serviceAccount.name)))
  }

  function PassStep(setup: Setup, w: World, req: Owner, fails: set<Call>): Outcome {
    if GetAuthenticator in fails then Outcome(w, false)
    else if req !in w.specs then Outcome(w, true)
    else
      match PlanOf(setup, w, req)
      case None => Outcome(w, false)
      case Some(plan) => SyncTo(setup, plan, w, KINDS, req, fails)
  }

  // ----- what one pass does, whatever fails -----

  ghost predicate SameAt(w: World, key: Key, r: World) {
    (key in r.objects <==> key in w.objects) && (key in w.objects ==> r.objects[key] == w.objects[key])
  }

  ghost predicate SameOwner(w: World, kind: Kind, r: World) {
    (kind in r.owners <==> kind in w.owners) && (kind in w.owners ==> r.owners[kind] == w.owners[kind])
  }

  /** What becomes of one object and the loaded object of its kind: both stay as they are, or something had to
      be written. Then a loaded RBAC object has adopted `req`, and the object stays or is as sent. */
  ghost predicate Effect(w: World, key: Key, content: Content, req: Owner, r: World) {
    || (SameAt(w, key, r) && SameOwner(w, key.kind, r))
    || (&& !Fits(w, key, content)
        && (if IsRbac(key.kind) then key.kind in r.owners && r.owners[key.kind] == Adopted(w.owners, key.kind, req)
            else SameOwner(w, key.kind, r))
        && (SameAt(w, key, r) ||
            (key in r.objects && r.objects[key].content == content && r.objects[key].owner == SentOwner(w, key, req))))
  }

  lemma {:induction false} SyncEffect(setup: Setup, plan: Plan, w: World, kind: Kind, req: Owner, fails: set<Call>)
    ensures var key := KeyOf(setup, kind, req);
            var content := Wanted(setup, plan, kind, req);
            var r := SyncStep(setup, plan, w, kind, req, fails);
            && r.w.specs == w.specs
            && Effect(w, key, content, req, r.w)
            && (forall k :: k != key ==> SameAt(w, k, r.w))
            && (forall other :: other != kind ==> SameOwner(w, other, r.w))
            && (r.ok ==> Fits(r.w, key, content))
            && (fails == {} ==> r.ok)
  {
  }

  ghost predicate Same(w: World, k: Key, r: World) {
    SameAt(w, k, r) && SameOwner(w, k.kind, r)
  }

  lemma {:induction false} EffectOnce(w: World, m: World, k: Key, content: Content, req: Owner, r: World)
    requires (Same(w, k, m) && Effect(m, k, content, req, r)) || (Effect(w, k, content, req, m) && Same(m, k, r))
    ensures Effect(w, k, content, req, r)
  {
  }

  /** What the first `n` kinds leave of the object `k` and the loaded object of its kind: the effect of the
      kind's own turn if it has had one, and nothing for objects of other Authenticators. */
  ghost predicate EffectAt(setup: Setup, plan: Plan, w: World, n: nat, req: Owner, k: Key, r: Outcome) {
    var content := Wanted(setup, plan, k.kind, req);
    && r.w.specs == w.specs
    && (Turn(k.kind) >= n ==> Same(w, k, r.w))
    && (k != KeyOf(setup, k.kind, req) ==> SameAt(w, k, r.w))
    && (k == KeyOf(setup, k.kind, req) ==> Effect(w, k, content, req, r.w))
    && (k == KeyOf(setup, k.kind, req) && Turn(k.kind) < n && r.ok ==> Fits(r.w, k, content))
  }

  lemma {:induction false} SyncToEffect(setup: Setup, plan: Plan, w: World, n: nat, req: Owner, fails: set<Call>,
                                        k: Key)
    requires n <= KINDS
    ensures EffectAt(setup, plan, w, n, req, k, SyncTo(setup, plan, w, n, req, fails))
    ensures fails == {} ==> SyncTo(setup, plan, w, n, req, fails).ok
  {
    if n > 0 {
      var m := SyncTo(setup, plan, w, n - 1, req, fails);
      SyncToEffect(setup, plan, w, n - 1, req, fails, k);
      if m.ok {
        NextEffect(setup, plan, w, n - 1, req, fails, k, m.w);
      }
    }
  }

  lemma {:induction false} NextEffect(setup: Setup, plan: Plan, w: World, n: nat, req: Owner, fails: set<Call>, k: Key,
                                      m: World)
    requires n < KINDS && EffectAt(setup, plan, w, n, req, k, Outcome(m, true))
    ensures var r := SyncStep(setup, plan, m, KindAt(n), req, fails);
            EffectAt(setup, plan, w, n + 1, req, k, r) && (fails == {} ==> r.ok)
  {
    var r := SyncStep(setup, plan, m, KindAt(n), req, fails);
    SyncEffect(setup, plan, m, KindAt(n), req, fails);
    if k == KeyOf(setup, k.kind, req) {
      EffectOnce(w, m, k, Wanted(setup, plan, k.kind, req), req, r.w);
    }
  }

  ghost predicate Holds(w: World, key: Key, content: Content) {
    key in w.objects && w.objects[key].content == content
  }

  /** Everything the specification of `req` asks for is there. */
  ghost predicate Converged(setup: Setup, w: World, req: Owner) {
    && req in w.specs && setup.configData(req, w.specs[req]).Some?
    && Holds(w, Key(ConfigMap, req.namespace, req.name), Data(setup.configData(req, w.specs[req]).value))
    && Holds(w, Key(DaemonSet, req.namespace, req.name),
             Spec(setup.daemonSetSpec(req, w.specs[req], setup.serviceAccount.name)))
    && Key(ServiceAccount, req.namespace, setup.serviceAccount.name) in w.objects
    && Key(Role, req.namespace, setup.role.name) in w.objects
    && Key(RoleBinding, req.namespace, setup.roleBinding.name) in w.objects
  }

  /** That is, no kind needs a write. */
  lemma {:induction false} ConvergedFits(setup: Setup, w: World, req: Owner)
    requires req in w.specs && PlanOf(setup, w, req).Some?
    ensures Converged(setup, w, req) <==>
            forall kind :: Fits(w, KeyOf(setup, kind, req), Wanted(setup, PlanOf(setup, w, req).value, kind, req))
  {
    var plan := PlanOf(setup, w, req).value;
    if forall kind :: Fits(w, KeyOf(setup, kind, req), Wanted(setup, plan, kind, req)) {
      assert forall kind :: KeyOf(setup, kind, req) in w.objects;
      assert KeyOf(setup, ConfigMap, req) in w.objects && KeyOf(setup, DaemonSet, req) in w.objects;
      assert KeyOf(setup, ServiceAccount, req) in w.objects && KeyOf(setup, Role, req) in w.objects;
      assert KeyOf(setup, RoleBinding, req) in w.objects;
    }
  }

  /** Whatever fails, a pass leaves the objects of other Authenticators alone, and on each of its own objects
      it has the effect of at most one write. */
  lemma {:induction false} PassEffect(setup: Setup, w: World, req: Owner, fails: set<Call>, k: Key)
    ensures var r := PassStep(setup, w, req, fails).w;
            && r.specs == w.specs
            && (k != KeyOf(setup, k.kind, req) ==> SameAt(w, k, r))
            && (Same(w, k, r) ||
                (req in w.specs && PlanOf(setup, w, req).Some? &&
                 (k == KeyOf(setup, k.kind, req) ==>
                    Effect(w, k, Wanted(setup, PlanOf(setup, w, req).value, k.kind, req), req, r))))
  {
    if req in w.specs && PlanOf(setup, w, req).Some? {
      SyncToEffect(setup, PlanOf(setup, w, req).value, w, KINDS, req, fails, k);
    }
  }

  /** A pass that succeeds leaves the store as the specification asks for, and without failing calls a pass
      succeeds if the configuration can be generated. */
  lemma {:induction false} PassSettles(setup: Setup, w: World, req: Owner, fails: set<Call>)
    requires req in w.specs
    ensures var r := PassStep(setup, w, req, fails);
            && (r.ok ==> Converged(setup, r.w, req))
            && (fails == {} && setup.configData(req, w.specs[req]).Some? ==> r.ok)
  {
    if PlanOf(setup, w, req).Some? {
      var plan := PlanOf(setup, w, req).value;
      SyncToEffect(setup, plan, w, KINDS, req, fails, KeyOf(setup, ConfigMap, req));
      ConvergedFits(setup, SyncTo(setup, plan, w, KINDS, req, fails).w, req);
      forall kind {
        SyncToEffect(setup, plan, w, KINDS, req, fails, KeyOf(setup, kind, req));
      }
    }
  }

  lemma {:induction false} SyncToIdle(setup: Setup, plan: Plan, w: World, n: nat, req: Owner, fails: set<Call>)
    requires forall kind :: Fits(w, KeyOf(setup, kind, req), Wanted(setup, plan, kind, req))
    ensures SyncTo(setup, plan, w, n, req, fails).w == w
  {
    if n > 0 {
      SyncToIdle(setup, plan, w, n - 1, req, fails);
    }
  }

  /** On a store that is as it should be a pass changes nothing and makes no write call, whatever fails. */
  lemma {:induction false} PassIdle(setup: Setup, w: World, req: Owner, fails: set<Call>)
    requires Converged(setup, w, req)
    ensures PassStep(setup, w, req, fails).w == w
  {
    ConvergedFits(setup, w, req);
    SyncToIdle(setup, PlanOf(setup, w, req).value, w, KINDS, req, fails);
  }

  /** The one object of its kind that a pass for `req` may write, as it is after the write. */
  ghost predicate AsWritten(setup: Setup, w: World, req: Owner, k: Key, obj: Object) {
    && req in w.specs && setup.configData(req, w.specs[req]).Some? && k.namespace == req.namespace
    && match k.kind
       case ConfigMap =>
         && k.name == req.name && obj.content == Data(setup.configData(req, w.specs[req]).value)
         && obj.owner == if k in w.objects then None else Some(req)
       case DaemonSet =>
         && k.name == req.name
         && obj.content == Spec(setup.daemonSetSpec(req, w.specs[req], setup.serviceAccount.name))
         && obj.owner == if k in w.objects then w.objects[k].owner else Some(req)
       case ServiceAccount =>
         k !in w.objects && k.name == setup.serviceAccount.name && obj.content == Rules(setup.serviceAccount.rules)
       case Role =>
         k !in w.objects && k.name == setup.role.name && obj.content == Rules(setup.role.rules)
       case RoleBinding =>
         && k !in w.objects && k.name == setup.roleBinding.name
         && obj.content == Binding(setup.roleBinding.rules, req.namespace)
  }

  /** Whatever fails, an object is as it was before the pass or as the specification asks for, and is never
      removed; existing RBAC objects and the objects of other Authenticators are left alone. */
  lemma {:induction false} PassWrites(setup: Setup, w: World, req: Owner, fails: set<Call>, k: Key)
    ensures var r := PassStep(setup, w, req, fails).w;
            SameAt(w, k, r) || (k in r.objects && AsWritten(setup, w, req, k, r.objects[k]))
  {
    PassEffect(setup, w, req, fails, k);
  }

  /** Every change of an object is counted as a write call. */
  lemma {:induction false} WritesCounted(setup: Setup, plan: Plan, w: World, n: nat, req: Owner, fails: set<Call>)
    ensures var r := SyncTo(setup, plan, w, n, req, fails).w;
            r.writes >= w.writes && (r.writes == w.writes ==> r == w)
  {
    if n > 0 {
      WritesCounted(setup, plan, w, n - 1, req, fails);
    }
  }

  lemma {:induction false} PassCounted(setup: Setup, w: World, req: Owner, fails: set<Call>)
    ensures var r := PassStep(setup, w, req, fails).w;
            r.writes >= w.writes && (r.writes == w.writes ==> r == w)
  {
    if req in w.specs && PlanOf(setup, w, req).Some? {
      WritesCounted(setup, PlanOf(setup, w, req).value, w, KINDS, req, fails);
    }
  }

  // ----- when a pass succeeds, and in which order it works -----

  /** No call fails that is made for an object: its get, its creation if it is missing, its update if it is there
      but not as generated. */
  ghost predicate Undisturbed(w: World, key: Key, generated: Option<Content>, fails: set<Call>) {
    && Get(key.kind) !in fails
    && (key !in w.objects ==> Create(key.kind) !in fails)
    && (key in w.objects && generated.Some? && w.objects[key].content != generated.value ==> Update(key.kind) !in fails)
  }

  /** A pass succeeds exactly if the Authenticator can be read and does not exist, or its configuration can be
      generated and no call made for its five objects fails. */
  ghost predicate Succeeds(setup: Setup, w: World, req: Owner, fails: set<Call>) {
    && GetAuthenticator !in fails
    && (req in w.specs ==>
          var spec := w.specs[req];
          && setup.configData(req, spec).Some?
          && Undisturbed(w, Key(ConfigMap, req.namespace, req.name),
                         Some(Data(setup.configData(req, spec).value)), fails)
          && Undisturbed(w, Key(ServiceAccount, req.namespace, setup.serviceAccount.name), None, fails)
          && Undisturbed(w, Key(Role, req.namespace, setup.role.name), None, fails)
          && Undisturbed(w, Key(RoleBinding, req.namespace, setup.roleBinding.name), None, fails)
          && Undisturbed(w, Key(DaemonSet, req.namespace, req.name),
                         Some(Spec(setup.daemonSetSpec(req, spec, setup.serviceAccount.name))), fails))
  }

  ghost predicate Goes(setup: Setup, plan: Plan, w: World, kind: Kind, req: Owner, fails: set<Call>) {
    SyncStep(setup, plan, w, kind, req, fails).ok
  }

  /** The first `n` kinds succeed, each on its own. */
  ghost predicate AllGo(setup: Setup, plan: Plan, w: World, n: nat, req: Owner, fails: set<Call>) {
    n == 0 || (AllGo(setup, plan, w, n - 1, req, fails) && Goes(setup, plan, w, KindAt(n - 1), req, fails))
  }

  lemma {:induction false} SyncToSucceeds(setup: Setup, plan: Plan, w: World, n: nat, req: Owner, fails: set<Call>)
    requires n <= KINDS
    ensures SyncTo(setup, plan, w, n, req, fails).ok <==> AllGo(setup, plan, w, n, req, fails)
  {
    if n > 0 {
      SyncToSucceeds(setup, plan, w, n - 1, req, fails);
      NextGoes(setup, plan, w, n - 1, req, fails);
    }
  }

  /** Whether a kind succeeds does not depend on the kinds before it. */
  lemma {:induction false} NextGoes(setup: Setup, plan: Plan, w: World, n: nat, req: Owner, fails: set<Call>)
    requires n < KINDS
    ensures var m := SyncTo(setup, plan, w, n, req, fails);
            SyncTo(setup, plan, w, n + 1, req, fails).ok <==> m.ok && Goes(setup, plan, w, KindAt(n), req, fails)
  {
    SyncToEffect(setup, plan, w, n, req, fails, KeyOf(setup, KindAt(n), req));
    SameGoes(setup, plan, w, SyncTo(setup, plan, w, n, req, fails).w, KindAt(n), req, fails);
  }

  lemma {:induction false} SameGoes(setup: Setup, plan: Plan, w: World, m: World, kind: Kind, req: Owner,
                                    fails: set<Call>)
    requires SameAt(w, KeyOf(setup, kind, req), m)
    ensures SyncStep(setup, plan, m, kind, req, fails).ok <==> Goes(setup, plan, w, kind, req, fails)
  {
  }

  lemma {:induction false} PassSucceeds(setup: Setup, w: World, req: Owner, fails: set<Call>)
    ensures PassStep(setup, w, req, fails).ok <==> Succeeds(setup, w, req, fails)
  {
    if req in w.specs && PlanOf(setup, w, req).Some? {
      var plan := PlanOf(setup, w, req).value;
      SyncToSucceeds(setup, plan, w, KINDS, req, fails);
      FiveGo(setup, plan, w, req, fails);
    }
  }

  lemma {:induction false} FiveGo(setup: Setup, plan: Plan, w: World, req: Owner, fails: set<Call>)
    ensures AllGo(setup, plan, w, KINDS, req, fails) <==>
            && Goes(setup, plan, w, ConfigMap, req, fails) && Goes(setup, plan, w, ServiceAccount, req, fails)
            && Goes(setup, plan, w, Role, req, fails) && Goes(setup, plan, w, RoleBinding, req, fails)
            && Goes(setup, plan, w, DaemonSet, req, fails)
  {
    assert AllGo(setup, plan, w, 1, req, fails) <==> Goes(setup, plan, w, ConfigMap, req, fails);
    assert AllGo(setup, plan, w, 3, req, fails) <==>
           && AllGo(setup, plan, w, 1, req, fails)
           && Goes(setup, plan, w, ServiceAccount, req, fails) && Goes(setup, plan, w, Role, req, fails);
  }

  /** An object is written only after those of the kinds before it are as they should be. */
  lemma {:induction false} SyncToInOrder(setup: Setup, plan: Plan, w: World, n: nat, req: Owner, fails: set<Call>,
                                         first: Kind, second: Kind)
    requires n <= KINDS && Turn(first) < Turn(second)
    ensures var r := SyncTo(setup, plan, w, n, req, fails).w;
            SameAt(w, KeyOf(setup, second, req), r) ||
            Fits(r, KeyOf(setup, first, req), Wanted(setup, plan, first, req))
  {
    if n > 0 {
      var m := SyncTo(setup, plan, w, n - 1, req, fails);
      SyncToInOrder(setup, plan, w, n - 1, req, fails, first, second);
      if m.ok {
        SyncToEffect(setup, plan, w, n - 1, req, fails, KeyOf(setup, first, req));
        SyncToEffect(setup, plan, w, n - 1, req, fails, KeyOf(setup, second, req));
        NextInOrder(setup, plan, w, n - 1, req, fails, first, second, m.w);
      }
    }
  }

  lemma {:induction false} NextInOrder(setup: Setup, plan: Plan, w: World, n: nat, req: Owner, fails: set<Call>,
                                       first: Kind, second: Kind, m: World)
    requires n < KINDS && Turn(first) < Turn(second)
    requires EffectAt(setup, plan, w, n, req, KeyOf(setup, first, req), Outcome(m, true))
    requires EffectAt(setup, plan, w, n, req, KeyOf(setup, second, req), Outcome(m, true))
    ensures var r := SyncStep(setup, plan, m, KindAt(n), req, fails).w;
            SameAt(w, KeyOf(setup, second, req), r) ||
            Fits(r, KeyOf(setup, first, req), Wanted(setup, plan, first, req))
  {
    SyncEffect(setup, plan, m, KindAt(n), req, fails);
    if n >= Turn(second) {
      assert KindAt(n) != first;
    } else {
      assert KindAt(n) != second;
    }
  }

  /** The order of a pass, whatever fails: no RBAC object is made before the ConfigMap is as generated, and the
      DaemonSet is not written before the objects it needs are there. */
  lemma {:induction false} PassInOrder(setup: Setup, w: World, req: Owner, fails: set<Call>)
    ensures var r := PassStep(setup, w, req, fails).w;
            var account := Key(ServiceAccount, req.namespace, setup.serviceAccount.name);
            var role := Key(Role, req.namespace, setup.role.name);
            var binding := Key(RoleBinding, req.namespace, setup.roleBinding.name);
            && (!SameAt(w, account, r) ==>
                  && req in w.specs && setup.configData(req, w.specs[req]).Some?
                  && Holds(r, Key(ConfigMap, req.namespace, req.name), Data(setup.configData(req, w.specs[req]).value)))
            && (!SameAt(w, role, r) ==> account in r.objects)
            && (!SameAt(w, binding, r) ==> role in r.objects)
            && (!SameAt(w, Key(DaemonSet, req.namespace, req.name), r) ==> binding in r.objects)
  {
    if req in w.specs && PlanOf(setup, w, req).Some? {
      var plan := PlanOf(setup, w, req).value;
      SyncToInOrder(setup, plan, w, KINDS, req, fails, ConfigMap, ServiceAccount);
      SyncToInOrder(setup, plan, w, KINDS, req, fails, ServiceAccount, Role);
      SyncToInOrder(setup, plan, w, KINDS, req, fails, Role, RoleBinding);
      SyncToInOrder(setup, plan, w, KINDS, req, fails, RoleBinding, DaemonSet);
    }
  }

  // ----- runs -----

  /** `Edit` is anybody else putting any objects and specifications in place of the present ones. */
  datatype Event =
    | Pass(req: Owner, fails: set<Call>)
    | Edit(objects: map<Key, Object>, specs: map<Owner, string>)

  function Step(setup: Setup, w: World, e: Event): World {
    match e
    case Pass(req, fails) => PassStep(setup, w, req, fails).w
    case Edit(objects, specs) => w.(objects := objects, specs := specs)
  }

  ghost predicate Run(setup: Setup, ws: seq<World>, es: seq<Event>) {
    && |ws| == |es| + 1
    && forall i :: 0 <= i < |es| ==> ws[i + 1] == Step(setup, ws[i], es[i])
  }

  /** An edit that concerns neither the specification nor the objects of `req`. */
  ghost predicate LeavesAlone(setup: Setup, w: World, e: Event, req: Owner) {
    e.Edit? ==>
      && (req in e.specs <==> req in w.specs)
      && (req in w.specs ==> e.specs[req] == w.specs[req])
      && forall kind :: SameAt(w, KeyOf(setup, kind, req), Step(setup, w, e))
  }

  /** Passes for whichever Authenticators keep the store as `req` asks for. */
  lemma {:induction false} StepConverged(setup: Setup, w: World, e: Event, req: Owner)
    requires Converged(setup, w, req) && LeavesAlone(setup, w, e, req)
    ensures Converged(setup, Step(setup, w, e), req)
  {
    var r := Step(setup, w, e);
    if e.Pass? && e.req == req {
      PassIdle(setup, w, req, e.fails);
    } else {
      if e.Pass? {
        PassEffect(setup, w, e.req, e.fails, KeyOf(setup, ConfigMap, req));
      }
      ConvergedFits(setup, w, req);
      ConvergedFits(setup, r, req);
      forall kind
        ensures Fits(r, KeyOf(setup, kind, req), Wanted(setup, PlanOf(setup, w, req).value, kind, req))
      {
        if e.Pass? {
          PassEffect(setup, w, e.req, e.fails, KeyOf(setup, kind, req));
        }
      }
    }
  }

  /** However many passes have failed before, a pass for `req` that succeeds, and one without failing calls
      does, settles the store: from then on everything `req` asks for stays there and no pass for `req` makes
      a write call, whatever fails, until somebody else edits the specification or the objects of `req`. */
  lemma {:induction false} StaysSettled(setup: Setup, ws: seq<World>, es: seq<Event>, m: nat, n: nat, req: Owner)
    requires Run(setup, ws, es) && m < n < |ws|
    requires es[m].Pass? && es[m].req == req && req in ws[m].specs
    requires setup.configData(req, ws[m].specs[req]).Some?
    requires PassStep(setup, ws[m], req, es[m].fails).ok || es[m].fails == {}
    requires forall j :: m < j < n ==> LeavesAlone(setup, ws[j], es[j], req)
    ensures Converged(setup, ws[n], req)
    ensures n < |es| && es[n].Pass? && es[n].req == req ==> ws[n + 1] == ws[n]
  {
    if n == m + 1 {
      PassSettles(setup, ws[m], req, es[m].fails);
    } else {
      StaysSettled(setup, ws, es, m, n - 1, req);
      StepConverged(setup, ws[n - 1], es[n - 1], req);
    }
    if n < |es| && es[n].Pass? && es[n].req == req {
      PassIdle(setup, ws[n], req, es[n].fails);
    }
  }

  // ----- owners -----

  /** Step `k` is the first use of the loaded object of this kind. */
  ghost predicate FirstUse(ws: seq<World>, es: seq<Event>, k: nat, kind: Kind) {
    && k + 1 < |ws| && k < |es| && es[k].Pass?
    && kind !in ws[k].owners && kind in ws[k + 1].owners
  }

  /** A loaded object keeps the name of its first owner for good. */
  lemma {:induction false} LoadedOwner(setup: Setup, ws: seq<World>, es: seq<Event>, n: nat, kind: Kind)
    returns (k: nat)
    requires Run(setup, ws, es) && n < |ws| && ws[0].owners == map[] && kind in ws[n].owners
    ensures k < n && FirstUse(ws, es, k, kind) && ws[n].owners[kind].name == es[k].req.name
  {
    var e := es[n - 1];
    if e.Pass? {
      PassEffect(setup, ws[n - 1], e.req, e.fails, KeyOf(setup, kind, e.req));
    }
    if kind in ws[n - 1].owners {
      k := LoadedOwner(setup, ws, es, n - 1, kind);
    } else {
      k := n - 1;
    }
  }

  /** A pass finds no object of this kind and makes one. */
  ghost predicate Makes(setup: Setup, ws: seq<World>, es: seq<Event>, n: nat, kind: Kind) {
    && n + 1 < |ws| && n < |es| && es[n].Pass?
    && KeyOf(setup, kind, es[n].req) !in ws[n].objects && KeyOf(setup, kind, es[n].req) in ws[n + 1].objects
  }

  /** In every run, an RBAC object made for an Authenticator belongs to it exactly if the Authenticator for
      which an object of this kind was first to be made has the same name; otherwise it belongs to one that
      has the name of that first one. */
  lemma {:induction false} RbacOwner(setup: Setup, ws: seq<World>, es: seq<Event>, n: nat, kind: Kind)
    returns (k: nat)
    requires Run(setup, ws, es) && ws[0].owners == map[] && IsRbac(kind) && Makes(setup, ws, es, n, kind)
    ensures k <= n && FirstUse(ws, es, k, kind)
    ensures var owner := ws[n + 1].objects[KeyOf(setup, kind, es[n].req)].owner;
            && (owner == Some(es[n].req) <==> es[k].req.name == es[n].req.name)
            && owner.Some? && owner.value.name == es[k].req.name
  {
    PassEffect(setup, ws[n], es[n].req, es[n].fails, KeyOf(setup, kind, es[n].req));
    if kind in ws[n].owners {
      k := LoadedOwner(setup, ws, es, n, kind);
    } else {
      k := n;
    }
  }

  /** So after passes for two Authenticators on an empty cluster the RBAC objects of the second belong to the
      first unless they have the same name, be they in one namespace or in two. */
  lemma {:induction false} SecondOwner(setup: Setup, w: World, a: Owner, b: Owner, kind: Kind)
    requires w.objects == map[] && w.owners == map[] && {a, b} <= w.specs.Keys && IsRbac(kind)
    requires setup.configData(a, w.specs[a]).Some? && setup.configData(b, w.specs[b]).Some?
    ensures var r := Step(setup, Step(setup, w, Pass(a, {})), Pass(b, {}));
            && KeyOf(setup, kind, b) in r.objects
            && r.objects[KeyOf(setup, kind, b)].owner == Some(if a.name == b.name then b else a)
  {
    var m := Step(setup, w, Pass(a, {}));
    PassSettles(setup, w, a, {});
    PassEffect(setup, w, a, {}, KeyOf(setup, kind, a));
    PassEffect(setup, w, a, {}, KeyOf(setup, kind, b));
    PassSettles(setup, m, b, {});
    PassEffect(setup, m, b, {}, KeyOf(setup, kind, b));
  }

  /** Not even the first owner needs an object of its own: the loaded object adopts the Authenticator before the call
      that creates it, and keeps it when the call fails. */
  lemma {:induction false} FailedFirstUse(setup: Setup, w: World, a: Owner, b: Owner)
    requires w.objects == map[] && w.owners == map[] && {a, b} <= w.specs.Keys && a.name != b.name
    requires setup.configData(a, w.specs[a]).Some? && setup.configData(b, w.specs[b]).Some?
    ensures var m := Step(setup, w, Pass(a, {Create(ServiceAccount)}));
            var r := Step(setup, m, Pass(b, {}));
            var key := Key(ServiceAccount, b.namespace, setup.serviceAccount.name);
            && (forall k: Key :: k.kind == ServiceAccount ==> k !in m.objects)
            && key in r.objects && r.objects[key].owner == Some(a)
  {
    var plan, fails := PlanOf(setup, w, a).value, {Create(ServiceAccount)};
    var one := SyncTo(setup, plan, w, 1, a, fails);
    assert SyncTo(setup, plan, w, 0, a, fails) == Outcome(w, true);
    assert one == SyncStep(setup, plan, w, ConfigMap, a, fails) && one.ok;
    var two := SyncTo(setup, plan, w, 2, a, fails);
    assert two == SyncStep(setup, plan, one.w, ServiceAccount, a, fails) && !two.ok;
    SyncToStuck(setup, plan, w, 2, KINDS, a, fails);
    var m := Step(setup, w, Pass(a, fails));
    assert m == two.w && m.owners == map[ServiceAccount := a];
    PassSettles(setup, m, b, {});
    PassEffect(setup, m, b, {}, KeyOf(setup, ServiceAccount, b));
  }

  ghost predicate SameContent(ws: seq<World>, m: nat, n: nat, key: Key) {
    forall j :: m <= j <= n < |ws| ==>
      key in ws[m].objects && key in ws[j].objects && ws[j].objects[key].content == ws[m].objects[key].content
  }

  /** As long as nobody else edits a ConfigMap it keeps its owner exactly until its data first change, and
      belongs to nobody ever after. */
  lemma {:induction false} ConfigMapOwner(setup: Setup, ws: seq<World>, es: seq<Event>, m: nat, n: nat, req: Owner)
    requires Run(setup, ws, es) && m <= n < |ws| && KeyOf(setup, ConfigMap, req) in ws[m].objects
    requires forall j :: m <= j < n && es[j].Edit? ==> SameAt(ws[j], KeyOf(setup, ConfigMap, req), ws[j + 1])
    ensures var key := KeyOf(setup, ConfigMap, req);
            && key in ws[n].objects
            && ws[n].objects[key].owner == if SameContent(ws, m, n, key) then ws[m].objects[key].owner else None
  {
    var key := KeyOf(setup, ConfigMap, req);
    if m < n {
      ConfigMapOwner(setup, ws, es, m, n - 1, req);
      var e := es[n - 1];
      if e.Pass? {
        PassEffect(setup, ws[n - 1], e.req, e.fails, key);
      }
    }
  }

  /** That happens: an Authenticator is reconciled, its specification changes so that other data are generated, and
      it is reconciled again, all without failing calls. */
  lemma {:induction false} OrphanedConfigMap(setup: Setup, req: Owner, spec: string, changed: string)
    returns (ws: seq<World>, es: seq<Event>)
    requires setup.configData(req, spec).Some? && setup.configData(req, changed).Some?
    requires setup.configData(req, spec) != setup.configData(req, changed)
    ensures Run(setup, ws, es) && |es| == 3 && forall i :: 0 <= i < |es| && es[i].Pass? ==> es[i].fails == {}
    ensures var key := KeyOf(setup, ConfigMap, req);
            && key in ws[1].objects && ws[1].objects[key].owner == Some(req)
            && key in ws[3].objects && ws[3].objects[key].owner == None
  {
    var key := KeyOf(setup, ConfigMap, req);
    var w0 := World(map[], map[req := spec], 0, map[], 0);
    var w1 := Step(setup, w0, Pass(req, {}));
    PassSettles(setup, w0, req, {});
    PassEffect(setup, w0, req, {}, key);
    var edit := Edit(w1.objects, map[req := changed]);
    var w2 := Step(setup, w1, edit);
    var w3 := Step(setup, w2, Pass(req, {}));
    PassSettles(setup, w2, req, {});
    PassEffect(setup, w2, req, {}, key);
    ws, es := [w0, w1, w2, w3], [Pass(req, {}), edit, Pass(req, {})];
  }
}
