/** The reconciler of Authenticator objects, over a cluster in which any call may fail. A call of `Reconcile`
    is exactly one pass of the state machine. */
module Reconciler {
  import opened Options
  import opened ReconcilePasses

  datatype Reply = Found(obj: Object) | NotFound | Error

  /** The API server. It stores copies, gives every stored object a new version, and refuses to create
      an object that carries a version or exists, and to update one with a stale version. */
  class Cluster {
    var objects: map<Key, Object>
    var specs: map<Owner, string>   // the specification of each Authenticator
    var revision: nat
    var writes: nat                 // create and update calls made so far

    constructor (objects: map<Key, Object>, specs: map<Owner, string>)
      ensures this.objects == objects && this.specs == specs
    {
      this.objects, this.specs, revision, writes := objects, specs, 0, 0;
    }

    method GetObject(key: Key, fails: set<Call>) returns (r: Reply)
      ensures r == if Get(key.kind) in fails then Error else if key in objects then Found(objects[key]) else NotFound
    {
      if Get(key.kind) in fails {
        return Error;
      }
      r := if key in objects then Found(objects[key]) else NotFound;
    }

    method CreateObject(key: Key, content: Content, owner: Option<Owner>, version: Option<nat>, fails: set<Call>)
      returns (ok: bool)
      modifies this`objects, this`revision, this`writes
      ensures ok <==> Create(key.kind) !in fails && key !in old(objects) && version.None?
      ensures writes == old(writes) + 1
      ensures if ok
              then revision == old(revision) + 1 && objects == old(objects)[key := Object(content, owner, revision)]
              else revision == old(revision) && objects == old(objects)
    {
      writes := writes + 1;
      ok := Create(key.kind) !in fails && key !in objects && version.None?;
      if ok {
        revision := revision + 1;
        objects := objects[key := Object(content, owner, revision)];
      }
    }

    method UpdateObject(key: Key, content: Content, owner: Option<Owner>, version: Option<nat>, fails: set<Call>)
      returns (ok: bool)
      modifies this`objects, this`revision, this`writes
      ensures ok <==> Update(key.kind) !in fails && key in old(objects) &&
                      (version.Some? ==> version.value == old(objects)[key].version)
      ensures writes == old(writes) + 1
      ensures if ok
              then revision == old(revision) + 1 && objects == old(objects)[key := Object(content, owner, revision)]
              else revision == old(revision) && objects == old(objects)
    {
      writes := writes + 1;
      ok := Update(key.kind) !in fails && key in objects && (version.Some? ==> version.value == objects[key].version);
      if ok {
        revision := revision + 1;
        objects := objects[key := Object(content, owner, revision)];
      }
    }
  }

  /** An RBAC object as loaded at start-up. One is shared by all Authenticators and changed in place
      before each use, so it keeps what the last use left in it. */
  class Template {
    const kind: Kind
    const shape: Shape
    var namespace: string
    var subject: string
    var owner: Option<Owner>
    var version: Option<nat>

    constructor (kind: Kind, shape: Shape)
      ensures this.kind == kind && this.shape == shape && owner == None && version == None
    {
      this.kind, this.shape := kind, shape;
      namespace, subject, owner, version := "", "", None, None;
    }

    /** Setting a controller fails, unnoticed, for an owner in another namespace and for an object
        that another owner controls; owners are told apart by name. */
    method SetControllerReference(a: Owner)
      modifies this`owner
      ensures owner == if a.namespace == namespace && (old(owner).None? || old(owner).value.name == a.name)
                       then Some(a) else old(owner)
    {
      if a.namespace == namespace && (owner.None? || owner.value.name == a.name) {
        owner := Some(a);
      }
    }
  }

  /** The owners that the loaded objects have. */
  ghost function OwnersOf(sa: Option<Owner>, role: Option<Owner>, rb: Option<Owner>): map<Kind, Owner> {
    var one := if sa.Some? then map[ServiceAccount := sa.value] else map[];
    var two := if role.Some? then one[Role := role.value] else one;
    if rb.Some? then two[RoleBinding := rb.value] else two
  }

  class AuthenticatorReconciler {
    const cluster: Cluster
    const serviceAccount: Template
    const role: Template
    const roleBinding: Template
    /** The generated configuration, if the template can be executed, and the generated DaemonSet. */
    const configData: (Owner, string) -> Option<map<string, string>>
    const daemonSetSpec: (Owner, string, string) -> string

    constructor (cluster: Cluster, sa: Template, role: Template, rb: Template,
                 configData: (Owner, string) -> Option<map<string, string>>,
                 daemonSetSpec: (Owner, string, string) -> string)
      requires sa.kind == ServiceAccount && role.kind == Role && rb.kind == RoleBinding
      ensures this.cluster == cluster && serviceAccount == sa && this.role == role && roleBinding == rb && Valid()
    {
      this.cluster, serviceAccount, this.role, roleBinding := cluster, sa, role, rb;
      this.configData, this.daemonSetSpec := configData, daemonSetSpec;
    }

    ghost predicate Valid() {
      serviceAccount.kind == ServiceAccount && role.kind == Role && roleBinding.kind == RoleBinding
    }

    function GetSetup(): Setup {
      Setup(serviceAccount.shape, role.shape, roleBinding.shape, configData, daemonSetSpec)
    }

    ghost function Owners(): map<Kind, Owner>
      reads serviceAccount, role, roleBinding
    {
      OwnersOf(serviceAccount.owner, role.owner, roleBinding.owner)
    }

    ghost function Model(): World
      reads cluster, serviceAccount, role, roleBinding
    {
      World(cluster.objects, cluster.specs, cluster.revision, Owners(), cluster.writes)
    }

    /** Creates the object of a loaded one in the namespace of `req` unless there is one. */
    method SyncRbac(t: Template, ghost plan: Plan, req: Owner, fails: set<Call>) returns (ok: bool)
      requires Valid() && t in {serviceAccount, role, roleBinding}
      modifies cluster`objects, cluster`revision, cluster`writes, t
      ensures Outcome(Model(), ok) == SyncStep(GetSetup(), plan, old(Model()), t.kind, req, fails)
    {
      var key := Key(t.kind, req.namespace, t.shape.name);
      var reply := cluster.GetObject(key, fails);
      match reply {
        case Found(_) => return true;
        case Error => return false;
        case NotFound =>
          ok := CreateRbac(t, key, plan, req, fails);
      }
    }

    /** Makes a loaded object ready to be created for `req`. */
    method Prepare(t: Template, req: Owner)
      requires Valid() && t in {serviceAccount, role, roleBinding}
      modifies t
      ensures t.version == None && (t.kind == RoleBinding ==> t.subject == req.namespace)
      ensures t.owner == Some(Adopted(old(Owners()), t.kind, req))
      ensures Owners() == old(Owners())[t.kind := Adopted(old(Owners()), t.kind, req)]
    {
      t.namespace := req.namespace;
      t.version := None;
      if t.kind == RoleBinding {
        t.subject := req.namespace;
      }
      t.SetControllerReference(req);
    }

    method CreateRbac(t: Template, key: Key, ghost plan: Plan, req: Owner, fails: set<Call>) returns (ok: bool)
      requires Valid() && t in {serviceAccount, role, roleBinding}
      requires key == KeyOf(GetSetup(), t.kind, req) && key !in cluster.objects
      modifies cluster`objects, cluster`revision, cluster`writes, t
      ensures Outcome(Model(), ok) ==
              WriteStep(old(Model()), key, Wanted(GetSetup(), plan, t.kind, req), req, fails)
    {
      Prepare(t, req);
      var content := if t.kind == RoleBinding then Binding(t.shape.rules, t.subject) else Rules(t.shape.rules);
      ok := cluster.CreateObject(key, content, t.owner, t.version, fails);
      if ok {
        t.version := Some(cluster.revision);
      }
    }

    method SyncRbacResources(ghost plan: Plan, ghost w: World, req: Owner, fails: set<Call>) returns (ok: bool)
      requires Valid() && Outcome(Model(), true) == SyncTo(GetSetup(), plan, w, 1, req, fails)
      modifies cluster`objects, cluster`revision, cluster`writes, serviceAccount, role, roleBinding
      ensures Outcome(Model(), ok) == SyncTo(GetSetup(), plan, w, 4, req, fails)
    {
      ok := SyncRbac(serviceAccount, plan, req, fails);
      assert Outcome(Model(), ok) == SyncTo(GetSetup(), plan, w, 2, req, fails);
      if ok {
        ok := SyncRbac(role, plan, req, fails);
        assert Outcome(Model(), ok) == SyncTo(GetSetup(), plan, w, 3, req, fails);
        if ok {
          ok := SyncRbac(roleBinding, plan, req, fails);
        } else {
          SyncToStuck(GetSetup(), plan, w, 3, 4, req, fails);
        }
      } else {
        SyncToStuck(GetSetup(), plan, w, 2, 4, req, fails);
      }
    }

    /** An update sends the generated object, which has no owner. */
    method SyncConfigMap(plan: Plan, req: Owner, fails: set<Call>) returns (ok: bool)
      modifies cluster`objects, cluster`revision, cluster`writes
      ensures Outcome(Model(), ok) == SyncStep(GetSetup(), plan, old(Model()), ConfigMap, req, fails)
    {
      var key := Key(ConfigMap, req.namespace, req.name);
      var reply := cluster.GetObject(key, fails);
      match reply {
        case Error => return false;
        case NotFound =>
          ok := cluster.CreateObject(key, Data(plan.data), Some(req), None, fails);
        case Found(cm) =>
          ok := true;
          if cm.content != Data(plan.data) {
            // the generated object is sent: without an owner, and without a version to compare
            ok := cluster.UpdateObject(key, Data(plan.data), None, None, fails);
          }
      }
    }

    method SyncDaemonSet(plan: Plan, req: Owner, fails: set<Call>) returns (ok: bool)
      modifies cluster`objects, cluster`revision, cluster`writes
      ensures Outcome(Model(), ok) == SyncStep(GetSetup(), plan, old(Model()), DaemonSet, req, fails)
    {
      var key := Key(DaemonSet, req.namespace, req.name);
      var reply := cluster.GetObject(key, fails);
      match reply {
        case Error => return false;
        case NotFound =>
          ok := cluster.CreateObject(key, Spec(plan.spec), Some(req), None, fails);
        case Found(ds) =>
          ok := true;
          if ds.content != Spec(plan.spec) {
            // the object found is sent back with the new specification
            ok := cluster.UpdateObject(key, Spec(plan.spec), ds.owner, Some(ds.version), fails);
          }
      }
    }

    /** One pass. It succeeds exactly if no call it has to make fails. Success means that the store is as the
        specification asks for; on such a store nothing is written, whatever fails. */
    method Reconcile(req: Owner, fails: set<Call>) returns (ok: bool)
      requires Valid()
      modifies cluster`objects, cluster`revision, cluster`writes, serviceAccount, role, roleBinding
      ensures Outcome(Model(), ok) == PassStep(GetSetup(), old(Model()), req, fails)
      ensures ok <==> Succeeds(GetSetup(), old(Model()), req, fails)
      ensures ok && req in cluster.specs ==> Converged(GetSetup(), Model(), req)
      ensures Converged(GetSetup(), old(Model()), req) ==> Model() == old(Model())
    {
      ok := Sync(req, fails);
      PassSucceeds(GetSetup(), old(Model()), req, fails);
      if req in cluster.specs {
        PassSettles(GetSetup(), old(Model()), req, fails);
        if Converged(GetSetup(), old(Model()), req) {
          PassIdle(GetSetup(), old(Model()), req, fails);
        }
      }
    }

    method Sync(req: Owner, fails: set<Call>) returns (ok: bool)
      requires Valid()
      modifies cluster`objects, cluster`revision, cluster`writes, serviceAccount, role, roleBinding
      ensures Outcome(Model(), ok) == PassStep(GetSetup(), old(Model()), req, fails)
    {
      if GetAuthenticator in fails {
        return false;
      }
      if req !in cluster.specs {
        return true;
      }
      var spec := cluster.specs[req];
      var data := configData(req, spec);
      if data.None? {
        return false;
      }
      var plan := Plan(data.value, daemonSetSpec(req, spec, serviceAccount.shape.name));
      ghost var w := Model();
      ok := SyncConfigMap(plan, req, fails);
      assert SyncTo(GetSetup(), plan, w, 0, req, fails) == Outcome(w, true);
      assert Outcome(Model(), ok) == SyncTo(GetSetup(), plan, w, 1, req, fails);
      if ok {
        ok := SyncRbacResources(plan, w, req, fails);
        if ok {
          ok := SyncDaemonSet(plan, req, fails);
        }
      } else {
        SyncToStuck(GetSetup(), plan, w, 1, 5, req, fails);
      }
    }
  }
}
