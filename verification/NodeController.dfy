/** The Node controller, in the same way. */
module NodeController {
  import opened NetBox
  import opened Views
  import opened Plans
  import opened Convergence
  import opened Scenarios
  import opened Outcomes
  import opened Interleaving
  import opened Client
  import opened ConfigStore

  /** Both kinds are checked: the mapping may have changed since the object was created. */
  method DeleteNodeByName(s: NetBoxServer, c: Conn, name: string) returns (ok: bool)
    requires s.AtOps(c, [Remove(Device, ByName(name)), Remove(VirtualMachine, ByName(name))])
    modifies s`db, s`script, s`made, s`log, s`at
    ensures s.Past(ok, c, [])
  {
    ghost var second := [Remove(VirtualMachine, ByName(name))];
    assert [Remove(Device, ByName(name)), Remove(VirtualMachine, ByName(name))]
           == [Remove(Device, ByName(name))] + second;
    var device := DeleteFirst(s, c, Device, ByName(name), second);
    if !device { return false; }
    assert second == second + [];
    ok := DeleteFirst(s, c, VirtualMachine, ByName(name), []);
  }

  method DeleteNodeByExternalId(s: NetBoxServer, c: Conn, spec: Spec, uid: string) returns (ok: bool)
    requires s.AtOps(c, [Remove(MappedKind(spec), ByExternalId(uid))])
    modifies s`db, s`script, s`made, s`log, s`at
    ensures s.Past(ok, c, [])
  {
    var kind := if spec.nodes.mapping.VirtualMachineMapping? then VirtualMachine else Device;
    assert [Remove(kind, ByExternalId(uid))] == [Remove(kind, ByExternalId(uid))] + [];
    ok := DeleteFirst(s, c, kind, ByExternalId(uid), []);
  }

  method SyncNode(s: NetBoxServer, c: Conn, spec: Spec, n: Node) returns (ok: bool)
    requires s.AtOps(c, [EnsureTag, NodeEnsure(spec, n)])
    modifies s`db, s`script, s`made, s`log, s`at
    ensures s.Valid() && (if ok then Succeeded(s.at) else Errored(s.at))
  {
    ghost var op := NodeEnsure(spec, n);
    assert [EnsureTag, op] == [EnsureTag] + [op];
    var tagged := EnsureManagedTag(s, c, [op]);
    if !tagged { return false; }
    assert [op] == [op] + [];
    match spec.nodes.mapping {
      case DeviceMapping =>
        var refs := [Lookup(DeviceTypes, spec.nodes.deviceType), Lookup(DeviceRoles, spec.nodes.deviceRole),
                     Lookup(Sites, spec.nodes.site)];
        ok := EnsureObject(s, c, Device, n.uid, Payload(n.name, [], refs, None), refs, []);
      case VirtualMachineMapping =>
        var cluster := spec.nodes.vmCluster;
        if cluster == "" {
          cluster := spec.cluster.name;
        }
        var refs := [Lookup(Clusters, cluster)];
        if spec.nodes.platform != "" {
          refs := refs + [Lookup(Platforms, spec.nodes.platform)];
        }
        assert refs == [Lookup(Clusters, VmCluster(spec))] + Optional(Platforms, spec.nodes.platform);
        ok := EnsureObject(s, c, VirtualMachine, n.uid, Payload(n.name, [], refs, None), refs, []);
      case OtherMapping(_) =>
        ok := false;
    }
  }

  lemma {:induction false} NodeSucceeds(db: Tables, c: Conn, spec: Spec, name: string, node: Fetched<Node>,
                                        rs: seq<Reply>)
    requires Unique(db, c) && !node.Missing? && IsTurn(db, c, Turn(NodeTask(spec, name, node), rs, true))
    ensures var db' := TurnEnd(db, c, Turn(NodeTask(spec, name, node), rs, true));
            node.Present? && Unique(db', c) && NodeOutcome(View(db, c), View(db', c), spec, node.value)
  {
    NoAbortOnSuccess(db, Start(c, NodePlan(spec, name, node)), rs);
    NodeAborts(spec, name, node);
    NodeSucceeded(db, c, spec, name, node.value, rs);
  }

  method ReconcileNode(store: Store, s: NetBoxServer, name: string, node: Fetched<Node>) returns (ok: bool)
    modifies s
    ensures store.Current() == None ==> ok && s.db == old(s.db)
    ensures store.Current().Some? ==>
              var c, spec := ConnOf(store.Current().value), store.Current().value.spec;
              && CarriedOut(old(s.db), c, NodePlan(spec, name, node), s.log, s.db, ok)
              && (Unique(old(s.db), c) && !node.Missing? ==>
                    var p := NodePatch(spec, node);
                    && Unique(s.db, c)
                    && Between(View(old(s.db), c), View(s.db, c), p)
                    && (ok ==> View(s.db, c) == Patched(p, View(old(s.db), c)))
                    && (ok ==> node.Present? && NodeOutcome(View(old(s.db), c), View(s.db, c), spec, node.value)))
  {
    var published, client := store.Get();
    if published.None? || client.None? { return true; }
    var spec := published.value;
    var c := Conn(client.value, ResolveTagSlug(spec));
    s.Bind(c, NodePlan(spec, name, node));
    match node {
      case Unreadable =>
        ok := false;
      case Missing =>
        ok := DeleteNodeByName(s, c, name);
      case Present(n) =>
        if !spec.nodes.enabled {
          if spec.nodes.retainOnDisable {
            ok := true;
          } else {
            ok := DeleteNodeByExternalId(s, c, spec, n.uid);
          }
        } else {
          ok := SyncNode(s, c, spec, n);
        }
    }
    if Unique(old(s.db), c) && !node.Missing? {
      CarriedOutEffect(old(s.db), c, NodeTask(spec, name, node), s.log, s.db, ok);
      if ok { NodeSucceeds(old(s.db), c, spec, name, node, s.log); }
    }
  }
}
