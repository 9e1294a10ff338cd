/** The decision tree of each controller's Reconcile: which operations it carries out, given
    the spec from the Store and what Kubernetes says about the object. */
module Plans {
  import opened Cidrs
  import opened ExternalIds
  import opened NetBox
  import opened Views

  // ---------------------------------------------------------------- configuration

  datatype Mapping = DeviceMapping | VirtualMachineMapping | OtherMapping(text: string)

  datatype NodesSpec = NodesSpec(enabled: bool, retainOnDisable: bool, mapping: Mapping,
                                 deviceType: string, deviceRole: string, site: string,
                                 vmCluster: string, platform: string)

  datatype ServicesSpec = ServicesSpec(enabled: bool, retainOnDisable: bool)

  datatype PodCidrsSpec = PodCidrsSpec(enabled: bool, retainOnDisable: bool, aggregate: bool, rirName: string)

  datatype ClusterSpec = ClusterSpec(enabled: bool, name: string, clusterType: string, group: string, site: string)

  datatype Spec = Spec(tagSlug: string, nodes: NodesSpec, services: ServicesSpec, podCidrs: PodCidrsSpec,
                       cluster: ClusterSpec)

  const DEFAULT_TAG_SLUG := "netbox-herald-managed"

  function ResolveTagSlug(spec: Spec): string {
    if spec.tagSlug == "" then DEFAULT_TAG_SLUG else spec.tagSlug
  }

  // ---------------------------------------------------------------- Kubernetes objects

  /** The answer to a Kubernetes read. */
  datatype Fetched<+T> = Present(value: T) | Missing | Unreadable

  datatype Node = Node(name: string, uid: string, podCidrs: seq<Cidr>)

  datatype IpVersion = V4 | V6

  /** parses tells, for each ingress text that is an IP address, which sort it is. */
  datatype Service = Service(loadBalancer: bool, ingress: seq<string>, parses: map<string, IpVersion>)

  /** cidrForIP: host-mask notation, or nothing for text that is no address. */
  function CidrForIp(parses: map<string, IpVersion>, ip: string): Option<string> {
    if ip !in parses then None
    else match parses[ip] case V4 => Some(ip + "/32") case V6 => Some(ip + "/128")
  }

  // ---------------------------------------------------------------- ensure, then prune

  /** A wanted object of an owner. */
  datatype Want = Want(ext: string, payload: Payload)

  function Ensures(kind: Kind, ws: seq<Want>): (ops: seq<Op>)
    ensures |ops| == |ws| && forall i :: 0 <= i < |ws| ==> ops[i] == Ensure(kind, ws[i].ext, ws[i].payload, [])
  {
    seq(|ws|, i requires 0 <= i < |ws| => Ensure(kind, ws[i].ext, ws[i].payload, []))
  }

  function Exts(ws: seq<Want>): set<string> {
    set w | w in ws :: w.ext
  }

  function Prune(kind: Kind, o: Owner, keep: set<string>): Op {
    Remove(kind, Owned(OwnerPrefix(o), keep))
  }

  /** Every wanted object first, then the removal of what the owner no longer has. */
  function SyncOps(kind: Kind, o: Owner, ws: seq<Want>): seq<Op> {
    [EnsureTag] + Ensures(kind, ws) + [Prune(kind, o, Exts(ws))]
  }

  // ---------------------------------------------------------------- Services

  /** Every ingress entry that has an IP has a valid one. */
  predicate Usable(parses: map<string, IpVersion>, ingress: seq<string>) {
    forall ip <- ingress :: ip != "" ==> ip in parses
  }

  function ServiceWant(o: Owner, parses: map<string, IpVersion>, ip: string): Want
    requires o.ServiceOwner? && ip in parses
  {
    Want(OwnedId(o, ip),
         Payload("", [CidrForIp(parses, ip).value, "Kubernetes Service " + o.namespace + "/" + o.service], [], None))
  }

  /** The wanted addresses up to the first invalid one; entries without an IP are skipped. */
  function ServiceWants(o: Owner, parses: map<string, IpVersion>, ingress: seq<string>): seq<Want>
    requires o.ServiceOwner?
  {
    if ingress == [] then []
    else if ingress[0] == "" then ServiceWants(o, parses, ingress[1..])
    else if ingress[0] !in parses then []
    else [ServiceWant(o, parses, ingress[0])] + ServiceWants(o, parses, ingress[1..])
  }

  function ServiceSync(o: Owner, svc: Service): seq<Op>
    requires o.ServiceOwner?
  {
    var ws := ServiceWants(o, svc.parses, svc.ingress);
    if Usable(svc.parses, svc.ingress) then SyncOps(IPAddress, o, ws)
    else [EnsureTag] + Ensures(IPAddress, ws) + [Abort]
  }

  function ServicePlan(spec: Spec, o: Owner, svc: Fetched<Service>): seq<Op>
    requires o.ServiceOwner?
  {
    match svc
    case Unreadable => [Abort]
    case Missing => [Prune(IPAddress, o, {})]
    case Present(s) =>
      if spec.services.enabled && s.loadBalancer then ServiceSync(o, s)
      else if spec.services.enabled || !spec.services.retainOnDisable then [Prune(IPAddress, o, {})]
      else []
  }

  // ---------------------------------------------------------------- pod CIDRs

  function PrefixWant(node: string, cidr: Cidr): Want {
    Want(OwnedId(NodeOwner(node), cidr.text),
         Payload("", [cidr.text, "Kubernetes Node " + node + " pod CIDR"], [], None))
  }

  function PrefixWants(node: Node): (ws: seq<Want>)
    ensures |ws| == |node.podCidrs|
    ensures forall i :: 0 <= i < |ws| ==> ws[i] == PrefixWant(node.name, node.podCidrs[i])
  {
    seq(|node.podCidrs|, i requires 0 <= i < |node.podCidrs| => PrefixWant(node.name, node.podCidrs[i]))
  }

  function DropAggregate(f: Family): Op {
    Remove(Aggregate, ByExternalId(AggregateId(f)))
  }

  const DROP_AGGREGATES: seq<Op> := [DropAggregate(IPv4), DropAggregate(IPv6)]

  function PrefixTail(spec: Spec, name: string, node: Fetched<Node>): seq<Op> {
    match node
    case Unreadable => [Abort]
    case Missing => [Prune(Prefix, NodeOwner(name), {})]
    case Present(n) =>
      if spec.podCidrs.enabled && n.podCidrs != [] then SyncOps(Prefix, NodeOwner(n.name), PrefixWants(n))
      else if spec.podCidrs.enabled || !spec.podCidrs.retainOnDisable then [Prune(Prefix, NodeOwner(n.name), {})]
      else []
  }

  /** Prefix mode for the Node of this name: any Aggregate goes first, whatever the rest of the spec says. */
  function PrefixPlan(spec: Spec, name: string, node: Fetched<Node>): seq<Op> {
    DROP_AGGREGATES + PrefixTail(spec, name, node)
  }

  function AllCidrs(nodes: seq<Node>): seq<Cidr> {
    if nodes == [] then [] else AllCidrs(nodes[..|nodes| - 1]) + nodes[|nodes| - 1].podCidrs
  }

  function ClearNodes(nodes: seq<Node>): (ops: seq<Op>)
    ensures |ops| == |nodes|
    ensures forall i :: 0 <= i < |ops| ==> ops[i] == Prune(Prefix, NodeOwner(nodes[i].name), {})
  {
    seq(|nodes|, i requires 0 <= i < |nodes| => Prune(Prefix, NodeOwner(nodes[i].name), {}))
  }

  function AggregatePayload(rir: string, f: Family, block: Block): Payload {
    Payload("", ["Kubernetes pod CIDR aggregate (" + FamilyName(f) + ")"], [Lookup(Rirs, rir)], Some(block))
  }

  function AggregateOp(rir: string, supernets: map<Family, Block>, f: Family): Op {
    if f in supernets
    then Ensure(Aggregate, AggregateId(f), AggregatePayload(rir, f, supernets[f]), [Lookup(Rirs, rir)])
    else DropAggregate(f)
  }

  function AggregateTail(spec: Spec, nodes: seq<Node>): seq<Op> {
    match Supernets(AllCidrs(nodes))
    case Invalid(_) => [Abort]
    case Computed(supernets) =>
      var rir := spec.podCidrs.rirName;
      [EnsureTag, AggregateOp(rir, supernets, IPv4), AggregateOp(rir, supernets, IPv6)]
  }

  /** Aggregate mode: recomputed from every Node; any per-Node Prefix of a live Node goes first. */
  function AggregatePlan(spec: Spec, nodes: Fetched<seq<Node>>): seq<Op> {
    if !spec.podCidrs.enabled then
      if spec.podCidrs.retainOnDisable then [] else DROP_AGGREGATES
    else if !nodes.Present? then [Abort]
    else ClearNodes(nodes.value) + AggregateTail(spec, nodes.value)
  }

  function PodCidrPlan(spec: Spec, name: string, node: Fetched<Node>, nodes: Fetched<seq<Node>>): seq<Op> {
    if spec.podCidrs.aggregate then AggregatePlan(spec, nodes) else PrefixPlan(spec, name, node)
  }

  // ---------------------------------------------------------------- Nodes and the Cluster

  function VmCluster(spec: Spec): string {
    if spec.nodes.vmCluster == "" then spec.cluster.name else spec.nodes.vmCluster
  }

  /** A reference that is looked up only if it has a name. */
  function Optional(table: RefTable, name: string): seq<Query> {
    if name == "" then [] else [Lookup(table, name)]
  }

  function NodeEnsure(spec: Spec, n: Node): Op {
    var s := spec.nodes;
    match s.mapping
    case DeviceMapping =>
      var refs := [Lookup(DeviceTypes, s.deviceType), Lookup(DeviceRoles, s.deviceRole), Lookup(Sites, s.site)];
      Ensure(Device, n.uid, Payload(n.name, [], refs, None), refs)
    case VirtualMachineMapping =>
      (var refs := [Lookup(Clusters, VmCluster(spec))] + Optional(Platforms, s.platform);
       Ensure(VirtualMachine, n.uid, Payload(n.name, [], refs, None), refs))
    case OtherMapping(_) => Abort
  }

  /** The table of the current mapping; any other mapping counts as Device when deleting. */
  function MappedKind(spec: Spec): Kind {
    if spec.nodes.mapping.VirtualMachineMapping? then VirtualMachine else Device
  }

  function NodePlan(spec: Spec, name: string, node: Fetched<Node>): seq<Op> {
    match node
    case Unreadable => [Abort]
    case Missing => [Remove(Device, ByName(name)), Remove(VirtualMachine, ByName(name))]
    case Present(n) =>
      if spec.nodes.enabled then [EnsureTag, NodeEnsure(spec, n)]
      else if spec.nodes.retainOnDisable then []
      else [Remove(MappedKind(spec), ByExternalId(n.uid))]
  }

  function ClusterPlan(spec: Spec, uid: string): seq<Op> {
    var s := spec.cluster;
    if !s.enabled then [Remove(Cluster, ByExternalId(uid))]
    else
      var refs := [Lookup(ClusterTypes, s.clusterType)] + Optional(ClusterGroups, s.group) + Optional(Sites, s.site);
      [EnsureTag, Ensure(Cluster, uid, Payload(s.name, [], refs, None), refs)]
  }

  // ---------------------------------------------------------------- what the plans amount to

  ghost function OwnerScope(kind: Kind, o: Owner): iset<Key> {
    iset k: Key | k.kind == kind && HasPrefix(k.ext, OwnerPrefix(o))
  }

  function Content(kind: Kind, ws: seq<Want>): ViewMap {
    if ws == [] then map[]
    else Content(kind, ws[..|ws| - 1])[Key(kind, ws[|ws| - 1].ext) := ws[|ws| - 1].payload]
  }

  ghost predicate BelongTo(ws: seq<Want>, o: Owner) {
    forall w <- ws :: HasPrefix(w.ext, OwnerPrefix(o))
  }

  /** One external ID is wanted with one payload only. */
  predicate Coherent(ws: seq<Want>) {
    forall w, x :: w in ws && x in ws && w.ext == x.ext ==> w.payload == x.payload
  }

  lemma {:induction false} ContentKeys(kind: Kind, ws: seq<Want>)
    ensures forall k :: k in Content(kind, ws) <==> k.kind == kind && k.ext in Exts(ws)
    ensures Coherent(ws) ==>
              forall w <- ws :: Key(kind, w.ext) in Content(kind, ws)
                  && Content(kind, ws)[Key(kind, w.ext)] == w.payload
  {
    if ws == [] {
    } else {
      var init, last := ws[..|ws| - 1], ws[|ws| - 1];
      assert ws == init + [last];
      ContentKeys(kind, init);
      assert Exts(ws) == Exts(init) + {last.ext};
    }
  }

  lemma {:induction false} EffectOne(op: Op, v: ViewMap)
    ensures Effect([op], v) == EffectOf(op, v)
  {
    assert [op][1..] == [];
    assert Effect([], EffectOf(op, v)) == EffectOf(op, v);
  }

  lemma {:induction false} EnsuresSnoc(kind: Kind, ws: seq<Want>)
    requires ws != []
    ensures var init, last := ws[..|ws| - 1], ws[|ws| - 1];
            Ensures(kind, ws) == Ensures(kind, init) + [Ensure(kind, last.ext, last.payload, [])]
  {
  }

  lemma {:induction false} EnsuresEffect(kind: Kind, ws: seq<Want>, v: ViewMap)
    ensures Effect(Ensures(kind, ws), v) == v + Content(kind, ws)
  {
    if ws == [] {
    } else {
      var init, last := ws[..|ws| - 1], ws[|ws| - 1];
      var op := Ensure(kind, last.ext, last.payload, []);
      EnsuresEffect(kind, init, v);
      EnsuresSnoc(kind, ws);
      EffectConcat(Ensures(kind, init), [op], v);
      EffectOne(op, v + Content(kind, init));
    }
  }

  ghost function SyncPatch(kind: Kind, o: Owner, ws: seq<Want>): Patch {
    Patch(OwnerScope(kind, o), Content(kind, ws))
  }

  lemma {:induction false} Effect3(a: Op, b: seq<Op>, c: Op, v: ViewMap)
    ensures Effect([a] + b + [c], v) == EffectOf(c, Effect(b, EffectOf(a, v)))
  {
    EffectConcat([a] + b, [c], v);
    EffectConcat([a], b, v);
    EffectOne(a, v);
    EffectOne(c, Effect(b, EffectOf(a, v)));
  }

  lemma {:induction false} PruneAfter(kind: Kind, o: Owner, keep: set<string>, content: ViewMap, v: ViewMap)
    requires forall k :: k in content <==> k.kind == kind && k.ext in keep
    requires forall e <- keep :: HasPrefix(e, OwnerPrefix(o))
    ensures EffectOf(Prune(kind, o, keep), v + content) == Patched(Patch(OwnerScope(kind, o), content), v)
  {
  }

  /** Ensure-then-prune means: delete all the owner has, then create all that is wanted. */
  lemma {:induction false} SyncEffect(kind: Kind, o: Owner, ws: seq<Want>, v: ViewMap)
    requires BelongTo(ws, o)
    ensures Effect(SyncOps(kind, o, ws), v) == Patched(SyncPatch(kind, o, ws), v)
  {
    Effect3(EnsureTag, Ensures(kind, ws), Prune(kind, o, Exts(ws)), v);
    EnsuresEffect(kind, ws, v);
    ContentKeys(kind, ws);
    PruneAfter(kind, o, Exts(ws), Content(kind, ws), v);
  }

  /** Two patches in a row are one. */
  lemma {:induction false} PatchTwice(p: Patch, q: Patch, r: Patch, v: ViewMap)
    requires r.scope == p.scope + q.scope && r.content == Patched(q, p.content)
    ensures Patched(q, Patched(p, v)) == Patched(r, v)
  {
  }

  lemma {:induction false} SyncToward(kind: Kind, o: Owner, ws: seq<Want>)
    requires BelongTo(ws, o) && Coherent(ws)
    ensures Toward(SyncOps(kind, o, ws), SyncPatch(kind, o, ws)) && WellFormed(SyncPatch(kind, o, ws))
    ensures Toward([EnsureTag] + Ensures(kind, ws) + [Abort], SyncPatch(kind, o, ws))
    ensures NameFree(SyncOps(kind, o, ws))
  {
    ContentKeys(kind, ws);
    forall op | op in SyncOps(kind, o, ws) || op in [EnsureTag] + Ensures(kind, ws) + [Abort]
      ensures op == EnsureTag || op == Abort || op == Prune(kind, o, Exts(ws))
              || exists w :: w in ws && op == Ensure(kind, w.ext, w.payload, [])
    {
      if op in Ensures(kind, ws) {
        var i :| 0 <= i < |ws| && Ensures(kind, ws)[i] == op;
        assert ws[i] in ws;
      }
    }
  }

  lemma {:induction false} PruneEffect(kind: Kind, o: Owner, v: ViewMap)
    ensures Effect([Prune(kind, o, {})], v) == Patched(Patch(OwnerScope(kind, o), map[]), v)
    ensures Toward([Prune(kind, o, {})], Patch(OwnerScope(kind, o), map[]))
  {
    EffectOne(Prune(kind, o, {}), v);
    assert EffectOf(Prune(kind, o, {}), v) == Patched(Patch(OwnerScope(kind, o), map[]), v);
  }

  const NOTHING: Patch := Patch(iset{}, map[])

  lemma {:induction false} NothingEffect(v: ViewMap)
    ensures Patched(NOTHING, v) == v && Effect([], v) == v && Toward([], NOTHING) && WellFormed(NOTHING)
  {
  }

  /** The plan moves keys only toward the patch, and applies it when it succeeds. */
  ghost predicate Realizes(ops: seq<Op>, p: Patch, v: ViewMap) {
    && WellFormed(p) && Toward(ops, p) && NameFree(ops)
    && (Abort !in ops ==> Effect(ops, v) == Patched(p, v))
  }

  // Services ------------------------------------------------------

  /** The wanted payloads of a Service, keyed; empty unless it is to be synced. */
  function ServiceContent(spec: Spec, o: Owner, svc: Fetched<Service>): ViewMap
    requires o.ServiceOwner?
  {
    if svc.Present? && spec.services.enabled && svc.value.loadBalancer
    then Content(IPAddress, ServiceWants(o, svc.value.parses, svc.value.ingress))
    else map[]
  }

  predicate ServiceRetained(spec: Spec, svc: Fetched<Service>) {
    svc.Unreadable? || (svc.Present? && !spec.services.enabled && spec.services.retainOnDisable)
  }

  ghost function ServicePatch(spec: Spec, o: Owner, svc: Fetched<Service>): Patch
    requires o.ServiceOwner?
  {
    if ServiceRetained(spec, svc) then NOTHING
    else Patch(OwnerScope(IPAddress, o), ServiceContent(spec, o, svc))
  }

  /** Each wanted address comes from an ingress entry. */
  lemma {:induction false} ServiceWantFrom(o: Owner, parses: map<string, IpVersion>, ingress: seq<string>, w: Want)
    returns (ip: string)
    requires o.ServiceOwner? && w in ServiceWants(o, parses, ingress)
    ensures ip in ingress && ip != "" && ip in parses && w == ServiceWant(o, parses, ip)
  {
    if ingress[0] != "" && w == ServiceWant(o, parses, ingress[0]) {
      ip := ingress[0];
    } else {
      ip := ServiceWantFrom(o, parses, ingress[1..], w);
    }
  }

  /** When all entries are usable, each that has an IP is wanted. */
  lemma {:induction false} ServiceWantListed(o: Owner, parses: map<string, IpVersion>, ingress: seq<string>, ip: string)
    requires o.ServiceOwner? && Usable(parses, ingress) && ip in ingress && ip != ""
    ensures ServiceWant(o, parses, ip) in ServiceWants(o, parses, ingress)
  {
    if ingress[0] == ip {
    } else {
      ServiceWantListed(o, parses, ingress[1..], ip);
    }
  }

  lemma {:induction false} ServiceWantsFit(o: Owner, parses: map<string, IpVersion>, ingress: seq<string>)
    requires o.ServiceOwner?
    ensures var ws := ServiceWants(o, parses, ingress); BelongTo(ws, o) && Coherent(ws)
  {
    var ws := ServiceWants(o, parses, ingress);
    forall w | w in ws ensures HasPrefix(w.ext, OwnerPrefix(o)) {
      var i := ServiceWantFrom(o, parses, ingress, w);
    }
    forall w, x | w in ws && x in ws && w.ext == x.ext ensures w.payload == x.payload {
      var i := ServiceWantFrom(o, parses, ingress, w);
      var j := ServiceWantFrom(o, parses, ingress, x);
      assert i == OwnedId(o, i)[|OwnerPrefix(o)|..] && j == OwnedId(o, j)[|OwnerPrefix(o)|..];
    }
  }

  /** A Service reconcile replaces everything the Service owns by its current addresses; by
      nothing when it is gone, is no load balancer, or sync is off; and leaves all alone when
      sync is off with retention. */
  lemma {:induction false} ServiceRealizes(spec: Spec, o: Owner, svc: Fetched<Service>, v: ViewMap)
    requires o.ServiceOwner?
    ensures Realizes(ServicePlan(spec, o, svc), ServicePatch(spec, o, svc), v)
  {
    NothingEffect(v);
    PruneEffect(IPAddress, o, v);
    if svc.Present? && spec.services.enabled && svc.value.loadBalancer {
      var ws := ServiceWants(o, svc.value.parses, svc.value.ingress);
      ServiceWantsFit(o, svc.value.parses, svc.value.ingress);
      SyncToward(IPAddress, o, ws);
      SyncEffect(IPAddress, o, ws, v);
    }
  }

  // Prefix mode ---------------------------------------------------

  ghost function AggregateScope(): iset<Key> {
    iset{Key(Aggregate, AggregateId(IPv4)), Key(Aggregate, AggregateId(IPv6))}
  }

  function PrefixContent(spec: Spec, node: Fetched<Node>): ViewMap {
    if node.Present? && spec.podCidrs.enabled then Content(Prefix, PrefixWants(node.value)) else map[]
  }

  predicate PrefixRetained(spec: Spec, node: Fetched<Node>) {
    node.Unreadable? || (node.Present? && !spec.podCidrs.enabled && spec.podCidrs.retainOnDisable)
  }

  ghost function PrefixPatch(spec: Spec, name: string, node: Fetched<Node>): Patch {
    Patch(AggregateScope() + (if PrefixRetained(spec, node) then iset{} else OwnerScope(Prefix, NodeOwner(name))),
          PrefixContent(spec, node))
  }

  lemma {:induction false} PrefixWantsFit(n: Node)
    ensures BelongTo(PrefixWants(n), NodeOwner(n.name)) && Coherent(PrefixWants(n))
  {
    var ws := PrefixWants(n);
    forall w, x | w in ws && x in ws && w.ext == x.ext ensures w.payload == x.payload {
      var i :| 0 <= i < |ws| && ws[i] == w;
      var j :| 0 <= j < |ws| && ws[j] == x;
      var o := NodeOwner(n.name);
      assert n.podCidrs[i].text == OwnedId(o, n.podCidrs[i].text)[|OwnerPrefix(o)|..];
      assert n.podCidrs[j].text == OwnedId(o, n.podCidrs[j].text)[|OwnerPrefix(o)|..];
    }
  }

  lemma {:induction false} Effect2(a: Op, b: Op, v: ViewMap)
    ensures Effect([a, b], v) == EffectOf(b, EffectOf(a, v))
  {
    assert [a, b] == [a] + [b];
    EffectConcat([a], [b], v);
    EffectOne(a, v);
    EffectOne(b, EffectOf(a, v));
  }

  /** What one family's operation amounts to. */
  ghost function AggregateOpPatch(op: Op, f: Family): Patch {
    var k := Key(Aggregate, AggregateId(f));
    Patch(iset{k}, if op.Ensure? then map[k := op.payload] else map[])
  }

  lemma {:induction false} AggregateOpEffect(op: Op, f: Family, v: ViewMap)
    requires op == DropAggregate(f) || (op.Ensure? && op.kind == Aggregate && op.ext == AggregateId(f))
    ensures EffectOf(op, v) == Patched(AggregateOpPatch(op, f), v)
  {
  }

  lemma {:induction false} DropAggregatesEffect(v: ViewMap)
    ensures Effect(DROP_AGGREGATES, v) == Patched(Patch(AggregateScope(), map[]), v)
  {
    var a, b := DropAggregate(IPv4), DropAggregate(IPv6);
    Effect2(a, b, v);
    AggregateOpEffect(a, IPv4, v);
    AggregateOpEffect(b, IPv6, EffectOf(a, v));
    PatchTwice(AggregateOpPatch(a, IPv4), AggregateOpPatch(b, IPv6), Patch(AggregateScope(), map[]), v);
  }

  lemma {:induction false} DropAggregatesToward(p: Patch)
    requires AggregateScope() <= p.scope
    requires forall k <- p.content :: k.kind != Aggregate
    ensures Toward(DROP_AGGREGATES, p)
  {
  }

  lemma {:induction false} TowardConcat(a: seq<Op>, b: seq<Op>, p: Patch)
    requires Toward(a, p) && Toward(b, p)
    ensures Toward(a + b, p)
  {
  }

  lemma {:induction false} TowardWider(ops: seq<Op>, p: Patch, scope: iset<Key>, content: ViewMap)
    requires Toward(ops, p) && p.scope <= scope
    requires forall k :: k in p.scope ==> SameAt(p.content, content, k)
    ensures Toward(ops, Patch(scope, content))
  {
    var q := Patch(scope, content);
    forall op | op in ops && op.Ensure?
      ensures var k := Key(op.kind, op.ext); k in q.scope && k in q.content && q.content[k] == op.payload
    {
      assert SameAt(p.content, content, Key(op.kind, op.ext));
    }
    forall op, k, x | op in ops && Hits(op, k, x) ensures k in q.scope && k !in q.content {
      assert SameAt(p.content, content, k);
    }
  }

  /** Plans with patches of separate tables combine. */
  lemma {:induction false} RealizesConcat(a: seq<Op>, p: Patch, b: seq<Op>, q: Patch, r: Patch, v: ViewMap)
    requires Realizes(a, p, v) && Realizes(b, q, Effect(a, v)) && Abort !in a
    requires r.scope == p.scope + q.scope && r.content == q.content && p.content == map[]
    requires forall k <- q.content :: k !in p.scope
    ensures Realizes(a + b, r, v)
  {
    TowardWider(a, p, r.scope, r.content);
    TowardWider(b, q, r.scope, r.content);
    TowardConcat(a, b, r);
    EffectConcat(a, b, v);
    assert Patched(q, p.content) == q.content;
    PatchTwice(p, q, r, v);
  }

  ghost function TailPatch(spec: Spec, name: string, node: Fetched<Node>): Patch {
    if PrefixRetained(spec, node) then NOTHING
    else Patch(OwnerScope(Prefix, NodeOwner(name)), PrefixContent(spec, node))
  }

  lemma {:induction false} TailRealizes(spec: Spec, name: string, node: Fetched<Node>, v: ViewMap)
    requires node.Present? ==> node.value.name == name
    ensures Realizes(PrefixTail(spec, name, node), TailPatch(spec, name, node), v)
    ensures forall k <- TailPatch(spec, name, node).content :: k.kind == Prefix
    ensures PrefixContent(spec, node) == TailPatch(spec, name, node).content
  {
    NothingEffect(v);
    PruneEffect(Prefix, NodeOwner(name), v);
    if node.Present? && spec.podCidrs.enabled {
      var ws := PrefixWants(node.value);
      PrefixWantsFit(node.value);
      SyncToward(Prefix, NodeOwner(name), ws);
      SyncEffect(Prefix, NodeOwner(name), ws, v);
      ContentKeys(Prefix, ws);
    }
  }

  /** A Prefix-mode reconcile removes both Aggregates and replaces the Node's Prefixes by one
      for each of its pod CIDRs. */
  lemma {:induction false} PrefixRealizes(spec: Spec, name: string, node: Fetched<Node>, v: ViewMap)
    requires node.Present? ==> node.value.name == name
    ensures Realizes(PrefixPlan(spec, name, node), PrefixPatch(spec, name, node), v)
  {
    var clear := Patch(AggregateScope(), map[]);
    var tail, q := PrefixTail(spec, name, node), TailPatch(spec, name, node);
    DropAggregatesEffect(v);
    DropAggregatesToward(clear);
    TailRealizes(spec, name, node, Effect(DROP_AGGREGATES, v));
    RealizesConcat(DROP_AGGREGATES, clear, tail, q, PrefixPatch(spec, name, node), v);
  }

  // Nodes ---------------------------------------------------------

  ghost function NodePatch(spec: Spec, node: Fetched<Node>): Patch
    requires !node.Missing?
  {
    if node.Unreadable? then NOTHING
    else
      var k, op := Key(MappedKind(spec), node.value.uid), NodeEnsure(spec, node.value);
      if spec.nodes.enabled then
        if op.Ensure? then Patch(iset{k}, map[k := op.payload]) else NOTHING
      else if spec.nodes.retainOnDisable then NOTHING
      else Patch(iset{k}, map[])
  }

  /** A reconcile of a live Node writes, or with sync off removes, the one object that has the
      Node's UID in the table of the current mapping. */
  lemma {:induction false} NodeRealizes(spec: Spec, name: string, node: Fetched<Node>, v: ViewMap)
    requires !node.Missing?
    ensures Realizes(NodePlan(spec, name, node), NodePatch(spec, node), v)
  {
    if node.Unreadable? || (!spec.nodes.enabled && spec.nodes.retainOnDisable) {
      NothingEffect(v);
    } else if spec.nodes.enabled {
      Effect2(EnsureTag, NodeEnsure(spec, node.value), v);
    } else {
      EffectOne(Remove(MappedKind(spec), ByExternalId(node.value.uid)), v);
    }
  }

  // Aggregate mode ------------------------------------------------

  ghost function NodesScope(nodes: seq<Node>): iset<Key> {
    iset k: Key | k.kind == Prefix && exists n :: n in nodes && HasPrefix(k.ext, OwnerPrefix(NodeOwner(n.name)))
  }

  function AggregateContent(spec: Spec, nodes: seq<Node>): ViewMap {
    match Supernets(AllCidrs(nodes))
    case Invalid(_) => map[]
    case Computed(s) =>
      var rir := spec.podCidrs.rirName;
      (if IPv4 in s then map[Key(Aggregate, AggregateId(IPv4)) := AggregatePayload(rir, IPv4, s[IPv4])] else map[])
      + (if IPv6 in s then map[Key(Aggregate, AggregateId(IPv6)) := AggregatePayload(rir, IPv6, s[IPv6])] else map[])
  }

  ghost function AggregatePatch(spec: Spec, nodes: Fetched<seq<Node>>): Patch {
    if !spec.podCidrs.enabled then
      if spec.podCidrs.retainOnDisable then NOTHING else Patch(AggregateScope(), map[])
    else if !nodes.Present? then NOTHING
    else Patch(AggregateScope() + NodesScope(nodes.value), AggregateContent(spec, nodes.value))
  }

  lemma {:induction false} NodesScopeSnoc(nodes: seq<Node>)
    requires nodes != []
    ensures NodesScope(nodes) == NodesScope(nodes[..|nodes| - 1])
            + OwnerScope(Prefix, NodeOwner(nodes[|nodes| - 1].name))
  {
    var init, last := nodes[..|nodes| - 1], nodes[|nodes| - 1];
    assert nodes == init + [last];
    assert last in nodes;
    assert forall n :: n in nodes <==> n in init || n == last;
  }

  lemma {:induction false} ClearNodesEffect(nodes: seq<Node>, v: ViewMap)
    ensures Effect(ClearNodes(nodes), v) == Patched(Patch(NodesScope(nodes), map[]), v)
  {
    if nodes == [] {
    } else {
      var init, last := nodes[..|nodes| - 1], nodes[|nodes| - 1];
      var op := Prune(Prefix, NodeOwner(last.name), {});
      ClearNodesEffect(init, v);
      assert ClearNodes(nodes) == ClearNodes(init) + [op];
      EffectConcat(ClearNodes(init), [op], v);
      PruneEffect(Prefix, NodeOwner(last.name), Effect(ClearNodes(init), v));
      NodesScopeSnoc(nodes);
      PatchTwice(Patch(NodesScope(init), map[]), Patch(OwnerScope(Prefix, NodeOwner(last.name)), map[]),
                 Patch(NodesScope(nodes), map[]), v);
    }
  }

  lemma {:induction false} ClearNodesToward(nodes: seq<Node>, p: Patch)
    requires NodesScope(nodes) <= p.scope
    requires forall k <- p.content :: k.kind != Prefix
    ensures Toward(ClearNodes(nodes), p) && NameFree(ClearNodes(nodes)) && Abort !in ClearNodes(nodes)
  {
    forall op | op in ClearNodes(nodes)
      ensures exists n :: n in nodes && op == Prune(Prefix, NodeOwner(n.name), {})
    {
      var i :| 0 <= i < |nodes| && ClearNodes(nodes)[i] == op;
      assert nodes[i] in nodes;
    }
  }

  lemma {:induction false} AggregateIdsDiffer()
    ensures AggregateId(IPv4) != AggregateId(IPv6)
  {
    assert AggregateId(IPv4)[|AggregateId(IPv4)| - 1] == '4';
    assert AggregateId(IPv6)[|AggregateId(IPv6)| - 1] == '6';
  }

  lemma {:induction false} AggregateContentParts(spec: Spec, nodes: seq<Node>, p: Patch, q: Patch)
    requires Supernets(AllCidrs(nodes)).Computed?
    requires var s := Supernets(AllCidrs(nodes)).value;
             && p == AggregateOpPatch(AggregateOp(spec.podCidrs.rirName, s, IPv4), IPv4)
             && q == AggregateOpPatch(AggregateOp(spec.podCidrs.rirName, s, IPv6), IPv6)
    ensures AggregateContent(spec, nodes) == Patched(q, p.content)
  {
    AggregateIdsDiffer();
  }

  lemma {:induction false} AggregateTailEffect(spec: Spec, nodes: seq<Node>, v: ViewMap)
    requires Supernets(AllCidrs(nodes)).Computed?
    ensures Effect(AggregateTail(spec, nodes), v) == Patched(Patch(AggregateScope(), AggregateContent(spec, nodes)), v)
  {
    var rir, s := spec.podCidrs.rirName, Supernets(AllCidrs(nodes)).value;
    var a, b := AggregateOp(rir, s, IPv4), AggregateOp(rir, s, IPv6);
    assert AggregateTail(spec, nodes) == [EnsureTag] + [a] + [b];
    Effect3(EnsureTag, [a], b, v);
    EffectOne(a, v);
    AggregateOpEffect(a, IPv4, v);
    AggregateOpEffect(b, IPv6, EffectOf(a, v));
    AggregateIdsDiffer();
    var p, q := AggregateOpPatch(a, IPv4), AggregateOpPatch(b, IPv6);
    AggregateContentParts(spec, nodes, p, q);
    PatchTwice(p, q, Patch(AggregateScope(), AggregateContent(spec, nodes)), v);
  }

  lemma {:induction false} AggregateContentAt(spec: Spec, nodes: seq<Node>)
    ensures var p := Patch(AggregateScope(), AggregateContent(spec, nodes));
            WellFormed(p) && forall k <- p.content :: k.kind == Aggregate
    ensures var supernets := Supernets(AllCidrs(nodes));
            supernets.Computed? ==>
              forall f: Family ::
                var k, content := Key(Aggregate, AggregateId(f)), AggregateContent(spec, nodes);
                && k in AggregateScope() && (k in content <==> f in supernets.value)
                && (k in content ==> content[k] == AggregatePayload(spec.podCidrs.rirName, f, supernets.value[f]))
  {
    AggregateIdsDiffer();
    if Supernets(AllCidrs(nodes)).Computed? {
      var content, s := AggregateContent(spec, nodes), Supernets(AllCidrs(nodes)).value;
      assert Key(Aggregate, AggregateId(IPv4)) in content <==> IPv4 in s;
      assert Key(Aggregate, AggregateId(IPv6)) in content <==> IPv6 in s;
    }
  }

  lemma {:induction false} AggregateTailToward(spec: Spec, nodes: seq<Node>)
    requires Supernets(AllCidrs(nodes)).Computed?
    ensures Toward(AggregateTail(spec, nodes), Patch(AggregateScope(), AggregateContent(spec, nodes)))
    ensures NameFree(AggregateTail(spec, nodes))
  {
    AggregateContentAt(spec, nodes);
    forall op | op in AggregateTail(spec, nodes)
      ensures op == EnsureTag
              || exists f: Family :: op == AggregateOp(spec.podCidrs.rirName, Supernets(AllCidrs(nodes)).value, f)
    {
    }
  }

  lemma {:induction false} AggregateTailRealizes(spec: Spec, nodes: seq<Node>, v: ViewMap)
    ensures Realizes(AggregateTail(spec, nodes), Patch(AggregateScope(), AggregateContent(spec, nodes)), v)
    ensures forall k <- AggregateContent(spec, nodes) :: k.kind == Aggregate
  {
    AggregateContentAt(spec, nodes);
    if Supernets(AllCidrs(nodes)).Computed? {
      AggregateTailEffect(spec, nodes, v);
      AggregateTailToward(spec, nodes);
    }
  }

  /** An Aggregate-mode reconcile removes the Prefixes of every live Node and makes the
      Aggregates exactly the supernets of the live pod CIDRs. */
  lemma {:induction false} AggregateRealizes(spec: Spec, nodes: Fetched<seq<Node>>, v: ViewMap)
    ensures Realizes(AggregatePlan(spec, nodes), AggregatePatch(spec, nodes), v)
  {
    if spec.podCidrs.enabled && nodes.Present? {
      var ns := nodes.value;
      var clear, q := Patch(NodesScope(ns), map[]), Patch(AggregateScope(), AggregateContent(spec, ns));
      ClearNodesEffect(ns, v);
      ClearNodesToward(ns, clear);
      AggregateTailRealizes(spec, ns, Effect(ClearNodes(ns), v));
      RealizesConcat(ClearNodes(ns), clear, AggregateTail(spec, ns), q, AggregatePatch(spec, nodes), v);
    } else {
      NothingEffect(v);
      DropAggregatesEffect(v);
      DropAggregatesToward(Patch(AggregateScope(), map[]));
    }
  }
}
