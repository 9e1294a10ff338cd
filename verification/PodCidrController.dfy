/** The pod CIDR controller, in the same way. */
module PodCidrController {
  import opened Cidrs
  import opened ExternalIds
  import opened NetBox
  import opened Views
  import opened Plans
  import opened Scenarios
  import opened Outcomes
  import opened Interleaving
  import opened Client
  import opened ConfigStore

  lemma {:induction false} PrefixWantsFrom(node: Node, i: nat, tail: seq<Op>)
    requires i < |node.podCidrs|
    ensures var ws, w := PrefixWants(node), PrefixWant(node.name, node.podCidrs[i]);
            && IdsOf(ws[..i + 1]) == IdsOf(ws[..i]) + [w.ext]
            && Ensures(Prefix, ws[i..]) + tail
               == [Ensure(Prefix, w.ext, w.payload, [])] + (Ensures(Prefix, ws[i + 1..]) + tail)
  {
    var ws, w := PrefixWants(node), PrefixWant(node.name, node.podCidrs[i]);
    assert ws[i..] == [w] + ws[i + 1..];
    EnsuresCons(Prefix, w, ws[i + 1..], tail);
  }

  /** The loop over the Node's pod CIDRs. */
  method EnsurePrefixes(s: NetBoxServer, c: Conn, node: Node, ghost tail: seq<Op>)
    returns (ok: bool, desired: seq<string>)
    requires s.AtOps(c, Ensures(Prefix, PrefixWants(node)) + tail)
    modifies s`db, s`script, s`made, s`log, s`at
    ensures s.Past(ok, c, tail)
    ensures ok ==> desired == IdsOf(PrefixWants(node))
  {
    ghost var all := PrefixWants(node);
    desired := [];
    var i := 0;
    assert all[0..] == all;
    while i < |node.podCidrs|
      invariant i <= |node.podCidrs| && desired == IdsOf(all[..i])
      invariant s.AtOps(c, Ensures(Prefix, all[i..]) + tail)
    {
      PrefixWantsFrom(node, i, tail);
      var w := PrefixWant(node.name, node.podCidrs[i]);
      desired := desired + [w.ext];
      ok := EnsureObject(s, c, Prefix, w.ext, w.payload, [], Ensures(Prefix, all[i + 1..]) + tail);
      if !ok { return; }
      i := i + 1;
    }
    assert all[..i] == all && Ensures(Prefix, all[i..]) + tail == tail;
    ok := true;
  }

  method SyncNodePrefixes(s: NetBoxServer, c: Conn, node: Node) returns (ok: bool)
    requires s.AtOps(c, SyncOps(Prefix, NodeOwner(node.name), PrefixWants(node)))
    modifies s`db, s`script, s`made, s`log, s`at
    ensures s.Past(ok, c, [])
  {
    var o := NodeOwner(node.name);
    ghost var all := PrefixWants(node);
    ghost var tail := [Prune(Prefix, o, Exts(all))];
    assert SyncOps(Prefix, o, all) == [EnsureTag] + (Ensures(Prefix, all) + tail);
    var tagged := EnsureManagedTag(s, c, Ensures(Prefix, all) + tail);
    if !tagged { return false; }
    var desired: seq<string>;
    ok, desired := EnsurePrefixes(s, c, node, tail);
    if !ok { return; }
    IdsOfExts(all);
    assert tail == [Prune(Prefix, o, set e | e in desired)] + [];
    ok := PruneOwned(s, c, Prefix, o, desired, []);
  }

  method DeleteStaleAggregates(s: NetBoxServer, c: Conn, ghost rest: seq<Op>) returns (ok: bool)
    requires s.AtOps(c, DROP_AGGREGATES + rest)
    modifies s`db, s`script, s`made, s`log, s`at
    ensures s.Past(ok, c, rest)
  {
    var families := [IPv4, IPv6];
    var i := 0;
    assert DROP_AGGREGATES[0..] == DROP_AGGREGATES;
    while i < |families|
      invariant i <= |families| && s.AtOps(c, DROP_AGGREGATES[i..] + rest)
    {
      assert DROP_AGGREGATES[i..] + rest == [DropAggregate(families[i])] + (DROP_AGGREGATES[i + 1..] + rest);
      var externalId := AggregateId(families[i]);
      var dropped := DeleteFirst(s, c, Aggregate, ByExternalId(externalId), DROP_AGGREGATES[i + 1..] + rest);
      if !dropped { return false; }
      i := i + 1;
    }
    assert DROP_AGGREGATES[i..] + rest == rest;
    ok := true;
  }

  method ReconcilePrefixForNode(s: NetBoxServer, c: Conn, spec: Spec, name: string, node: Fetched<Node>)
    returns (ok: bool)
    requires s.AtOps(c, PrefixPlan(spec, name, node))
    modifies s`db, s`script, s`made, s`log, s`at
    ensures s.Valid() && (if ok then Succeeded(s.at) else Errored(s.at))
  {
    var dropped := DeleteStaleAggregates(s, c, PrefixTail(spec, name, node));
    if !dropped { return false; }
    match node {
      case Unreadable =>
        ok := false;
      case Missing =>
        ok := DeleteOwned(s, c, Prefix, NodeOwner(name));
      case Present(n) =>
        var qualifies := spec.podCidrs.enabled && |n.podCidrs| > 0;
        if qualifies {
          ok := SyncNodePrefixes(s, c, n);
        } else if spec.podCidrs.enabled || !spec.podCidrs.retainOnDisable {
          ok := DeleteOwned(s, c, Prefix, NodeOwner(n.name));
        } else {
          ok := true;
        }
    }
  }

  /** The loop over all live Nodes that clears what Prefix mode left behind. */
  method ClearAllNodes(s: NetBoxServer, c: Conn, nodes: seq<Node>, ghost rest: seq<Op>) returns (ok: bool)
    requires s.AtOps(c, ClearNodes(nodes) + rest)
    modifies s`db, s`script, s`made, s`log, s`at
    ensures s.Past(ok, c, rest)
  {
    var i := 0;
    assert nodes[0..] == nodes;
    while i < |nodes|
      invariant i <= |nodes| && s.AtOps(c, ClearNodes(nodes[i..]) + rest)
    {
      ghost var later := ClearNodes(nodes[i + 1..]) + rest;
      var o := NodeOwner(nodes[i].name);
      assert ClearNodes(nodes[i..]) + rest == [Prune(Prefix, o, {})] + later;
      assert (set e: string | e in []) == {};
      var cleared := PruneOwned(s, c, Prefix, o, [], later);
      if !cleared { return false; }
      i := i + 1;
    }
    assert ClearNodes(nodes[i..]) + rest == rest;
    ok := true;
  }

  /** The loop that gathers the pod CIDRs of all Nodes. */
  method GatherCidrs(nodes: seq<Node>) returns (all: seq<Cidr>)
    ensures all == AllCidrs(nodes)
  {
    all := [];
    for i := 0 to |nodes|
      invariant all == AllCidrs(nodes[..i])
    {
      assert nodes[..i + 1][..i] == nodes[..i];
      all := all + nodes[i].podCidrs;
    }
    assert nodes[..|nodes|] == nodes;
  }

  /** One family of the Aggregate loop. */
  method SyncFamily(s: NetBoxServer, c: Conn, spec: Spec, supernets: map<Family, Block>, f: Family, ghost rest: seq<Op>)
    returns (ok: bool)
    requires s.AtOps(c, [AggregateOp(spec.podCidrs.rirName, supernets, f)] + rest)
    modifies s`db, s`script, s`made, s`log, s`at
    ensures s.Past(ok, c, rest)
  {
    var rir := spec.podCidrs.rirName;
    if f !in supernets {
      ok := DeleteFirst(s, c, Aggregate, ByExternalId(AggregateId(f)), rest);
    } else {
      var payload := AggregatePayload(rir, f, supernets[f]);
      ok := EnsureObject(s, c, Aggregate, AggregateId(f), payload, [Lookup(Rirs, rir)], rest);
    }
  }

  method SyncAggregates(s: NetBoxServer, c: Conn, spec: Spec, nodes: Fetched<seq<Node>>) returns (ok: bool)
    requires s.AtOps(c, AggregatePlan(spec, nodes))
    modifies s`db, s`script, s`made, s`log, s`at
    ensures s.Valid() && (if ok then Succeeded(s.at) else Errored(s.at))
  {
    if !spec.podCidrs.enabled {
      if spec.podCidrs.retainOnDisable { return true; }
      assert DROP_AGGREGATES == DROP_AGGREGATES + [];
      ok := DeleteStaleAggregates(s, c, []);
      return;
    }
    if !nodes.Present? { return false; }
    var cleared := ClearAllNodes(s, c, nodes.value, AggregateTail(spec, nodes.value));
    if !cleared { return false; }
    var cidrs := GatherCidrs(nodes.value);
    var supernets := ComputeSupernets(cidrs);
    if supernets.Invalid? { return false; }
    ghost var four := AggregateOp(spec.podCidrs.rirName, supernets.value, IPv4);
    ghost var six := AggregateOp(spec.podCidrs.rirName, supernets.value, IPv6);
    assert AggregateTail(spec, nodes.value) == [EnsureTag] + ([four] + ([six] + []));
    var tagged := EnsureManagedTag(s, c, [four] + ([six] + []));
    if !tagged { return false; }
    var first := SyncFamily(s, c, spec, supernets.value, IPv4, [six] + []);
    if !first { return false; }
    ok := SyncFamily(s, c, spec, supernets.value, IPv6, []);
  }

  /** Each key is where it was or where the reconcile wants it; and on success the outcome is reached. */
  ghost predicate Reconciled(v: ViewMap, w: ViewMap, spec: Spec, name: string, node: Fetched<Node>,
                             nodes: Fetched<seq<Node>>, ok: bool)
    requires node.Present? ==> node.value.name == name
  {
    var p := PodCidrTask(spec, name, node, nodes).patch;
    && Between(v, w, p)
    && (ok ==> w == Patched(p, v) && PodCidrOutcome(v, w, spec, name, node, nodes))
  }

  lemma {:induction false} CarriedOutReconciled(db: Tables, c: Conn, spec: Spec, name: string, node: Fetched<Node>,
                                                nodes: Fetched<seq<Node>>, rs: seq<Reply>, db': Tables, ok: bool)
    requires Unique(db, c) && (node.Present? ==> node.value.name == name)
    requires CarriedOut(db, c, PodCidrPlan(spec, name, node, nodes), rs, db', ok)
    ensures Unique(db', c) && Reconciled(View(db, c), View(db', c), spec, name, node, nodes, ok)
  {
    CarriedOutEffect(db, c, PodCidrTask(spec, name, node, nodes), rs, db', ok);
    if ok { PodCidrSucceeded(db, c, spec, name, node, nodes, rs); }
  }

  method ReconcilePodCidrs(store: Store, s: NetBoxServer, name: string, node: Fetched<Node>, nodes: Fetched<seq<Node>>)
    returns (ok: bool)
    requires node.Present? ==> node.value.name == name
    modifies s
    ensures store.Current() == None ==> ok && s.db == old(s.db)
    ensures store.Current().Some? ==>
              var c, spec := ConnOf(store.Current().value), store.Current().value.spec;
              && CarriedOut(old(s.db), c, PodCidrPlan(spec, name, node, nodes), s.log, s.db, ok)
              && (Unique(old(s.db), c) ==>
                    && Unique(s.db, c)
                    && Reconciled(View(old(s.db), c), View(s.db, c), spec, name, node, nodes, ok))
  {
    var published, client := store.Get();
    if published.None? || client.None? { return true; }
    var spec := published.value;
    var c := Conn(client.value, ResolveTagSlug(spec));
    s.Bind(c, PodCidrPlan(spec, name, node, nodes));
    if spec.podCidrs.aggregate {
      ok := SyncAggregates(s, c, spec, nodes);
    } else {
      ok := ReconcilePrefixForNode(s, c, spec, name, node);
    }
    if Unique(old(s.db), c) {
      CarriedOutReconciled(old(s.db), c, spec, name, node, nodes, s.log, s.db, ok);
    }
  }
}
