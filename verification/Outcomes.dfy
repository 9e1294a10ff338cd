/** What reconciles leave in NetBox and when they can succeed, in terms of the Kubernetes objects, the
    spec and the texts that NetBox holds, and not of plans. */
module Outcomes {
  import opened Cidrs
  import opened ExternalIds
  import opened NetBox
  import opened Views
  import opened Plans
  import opened Convergence
  import opened Scenarios
  import opened Interleaving
  import opened Progress
  import NodeLifecycle

  predicate Holds(v: ViewMap, k: Key, p: Payload) {
    k in v && v[k] == p
  }

  /** A managed object of this table whose external ID starts so. */
  predicate Under(k: Key, kind: Kind, prefix: string) {
    k.kind == kind && prefix <= k.ext
  }

  ghost predicate NoneUnder(v: ViewMap, kind: Kind, prefix: string) {
    forall k <- v :: !Under(k, kind, prefix)
  }

  // ---------------------------------------------------------------- marks

  /** The external ID that Herald reads is the text in one custom field. */
  lemma {:induction false} ExternalIdField(custom: CustomFields, id: string)
    ensures ReadExternalId(custom) == Some(id)
       <==> custom.Fields? && "netbox_herald_external_id" in custom.entries
            && custom.entries["netbox_herald_external_id"] == Text(id)
  {
  }

  /** Whatever object a reconcile creates or updates, in any state of any run, is on the instance of the
      session and then carries the configured managed tag, or the default one, and no other tag, and an
      external ID as its only custom field. */
  lemma {:induction false} WritesMarked(db: Tables, s: Session, ops: seq<Op>, rs: seq<Reply>, r: Ref)
    requires IsRun(db, Start(ConnOf(s), ops), rs)
    requires var db' := After(db, Start(ConnOf(s), ops), rs).db; r in db' && (r in db ==> db'[r] != db[r])
    ensures var row := After(db, Start(ConnOf(s), ops), rs).db[r];
            && r.site == s.site
            && row.tags == {if s.spec.tagSlug != "" then s.spec.tagSlug else "netbox-herald-managed"}
            && exists id :: row.custom == Fields(map["netbox_herald_external_id" := Text(id)])
  {
    NodeLifecycle.RunRows(db, Start(ConnOf(s), ops), rs, r);
    var op :| op in ops && op.Ensure? && op.kind == r.kind && r.site == s.site
              && After(db, Start(ConnOf(s), ops), rs).db[r] == HeraldRow(ConnOf(s).slug, op.ext, op.payload);
    assert After(db, Start(ConnOf(s), ops), rs).db[r].custom
           == Fields(map["netbox_herald_external_id" := Text(op.ext)]);
  }

  // ---------------------------------------------------------------- Services

  predicate ToBeSynced(spec: Spec, svc: Service) {
    spec.services.enabled && svc.loadBalancer
  }

  /** Each external IP has its address object, with host mask and description, and there is no other. */
  ghost predicate HasAddresses(v: ViewMap, ns: string, name: string, svc: Service) {
    && (forall ip <- svc.ingress :: ip != "" ==>
          && ip in svc.parses
          && Holds(v, Key(IPAddress, ns + "/" + name + "/" + ip),
                   Payload("", [ip + (if svc.parses[ip].V4? then "/32" else "/128"), "Kubernetes Service " + ns + "/"
                       + name],
                           [], None)))
    && (forall k <- v :: Under(k, IPAddress, ns + "/" + name + "/") ==>
          exists ip :: ip in svc.ingress && ip != "" && k.ext == ns + "/" + name + "/" + ip)
  }

  /** A Service reconcile that succeeds takes view v to w. */
  ghost predicate ServiceOutcome(v: ViewMap, w: ViewMap, spec: Spec, ns: string, name: string, svc: Fetched<Service>) {
    && (forall k :: !Under(k, IPAddress, ns + "/" + name + "/") ==> SameAt(w, v, k))
    && match svc
       case Unreadable => false
       case Missing => NoneUnder(w, IPAddress, ns + "/" + name + "/")
       case Present(s) =>
         if ToBeSynced(spec, s) then HasAddresses(w, ns, name, s)
         else if !spec.services.enabled && spec.services.retainOnDisable then w == v
         else NoneUnder(w, IPAddress, ns + "/" + name + "/")
  }

  lemma {:induction false} ServicePrefix(ns: string, name: string, ip: string)
    ensures OwnerPrefix(ServiceOwner(ns, name)) == ns + "/" + name + "/"
    ensures OwnedId(ServiceOwner(ns, name), ip) == ns + "/" + name + "/" + ip
  {
  }

  lemma {:induction false} SyncedAddresses(spec: Spec, ns: string, name: string, svc: Service, v: ViewMap)
    requires ToBeSynced(spec, svc) && Usable(svc.parses, svc.ingress)
    ensures HasAddresses(Patched(ServicePatch(spec, ServiceOwner(ns, name), Present(svc)), v), ns, name, svc)
  {
    var o := ServiceOwner(ns, name);
    var ws := ServiceWants(o, svc.parses, svc.ingress);
    ServiceWantsFit(o, svc.parses, svc.ingress);
    ContentKeys(IPAddress, ws);
    var w := Patched(ServicePatch(spec, o, Present(svc)), v);
    forall ip | ip in svc.ingress && ip != ""
      ensures Holds(w, Key(IPAddress, ns + "/" + name + "/" + ip),
                    Payload("", [ip + (if svc.parses[ip].V4? then "/32" else "/128"), "Kubernetes Service " + ns + "/"
                        + name],
                            [], None))
    {
      ServiceWantListed(o, svc.parses, svc.ingress, ip);
      ServicePrefix(ns, name, ip);
    }
    forall k | k in w && Under(k, IPAddress, ns + "/" + name + "/")
      ensures exists ip :: ip in svc.ingress && ip != "" && k.ext == ns + "/" + name + "/" + ip
    {
      ServicePrefix(ns, name, "");
      var want :| want in ws && want.ext == k.ext;
      var ip := ServiceWantFrom(o, svc.parses, svc.ingress, want);
      ServicePrefix(ns, name, ip);
    }
  }

  /** Every entry that is no hostname is an address. */
  predicate AllAddresses(svc: Service) {
    forall ip <- svc.ingress :: ip != "" ==> ip in svc.parses
  }

  lemma {:induction false} NoQueries(ops: seq<Op>)
    requires forall op <- ops :: !op.Check? && (op.Ensure? ==> op.lookups == [])
    ensures Queries(ops) == []
    decreases |ops|
  {
    if ops == [] {
    } else {
      NoQueries(ops[1..]);
    }
  }

  lemma {:induction false} ServiceAborts(spec: Spec, o: Owner, svc: Fetched<Service>)
    requires o.ServiceOwner?
    ensures Abort in ServicePlan(spec, o, svc)
       <==> svc.Unreadable? || (svc.Present? && ToBeSynced(spec, svc.value) && !AllAddresses(svc.value))
    ensures Queries(ServicePlan(spec, o, svc)) == []
  {
    var ops := ServicePlan(spec, o, svc);
    if svc.Present? && ToBeSynced(spec, svc.value) {
      var ws := ServiceWants(o, svc.value.parses, svc.value.ingress);
      InvalidAborts(o, svc.value);
      forall op | op in ops
        ensures op == EnsureTag || op == Prune(IPAddress, o, Exts(ws)) || op in Ensures(IPAddress, ws)
                || (op == Abort && !AllAddresses(svc.value))
      {
      }
    }
    NoQueries(ops);
  }

  lemma {:induction false} ServiceSucceeded(db: Tables, c: Conn, spec: Spec, ns: string, name: string,
                                            svc: Fetched<Service>,
                                       rs: seq<Reply>)
    requires Unique(db, c) && IsTurn(db, c, Turn(ServiceTask(spec, ServiceOwner(ns, name), svc), rs, true))
    ensures var db' := TurnEnd(db, c, Turn(ServiceTask(spec, ServiceOwner(ns, name), svc), rs, true));
            Unique(db', c) && ServiceOutcome(View(db, c), View(db', c), spec, ns, name, svc)
  {
    var o := ServiceOwner(ns, name);
    var t := Turn(ServiceTask(spec, o, svc), rs, true);
    TurnEffect(db, c, t);
    NoAbortOnSuccess(db, Start(c, t.task.ops), rs);
    ServiceAborts(spec, o, svc);
    ServicePrefix(ns, name, "");
    if svc.Present? && ToBeSynced(spec, svc.value) {
      SyncedAddresses(spec, ns, name, svc.value, View(db, c));
    } else if svc.Present? && !spec.services.enabled && spec.services.retainOnDisable {
      NothingEffect(View(db, c));
    }
  }

  /** A Service reconcile can succeed exactly if the Service can be read and, when it is to be synced,
      every entry that has an IP has a valid one. */
  lemma {:induction false} ServicePossibleIff(db: Tables, c: Conn, spec: Spec, ns: string, name: string,
                                              svc: Fetched<Service>, known: set<Query>)
    ensures CanSucceed(db, c, ServicePlan(spec, ServiceOwner(ns, name), svc), known)
       <==> !svc.Unreadable? && (svc.Present? && ToBeSynced(spec, svc.value) ==> AllAddresses(svc.value))
  {
    CanSucceedIff(db, c, ServicePlan(spec, ServiceOwner(ns, name), svc), known);
    ServiceAborts(spec, ServiceOwner(ns, name), svc);
  }

  // ---------------------------------------------------------------- pod CIDRs, Prefix mode

  ghost predicate IsPodAggregate(k: Key) {
    k == Key(Aggregate, "cluster-pod-cidrs/ipv4") || k == Key(Aggregate, "cluster-pod-cidrs/ipv6")
  }

  lemma {:induction false} PodAggregates()
    ensures forall k :: IsPodAggregate(k) <==> k in AggregateScope()
  {
    assert AggregateId(IPv4) == "cluster-pod-cidrs/ipv4" && AggregateId(IPv6) == "cluster-pod-cidrs/ipv6";
  }

  /** Each pod CIDR of the Node has its Prefix, and there is no other. */
  ghost predicate HasPrefixes(v: ViewMap, n: Node) {
    && (forall x <- n.podCidrs ::
          Holds(v, Key(Prefix, n.name + "/" + x.text),
              Payload("", [x.text, "Kubernetes Node " + n.name + " pod CIDR"], [], None)))
    && (forall k <- v :: Under(k, Prefix, n.name + "/") ==>
          exists x :: x in n.podCidrs && k.ext == n.name + "/" + x.text)
  }

  /** A Prefix-mode reconcile that succeeds takes view v to w. */
  ghost predicate PrefixOutcome(v: ViewMap, w: ViewMap, spec: Spec, name: string, node: Fetched<Node>) {
    && (forall k <- w :: !IsPodAggregate(k))
    && (forall k :: !IsPodAggregate(k) && !Under(k, Prefix, name + "/") ==> SameAt(w, v, k))
    && match node
       case Unreadable => false
       case Missing => NoneUnder(w, Prefix, name + "/")
       case Present(n) =>
         if spec.podCidrs.enabled then HasPrefixes(w, n)
         else if spec.podCidrs.retainOnDisable then forall k :: Under(k, Prefix, name + "/") ==> SameAt(w, v, k)
         else NoneUnder(w, Prefix, name + "/")
  }

  lemma {:induction false} SyncedPrefixes(spec: Spec, n: Node, v: ViewMap)
    requires spec.podCidrs.enabled
    ensures HasPrefixes(Patched(PrefixPatch(spec, n.name, Present(n)), v), n)
  {
    var ws := PrefixWants(n);
    PrefixWantsFit(n);
    ContentKeys(Prefix, ws);
    var w := Patched(PrefixPatch(spec, n.name, Present(n)), v);
    forall x | x in n.podCidrs
      ensures Holds(w, Key(Prefix, n.name + "/" + x.text),
              Payload("", [x.text, "Kubernetes Node " + n.name + " pod CIDR"], [], None))
    {
      var i :| 0 <= i < |n.podCidrs| && n.podCidrs[i] == x;
      assert ws[i] in ws && ws[i] == PrefixWant(n.name, x);
    }
    forall k | k in w && Under(k, Prefix, n.name + "/")
      ensures exists x :: x in n.podCidrs && k.ext == n.name + "/" + x.text {
      assert k in OwnerScope(Prefix, NodeOwner(n.name));
      var want :| want in ws && want.ext == k.ext;
      var i :| 0 <= i < |ws| && ws[i] == want;
      assert n.podCidrs[i] in n.podCidrs;
    }
  }

  lemma {:induction false} PrefixPatched(spec: Spec, name: string, node: Fetched<Node>, v: ViewMap)
    requires (node.Present? ==> node.value.name == name) && !node.Unreadable?
    ensures PrefixOutcome(v, Patched(PrefixPatch(spec, name, node), v), spec, name, node)
  {
    PodAggregates();
    forall k | k in PrefixContent(spec, node) ensures k.kind == Prefix { PrefixContentKinds(spec, node, k); }
    assert forall k: Key :: Under(k, Prefix, name + "/") <==> k in OwnerScope(Prefix, NodeOwner(name));
    if node.Present? && spec.podCidrs.enabled {
      SyncedPrefixes(spec, node.value, v);
      PrefixWantsFit(node.value);
      ContentKeys(Prefix, PrefixWants(node.value));
    }
  }

  lemma {:induction false} PrefixAborts(spec: Spec, name: string, node: Fetched<Node>)
    ensures Abort in PrefixPlan(spec, name, node) <==> node.Unreadable?
    ensures Queries(PrefixPlan(spec, name, node)) == []
  {
    var ops := PrefixPlan(spec, name, node);
    if node.Unreadable? { assert ops[2] == Abort; }
    forall op | op in ops ensures !op.Check? && (op.Ensure? ==> op.lookups == []) && (op.Abort? ==> node.Unreadable?) {
      if op in DROP_AGGREGATES {
      } else {
        assert op in PrefixTail(spec, name, node);
      }
    }
    NoQueries(ops);
  }

  lemma {:induction false} PrefixSucceeded(db: Tables, c: Conn, spec: Spec, name: string, node: Fetched<Node>,
                                           rs: seq<Reply>)
    requires Unique(db, c) && (node.Present? ==> node.value.name == name)
    requires IsTurn(db, c, Turn(PrefixTask(spec, name, node), rs, true))
    ensures var db' := TurnEnd(db, c, Turn(PrefixTask(spec, name, node), rs, true));
            Unique(db', c) && PrefixOutcome(View(db, c), View(db', c), spec, name, node)
  {
    var t := Turn(PrefixTask(spec, name, node), rs, true);
    TurnEffect(db, c, t);
    NoAbortOnSuccess(db, Start(c, t.task.ops), rs);
    PrefixAborts(spec, name, node);
    PrefixPatched(spec, name, node, View(db, c));
  }

  lemma {:induction false} TextsCount(prefix: string, texts: set<string>)
    ensures |set t | t in texts :: Key(Prefix, prefix + t)| == |texts|
    decreases texts
  {
    if texts == {} {
    } else {
      var t :| t in texts;
      TextsCount(prefix, texts - {t});
      var rest := set s | s in texts - {t} :: Key(Prefix, prefix + s);
      assert forall s :: s == (prefix + s)[|prefix|..];
      assert (set s | s in texts :: Key(Prefix, prefix + s)) == rest + {Key(Prefix, prefix + t)};
      assert Key(Prefix, prefix + t) !in rest;
    }
  }

  /** A synced Node has as many Prefixes as it has distinct pod CIDRs. */
  lemma {:induction false} PrefixCount(v: ViewMap, n: Node)
    requires HasPrefixes(v, n)
    ensures |set k | k in v && Under(k, Prefix, n.name + "/")| == |set x | x in n.podCidrs :: x.text|
  {
    var keys, texts := set k | k in v && Under(k, Prefix, n.name + "/"), set x | x in n.podCidrs :: x.text;
    forall k | k in keys ensures exists t :: t in texts && k == Key(Prefix, n.name + "/" + t) {
      var x :| x in n.podCidrs && k.ext == n.name + "/" + x.text;
      assert x.text in texts;
    }
    assert keys == set t | t in texts :: Key(Prefix, n.name + "/" + t);
    TextsCount(n.name + "/", texts);
  }

  /** A Prefix-mode reconcile can succeed exactly if the Node can be read. */
  lemma {:induction false} PrefixPossibleIff(db: Tables, c: Conn, spec: Spec, name: string, node: Fetched<Node>,
                                             known: set<Query>)
    ensures CanSucceed(db, c, PrefixPlan(spec, name, node), known) <==> !node.Unreadable?
  {
    CanSucceedIff(db, c, PrefixPlan(spec, name, node), known);
    PrefixAborts(spec, name, node);
  }

  // ---------------------------------------------------------------- pod CIDRs, Aggregate mode

  /** The blocks of one family among the pod CIDRs of the Nodes. */
  ghost function NodeBlocks(nodes: seq<Node>, f: Family): iset<ValidBlock> {
    iset n, x | n in nodes && x in n.podCidrs && x.parsed.Parsed? && x.parsed.block.family == f :: x.parsed.block
  }

  predicate AllValid(nodes: seq<Node>) {
    forall n, x :: n in nodes && x in n.podCidrs ==> x.parsed.Parsed?
  }

  ghost predicate AnyCidr(nodes: seq<Node>) {
    exists n, x :: n in nodes && x in n.podCidrs
  }

  /** The Aggregate of a family: there exactly if there is a block, the least one above all blocks, under the
      RIR of the spec. */
  ghost predicate HasAggregate(v: ViewMap, rir: string, f: Family, blocks: iset<ValidBlock>) {
    var name := if f.IPv4? then "ipv4" else "ipv6";
    var k := Key(Aggregate, "cluster-pod-cidrs/" + name);
    && (k in v <==> blocks != iset{})
    && (k in v ==>
          && v[k].block.Some?
          && v[k] == Payload("", ["Kubernetes pod CIDR aggregate (" + name + ")"], [Lookup(Rirs, rir)], v[k].block)
          && var b := v[k].block.value;
             && b.Valid()
             && (forall x :: x in blocks ==> Contains(b, x))
             && (forall t: ValidBlock :: (forall x :: x in blocks ==> Contains(t, x)) ==> Contains(t, b)))
  }

  /** An Aggregate-mode reconcile that succeeds takes view v to w. */
  ghost predicate AggregateOutcome(v: ViewMap, w: ViewMap, spec: Spec, nodes: Fetched<seq<Node>>) {
    if spec.podCidrs.enabled then
      && nodes.Present?
      && (forall f: Family :: HasAggregate(w, spec.podCidrs.rirName, f, NodeBlocks(nodes.value, f)))
      && (forall n <- nodes.value :: NoneUnder(w, Prefix, n.name + "/"))
      && (forall k :: !IsPodAggregate(k) && (forall n <- nodes.value :: !Under(k, Prefix, n.name + "/")) ==>
         SameAt(w, v, k))
    else if spec.podCidrs.retainOnDisable then w == v
    else
      && (forall k <- w :: !IsPodAggregate(k))
      && (forall k :: !IsPodAggregate(k) ==> SameAt(w, v, k))
  }

  lemma {:induction false} NodeBlocksGathered(nodes: seq<Node>, f: Family)
    ensures forall b :: b in NodeBlocks(nodes, f) <==> b in Blocks(AllCidrs(nodes), f)
  {
    var cidrs := AllCidrs(nodes);
    forall b | b in NodeBlocks(nodes, f) ensures b in Blocks(cidrs, f) {
      var n, x :| n in nodes && x in n.podCidrs && x.parsed.Parsed? && x.parsed.block.family == f
          && x.parsed.block == b;
      AllCidrsExact(nodes, x);
      var i :| 0 <= i < |cidrs| && cidrs[i] == x;
      assert cidrs[i].parsed.Parsed?;
    }
    forall b | b in Blocks(cidrs, f) ensures b in NodeBlocks(nodes, f) {
      var i :| 0 <= i < |cidrs| && cidrs[i].parsed.Parsed? && cidrs[i].parsed.block.family == f
          && cidrs[i].parsed.block == b;
      AllCidrsExact(nodes, cidrs[i]);
    }
  }

  lemma {:induction false} GatheredValid(nodes: seq<Node>)
    ensures AllParse(AllCidrs(nodes)) <==> AllValid(nodes)
  {
    forall x ensures x in AllCidrs(nodes) <==> exists n :: n in nodes && x in n.podCidrs { AllCidrsExact(nodes, x); }
  }

  lemma {:induction false} AggregateHeld(spec: Spec, nodes: seq<Node>, f: Family, v: ViewMap)
    requires spec.podCidrs.enabled && AllValid(nodes)
    ensures HasAggregate(Patched(AggregatePatch(spec, Present(nodes)), v), spec.podCidrs.rirName, f,
            NodeBlocks(nodes, f))
  {
    var cidrs, k := AllCidrs(nodes), Key(Aggregate, AggregateId(f));
    GatheredValid(nodes);
    SupernetsLeast(cidrs);
    NodeBlocksGathered(nodes, f);
    AggregateContentAt(spec, nodes);
    var w := Patched(AggregatePatch(spec, Present(nodes)), v);
    assert k in w <==> f in Supernets(cidrs).value;
    if k in w {
      var b: ValidBlock := Supernets(cidrs).value[f];
      assert w[k] == AggregatePayload(spec.podCidrs.rirName, f, b) && IsLeastAbove(b, Blocks(cidrs, f));
      forall t: ValidBlock | forall x :: x in NodeBlocks(nodes, f) ==> Contains(t, x) ensures Contains(t, b) {
        assert IsAbove(t, Blocks(cidrs, f));
      }
    }
  }

  lemma {:induction false} AggregatePatched(spec: Spec, nodes: Fetched<seq<Node>>, v: ViewMap)
    requires spec.podCidrs.enabled ==> nodes.Present? && AllValid(nodes.value)
    ensures AggregateOutcome(v, Patched(AggregatePatch(spec, nodes), v), spec, nodes)
  {
    PodAggregates();
    if spec.podCidrs.enabled {
      var ns, w := nodes.value, Patched(AggregatePatch(spec, nodes), v);
      AggregateContentAt(spec, ns);
      forall f: Family ensures HasAggregate(w, spec.podCidrs.rirName, f,
          NodeBlocks(ns, f)) { AggregateHeld(spec, ns, f, v); }
      forall k ensures k in NodesScope(ns) <==> exists n :: n in ns && Under(k, Prefix, n.name + "/") {
        assert forall n: Node :: OwnerPrefix(NodeOwner(n.name)) == n.name + "/";
      }
    } else if spec.podCidrs.retainOnDisable {
      NothingEffect(v);
    }
  }

  lemma {:induction false} AggregateAborts(spec: Spec, nodes: Fetched<seq<Node>>)
    ensures Abort in AggregatePlan(spec, nodes) <==>
            spec.podCidrs.enabled && (!nodes.Present? || !AllValid(nodes.value))
  {
    var ops := AggregatePlan(spec, nodes);
    if spec.podCidrs.enabled && nodes.Present? {
      var ns := nodes.value;
      GatheredValid(ns);
      SupernetsLeast(AllCidrs(ns));
      assert ops == ClearNodes(ns) + AggregateTail(spec, ns);
      assert Abort !in ClearNodes(ns);
      if Supernets(AllCidrs(ns)).Invalid? { assert ops[|ns|] == Abort; }
    }
  }

  lemma {:induction false} AggregateSucceeded(db: Tables, c: Conn, spec: Spec, nodes: Fetched<seq<Node>>,
                                              rs: seq<Reply>)
    requires Unique(db, c) && IsTurn(db, c, Turn(AggregateTask(spec, nodes), rs, true))
    ensures var db' := TurnEnd(db, c, Turn(AggregateTask(spec, nodes), rs, true));
            Unique(db', c) && AggregateOutcome(View(db, c), View(db', c), spec, nodes)
  {
    var t := Turn(AggregateTask(spec, nodes), rs, true);
    TurnEffect(db, c, t);
    NoAbortOnSuccess(db, Start(c, t.task.ops), rs);
    AggregateAborts(spec, nodes);
    AggregatePatched(spec, nodes, View(db, c));
  }

  /** A pod CIDR reconcile that succeeds, by representation. */
  ghost predicate PodCidrOutcome(v: ViewMap, w: ViewMap, spec: Spec, name: string, node: Fetched<Node>,
                                 nodes: Fetched<seq<Node>>) {
    if spec.podCidrs.aggregate then AggregateOutcome(v, w, spec, nodes) else PrefixOutcome(v, w, spec, name, node)
  }

  lemma {:induction false} PodCidrSucceeded(db: Tables, c: Conn, spec: Spec, name: string, node: Fetched<Node>,
                                            nodes: Fetched<seq<Node>>, rs: seq<Reply>)
    requires Unique(db, c) && (node.Present? ==> node.value.name == name)
    requires IsTurn(db, c, Turn(PodCidrTask(spec, name, node, nodes), rs, true))
    ensures var db' := TurnEnd(db, c, Turn(PodCidrTask(spec, name, node, nodes), rs, true));
            Unique(db', c) && PodCidrOutcome(View(db, c), View(db', c), spec, name, node, nodes)
  {
    if spec.podCidrs.aggregate {
      AggregateSucceeded(db, c, spec, nodes, rs);
    } else {
      PrefixSucceeded(db, c, spec, name, node, rs);
    }
  }

  lemma {:induction false} QueriesConcat(a: seq<Op>, b: seq<Op>)
    ensures Queries(a + b) == Queries(a) + Queries(b)
    decreases |a|
  {
    if a == [] {
      assert a + b == b;
    } else {
      assert (a + b)[1..] == a[1..] + b;
      QueriesConcat(a[1..], b);
    }
  }

  lemma {:induction false} TailQueries(four: Op, six: Op, q: Query)
    requires four.Remove? || (four.Ensure? && four.lookups == [q])
    requires six.Remove? || (six.Ensure? && six.lookups == [q])
    ensures forall p :: p in Queries([EnsureTag, four, six]) <==> p == q && (four.Ensure? || six.Ensure?)
  {
    assert [EnsureTag, four, six][1..] == [four, six] && [four, six][1..] == [six] && [six][1..] == [];
    assert Queries([six]) == if six.Ensure? then [q] else [];
    assert Queries([four, six]) == (if four.Ensure? then [q] else []) + Queries([six]);
  }

  lemma {:induction false} PlanQueries(spec: Spec, nodes: seq<Node>, s: map<Family, Block>)
    requires spec.podCidrs.enabled && Supernets(AllCidrs(nodes)) == Computed(s)
    ensures forall q :: q in Queries(AggregatePlan(spec, Present(nodes)))
                   <==> q == Lookup(Rirs, spec.podCidrs.rirName) && (IPv4 in s || IPv6 in s)
  {
    var rir := spec.podCidrs.rirName;
    NoQueries(ClearNodes(nodes));
    QueriesConcat(ClearNodes(nodes), AggregateTail(spec, nodes));
    TailQueries(AggregateOp(rir, s, IPv4), AggregateOp(rir, s, IPv6), Lookup(Rirs, rir));
  }

  lemma {:induction false} SomeFamily(nodes: seq<Node>, s: map<Family, Block>)
    requires AllValid(nodes) && forall f: Family :: f in s <==> Blocks(AllCidrs(nodes), f) != {}
    ensures AnyCidr(nodes) <==> IPv4 in s || IPv6 in s
  {
    NodeBlocksGathered(nodes, IPv4);
    NodeBlocksGathered(nodes, IPv6);
    if n, x :| n in nodes && x in n.podCidrs {
      assert x.parsed.block in NodeBlocks(nodes, x.parsed.block.family);
    }
    forall f: Family | f in s ensures AnyCidr(nodes) {
      var b :| b in Blocks(AllCidrs(nodes), f);
      NodeBlocksGathered(nodes, f);
      assert b in NodeBlocks(nodes, f);
    }
  }

  lemma {:induction false} AggregateQueries(spec: Spec, nodes: Fetched<seq<Node>>, known: set<Query>)
    requires Abort !in AggregatePlan(spec, nodes)
    ensures (forall q <- Queries(AggregatePlan(spec, nodes)) :: q in known)
       <==> (spec.podCidrs.enabled && AnyCidr(nodes.value) ==> Lookup(Rirs, spec.podCidrs.rirName) in known)
  {
    AggregateAborts(spec, nodes);
    if spec.podCidrs.enabled {
      var ns := nodes.value;
      var cidrs, rir := AllCidrs(ns), spec.podCidrs.rirName;
      GatheredValid(ns);
      SupernetsLeast(cidrs);
      var s := Supernets(cidrs).value;
      PlanQueries(spec, ns, s);
      SomeFamily(ns, s);
    } else {
      NoQueries(AggregatePlan(spec, nodes));
    }
  }

  /** An Aggregate-mode reconcile can succeed exactly if sync is off; or if the Nodes can be listed, every pod
      CIDR is valid and, when there is any, the RIR exists. */
  lemma {:induction false} AggregatePossibleIff(db: Tables, c: Conn, spec: Spec, nodes: Fetched<seq<Node>>,
                                                known: set<Query>)
    ensures CanSucceed(db, c, AggregatePlan(spec, nodes), known)
       <==> (spec.podCidrs.enabled ==>
               && nodes.Present? && AllValid(nodes.value)
               && (AnyCidr(nodes.value) ==> Lookup(Rirs, spec.podCidrs.rirName) in known))
  {
    CanSucceedIff(db, c, AggregatePlan(spec, nodes), known);
    AggregateAborts(spec, nodes);
    if Abort !in AggregatePlan(spec, nodes) { AggregateQueries(spec, nodes, known); }
  }

  // ---------------------------------------------------------------- Nodes and the Cluster

  function IfNamed(table: RefTable, name: string): seq<Query> {
    if name != "" then [Lookup(table, name)] else []
  }

  /** What the object of a Node refers to: a Device to its type, role and Site; a VirtualMachine to its
      cluster, by default the synced one, and to its platform if one is named. */
  function NodeRefs(spec: Spec): seq<Query> {
    if spec.nodes.mapping.DeviceMapping? then
      [Lookup(DeviceTypes, spec.nodes.deviceType), Lookup(DeviceRoles, spec.nodes.deviceRole),
          Lookup(Sites, spec.nodes.site)]
    else
      [Lookup(Clusters, if spec.nodes.vmCluster != "" then spec.nodes.vmCluster else spec.cluster.name)]
      + IfNamed(Platforms, spec.nodes.platform)
  }

  /** A reconcile of a live Node that succeeds takes view v to w. */
  ghost predicate NodeOutcome(v: ViewMap, w: ViewMap, spec: Spec, n: Node) {
    var device, machine := Key(Device, n.uid), Key(VirtualMachine, n.uid);
    if spec.nodes.enabled then
      match spec.nodes.mapping
      case DeviceMapping => w == v[device := Payload(n.name, [], NodeRefs(spec), None)]
      case VirtualMachineMapping => w == v[machine := Payload(n.name, [], NodeRefs(spec), None)]
      case OtherMapping(_) => false
    else if spec.nodes.retainOnDisable then w == v
    else if spec.nodes.mapping.VirtualMachineMapping? then w == v - {machine}
    else w == v - {device}
  }

  lemma {:induction false} OneKeyPatched(k: Key, p: Payload, v: ViewMap)
    ensures Patched(Patch(iset{k}, map[k := p]), v) == v[k := p]
    ensures Patched(Patch(iset{k}, map[]), v) == v - {k}
  {
  }

  lemma {:induction false} NodePatched(spec: Spec, n: Node, v: ViewMap)
    requires spec.nodes.enabled ==> !spec.nodes.mapping.OtherMapping?
    ensures NodeOutcome(v, Patched(NodePatch(spec, Present(n)), v), spec, n)
  {
    OneKeyPatched(Key(MappedKind(spec), n.uid), Payload(n.name, [], NodeRefs(spec), None), v);
    if !spec.nodes.enabled && spec.nodes.retainOnDisable { NothingEffect(v); }
    assert spec.nodes.mapping.VirtualMachineMapping? ==>
             Optional(Platforms, spec.nodes.platform) == IfNamed(Platforms, spec.nodes.platform);
  }

  lemma {:induction false} NodeAborts(spec: Spec, name: string, node: Fetched<Node>)
    ensures Abort in NodePlan(spec, name, node)
       <==> node.Unreadable? || (node.Present? && spec.nodes.enabled && spec.nodes.mapping.OtherMapping?)
    ensures Abort !in NodePlan(spec, name, node) ==>
              Queries(NodePlan(spec, name, node)) == if node.Present? && spec.nodes.enabled then NodeRefs(spec) else []
  {
    var ops := NodePlan(spec, name, node);
    if node.Present? && spec.nodes.enabled {
      var op := NodeEnsure(spec, node.value);
      assert ops[1] == op && ops[1..] == [op] && [op][1..] == [];
      assert Queries([op]) == if op.Ensure? then op.lookups + [] else [];
    } else {
      NoQueries(ops);
    }
  }

  lemma {:induction false} NodeSucceeded(db: Tables, c: Conn, spec: Spec, name: string, n: Node, rs: seq<Reply>)
    requires Unique(db, c) && IsTurn(db, c, Turn(NodeTask(spec, name, Present(n)), rs, true))
    ensures var db' := TurnEnd(db, c, Turn(NodeTask(spec, name, Present(n)), rs, true));
            Unique(db', c) && NodeOutcome(View(db, c), View(db', c), spec, n)
  {
    var t := Turn(NodeTask(spec, name, Present(n)), rs, true);
    TurnEffect(db, c, t);
    NoAbortOnSuccess(db, Start(c, t.task.ops), rs);
    NodeAborts(spec, name, Present(n));
    NodePatched(spec, n, View(db, c));
  }

  /** The names looked up by a Node reconcile that succeeds. */
  lemma {:induction false} NodeSyncConsults(db: Tables, c: Conn, spec: Spec, name: string, n: Node, rs: seq<Reply>)
    requires spec.nodes.enabled && IsTurn(db, c, Turn(NodeTask(spec, name, Present(n)), rs, true))
    ensures Consults(db, Start(c, NodePlan(spec, name, Present(n))), rs) == NodeRefs(spec)
  {
    NoAbortOnSuccess(db, Start(c, NodePlan(spec, name, Present(n))), rs);
    NodeAborts(spec, name, Present(n));
    ConsultsAll(db, Start(c, NodePlan(spec, name, Present(n))), rs);
  }

  /** "If a referenced object is missing, Herald does not sync": a Node reconcile can succeed exactly if the
      Node can be read and, when it is there and sync is on, its mapping is one of the two and all that its
      object refers to exists. */
  lemma {:induction false} NodePossibleIff(db: Tables, c: Conn, spec: Spec, name: string, node: Fetched<Node>,
                                           known: set<Query>)
    ensures CanSucceed(db, c, NodePlan(spec, name, node), known)
       <==> && !node.Unreadable?
            && (node.Present? && spec.nodes.enabled ==>
                  !spec.nodes.mapping.OtherMapping? && forall q <- NodeRefs(spec) :: q in known)
  {
    CanSucceedIff(db, c, NodePlan(spec, name, node), known);
    NodeAborts(spec, name, node);
  }

  function ClusterRefs(spec: Spec): seq<Query> {
    [Lookup(ClusterTypes, spec.cluster.clusterType)] + IfNamed(ClusterGroups, spec.cluster.group)
    + IfNamed(Sites, spec.cluster.site)
  }

  lemma {:induction false} ClusterEffect(spec: Spec, uid: string, v: ViewMap)
    ensures NameFree(ClusterPlan(spec, uid))
    ensures Effect(ClusterPlan(spec, uid), v) == if spec.cluster.enabled
                                                 then v[Key(Cluster, uid) := Payload(spec.cluster.name, [],
                                                     ClusterRefs(spec), None)]
                                                 else v - {Key(Cluster, uid)}
  {
    var ops := ClusterPlan(spec, uid);
    if spec.cluster.enabled {
      assert ops == [EnsureTag, ops[1]];
      Effect2(EnsureTag, ops[1], v);
    } else {
      EffectOne(ops[0], v);
    }
  }

  /** A Cluster reconcile that succeeds keeps the one object of its UID, or removes it when sync is off. */
  lemma {:induction false} ClusterSucceeded(db: Tables, c: Conn, spec: Spec, uid: string, rs: seq<Reply>)
    requires Unique(db, c) && IsRun(db, Start(c, ClusterPlan(spec, uid)), rs)
    requires Succeeded(After(db, Start(c, ClusterPlan(spec, uid)), rs).th)
    ensures var v, db' := View(db, c), After(db, Start(c, ClusterPlan(spec, uid)), rs).db;
            && Unique(db', c)
            && View(db', c) == if spec.cluster.enabled
                               then v[Key(Cluster, uid) := Payload(spec.cluster.name, [], ClusterRefs(spec), None)]
                               else v - {Key(Cluster, uid)}
  {
    SuccessEffect(db, c, ClusterPlan(spec, uid), rs);
    ClusterEffect(spec, uid, View(db, c));
  }

  lemma {:induction false} ClusterPossibleIff(db: Tables, c: Conn, spec: Spec, uid: string, known: set<Query>)
    ensures CanSucceed(db, c, ClusterPlan(spec, uid), known)
       <==> (spec.cluster.enabled ==> forall q <- ClusterRefs(spec) :: q in known)
  {
    var ops := ClusterPlan(spec, uid);
    CanSucceedIff(db, c, ops, known);
    if spec.cluster.enabled {
      assert ops[1..] == [ops[1]] && [ops[1]][1..] == [];
      assert Queries([ops[1]]) == ops[1].lookups + [];
    } else {
      NoQueries(ops);
    }
  }
}
