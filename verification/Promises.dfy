/** What the documentation promises without a condition, and the exact condition under which the
    controllers keep the promise: for each, an if-and-only-if over all states, and a state that fails. */
module Promises {
  import opened Cidrs
  import opened ExternalIds
  import opened NetBox
  import opened Views
  import opened Plans
  import opened Convergence
  import opened Scenarios
  import opened Progress

  // ---------------------------------------------------------------- views

  /** No object of this owner is in the view. */
  ghost predicate OwnsNone(v: ViewMap, kind: Kind, o: Owner) {
    !OwnsSome(v, kind, o)
  }

  ghost predicate NoAggregates(v: ViewMap) {
    forall k <- v :: k !in AggregateScope()
  }

  /** No managed object of this kind is in the view. */
  predicate NoneOf(v: ViewMap, kind: Kind) {
    forall k <- v :: k.kind != kind
  }

  lemma {:induction false} OwnsSameAt(v: ViewMap, w: ViewMap, kind: Kind, o: Owner)
    requires forall k :: k in OwnerScope(kind, o) ==> SameAt(w, v, k)
    ensures OwnsSome(v, kind, o) <==> OwnsSome(w, kind, o)
  {
    if k :| k in v && k in OwnerScope(kind, o) { assert SameAt(w, v, k); }
    if k :| k in w && k in OwnerScope(kind, o) { assert SameAt(w, v, k); }
  }

  lemma {:induction false} ClearingChanges(scope: iset<Key>, v: ViewMap)
    ensures Patched(Patch(scope, map[]), v) == v <==> forall k <- v :: k !in scope
  {
    if k :| k in v && k in scope { assert k !in Patched(Patch(scope, map[]), v); }
  }

  // ---------------------------------------------------------------- a disabled sync makes no calls

  /** Whatever the tables and NetBox's answers, the reconcile makes no call. */
  ghost predicate Silent(ops: seq<Op>) {
    forall db, c, rs :: IsRun(db, Start(c, ops), rs) ==> rs == []
  }

  lemma {:induction false} SilentIff(ops: seq<Op>)
    ensures Silent(ops) <==> ops == [] || ops[0].Abort?
  {
    if ops != [] && !ops[0].Abort? {
      var db: Tables, c, rs := map[], Conn(0, ""), [Lost(false, 0)];
      assert rs[1..] == [];
      assert IsRun(db, Start(c, ops), rs);
    }
  }

  /** A plan with the status update that ends a reconcile; counted says whether that update finds the
      HeraldConfig and a client, and so makes its count call. */
  function Reported(ops: seq<Op>, counted: bool): seq<Op> {
    ops + if counted then [Check(Count)] else []
  }

  /** "Returns without making any NetBox API calls": a disabled Service reconcile does exactly when the
      Service cannot be read, or is there, its objects are retained, and the status update counts nothing. */
  lemma {:induction false} ServiceSilentIff(spec: Spec, o: Owner, svc: Fetched<Service>, counted: bool)
    requires o.ServiceOwner? && !spec.services.enabled
    ensures Silent(Reported(ServicePlan(spec, o, svc), counted))
       <==> svc.Unreadable? || (svc.Present? && spec.services.retainOnDisable && !counted)
  {
    SilentIff(Reported(ServicePlan(spec, o, svc), counted));
  }

  lemma {:induction false} NodeSilentIff(spec: Spec, name: string, node: Fetched<Node>, counted: bool)
    requires !spec.nodes.enabled
    ensures Silent(Reported(NodePlan(spec, name, node), counted))
       <==> node.Unreadable? || (node.Present? && spec.nodes.retainOnDisable && !counted)
  {
    SilentIff(Reported(NodePlan(spec, name, node), counted));
  }

  /** A disabled pod CIDR reconcile is silent exactly in Aggregate mode with retention and without the count:
      Prefix mode looks for Aggregates before anything else. */
  lemma {:induction false} PodCidrSilentIff(spec: Spec, name: string, node: Fetched<Node>, nodes: Fetched<seq<Node>>,
                                            counted: bool)
    requires !spec.podCidrs.enabled
    ensures Silent(Reported(PodCidrPlan(spec, name, node, nodes), counted))
       <==> spec.podCidrs.aggregate && spec.podCidrs.retainOnDisable && !counted
  {
    SilentIff(Reported(PodCidrPlan(spec, name, node, nodes), counted));
    assert PrefixPlan(spec, name, node)[0] == DropAggregate(IPv4);
  }

  /** A disabled Cluster reconcile always looks for the Cluster. */
  lemma {:induction false} ClusterNeverSilent(spec: Spec, uid: string)
    requires !spec.cluster.enabled
    ensures !Silent(ClusterPlan(spec, uid))
  {
    SilentIff(ClusterPlan(spec, uid));
  }

  // ---------------------------------------------------------------- references that must exist

  /** "siteName: optional": a Device sync that succeeds has always looked the Site up, even under the
      empty name. */
  lemma {:induction false} DeviceSyncConsults(db: Tables, c: Conn, spec: Spec, n: Node, rs: seq<Reply>)
    requires spec.nodes.enabled && spec.nodes.mapping.DeviceMapping?
    requires IsTurn(db, c, Turn(NodeTask(spec, n.name, Present(n)), rs, true))
    ensures Consults(db, Start(c, NodePlan(spec, n.name, Present(n))), rs)
         == [Lookup(DeviceTypes, spec.nodes.deviceType), Lookup(DeviceRoles, spec.nodes.deviceRole),
             Lookup(Sites, spec.nodes.site)]
  {
    var op := NodeEnsure(spec, n);
    assert Queries([op]) == op.lookups + [];
    assert NodePlan(spec, n.name, Present(n))[1..] == [op];
    ConsultsAll(db, Start(c, NodePlan(spec, n.name, Present(n))), rs);
  }

  // ---------------------------------------------------------------- pausing leaves objects untouched

  lemma {:induction false} UnreadAborts(spec: Spec, name: string, node: Fetched<Node>)
    ensures node.Unreadable? ==> Abort in PrefixPlan(spec, name, node)
  {
    if node.Unreadable? {
      var ops := PrefixPlan(spec, name, node);
      assert ops[2] == Abort;
    }
  }

  lemma {:induction false} PausedPrefixScope(spec: Spec, name: string, node: Fetched<Node>)
    requires !spec.podCidrs.enabled && spec.podCidrs.retainOnDisable && Abort !in PrefixPlan(spec, name, node)
    ensures PrefixPatch(spec, name, node)
         == Patch(AggregateScope() + (if node.Present? then iset{} else OwnerScope(Prefix, NodeOwner(name))), map[])
  {
    UnreadAborts(spec, name, node);
  }

  /** "Leaves whatever it already created untouched": a paused pod CIDR reconcile that succeeds changes
      nothing exactly in Aggregate mode; or, in Prefix mode, when there is no Aggregate and the Node is
      there or has no Prefix. */
  lemma {:induction false} RetainUntouchedIff(db: Tables, c: Conn, spec: Spec, name: string, node: Fetched<Node>,
                                              nodes: Fetched<seq<Node>>, rs: seq<Reply>)
    requires Unique(db, c) && !spec.podCidrs.enabled && spec.podCidrs.retainOnDisable
    requires node.Present? ==> node.value.name == name
    requires IsTurn(db, c, Turn(PodCidrTask(spec, name, node, nodes), rs, true))
    ensures var db', v := TurnEnd(db, c, Turn(PodCidrTask(spec, name, node, nodes), rs, true)), View(db, c);
            && Unique(db', c)
            && (View(db', c) == v <==>
                  || spec.podCidrs.aggregate
                  || (NoAggregates(v) && (node.Present? || OwnsNone(v, Prefix, NodeOwner(name)))))
  {
    var t := Turn(PodCidrTask(spec, name, node, nodes), rs, true);
    TurnEffect(db, c, t);
    NoAbortOnSuccess(db, Start(c, t.task.ops), rs);
    if spec.podCidrs.aggregate {
      NothingEffect(View(db, c));
    } else {
      PausedPrefixScope(spec, name, node);
      ClearingChanges(t.task.patch.scope, View(db, c));
    }
  }

  /** The same for Services: exactly when the Service is there, or has no address. */
  lemma {:induction false} ServiceRetainIff(db: Tables, c: Conn, spec: Spec, o: Owner, svc: Fetched<Service>,
                                            rs: seq<Reply>)
    requires Unique(db, c) && !spec.services.enabled && spec.services.retainOnDisable && o.ServiceOwner?
    requires IsTurn(db, c, Turn(ServiceTask(spec, o, svc), rs, true))
    ensures var db' := TurnEnd(db, c, Turn(ServiceTask(spec, o, svc), rs, true));
            && Unique(db', c)
            && (View(db', c) == View(db, c) <==> svc.Present? || OwnsNone(View(db, c), IPAddress, o))
  {
    var t := Turn(ServiceTask(spec, o, svc), rs, true);
    TurnEffect(db, c, t);
    NoAbortOnSuccess(db, Start(c, t.task.ops), rs);
    if svc.Present? {
      NothingEffect(View(db, c));
    } else {
      ClearingChanges(OwnerScope(IPAddress, o), View(db, c));
    }
  }

  lemma {:induction false} NothingAtStake(v: ViewMap, w: ViewMap, p: Patch)
    requires Between(v, w, p) && p.content == map[] && forall k <- v :: k !in p.scope
    ensures w == v
  {
    forall k ensures SameAt(w, v, k) {
      assert SameAt(w, v, k) || (k in p.scope && SameAt(w, p.content, k));
    }
    SameEverywhere(w, v);
  }

  /** Under the same conditions nothing changes in any state of any run, cut or failed. */
  lemma {:induction false} RetainUntouchedThroughout(db: Tables, c: Conn, spec: Spec, name: string, node: Fetched<Node>,
                                                     nodes: Fetched<seq<Node>>, rs: seq<Reply>)
    requires Unique(db, c) && !spec.podCidrs.enabled && spec.podCidrs.retainOnDisable
    requires node.Present? ==> node.value.name == name
    requires IsRun(db, Start(c, PodCidrPlan(spec, name, node, nodes)), rs)
    requires var v := View(db, c);
             || spec.podCidrs.aggregate
             || (NoAggregates(v) && (!node.Missing? || OwnsNone(v, Prefix, NodeOwner(name))))
    ensures var db' := After(db, Start(c, PodCidrPlan(spec, name, node, nodes)), rs).db;
            Unique(db', c) && View(db', c) == View(db, c)
  {
    var t := Turn(PodCidrTask(spec, name, node, nodes), rs, false);
    TurnEffect(db, c, t);
    NothingAtStake(View(db, c), View(TurnEnd(db, c, t), c), t.task.patch);
  }

  lemma {:induction false} ServiceRetainThroughout(db: Tables, c: Conn, spec: Spec, o: Owner, svc: Fetched<Service>,
                                                   rs: seq<Reply>)
    requires Unique(db, c) && !spec.services.enabled && spec.services.retainOnDisable && o.ServiceOwner?
    requires IsRun(db, Start(c, ServicePlan(spec, o, svc)), rs)
    requires !svc.Missing? || OwnsNone(View(db, c), IPAddress, o)
    ensures var db' := After(db, Start(c, ServicePlan(spec, o, svc)), rs).db;
            Unique(db', c) && View(db', c) == View(db, c)
  {
    var t := Turn(ServiceTask(spec, o, svc), rs, false);
    TurnEffect(db, c, t);
    NothingAtStake(View(db, c), View(TurnEnd(db, c, t), c), t.task.patch);
  }

  // ---------------------------------------------------------------- disabling deletes everything of the type

  /** "Disabling deletes every NetBox object Herald manages for that type": after the disabled reconciles
      of these Services have succeeded no address is left exactly when each belonged to one of them. */
  lemma {:induction false} ServicesDisableIff(db: Tables, c: Conn, spec: Spec, svcs: ServiceSnapshot, h: seq<Turn>)
    requires Unique(db, c) && !spec.services.enabled && !spec.services.retainOnDisable
    requires GoodServices(svcs) && IsHistory(db, c, h) && ServicesDone(h, spec, svcs)
    ensures var end := EndOf(db, c, h);
            && Unique(end, c)
            && (NoneOf(View(end, c), IPAddress) <==>
                  forall k <- View(db, c) :: k.kind == IPAddress ==>
                      exists o :: o in svcs && k in OwnerScope(IPAddress, o))
  {
    HistoryUnique(db, c, h);
    forall k: Key | k.kind == IPAddress
      ensures k in View(EndOf(db, c, h), c) <==>
              k in View(db, c) && !exists o :: o in svcs && k in OwnerScope(IPAddress, o)
    {
      if o :| o in svcs && k in OwnerScope(IPAddress, o) {
        ServicesSettle(db, c, spec, svcs, h, o, k);
      } else {
        forall t | t in h ensures k !in t.task.patch.scope {
          var o := ServiceFleetTask(spec, svcs, t.task);
        }
        Untouched(db, c, h, k);
      }
    }
  }

  /** Every Node of the snapshot has had a reconcile succeed in the current mode; in Aggregate mode one
      reconcile is for all. */
  ghost predicate PodCidrsDone(h: seq<Turn>, spec: Spec, nodes: NodeSnapshot, live: seq<Node>)
    requires GoodNodes(nodes)
  {
    && FromFleet(h, PodFleet(spec, nodes, live))
    && if spec.podCidrs.aggregate then DoneIn(h, AggregateTask(spec, Present(live)))
       else forall n <- nodes :: DoneIn(h, PrefixTask(spec, n, nodes[n]))
  }

  /** A key that a disabled sync of pod CIDRs removes. */
  ghost predicate Disabled(spec: Spec, nodes: NodeSnapshot, k: Key) {
    || (k in AggregateScope() && (spec.podCidrs.aggregate || nodes != map[]))
    || (!spec.podCidrs.aggregate && exists n :: n in nodes && k in OwnerScope(Prefix, NodeOwner(n)))
  }

  lemma {:induction false} DisablingTask(spec: Spec, nodes: NodeSnapshot, live: seq<Node>, h: seq<Turn>, k: Key)
    returns (u: Task)
    requires !spec.podCidrs.enabled && !spec.podCidrs.retainOnDisable
    requires GoodNodes(nodes) && PodCidrsDone(h, spec, nodes, live) && Disabled(spec, nodes, k)
    ensures u in PodFleet(spec, nodes, live) && DoneIn(h, u) && k in u.patch.scope && u.patch.content == map[]
  {
    if spec.podCidrs.aggregate {
      u := AggregateTask(spec, Present(live));
    } else {
      var n :| n in nodes && (k in AggregateScope() || k in OwnerScope(Prefix, NodeOwner(n)));
      u := PrefixTask(spec, n, nodes[n]);
    }
  }

  lemma {:induction false} DisabledExactly(db: Tables, c: Conn, spec: Spec, nodes: NodeSnapshot, live: seq<Node>,
                                           h: seq<Turn>, k: Key)
    requires Unique(db, c) && !spec.podCidrs.enabled && !spec.podCidrs.retainOnDisable
    requires GoodNodes(nodes) && IsHistory(db, c, h) && PodCidrsDone(h, spec, nodes, live)
    ensures Unique(EndOf(db, c, h), c)
    ensures k in View(EndOf(db, c, h), c) <==> k in View(db, c) && !Disabled(spec, nodes, k)
  {
    if Disabled(spec, nodes, k) {
      PodFleetAgrees(spec, nodes, live);
      var u := DisablingTask(spec, nodes, live, h, k);
      FleetSettles(db, c, h, PodFleet(spec, nodes, live), u, k);
    } else {
      forall t | t in h ensures k !in t.task.patch.scope {
        if !spec.podCidrs.aggregate {
          var n, node := PrefixFleetTask(spec, nodes, t.task);
        }
      }
      Untouched(db, c, h, k);
    }
  }

  lemma {:induction false} DisabledKinds(spec: Spec, nodes: NodeSnapshot, v: ViewMap, w: ViewMap)
    requires forall k :: k in w <==> k in v && !Disabled(spec, nodes, k)
    ensures NoneOf(w, Prefix) <==>
              forall k <- v :: k.kind == Prefix ==>
                !spec.podCidrs.aggregate && exists n :: n in nodes && k in OwnerScope(Prefix, NodeOwner(n))
    ensures NoneOf(w, Aggregate) <==>
              forall k <- v :: k.kind == Aggregate ==>
                  k in AggregateScope() && (spec.podCidrs.aggregate || nodes != map[])
    ensures forall n <- nodes ::
              OwnsNone(w, Prefix, NodeOwner(n)) <==> !spec.podCidrs.aggregate || OwnsNone(v, Prefix, NodeOwner(n))
  {
    assert forall k <- v :: k in w || Disabled(spec, nodes, k);
    forall n | n in nodes
      ensures OwnsNone(w, Prefix, NodeOwner(n)) <==> !spec.podCidrs.aggregate || OwnsNone(v, Prefix, NodeOwner(n))
    {
      if k :| k in v && k in OwnerScope(Prefix, NodeOwner(n)) && spec.podCidrs.aggregate { assert k in w; }
    }
  }

  /** After the disabled reconciles have succeeded no Prefix is left exactly when the mode is Prefix and
      each belonged to one of the Nodes, or there was none; no Aggregate exactly when all were Herald's two
      and there was a reconcile at all; and a Node has no Prefix exactly in Prefix mode or if it had none. */
  lemma {:induction false} DisableDeletesIff(db: Tables, c: Conn, spec: Spec, nodes: NodeSnapshot, live: seq<Node>,
                                             h: seq<Turn>)
    requires Unique(db, c) && !spec.podCidrs.enabled && !spec.podCidrs.retainOnDisable
    requires GoodNodes(nodes) && IsHistory(db, c, h) && PodCidrsDone(h, spec, nodes, live)
    ensures var end := EndOf(db, c, h);
            && Unique(end, c)
            && (NoneOf(View(end, c), Prefix) <==>
                  forall k <- View(db, c) :: k.kind == Prefix ==>
                    !spec.podCidrs.aggregate && exists n :: n in nodes && k in OwnerScope(Prefix, NodeOwner(n)))
            && (NoneOf(View(end, c), Aggregate) <==>
                  forall k <- View(db, c) :: k.kind == Aggregate ==>
                    k in AggregateScope() && (spec.podCidrs.aggregate || nodes != map[]))
            && (forall n <- nodes ::
                  OwnsNone(View(end, c), Prefix, NodeOwner(n)) <==>
                    !spec.podCidrs.aggregate || OwnsNone(View(db, c), Prefix, NodeOwner(n)))
  {
    HistoryUnique(db, c, h);
    var v, w := View(db, c), View(EndOf(db, c, h), c);
    forall k ensures k in w <==> k in v && !Disabled(spec, nodes, k) {
      DisabledExactly(db, c, spec, nodes, live, h, k);
    }
    DisabledKinds(spec, nodes, v, w);
  }

  // ---------------------------------------------------------------- switching to Aggregate

  predicate IsLive(live: seq<Node>, name: string) {
    exists n :: n in live && n.name == name
  }

  /** "Switching to Aggregate removes any existing per-node Prefixes": those of a name are gone
      exactly when a live Node bears it, or it had none; Prefixes of a Node that went away before
      its clean-up succeeded stay. */
  lemma {:induction false} SwitchClearsIff(db: Tables, c: Conn, spec: Spec, live: seq<Node>, rs: seq<Reply>,
                                           name: string)
    requires Unique(db, c) && spec.podCidrs.enabled && SlashFree(name) && forall n <- live :: SlashFree(n.name)
    requires IsTurn(db, c, Turn(AggregateTask(spec, Present(live)), rs, true))
    ensures var db', o := TurnEnd(db, c, Turn(AggregateTask(spec, Present(live)), rs, true)), NodeOwner(name);
            && Unique(db', c)
            && (OwnsNone(View(db', c), Prefix, o) <==> IsLive(live, name) || OwnsNone(View(db, c), Prefix, o))
  {
    AggregatesExact(db, c, spec, live, rs);
    var db', o := TurnEnd(db, c, Turn(AggregateTask(spec, Present(live)), rs, true)), NodeOwner(name);
    if !IsLive(live, name) {
      forall k | k in OwnerScope(Prefix, o) ensures SameAt(View(db', c), View(db, c), k) {
        forall n | n in live ensures k !in OwnerScope(Prefix, NodeOwner(n.name)) {
          ScopesApart(Prefix, o, NodeOwner(n.name));
        }
        assert k !in NodesScope(live);
      }
      OwnsSameAt(View(db, c), View(db', c), Prefix, o);
    } else {
      var n :| n in live && n.name == name;
    }
  }

  // ---------------------------------------------------------------- disabling Node sync

  function OtherKind(spec: Spec): Kind {
    if spec.nodes.mapping.VirtualMachineMapping? then Device else VirtualMachine
  }

  /** A successful sync of a live Node writes exactly one object; one that it has in the table of
      the other mapping stays as it is. */
  lemma {:induction false} NodeSyncExact(db: Tables, c: Conn, spec: Spec, n: Node, rs: seq<Reply>)
    requires Unique(db, c) && spec.nodes.enabled && IsTurn(db, c, Turn(NodeTask(spec, n.name, Present(n)), rs, true))
    ensures var db' := TurnEnd(db, c, Turn(NodeTask(spec, n.name, Present(n)), rs, true));
            && Unique(db', c) && !spec.nodes.mapping.OtherMapping?
            && Key(MappedKind(spec), n.uid) in View(db', c) && View(db', c)[Key(MappedKind(spec), n.uid)].name == n.name
            && (forall k :: k != Key(MappedKind(spec), n.uid) ==> SameAt(View(db', c), View(db, c), k))
  {
    var t := Turn(NodeTask(spec, n.name, Present(n)), rs, true);
    TurnEffect(db, c, t);
    NoAbortOnSuccess(db, Start(c, t.task.ops), rs);
    assert NodePlan(spec, n.name, Present(n))[1] == NodeEnsure(spec, n);
  }

  /** "Disabling deletes every NetBox object of the type": both objects under a live Node's UID are
      gone exactly when there was none in the table that the current mapping does not use. */
  lemma {:induction false} NodeDisableDeletesIff(db: Tables, c: Conn, spec: Spec, n: Node, rs: seq<Reply>)
    requires Unique(db, c) && !spec.nodes.enabled && !spec.nodes.retainOnDisable
    requires IsTurn(db, c, Turn(NodeTask(spec, n.name, Present(n)), rs, true))
    ensures var db' := TurnEnd(db, c, Turn(NodeTask(spec, n.name, Present(n)), rs, true));
            && Unique(db', c) && Key(MappedKind(spec), n.uid) !in View(db', c)
            && (Key(OtherKind(spec), n.uid) !in View(db', c) <==> Key(OtherKind(spec), n.uid) !in View(db, c))
  {
    TurnEffect(db, c, Turn(NodeTask(spec, n.name, Present(n)), rs, true));
  }

  /** After the disabled reconciles of these live Nodes have succeeded no Device and no VirtualMachine is
      left exactly when each was in the table of the current mapping under the UID of one of them. */
  lemma {:induction false} NodesDisableIff(db: Tables, c: Conn, spec: Spec, nodes: iset<Node>, h: seq<Turn>)
    requires Unique(db, c) && !spec.nodes.enabled && !spec.nodes.retainOnDisable && DistinctUids(nodes)
    requires IsHistory(db, c, h) && NodesDone(h, spec, nodes)
    ensures var end := EndOf(db, c, h);
            && Unique(end, c)
            && (NoneOf(View(end, c), Device) && NoneOf(View(end, c), VirtualMachine) <==>
                  forall k <- View(db, c) :: k.kind == Device || k.kind == VirtualMachine ==>
                    k.kind == MappedKind(spec) && exists n :: n in nodes && n.uid == k.ext)
  {
    HistoryUnique(db, c, h);
    forall k: Key
      ensures k in View(EndOf(db, c, h), c) <==>
              k in View(db, c) && !(k.kind == MappedKind(spec) && exists n :: n in nodes && n.uid == k.ext)
    {
      if n :| n in nodes && k == Key(MappedKind(spec), n.uid) {
        NodesAgree(spec, nodes);
        var u := NodeTask(spec, n.name, Present(n));
        FleetSettles(db, c, h, NodeFleet(spec, nodes), u, k);
      } else {
        Untouched(db, c, h, k);
      }
    }
  }

  // ---------------------------------------------------------------- deletion by name

  predicate Bears(db: Tables, c: Conn, op: Op, r: Ref)
    requires RemovesByName(op)
  {
    Tagged(db, c, r) && r.kind == op.kind && db[r].payload.name == op.sel.name
  }

  ghost predicate NoBearer(db: Tables, c: Conn, op: Op)
    requires RemovesByName(op)
  {
    forall r :: !Bears(db, c, op, r)
  }

  ghost predicate AtMostOneBearer(db: Tables, c: Conn, op: Op)
    requires RemovesByName(op)
  {
    forall r, s :: Bears(db, c, op, r) && Bears(db, c, op, s) ==> r == s
  }

  /** Removals by name, one for each of several tables. */
  predicate ByNameOnly(ops: seq<Op>) {
    && (forall i :: 0 <= i < |ops| ==> RemovesByName(ops[i]))
    && (forall i, j :: 0 <= i < j < |ops| ==> ops[i].Remove? && ops[j].Remove? && ops[i].kind != ops[j].kind)
  }

  ghost predicate SameBearers(db: Tables, db': Tables, c: Conn, op: Op)
    requires RemovesByName(op)
  {
    forall r :: Bears(db', c, op, r) <==> Bears(db, c, op, r)
  }

  /** A thread about to delete has one victim, which bears the name. */
  ghost predicate KnowsBearer(db: Tables, th: Thread) {
    th.Running? && th.ops != [] && RemovesByName(th.ops[0]) && th.phase.Doomed? ==>
      |th.phase.ids| == 1 && Bears(db, th.conn, th.ops[0], Ref(th.conn.site, th.ops[0].kind, th.phase.ids[0]))
  }

  lemma {:induction false} ByNameStep(db: Tables, th: Thread, reply: Reply)
    requires Active(th) && ByNameOnly(th.ops) && KnowsBearer(db, th)
    requires Admissible(db, th.conn, NextCall(th), reply) && !reply.Lost?
    ensures ByNameOnly(Advance(th, reply).ops) && KnowsBearer(StepDb(db, th, reply), Advance(th, reply))
    ensures forall i :: 0 < i < |th.ops| ==> SameBearers(db, StepDb(db, th, reply), th.conn, th.ops[i])
    ensures if Advance(th, reply).ops == th.ops then StepDb(db, th, reply) == db
            else Advance(th, reply).ops == th.ops[1..]
                 && (NoBearer(StepDb(db, th, reply), th.conn, th.ops[0]) <==> AtMostOneBearer(db, th.conn, th.ops[0]))
  {
    var c, op := th.conn, th.ops[0];
    assert RemovesByName(op);
    if reply.Listing? {
      VictimsExact(db, c, op.kind, op.sel, reply.items);
    } else {
      assert th.phase.Doomed?;
      var gone := Ref(c.site, op.kind, th.phase.ids[0]);
      var db' := StepDb(db, th, reply);
      assert forall r :: Bears(db', c, op, r) <==> Bears(db, c, op, r) && r != gone;
    }
  }

  /** A step leaves the bearers of tables alone from which the thread does not remove. */
  lemma {:induction false} ByNameFrame(db: Tables, th: Thread, reply: Reply, op: Op)
    requires Active(th) && ByNameOnly(th.ops) && RemovesByName(op) && RemovesByName(th.ops[0])
             && op.kind != th.ops[0].kind
    requires Admissible(db, th.conn, NextCall(th), reply)
    ensures SameBearers(db, StepDb(db, th, reply), th.conn, op)
  {
  }

  lemma {:induction false} ByNameElsewhere(db: Tables, th: Thread, rs: seq<Reply>, op: Op)
    requires IsRun(db, th, rs) && th.Running? && ByNameOnly(th.ops) && RemovesByName(op)
    requires forall x <- th.ops :: RemovesByName(x) && x.kind != op.kind
    ensures SameBearers(db, After(db, th, rs).db, th.conn, op)
    decreases |rs|
  {
    if rs == [] {
    } else {
      var db', th' := StepDb(db, th, rs[0]), Advance(th, rs[0]);
      assert th.ops[0] in th.ops;
      ByNameFrame(db, th, rs[0], op);
      if th'.Running? {
        assert forall x <- th'.ops :: x in th.ops;
        ByNameElsewhere(db', th', rs[1..], op);
      }
    }
  }

  lemma {:induction false} SameBearersCount(db: Tables, db': Tables, c: Conn, op: Op, ops: seq<Op>)
    requires ByNameOnly(ops) && ops != [] && op in ops[1..]
    requires forall i :: 0 < i < |ops| ==> SameBearers(db, db', c, ops[i])
    ensures RemovesByName(op) && (AtMostOneBearer(db, c, op) <==> AtMostOneBearer(db', c, op))
  {
    var i :| 0 < i < |ops| && ops[i] == op;
    assert SameBearers(db, db', c, op);
  }

  lemma {:induction false} ByNameRun(db: Tables, th: Thread, rs: seq<Reply>, op: Op)
    requires IsRun(db, th, rs) && th.Running? && ByNameOnly(th.ops) && KnowsBearer(db, th)
    requires Succeeded(After(db, th, rs).th) && op in th.ops
    ensures RemovesByName(op) && (NoBearer(After(db, th, rs).db, th.conn, op) <==> AtMostOneBearer(db, th.conn, op))
    decreases |rs|
  {
    var db', th' := StepDb(db, th, rs[0]), Advance(th, rs[0]);
    if th'.Stopped? {
      StoppedStays(db', rs[1..]);
    } else {
      ByNameStep(db, th, rs[0]);
      if th'.ops == th.ops || op in th'.ops {
        ByNameRun(db', th', rs[1..], op);
        if th'.ops != th.ops { SameBearersCount(db, db', th.conn, op, th.ops); }
      } else {
        assert op == th.ops[0];
        assert forall x <- th'.ops :: exists i :: 0 < i < |th.ops| && th.ops[i] == x;
        ByNameElsewhere(db', th', rs[1..], op);
      }
    }
  }

  /** "Removes the object for a Node that no longer exists": a successful delete reconcile leaves no
      object of that name in either table exactly where at most one bore it. */
  lemma {:induction false} NodeDeleteIff(db: Tables, c: Conn, spec: Spec, name: string, rs: seq<Reply>, op: Op)
    requires IsRun(db, Start(c, NodePlan(spec, name, Missing)), rs)
    requires Succeeded(After(db, Start(c, NodePlan(spec, name, Missing)), rs).th)
    requires op == Remove(Device, ByName(name)) || op == Remove(VirtualMachine, ByName(name))
    ensures NoBearer(After(db, Start(c, NodePlan(spec, name, Missing)), rs).db, c, op) <==> AtMostOneBearer(db, c, op)
  {
    var ops := NodePlan(spec, name, Missing);
    assert op == ops[0] || op == ops[1];
    ByNameRun(db, Start(c, ops), rs, op);
  }

  /** A listing in which the first removal finds nothing leaves the other removals to do. */
  lemma {:induction false} NothingFound(db: Tables, th: Thread, reply: Reply)
    requires Active(th) && ByNameOnly(th.ops) && !th.phase.Doomed?
    requires Admissible(db, th.conn, NextCall(th), reply) && !reply.Lost?
    ensures StepDb(db, th, reply) == db
    ensures forall op, r :: op in th.ops && RemovesByName(op) && Bears(db, th.conn, op, r) ==>
            op in Advance(th, reply).ops
  {
    var op := th.ops[0];
    assert RemovesByName(op);
    VictimsExact(db, th.conn, op.kind, op.sel, reply.items);
    assert th.ops == [op] + th.ops[1..];
  }

  /** A removal by name that finds anything takes something away, and nothing is added. */
  lemma {:induction false} ByNameShrinks(db: Tables, th: Thread, rs: seq<Reply>)
    requires IsRun(db, th, rs) && th.Running? && ByNameOnly(th.ops) && KnowsBearer(db, th)
    ensures var k := After(db, th, rs);
            && k.db.Keys <= db.Keys
            && (Succeeded(k.th) && (exists op, r :: op in th.ops && RemovesByName(op) && Bears(db, th.conn, op, r)) ==>
               k.db != db)
    decreases |rs|
  {
    if rs == [] {
    } else {
      var db', th' := StepDb(db, th, rs[0]), Advance(th, rs[0]);
      if th'.Stopped? {
        StoppedStays(db', rs[1..]);
      } else {
        ByNameStep(db, th, rs[0]);
        ByNameShrinks(db', th', rs[1..]);
        if th.phase.Doomed? {
          assert Ref(th.conn.site, th.ops[0].kind, th.phase.ids[0]) in db && db' != db;
        } else {
          NothingFound(db, th, rs[0]);
        }
      }
    }
  }

  lemma {:induction false} ByNameIdle(db: Tables, th: Thread, rs: seq<Reply>)
    requires IsRun(db, th, rs) && th.Running? && ByNameOnly(th.ops) && KnowsBearer(db, th)
    requires forall i :: 0 <= i < |th.ops| ==> NoBearer(db, th.conn, th.ops[i])
    ensures After(db, th, rs).db == db
    decreases |rs|
  {
    if rs == [] {
    } else {
      var db', th' := StepDb(db, th, rs[0]), Advance(th, rs[0]);
      assert NoBearer(db, th.conn, th.ops[0]);
      if th'.Stopped? {
        StoppedStays(db', rs[1..]);
      } else {
        ByNameStep(db, th, rs[0]);
        ByNameIdle(db', th', rs[1..]);
      }
    }
  }

  /** A paused Node reconcile that succeeds changes nothing exactly when the Node is there, or no object
      of either table bears its name. */
  lemma {:induction false} NodeRetainIff(db: Tables, c: Conn, spec: Spec, name: string, node: Fetched<Node>,
                                         rs: seq<Reply>)
    requires !spec.nodes.enabled && spec.nodes.retainOnDisable
    requires IsRun(db, Start(c, NodePlan(spec, name, node)), rs)
    requires Succeeded(After(db, Start(c, NodePlan(spec, name, node)), rs).th)
    ensures After(db, Start(c, NodePlan(spec, name, node)), rs).db == db <==>
              || node.Present?
              || (NoBearer(db, c, Remove(Device, ByName(name)))
                 && NoBearer(db, c, Remove(VirtualMachine, ByName(name))))
  {
    var ops := NodePlan(spec, name, node);
    match node {
      case Present(_) =>
      case Unreadable =>
      case Missing =>
        assert ops[0] in ops && ops[1] in ops;
        ByNameShrinks(db, Start(c, ops), rs);
        if NoBearer(db, c, ops[0]) && NoBearer(db, c, ops[1]) {
          ByNameIdle(db, Start(c, ops), rs);
        }
    }
  }

  /** Under the same condition no table changes in any state of any run, cut or failed. */
  lemma {:induction false} NodeRetainThroughout(db: Tables, c: Conn, spec: Spec, name: string, node: Fetched<Node>,
                                                rs: seq<Reply>)
    requires !spec.nodes.enabled && spec.nodes.retainOnDisable
    requires IsRun(db, Start(c, NodePlan(spec, name, node)), rs)
    requires
      || !node.Missing?
      || (NoBearer(db, c, Remove(Device, ByName(name))) && NoBearer(db, c, Remove(VirtualMachine, ByName(name))))
    ensures After(db, Start(c, NodePlan(spec, name, node)), rs).db == db
  {
    if node.Missing? {
      ByNameIdle(db, Start(c, NodePlan(spec, name, node)), rs);
    }
  }
}
