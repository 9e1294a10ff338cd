/** The convergence results applied to Services and pod CIDRs. */
module Scenarios {
  import opened Cidrs
  import opened ExternalIds
  import opened NetBox
  import opened Views
  import opened Plans
  import opened Convergence

  // ---------------------------------------------------------------- fleets of tasks

  /** Tasks of one configuration over one snapshot of the cluster: all good, all in agreement. */
  ghost predicate IsFleet(fleet: iset<Task>) {
    forall t, u :: t in fleet && u in fleet ==> Compatible(t, u)
  }

  ghost predicate FromFleet(h: seq<Turn>, fleet: iset<Task>) {
    forall t <- h :: t.task in fleet
  }

  lemma {:induction false} FleetSettles(db: Tables, c: Conn, h: seq<Turn>, fleet: iset<Task>, u: Task, k: Key)
    requires Unique(db, c) && IsHistory(db, c, h) && IsFleet(fleet) && FromFleet(h, fleet)
    requires u in fleet && DoneIn(h, u) && k in u.patch.scope
    ensures Unique(EndOf(db, c, h), c) && SameAt(View(EndOf(db, c, h), c), u.patch.content, k)
  {
    Settles(db, c, h, u, k);
  }

  /** Every key that a task of the fleet has a say in is in the scope of one that has succeeded in both. */
  ghost predicate FleetCovered(fleet: iset<Task>, g: seq<Turn>, h: seq<Turn>) {
    forall t, k :: t in fleet && k in t.patch.scope ==> exists u :: DoneIn(g, u) && DoneIn(h, u) && k in u.patch.scope
  }

  /** Two histories of one fleet in which every key at stake has been settled agree on the view. */
  lemma {:induction false} FleetConfluence(db: Tables, db2: Tables, c: Conn, g: seq<Turn>, h: seq<Turn>,
                                           fleet: iset<Task>)
    requires Unique(db, c) && Unique(db2, c) && View(db, c) == View(db2, c)
    requires IsHistory(db, c, g) && IsHistory(db2, c, h) && IsFleet(fleet) && FromFleet(g, fleet) && FromFleet(h, fleet)
    requires FleetCovered(fleet, g, h)
    ensures Unique(EndOf(db, c, g), c) && Unique(EndOf(db2, c, h), c)
    ensures View(EndOf(db, c, g), c) == View(EndOf(db2, c, h), c)
  {
    assert forall t <- g + h :: t.task in fleet;
    Confluence(db, db2, c, g, h);
  }

  /** Where a task's scope already is as the task wants it, its plan has nothing to change. */
  lemma {:induction false} SettledAt(t: Task, v: ViewMap)
    requires GoodTask(t) && forall k :: k in t.patch.scope ==> SameAt(v, t.patch.content, k)
    ensures Settled(t.ops, v)
  {
    assert Realizes(t.ops, t.patch, v);
    forall op | op in t.ops && op.Ensure?
      ensures var k := Key(op.kind, op.ext); k in v && v[k] == op.payload
    {
      assert SameAt(v, t.patch.content, Key(op.kind, op.ext));
    }
    forall op, k | op in t.ops && k in v ensures !Hits(op, k, v[k]) {
      assert k in t.patch.scope ==> SameAt(v, t.patch.content, k);
    }
  }

  lemma {:induction false} HistoryGood(db: Tables, c: Conn, h: seq<Turn>, t: Turn)
    requires IsHistory(db, c, h) && t in h
    ensures GoodTask(t.task)
    decreases |h|
  {
    if t == h[0] {
    } else {
      HistoryGood(TurnEnd(db, c, h[0]), c, h[1..], t);
    }
  }

  lemma {:induction false} QuietWhereSettled(db: Tables, c: Conn, h: seq<Turn>)
    requires Unique(db, c) && IsHistory(db, c, h)
    requires forall t, k :: t in h && k in t.task.patch.scope ==> SameAt(View(db, c), t.task.patch.content, k)
    ensures EndOf(db, c, h).Keys == db.Keys && Unique(EndOf(db, c, h), c) && View(EndOf(db, c, h), c) == View(db, c)
    ensures Whole(db, EndOf(db, c, h), c)
  {
    forall t | t in h ensures Settled(t.task.ops, View(db, c)) {
      HistoryGood(db, c, h, t);
      SettledAt(t.task, View(db, c));
    }
    HistoryQuiet(db, c, h);
  }

  // ---------------------------------------------------------------- Services

  type ServiceSnapshot = map<Owner, Fetched<Service>>

  predicate GoodServices(svcs: ServiceSnapshot) {
    forall o <- svcs :: o.ServiceOwner? && WellNamed(o) && !svcs[o].Unreadable?
  }

  ghost function ServiceTask(spec: Spec, o: Owner, svc: Fetched<Service>): (t: Task)
    requires o.ServiceOwner?
    ensures GoodTask(t)
  {
    var t := Task(ServicePlan(spec, o, svc), ServicePatch(spec, o, svc));
    assert GoodTask(t) by {
      forall v ensures Realizes(t.ops, t.patch, v) { ServiceRealizes(spec, o, svc, v); }
    }
    t
  }

  /** The reconciles of a snapshot, and those that fail because Kubernetes does not answer. */
  ghost function ServiceFleet(spec: Spec, svcs: ServiceSnapshot): iset<Task>
    requires GoodServices(svcs)
  {
    (iset o | o in svcs :: ServiceTask(spec, o, svcs[o])) + (iset o | o in svcs :: ServiceTask(spec, o, Unreadable))
  }

  lemma {:induction false} ServiceFleetTask(spec: Spec, svcs: ServiceSnapshot, t: Task) returns (o: Owner)
    requires GoodServices(svcs) && t in ServiceFleet(spec, svcs)
    ensures o in svcs && (t == ServiceTask(spec, o, svcs[o]) || t == ServiceTask(spec, o, Unreadable))
  {
    if p :| p in svcs && t == ServiceTask(spec, p, svcs[p]) {
      o := p;
    } else {
      o :| o in svcs && t == ServiceTask(spec, o, Unreadable);
    }
  }

  lemma {:induction false} ScopesApart(kind: Kind, o: Owner, p: Owner)
    requires WellNamed(o) && WellNamed(p) && o.NodeOwner? == p.NodeOwner? && o != p
    ensures forall k :: !(k in OwnerScope(kind, o) && k in OwnerScope(kind, p))
  {
    forall k | k in OwnerScope(kind, o) && k in OwnerScope(kind, p) ensures false {
      OwnersDisjoint(o, p, k.ext);
    }
  }

  lemma {:induction false} ServicesAgree(spec: Spec, svcs: ServiceSnapshot)
    requires GoodServices(svcs)
    ensures IsFleet(ServiceFleet(spec, svcs))
  {
    forall t, u | t in ServiceFleet(spec, svcs) && u in ServiceFleet(spec, svcs) ensures Compatible(t, u) {
      var o := ServiceFleetTask(spec, svcs, t);
      var p := ServiceFleetTask(spec, svcs, u);
      if o != p { ScopesApart(IPAddress, o, p); }
    }
  }

  ghost predicate ServicesDone(h: seq<Turn>, spec: Spec, svcs: ServiceSnapshot)
    requires GoodServices(svcs)
  {
    FromFleet(h, ServiceFleet(spec, svcs)) && forall o <- svcs :: DoneIn(h, ServiceTask(spec, o, svcs[o]))
  }

  /** Reconciling the Services of a snapshot in any order, with repeats and with failures of NetBox and of
      Kubernetes, until each has succeeded once, always gives the same view. */
  lemma {:induction false} ServicesConfluent(db: Tables, db2: Tables, c: Conn, spec: Spec, svcs: ServiceSnapshot,
                                             g: seq<Turn>, h: seq<Turn>)
    requires Unique(db, c) && Unique(db2, c) && View(db, c) == View(db2, c)
    requires GoodServices(svcs) && IsHistory(db, c, g) && IsHistory(db2, c, h)
    requires ServicesDone(g, spec, svcs) && ServicesDone(h, spec, svcs)
    ensures Unique(EndOf(db, c, g), c) && Unique(EndOf(db2, c, h), c)
    ensures View(EndOf(db, c, g), c) == View(EndOf(db2, c, h), c)
  {
    ServicesAgree(spec, svcs);
    var fleet := ServiceFleet(spec, svcs);
    forall t, k | t in fleet && k in t.patch.scope
      ensures exists u :: DoneIn(g, u) && DoneIn(h, u) && k in u.patch.scope
    {
      var o := ServiceFleetTask(spec, svcs, t);
      assert DoneIn(g, ServiceTask(spec, o, svcs[o])) && DoneIn(h, ServiceTask(spec, o, svcs[o]));
    }
    FleetConfluence(db, db2, c, g, h, fleet);
  }

  /** Every Service then has exactly the addresses it should, whatever was there before. */
  lemma {:induction false} ServicesSettle(db: Tables, c: Conn, spec: Spec, svcs: ServiceSnapshot, h: seq<Turn>,
                                          o: Owner, k: Key)
    requires Unique(db, c) && GoodServices(svcs) && IsHistory(db, c, h) && ServicesDone(h, spec, svcs)
    requires o in svcs && !ServiceRetained(spec, svcs[o]) && k in OwnerScope(IPAddress, o)
    ensures Unique(EndOf(db, c, h), c)
    ensures SameAt(View(EndOf(db, c, h), c), ServiceContent(spec, o, svcs[o]), k)
  {
    ServicesAgree(spec, svcs);
    var u := ServiceTask(spec, o, svcs[o]);
    assert u in ServiceFleet(spec, svcs);
    FleetSettles(db, c, h, ServiceFleet(spec, svcs), u, k);
  }

  lemma {:induction false} RetainedScopes(off: Spec, svcs: ServiceSnapshot, h: seq<Turn>)
    requires GoodServices(svcs) && (forall o <- svcs :: svcs[o].Present?)
    requires !off.services.enabled && off.services.retainOnDisable && FromFleet(h, ServiceFleet(off, svcs))
    ensures forall t <- h :: t.task.patch.scope == iset{}
  {
    forall t | t in h ensures t.task.patch.scope == iset{} {
      var o := ServiceFleetTask(off, svcs, t.task);
    }
  }

  lemma {:induction false} WholeOwns(db: Tables, db': Tables, c: Conn, kind: Kind, o: Owner)
    requires Unique(db, c) && Unique(db', c) && Whole(db, db', c)
    ensures OwnsSome(View(db, c), kind, o) ==> OwnsSome(View(db', c), kind, o)
  {
    if k :| k in View(db, c) && k in OwnerScope(kind, o) {
      var r := Holder(db, c, k);
      InView(db', c, r);
    }
  }

  /** Make-before-break for a whole Service sync, also one that an invalid address cuts short: in every
      state nothing has been removed, or else every ingress entry was valid and all wanted addresses exist. */
  lemma {:induction false} ServiceMakesFirst(db: Tables, c: Conn, o: Owner, svc: Service, rs: seq<Reply>)
    requires o.ServiceOwner? && Unique(db, c) && IsRun(db, Start(c, ServiceSync(o, svc)), rs)
    ensures var db', ws := After(db, Start(c, ServiceSync(o, svc)), rs).db, ServiceWants(o, svc.parses, svc.ingress);
            && Unique(db', c)
            && (Whole(db, db', c) || (Usable(svc.parses, svc.ingress) && Complete(db', c, IPAddress, ws)))
            && (ws != [] && OwnsSome(View(db, c), IPAddress, o) ==> OwnsSome(View(db', c), IPAddress, o))
  {
    var ws := ServiceWants(o, svc.parses, svc.ingress);
    ServiceWantsFit(o, svc.parses, svc.ingress);
    if Usable(svc.parses, svc.ingress) {
      MakeBeforeBreak(db, c, IPAddress, o, ws, rs);
    } else {
      var th := Start(c, ServiceSync(o, svc));
      RunUnique(db, th, rs);
      forall r, k | HasKey(db, c, r, k) ensures HasKey(After(db, th, rs).db, c, r, k) {
        RunKeeps(db, th, rs, r, k);
      }
      WholeOwns(db, After(db, th, rs).db, c, IPAddress, o);
    }
  }

  /** Round trip: sync, disable, sync again. The view of every owner is restored; and if
      disabling retains, all objects keep their NetBox IDs throughout. */
  lemma {:induction false} ServicesRoundTrip(db: Tables, c: Conn, on: Spec, off: Spec, svcs: ServiceSnapshot,
                          h1: seq<Turn>, h2: seq<Turn>, h3: seq<Turn>)
    requires Unique(db, c) && GoodServices(svcs) && on.services.enabled && !off.services.enabled
    requires forall o <- svcs :: svcs[o].Present?
    requires IsHistory(db, c, h1) && ServicesDone(h1, on, svcs)
    requires IsHistory(EndOf(db, c, h1), c, h2) && FromFleet(h2, ServiceFleet(off, svcs))
    requires IsHistory(EndOf(EndOf(db, c, h1), c, h2), c, h3) && ServicesDone(h3, on, svcs)
    ensures var db1, db3 := EndOf(db, c, h1), EndOf(EndOf(EndOf(db, c, h1), c, h2), c, h3);
            && Unique(db1, c) && Unique(db3, c)
            && (forall o, k :: o in svcs && k in OwnerScope(IPAddress, o) ==> SameAt(View(db3, c), View(db1, c), k))
            && (off.services.retainOnDisable ==> db3.Keys == db1.Keys && Whole(db1, db3, c))
  {
    var db1 := EndOf(db, c, h1);
    HistoryUnique(db, c, h1);
    HistoryUnique(db1, c, h2);
    var db2 := EndOf(db1, c, h2);
    HistoryUnique(db2, c, h3);
    forall o, k | o in svcs && k in OwnerScope(IPAddress, o)
      ensures SameAt(View(EndOf(db2, c, h3), c), View(db1, c), k)
    {
      ServicesSettle(db, c, on, svcs, h1, o, k);
      ServicesSettle(db2, c, on, svcs, h3, o, k);
    }
    if off.services.retainOnDisable {
      RetainedScopes(off, svcs, h2);
      QuietWhereSettled(db1, c, h2);
      forall t, k | t in h3 && k in t.task.patch.scope ensures SameAt(View(db2, c), t.task.patch.content, k) {
        var o := ServiceFleetTask(on, svcs, t.task);
        ServicesSettle(db, c, on, svcs, h1, o, k);
      }
      QuietWhereSettled(db2, c, h3);
    }
  }

  // ---------------------------------------------------------------- pod CIDRs, Prefix mode

  type NodeSnapshot = map<string, Fetched<Node>>

  predicate GoodNodes(nodes: NodeSnapshot) {
    forall n <- nodes :: SlashFree(n) && !nodes[n].Unreadable? && (nodes[n].Present? ==> nodes[n].value.name == n)
  }

  ghost function PrefixTask(spec: Spec, name: string, node: Fetched<Node>): (t: Task)
    requires node.Present? ==> node.value.name == name
    ensures GoodTask(t)
  {
    var t := Task(PrefixPlan(spec, name, node), PrefixPatch(spec, name, node));
    assert GoodTask(t) by {
      forall v ensures Realizes(t.ops, t.patch, v) { PrefixRealizes(spec, name, node, v); }
    }
    t
  }

  ghost function PrefixFleet(spec: Spec, nodes: NodeSnapshot): iset<Task>
    requires GoodNodes(nodes)
  {
    (iset n | n in nodes :: PrefixTask(spec, n, nodes[n])) + (iset n | n in nodes :: PrefixTask(spec, n, Unreadable))
  }

  lemma {:induction false} PrefixFleetTask(spec: Spec, nodes: NodeSnapshot, t: Task)
    returns (n: string, node: Fetched<Node>)
    requires GoodNodes(nodes) && t in PrefixFleet(spec, nodes)
    ensures n in nodes && (node == nodes[n] || node == Unreadable) && t == PrefixTask(spec, n, node)
  {
    if m :| m in nodes && t == PrefixTask(spec, m, nodes[m]) {
      n, node := m, nodes[m];
    } else {
      n :| n in nodes && t == PrefixTask(spec, n, Unreadable);
      node := Unreadable;
    }
  }

  lemma {:induction false} PrefixContentKinds(spec: Spec, node: Fetched<Node>, k: Key)
    requires k in PrefixContent(spec, node)
    ensures k.kind == Prefix
  {
    ContentKeys(Prefix, PrefixWants(node.value));
  }

  lemma {:induction false} PrefixPairAgrees(spec: Spec, m: string, x: Fetched<Node>, n: string, y: Fetched<Node>)
    requires SlashFree(m) && SlashFree(n) && (m != n || x.Unreadable? || y.Unreadable?)
    requires (x.Present? ==> x.value.name == m) && (y.Present? ==> y.value.name == n)
    ensures Compatible(PrefixTask(spec, m, x), PrefixTask(spec, n, y))
  {
    if m != n { ScopesApart(Prefix, NodeOwner(m), NodeOwner(n)); }
    var t, u := PrefixTask(spec, m, x), PrefixTask(spec, n, y);
    forall k | k in t.patch.scope && k in u.patch.scope ensures SameAt(t.patch.content, u.patch.content, k) {
      assert k in AggregateScope();
      if k in PrefixContent(spec, x) { PrefixContentKinds(spec, x, k); }
      if k in PrefixContent(spec, y) { PrefixContentKinds(spec, y, k); }
    }
  }

  lemma {:induction false} PrefixesAgree(spec: Spec, nodes: NodeSnapshot)
    requires GoodNodes(nodes)
    ensures IsFleet(PrefixFleet(spec, nodes))
  {
    forall t, u | t in PrefixFleet(spec, nodes) && u in PrefixFleet(spec, nodes) ensures Compatible(t, u) {
      var m, x := PrefixFleetTask(spec, nodes, t);
      var n, y := PrefixFleetTask(spec, nodes, u);
      if m != n || x != y { PrefixPairAgrees(spec, m, x, n, y); }
    }
  }

  ghost predicate PrefixesDone(h: seq<Turn>, spec: Spec, nodes: NodeSnapshot)
    requires GoodNodes(nodes)
  {
    FromFleet(h, PrefixFleet(spec, nodes)) && forall n <- nodes :: DoneIn(h, PrefixTask(spec, n, nodes[n]))
  }

  /** Reconciling the Nodes of a snapshot in Prefix mode in any order, with repeats and with failures
      of NetBox and of Kubernetes, until each has succeeded once, always gives the same view. */
  lemma {:induction false} PrefixesConfluent(db: Tables, db2: Tables, c: Conn, spec: Spec, nodes: NodeSnapshot,
                                             g: seq<Turn>, h: seq<Turn>)
    requires Unique(db, c) && Unique(db2, c) && View(db, c) == View(db2, c)
    requires GoodNodes(nodes) && IsHistory(db, c, g) && IsHistory(db2, c, h)
    requires PrefixesDone(g, spec, nodes) && PrefixesDone(h, spec, nodes)
    ensures Unique(EndOf(db, c, g), c) && Unique(EndOf(db2, c, h), c)
    ensures View(EndOf(db, c, g), c) == View(EndOf(db2, c, h), c)
  {
    PrefixesAgree(spec, nodes);
    var fleet := PrefixFleet(spec, nodes);
    forall t, k | t in fleet && k in t.patch.scope
      ensures exists u :: DoneIn(g, u) && DoneIn(h, u) && k in u.patch.scope
    {
      var n, node := PrefixFleetTask(spec, nodes, t);
      assert DoneIn(g, PrefixTask(spec, n, nodes[n])) && DoneIn(h, PrefixTask(spec, n, nodes[n]));
    }
    FleetConfluence(db, db2, c, g, h, fleet);
  }

  lemma {:induction false} PrefixesSettle(db: Tables, c: Conn, spec: Spec, nodes: NodeSnapshot, h: seq<Turn>,
                                          n: string, k: Key)
    requires Unique(db, c) && GoodNodes(nodes) && IsHistory(db, c, h) && FromFleet(h, PrefixFleet(spec, nodes))
    requires n in nodes && DoneIn(h, PrefixTask(spec, n, nodes[n]))
    requires k in PrefixPatch(spec, n, nodes[n]).scope
    ensures Unique(EndOf(db, c, h), c)
    ensures SameAt(View(EndOf(db, c, h), c), PrefixContent(spec, nodes[n]), k)
  {
    PrefixesAgree(spec, nodes);
    var u := PrefixTask(spec, n, nodes[n]);
    assert u in PrefixFleet(spec, nodes);
    FleetSettles(db, c, h, PrefixFleet(spec, nodes), u, k);
  }

  lemma {:induction false} PausedAgrees(db: Tables, c: Conn, on: Spec, off: Spec, nodes: NodeSnapshot, h1: seq<Turn>,
                                        n: string, k: Key)
    requires Unique(db, c) && GoodNodes(nodes) && on.podCidrs.enabled && !off.podCidrs.enabled
    requires off.podCidrs.retainOnDisable && n in nodes && nodes[n].Present?
    requires IsHistory(db, c, h1) && PrefixesDone(h1, on, nodes)
    requires k in PrefixPatch(off, n, nodes[n]).scope
    ensures Unique(EndOf(db, c, h1), c)
    ensures SameAt(View(EndOf(db, c, h1), c), PrefixContent(off, nodes[n]), k)
  {
    PrefixesSettle(db, c, on, nodes, h1, n, k);
    if k in PrefixContent(on, nodes[n]) { PrefixContentKinds(on, nodes[n], k); }
  }

  lemma {:induction false} PausedTaskAgrees(db: Tables, c: Conn, on: Spec, off: Spec, nodes: NodeSnapshot,
                                            h1: seq<Turn>,
                                            t: Task, k: Key)
    requires Unique(db, c) && GoodNodes(nodes) && on.podCidrs.enabled && !off.podCidrs.enabled
    requires off.podCidrs.retainOnDisable && forall n <- nodes :: nodes[n].Present?
    requires IsHistory(db, c, h1) && PrefixesDone(h1, on, nodes)
    requires t in PrefixFleet(off, nodes) && k in t.patch.scope
    ensures Unique(EndOf(db, c, h1), c) && SameAt(View(EndOf(db, c, h1), c), t.patch.content, k)
  {
    var n, node := PrefixFleetTask(off, nodes, t);
    PausedAgrees(db, c, on, off, nodes, h1, n, k);
  }

  lemma {:induction false} UnreadAgrees(spec: Spec, n: string, node: Fetched<Node>, answer: Fetched<Node>, k: Key)
    requires (node.Present? ==> node.value.name == n) && !node.Unreadable? && (answer == node || answer == Unreadable)
    requires k in PrefixPatch(spec, n, answer).scope
    ensures k in PrefixPatch(spec, n, node).scope
            && SameAt(PrefixContent(spec, node), PrefixPatch(spec, n, answer).content, k)
  {
    if answer == Unreadable && k in PrefixContent(spec, node) { PrefixContentKinds(spec, node, k); }
  }

  lemma {:induction false} RunningTaskAgrees(db: Tables, c: Conn, on: Spec, nodes: NodeSnapshot, h1: seq<Turn>,
                                             t: Task, k: Key)
    requires Unique(db, c) && GoodNodes(nodes)
    requires IsHistory(db, c, h1) && PrefixesDone(h1, on, nodes)
    requires t in PrefixFleet(on, nodes) && k in t.patch.scope
    ensures Unique(EndOf(db, c, h1), c) && SameAt(View(EndOf(db, c, h1), c), t.patch.content, k)
  {
    var n, node := PrefixFleetTask(on, nodes, t);
    UnreadAgrees(on, n, nodes[n], node, k);
    PrefixesSettle(db, c, on, nodes, h1, n, k);
  }

  lemma {:induction false} PrefixesRetained(db: Tables, c: Conn, on: Spec, off: Spec, nodes: NodeSnapshot,
                         h1: seq<Turn>, h2: seq<Turn>, h3: seq<Turn>)
    requires Unique(db, c) && GoodNodes(nodes) && on.podCidrs.enabled && !off.podCidrs.enabled
    requires off.podCidrs.retainOnDisable && forall n <- nodes :: nodes[n].Present?
    requires IsHistory(db, c, h1) && PrefixesDone(h1, on, nodes)
    requires IsHistory(EndOf(db, c, h1), c, h2) && FromFleet(h2, PrefixFleet(off, nodes))
    requires IsHistory(EndOf(EndOf(db, c, h1), c, h2), c, h3) && FromFleet(h3, PrefixFleet(on, nodes))
    ensures EndOf(EndOf(EndOf(db, c, h1), c, h2), c, h3).Keys == EndOf(db, c, h1).Keys
    ensures Whole(EndOf(db, c, h1), EndOf(EndOf(EndOf(db, c, h1), c, h2), c, h3), c)
  {
    var db1 := EndOf(db, c, h1);
    HistoryUnique(db, c, h1);
    forall t, k | t in h2 && k in t.task.patch.scope ensures SameAt(View(db1, c), t.task.patch.content, k) {
      PausedTaskAgrees(db, c, on, off, nodes, h1, t.task, k);
    }
    QuietWhereSettled(db1, c, h2);
    assert View(EndOf(db1, c, h2), c) == View(db1, c);
    forall t, k | t in h3 && k in t.task.patch.scope ensures SameAt(View(db1, c), t.task.patch.content, k) {
      RunningTaskAgrees(db, c, on, nodes, h1, t.task, k);
    }
    QuietWhereSettled(EndOf(db1, c, h2), c, h3);
  }

  /** Round trip in Prefix mode, as for Services. */
  lemma {:induction false} PrefixesRoundTrip(db: Tables, c: Conn, on: Spec, off: Spec, nodes: NodeSnapshot,
                          h1: seq<Turn>, h2: seq<Turn>, h3: seq<Turn>)
    requires Unique(db, c) && GoodNodes(nodes) && on.podCidrs.enabled && !off.podCidrs.enabled
    requires forall n <- nodes :: nodes[n].Present?
    requires IsHistory(db, c, h1) && PrefixesDone(h1, on, nodes)
    requires IsHistory(EndOf(db, c, h1), c, h2) && FromFleet(h2, PrefixFleet(off, nodes))
    requires IsHistory(EndOf(EndOf(db, c, h1), c, h2), c, h3) && PrefixesDone(h3, on, nodes)
    ensures var db1, db3 := EndOf(db, c, h1), EndOf(EndOf(EndOf(db, c, h1), c, h2), c, h3);
            && Unique(db1, c) && Unique(db3, c)
            && (forall n, k :: n in nodes && k in OwnerScope(Prefix, NodeOwner(n)) ==>
               SameAt(View(db3, c), View(db1, c), k))
            && (off.podCidrs.retainOnDisable ==> db3.Keys == db1.Keys && Whole(db1, db3, c))
  {
    var db1 := EndOf(db, c, h1);
    HistoryUnique(db, c, h1);
    HistoryUnique(db1, c, h2);
    var db2 := EndOf(db1, c, h2);
    HistoryUnique(db2, c, h3);
    forall n, k | n in nodes && k in OwnerScope(Prefix, NodeOwner(n))
      ensures SameAt(View(EndOf(db2, c, h3), c), View(db1, c), k)
    {
      PrefixesSettle(db, c, on, nodes, h1, n, k);
      PrefixesSettle(db2, c, on, nodes, h3, n, k);
    }
    if off.podCidrs.retainOnDisable {
      PrefixesRetained(db, c, on, off, nodes, h1, h2, h3);
    }
  }

  // ---------------------------------------------------------------- pod CIDRs, Aggregate mode

  ghost function AggregateTask(spec: Spec, nodes: Fetched<seq<Node>>): (t: Task)
    ensures GoodTask(t)
  {
    var t := Task(AggregatePlan(spec, nodes), AggregatePatch(spec, nodes));
    assert GoodTask(t) by {
      forall v ensures Realizes(t.ops, t.patch, v) { AggregateRealizes(spec, nodes, v); }
    }
    t
  }

  /** What the Aggregates are computed from: the pod CIDRs of the live Nodes and nothing else. */
  lemma {:induction false} AllCidrsExact(nodes: seq<Node>, c: Cidr)
    ensures c in AllCidrs(nodes) <==> exists n :: n in nodes && c in n.podCidrs
  {
    if nodes == [] {
    } else {
      var init, last := nodes[..|nodes| - 1], nodes[|nodes| - 1];
      assert nodes == init + [last];
      AllCidrsExact(init, c);
      assert forall n :: n in nodes <==> n in init || n == last;
    }
  }

  /** v has, for the family, an Aggregate exactly if some of the CIDRs is in the family, and then
      the Aggregate is the least block above all of them. */
  ghost predicate HasSupernet(v: ViewMap, f: Family, cidrs: seq<Cidr>) {
    var k := Key(Aggregate, AggregateId(f));
    && (k in v <==> Blocks(cidrs, f) != {})
    && (k in v ==> v[k].block.Some? && v[k].block.value.Valid() && IsLeastAbove(v[k].block.value, Blocks(cidrs, f)))
  }

  lemma {:induction false} AggregateContentExact(spec: Spec, nodes: seq<Node>)
    requires Supernets(AllCidrs(nodes)).Computed?
    ensures forall k <- AggregateContent(spec, nodes) :: k.kind == Aggregate && k in AggregateScope()
    ensures forall f: Family :: Key(Aggregate, AggregateId(f)) in AggregateScope()
    ensures forall f: Family :: HasSupernet(AggregateContent(spec, nodes), f, AllCidrs(nodes))
  {
    AggregateContentAt(spec, nodes);
    SupernetsLeast(AllCidrs(nodes));
    assert forall f: Family :: HasSupernet(AggregateContent(spec, nodes), f, AllCidrs(nodes));
  }

  lemma {:induction false} AggregatePatchExact(spec: Spec, nodes: seq<Node>, v: ViewMap)
    requires Supernets(AllCidrs(nodes)).Computed? && spec.podCidrs.enabled
    ensures var w := Patched(AggregatePatch(spec, Present(nodes)), v);
            && (forall f: Family :: HasSupernet(w, f, AllCidrs(nodes)))
            && (forall n, k :: n in nodes && k in OwnerScope(Prefix, NodeOwner(n.name)) ==> k !in w)
            && (forall k :: k !in AggregateScope() + NodesScope(nodes) ==> SameAt(w, v, k))
  {
    AggregateContentExact(spec, nodes);
    var p := AggregatePatch(spec, Present(nodes));
    forall f: Family ensures HasSupernet(Patched(p, v), f, AllCidrs(nodes)) {
      assert HasSupernet(AggregateContent(spec, nodes), f, AllCidrs(nodes));
      assert Key(Aggregate, AggregateId(f)) in p.scope;
    }
  }

  lemma {:induction false} AggregatePlanComputes(spec: Spec, nodes: seq<Node>)
    requires spec.podCidrs.enabled
    ensures Supernets(AllCidrs(nodes)).Invalid? ==> Abort in AggregatePlan(spec, Present(nodes))
  {
    if Supernets(AllCidrs(nodes)).Invalid? {
      assert AggregatePlan(spec, Present(nodes))[|nodes|] == Abort;
    }
  }

  /** After a successful Aggregate sync: each family has its Aggregate exactly if some live Node has
      a CIDR in it; that Aggregate is the least block above every live pod CIDR of the family; no
      live Node owns a Prefix; and nothing else has changed. */
  lemma {:induction false} AggregatesExact(db: Tables, c: Conn, spec: Spec, nodes: seq<Node>, rs: seq<Reply>)
    requires Unique(db, c) && spec.podCidrs.enabled
    requires IsTurn(db, c, Turn(AggregateTask(spec, Present(nodes)), rs, true))
    ensures var db' := TurnEnd(db, c, Turn(AggregateTask(spec, Present(nodes)), rs, true));
            && Unique(db', c)
            && (forall f: Family :: HasSupernet(View(db', c), f, AllCidrs(nodes)))
            && (forall n, k :: n in nodes && k in OwnerScope(Prefix, NodeOwner(n.name)) ==> k !in View(db', c))
            && (forall k :: k !in AggregateScope() + NodesScope(nodes) ==> SameAt(View(db', c), View(db, c), k))
  {
    var t := Turn(AggregateTask(spec, Present(nodes)), rs, true);
    TurnEffect(db, c, t);
    NoAbortOnSuccess(db, Start(c, t.task.ops), rs);
    AggregatePlanComputes(spec, nodes);
    AggregatePatchExact(spec, nodes, View(db, c));
  }

  ghost function PodCidrTask(spec: Spec, name: string, node: Fetched<Node>, nodes: Fetched<seq<Node>>): (t: Task)
    requires node.Present? ==> node.value.name == name
    ensures GoodTask(t) && t.ops == PodCidrPlan(spec, name, node, nodes)
  {
    if spec.podCidrs.aggregate then AggregateTask(spec, nodes) else PrefixTask(spec, name, node)
  }

  // ---------------------------------------------------------------- Nodes

  ghost function NodeTask(spec: Spec, name: string, node: Fetched<Node>): (t: Task)
    requires !node.Missing?
    ensures GoodTask(t) && t.ops == NodePlan(spec, name, node) && t.patch == NodePatch(spec, node)
  {
    var t := Task(NodePlan(spec, name, node), NodePatch(spec, node));
    assert GoodTask(t) by {
      forall v ensures Realizes(t.ops, t.patch, v) { NodeRealizes(spec, name, node, v); }
    }
    t
  }

  ghost function NodeFleet(spec: Spec, nodes: iset<Node>): iset<Task> {
    (iset n | n in nodes :: NodeTask(spec, n.name, Present(n))) + iset{NodeTask(spec, "", Unreadable)}
  }

  ghost predicate NodesDone(h: seq<Turn>, spec: Spec, nodes: iset<Node>) {
    FromFleet(h, NodeFleet(spec, nodes)) && forall n :: n in nodes ==> DoneIn(h, NodeTask(spec, n.name, Present(n)))
  }

  ghost predicate DistinctUids(nodes: iset<Node>) {
    forall m, n :: m in nodes && n in nodes && m.uid == n.uid ==> m == n
  }

  /** Node reconciles of one snapshot agree, since every live Node has a UID of its own. */
  lemma {:induction false} NodesAgree(spec: Spec, nodes: iset<Node>)
    requires DistinctUids(nodes)
    ensures IsFleet(NodeFleet(spec, nodes))
  {
  }

  /** Reconciling the live Nodes of a snapshot in any order, with repeats and failures, until each
      has succeeded once, always gives the same view. */
  lemma {:induction false} NodesConfluent(db: Tables, db2: Tables, c: Conn, spec: Spec, nodes: iset<Node>,
                                          g: seq<Turn>, h: seq<Turn>)
    requires Unique(db, c) && Unique(db2, c) && View(db, c) == View(db2, c) && DistinctUids(nodes)
    requires IsHistory(db, c, g) && NodesDone(g, spec, nodes)
    requires IsHistory(db2, c, h) && NodesDone(h, spec, nodes)
    ensures Unique(EndOf(db, c, g), c) && Unique(EndOf(db2, c, h), c)
    ensures View(EndOf(db, c, g), c) == View(EndOf(db2, c, h), c)
  {
    NodesAgree(spec, nodes);
    FleetConfluence(db, db2, c, g, h, NodeFleet(spec, nodes));
  }

  // ---------------------------------------------------------------- switching modes

  /** The tasks of the current mode for a snapshot: in Aggregate mode there is only one, that may also fail
      because Kubernetes does not list the Nodes. */
  ghost function PodFleet(spec: Spec, nodes: NodeSnapshot, live: seq<Node>): iset<Task>
    requires GoodNodes(nodes)
  {
    if spec.podCidrs.aggregate
    then iset{AggregateTask(spec, Present(live)), AggregateTask(spec, Unreadable)}
    else PrefixFleet(spec, nodes)
  }

  lemma {:induction false} PodFleetAgrees(spec: Spec, nodes: NodeSnapshot, live: seq<Node>)
    requires GoodNodes(nodes)
    ensures IsFleet(PodFleet(spec, nodes, live))
  {
    if !spec.podCidrs.aggregate {
      PrefixesAgree(spec, nodes);
    } else if spec.podCidrs.enabled {
      assert AggregateTask(spec, Unreadable).patch == NOTHING;
    }
  }

  /** Sync has succeeded for this live Node in the current mode. */
  ghost predicate NodeDone(h: seq<Turn>, spec: Spec, live: seq<Node>, n: Node) {
    if spec.podCidrs.aggregate then DoneIn(h, AggregateTask(spec, Present(live)))
    else DoneIn(h, PrefixTask(spec, n.name, Present(n)))
  }

  /** Mode switches leave no trace: after any history whatever (earlier modes, switches, disables,
      failures), once enabled sync has succeeded for a live Node in the current mode, the view of
      that Node and of the Aggregates is that of syncing a NetBox without managed objects. */
  lemma {:induction false} ModeSwitch(db: Tables, blank: Tables, c: Conn, prior: seq<Turn>, spec: Spec,
                   nodes: NodeSnapshot, live: seq<Node>, g: seq<Turn>, h: seq<Turn>, n: Node, k: Key)
    requires Unique(db, c) && IsHistory(db, c, prior)
    requires Unique(blank, c) && View(blank, c) == map[]
    requires GoodNodes(nodes) && spec.podCidrs.enabled && n in live && n.name in nodes && nodes[n.name] == Present(n)
    requires IsHistory(EndOf(db, c, prior), c, g) && FromFleet(g, PodFleet(spec, nodes, live))
             && NodeDone(g, spec, live, n)
    requires IsHistory(blank, c, h) && FromFleet(h, PodFleet(spec, nodes, live)) && NodeDone(h, spec, live, n)
    requires k in AggregateScope() || k in OwnerScope(Prefix, NodeOwner(n.name))
    ensures var end, blankEnd := EndOf(EndOf(db, c, prior), c, g), EndOf(blank, c, h);
            Unique(end, c) && Unique(blankEnd, c) && SameAt(View(end, c), View(blankEnd, c), k)
  {
    HistoryUnique(db, c, prior);
    var fleet := PodFleet(spec, nodes, live);
    var u := if spec.podCidrs.aggregate then AggregateTask(spec, Present(live))
             else PrefixTask(spec, n.name, Present(n));
    PodFleetAgrees(spec, nodes, live);
    assert u in fleet;
    assert k in u.patch.scope;
    FleetSettles(EndOf(db, c, prior), c, g, fleet, u, k);
    FleetSettles(blank, c, h, fleet, u, k);
  }

  // ---------------------------------------------------------------- counting

  /** CountManagedServiceIPs: the number of IP addresses carrying the managed tag. */
  function TaggedAddresses(db: Tables, c: Conn): set<Ref> {
    set r | r in db && Tagged(db, c, r) && r.kind == IPAddress
  }

  /** Every tagged IP address has an external ID. */
  ghost predicate AddressesManaged(db: Tables, c: Conn) {
    forall r :: Tagged(db, c, r) && r.kind == IPAddress ==> Managed(db, c, r)
  }

  lemma {:induction false} StepAddressesManaged(db: Tables, th: Thread, reply: Reply)
    requires Active(th) && Admissible(db, th.conn, NextCall(th), reply) && AddressesManaged(db, th.conn)
    ensures AddressesManaged(StepDb(db, th, reply), th.conn)
  {
    var db' := StepDb(db, th, reply);
    forall r | Tagged(db', th.conn, r) && r.kind == IPAddress ensures Managed(db', th.conn, r) {
      assert (r in db && db'[r] == db[r]) || db'[r] == HeraldRow(th.conn.slug, th.ops[0].ext, th.ops[0].payload);
    }
  }

  lemma {:induction false} RunAddressesManaged(db: Tables, th: Thread, rs: seq<Reply>)
    requires IsRun(db, th, rs) && th.Running? && AddressesManaged(db, th.conn)
    ensures AddressesManaged(After(db, th, rs).db, th.conn)
    decreases |rs|
  {
    if rs == [] {
    } else {
      StepAddressesManaged(db, th, rs[0]);
      if Advance(th, rs[0]).Running? { RunAddressesManaged(StepDb(db, th, rs[0]), Advance(th, rs[0]), rs[1..]); }
    }
  }

  lemma {:induction false} HistoryAddressesManaged(db: Tables, c: Conn, h: seq<Turn>)
    requires IsHistory(db, c, h) && AddressesManaged(db, c)
    ensures AddressesManaged(EndOf(db, c, h), c)
    decreases |h|
  {
    if h == [] {
    } else {
      RunAddressesManaged(db, Start(c, h[0].task.ops), h[0].rs);
      HistoryAddressesManaged(TurnEnd(db, c, h[0]), c, h[1..]);
    }
  }

  lemma {:induction false} KeysCount(db: Tables, c: Conn, refs: set<Ref>)
    requires Unique(db, c) && forall r <- refs :: Managed(db, c, r)
    ensures |set r | r in refs :: KeyOf(db, c, r)| == |refs|
  {
    var keys := set r | r in refs :: KeyOf(db, c, r);
    if refs == {} {
    } else {
      var r :| r in refs;
      var rest := refs - {r};
      KeysCount(db, c, rest);
      var restKeys := set s | s in rest :: KeyOf(db, c, s);
      assert keys == restKeys + {KeyOf(db, c, r)};
      assert forall s <- rest :: HasKey(db, c, s, KeyOf(db, c, s)) && HasKey(db, c, r, KeyOf(db, c, r));
      assert KeyOf(db, c, r) !in restKeys;
    }
  }

  predicate IsSynced(spec: Spec, svc: Fetched<Service>) {
    svc.Present? && spec.services.enabled && svc.value.loadBalancer
  }

  /** The distinct external IPs of a Service that is to be synced. */
  function SyncedIps(spec: Spec, svc: Fetched<Service>): set<string> {
    if IsSynced(spec, svc)
    then set ip | ip in svc.value.ingress && ip != ""
    else {}
  }

  function SumOfIps(spec: Spec, svcs: ServiceSnapshot, owners: seq<Owner>): nat
    requires forall o <- owners :: o in svcs
  {
    if owners == [] then 0
    else SumOfIps(spec, svcs, owners[..|owners| - 1]) + |SyncedIps(spec, svcs[owners[|owners| - 1]])|
  }

  function ContentsOf(spec: Spec, svcs: ServiceSnapshot, owners: seq<Owner>): set<Key>
    requires forall o <- owners :: o in svcs && o.ServiceOwner?
  {
    set o, k | o in owners && k in ServiceContent(spec, o, svcs[o]) :: k
  }

  lemma {:induction false} OwnedKeysCount(o: Owner, ips: set<string>)
    ensures |set ip | ip in ips :: Key(IPAddress, OwnedId(o, ip))| == |ips|
  {
    if ips == {} {
    } else {
      var ip :| ip in ips;
      var rest := ips - {ip};
      OwnedKeysCount(o, rest);
      var restKeys := set i | i in rest :: Key(IPAddress, OwnedId(o, i));
      assert forall i :: i == OwnedId(o, i)[|OwnerPrefix(o)|..];
      assert (set i | i in ips :: Key(IPAddress, OwnedId(o, i))) == restKeys + {Key(IPAddress, OwnedId(o, ip))};
      assert Key(IPAddress, OwnedId(o, ip)) !in restKeys;
    }
  }

  /** A usable Service's wanted keys are its distinct IPs, one for one. */
  lemma {:induction false} ContentIps(spec: Spec, o: Owner, svc: Fetched<Service>)
    requires o.ServiceOwner? && (IsSynced(spec, svc) ==> Usable(svc.value.parses, svc.value.ingress))
    ensures ServiceContent(spec, o, svc).Keys == set ip | ip in SyncedIps(spec, svc) :: Key(IPAddress, OwnedId(o, ip))
    ensures |ServiceContent(spec, o, svc).Keys| == |SyncedIps(spec, svc)|
  {
    var ips, keys := SyncedIps(spec, svc), ServiceContent(spec, o, svc).Keys;
    if IsSynced(spec, svc) {
      var s := svc.value;
      var ws := ServiceWants(o, s.parses, s.ingress);
      ContentKeys(IPAddress, ws);
      forall k | k in keys ensures exists ip :: ip in ips && k == Key(IPAddress, OwnedId(o, ip)) {
        var w :| w in ws && w.ext == k.ext;
        var ip := ServiceWantFrom(o, s.parses, s.ingress, w);
        assert ip in ips;
      }
      forall ip | ip in ips ensures Key(IPAddress, OwnedId(o, ip)) in keys {
        ServiceWantListed(o, s.parses, s.ingress, ip);
        assert ServiceWant(o, s.parses, ip).ext in Exts(ws);
      }
    }
    OwnedKeysCount(o, ips);
  }

  predicate NoRepeats(owners: seq<Owner>) {
    forall i, j :: 0 <= i < j < |owners| ==> owners[i] != owners[j]
  }

  predicate UsableWhereSynced(spec: Spec, svcs: ServiceSnapshot) {
    forall o <- svcs :: IsSynced(spec, svcs[o]) ==> Usable(svcs[o].value.parses, svcs[o].value.ingress)
  }

  lemma {:induction false} InvalidAborts(o: Owner, svc: Service)
    requires o.ServiceOwner?
    ensures Abort in ServiceSync(o, svc) || Usable(svc.parses, svc.ingress)
  {
    var ops := ServiceSync(o, svc);
    assert ops[|ops| - 1] in ops;
  }

  /** A sync that has succeeded has met no invalid address. */
  lemma {:induction false} SyncedUsable(db: Tables, c: Conn, spec: Spec, svcs: ServiceSnapshot, h: seq<Turn>)
    requires GoodServices(svcs) && IsHistory(db, c, h) && ServicesDone(h, spec, svcs)
    ensures UsableWhereSynced(spec, svcs)
  {
    forall o | o in svcs && IsSynced(spec, svcs[o]) ensures Usable(svcs[o].value.parses, svcs[o].value.ingress) {
      var s :| s in h && s.ok && s.task == ServiceTask(spec, o, svcs[o]);
      SomeSuccess(db, c, h, s);
      InvalidAborts(o, svcs[o].value);
    }
  }

  lemma {:induction false} ContentOwned(spec: Spec, o: Owner, svc: Fetched<Service>)
    requires o.ServiceOwner?
    ensures forall k <- ServiceContent(spec, o, svc) :: k in OwnerScope(IPAddress, o)
  {
    if IsSynced(spec, svc) {
      ServiceWantsFit(o, svc.value.parses, svc.value.ingress);
      ContentKeys(IPAddress, ServiceWants(o, svc.value.parses, svc.value.ingress));
    }
  }

  lemma {:induction false} ContentsSnoc(spec: Spec, svcs: ServiceSnapshot, init: seq<Owner>, last: Owner)
    requires GoodServices(svcs) && last in svcs && forall o <- init :: o in svcs
    ensures ContentsOf(spec, svcs, init + [last])
            == ContentsOf(spec, svcs, init) + ServiceContent(spec, last, svcs[last]).Keys
  {
    var owners := init + [last];
    assert forall o :: o in owners <==> o in init || o == last;
  }

  lemma {:induction false} ContentsApart(spec: Spec, svcs: ServiceSnapshot, owners: seq<Owner>, p: Owner)
    requires GoodServices(svcs) && p in svcs && p !in owners && forall o <- owners :: o in svcs
    ensures ContentsOf(spec, svcs, owners) !! ServiceContent(spec, p, svcs[p]).Keys
  {
    ContentOwned(spec, p, svcs[p]);
    forall k | k in ContentsOf(spec, svcs, owners) ensures k !in ServiceContent(spec, p, svcs[p]) {
      var o :| o in owners && k in ServiceContent(spec, o, svcs[o]);
      ContentOwned(spec, o, svcs[o]);
      ScopesApart(IPAddress, o, p);
    }
  }

  lemma {:induction false} ContentsCount(spec: Spec, svcs: ServiceSnapshot, owners: seq<Owner>)
    requires GoodServices(svcs) && UsableWhereSynced(spec, svcs) && NoRepeats(owners) && forall o <- owners :: o in svcs
    ensures |ContentsOf(spec, svcs, owners)| == SumOfIps(spec, svcs, owners)
  {
    if owners == [] {
    } else {
      var init, last := owners[..|owners| - 1], owners[|owners| - 1];
      assert owners == init + [last] && last !in init;
      ContentsCount(spec, svcs, init);
      ContentIps(spec, last, svcs[last]);
      ContentsSnoc(spec, svcs, init, last);
      ContentsApart(spec, svcs, init, last);
    }
  }

  lemma {:induction false} AllManaged(db: Tables, c: Conn, h: seq<Turn>)
    requires Unique(db, c) && TaggedAddresses(db, c) == {} && IsHistory(db, c, h)
    ensures Unique(EndOf(db, c, h), c) && AddressesManaged(EndOf(db, c, h), c)
  {
    HistoryUnique(db, c, h);
    assert AddressesManaged(db, c) by {
      assert forall r :: Tagged(db, c, r) && r.kind == IPAddress ==> r in TaggedAddresses(db, c);
    }
    HistoryAddressesManaged(db, c, h);
  }

  lemma {:induction false} ContentsAreAddresses(spec: Spec, svcs: ServiceSnapshot, owners: seq<Owner>)
    requires GoodServices(svcs) && forall o <- owners :: o in svcs
    ensures forall k <- ContentsOf(spec, svcs, owners) :: k.kind == IPAddress
  {
    forall k | k in ContentsOf(spec, svcs, owners) ensures k.kind == IPAddress {
      var o :| o in owners && k in ServiceContent(spec, o, svcs[o]);
      ContentOwned(spec, o, svcs[o]);
    }
  }

  lemma {:induction false} AddressKey(db: Tables, c: Conn, k: Key)
    requires Unique(db, c) && AddressesManaged(db, c) && k.kind == IPAddress
    ensures k in View(db, c) <==> k in (set r | r in TaggedAddresses(db, c) :: KeyOf(db, c, r))
  {
    if k in View(db, c) { var r := Holder(db, c, k); assert r in TaggedAddresses(db, c); }
    if k in (set r | r in TaggedAddresses(db, c) :: KeyOf(db, c, r)) {
      var r :| r in TaggedAddresses(db, c) && KeyOf(db, c, r) == k;
      InView(db, c, r);
    }
  }

  lemma {:induction false} AddressTagged(db: Tables, c: Conn, k: Key)
    requires Unique(db, c) && k.kind == IPAddress
    ensures k in View(db, c) ==> TaggedAddresses(db, c) != {}
  {
    if k in View(db, c) {
      var r := Holder(db, c, k);
      assert r in TaggedAddresses(db, c);
    }
  }

  lemma {:induction false} AddressSettles(db: Tables, c: Conn, spec: Spec, svcs: ServiceSnapshot, owners: seq<Owner>,
                                          h: seq<Turn>, k: Key)
    requires Unique(db, c) && TaggedAddresses(db, c) == {} && spec.services.enabled && k.kind == IPAddress
    requires GoodServices(svcs) && IsHistory(db, c, h) && ServicesDone(h, spec, svcs)
    requires forall o :: o in owners <==> o in svcs
    ensures Unique(EndOf(db, c, h), c)
    ensures k in View(EndOf(db, c, h), c) <==> k in ContentsOf(spec, svcs, owners)
  {
    if o :| o in svcs && k in OwnerScope(IPAddress, o) {
      ServicesSettle(db, c, spec, svcs, h, o, k);
      if k in ContentsOf(spec, svcs, owners) {
        var p :| p in owners && k in ServiceContent(spec, p, svcs[p]);
        ContentOwned(spec, p, svcs[p]);
        if p != o { ScopesApart(IPAddress, o, p); }
      }
    } else {
      forall t | t in h ensures k !in t.task.patch.scope {
        var o := ServiceFleetTask(spec, svcs, t.task);
      }
      Untouched(db, c, h, k);
      AddressTagged(db, c, k);
      if k in ContentsOf(spec, svcs, owners) {
        var p :| p in owners && k in ServiceContent(spec, p, svcs[p]);
        ContentOwned(spec, p, svcs[p]);
      }
    }
  }

  lemma {:induction false} ManagedKeys(db: Tables, c: Conn, spec: Spec, svcs: ServiceSnapshot, owners: seq<Owner>,
                                       h: seq<Turn>)
    requires Unique(db, c) && TaggedAddresses(db, c) == {} && spec.services.enabled
    requires GoodServices(svcs) && IsHistory(db, c, h) && ServicesDone(h, spec, svcs)
    requires forall o :: o in owners <==> o in svcs
    requires var end := EndOf(db, c, h); Unique(end, c) && AddressesManaged(end, c)
    ensures var end := EndOf(db, c, h);
            (set r | r in TaggedAddresses(end, c) :: KeyOf(end, c, r)) == ContentsOf(spec, svcs, owners)
  {
    var end := EndOf(db, c, h);
    var keys := set r | r in TaggedAddresses(end, c) :: KeyOf(end, c, r);
    ContentsAreAddresses(spec, svcs, owners);
    forall k: Key | k.kind == IPAddress ensures k in keys <==> k in ContentsOf(spec, svcs, owners) {
      AddressKey(end, c, k);
      AddressSettles(db, c, spec, svcs, owners, h, k);
    }
  }

  /** The managed count: from tables without tagged IP addresses, once every live Service has synced
      and every dead one's delete has succeeded, with whatever failures and repeats on the way, the
      number of tagged IP addresses is the sum over the live load-balancer Services of their
      distinct external IPs. */
  lemma {:induction false} ManagedCount(db: Tables, c: Conn, spec: Spec, svcs: ServiceSnapshot, owners: seq<Owner>,
                                        h: seq<Turn>)
    requires Unique(db, c) && TaggedAddresses(db, c) == {} && spec.services.enabled
    requires GoodServices(svcs) && IsHistory(db, c, h) && ServicesDone(h, spec, svcs)
    requires NoRepeats(owners) && forall o :: o in owners <==> o in svcs
    ensures |TaggedAddresses(EndOf(db, c, h), c)| == SumOfIps(spec, svcs, owners)
  {
    var end := EndOf(db, c, h);
    AllManaged(db, c, h);
    KeysCount(end, c, TaggedAddresses(end, c));
    ManagedKeys(db, c, spec, svcs, owners, h);
    SyncedUsable(db, c, spec, svcs, h);
    ContentsCount(spec, svcs, owners);
  }
}
