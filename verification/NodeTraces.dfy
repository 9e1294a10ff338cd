/** The life of Nodes while all controllers run: Nodes appear and vanish at any moment, also in the
    middle of a reconcile, and the calls of the Node controller interleave with everybody else's. */
module NodeTraces {
  import opened NetBox
  import opened Views
  import opened Plans
  import opened Interleaving
  import NodeLifecycle

  /** A Node reconcile under way: what it was started with, the Nodes known and the controller's tables
      at that moment, and its replies so far. */
  datatype Visit = Visit(spec: Spec, name: string, node: Fetched<Node>, known: map<string, string>, start: Tables,
                         rs: seq<Reply>)

  /** holder, live and used as in NodeLifecycle.Life. */
  datatype Cluster = Cluster(w: World, holder: map<string, string>, live: set<string>, used: set<string>,
                             busy: Option<Visit>)

  datatype Event =
    | Appear(name: string, uid: string)
    | Vanish(name: string)
    | Act(action: Action)

  /** What Kubernetes answers when asked for the Node is true at that moment. */
  predicate TrueAnswer(k: Cluster, name: string, node: Fetched<Node>) {
    match node
    case Present(n) => n.name == name && name in k.live && name in k.holder && n.uid == k.holder[name]
    case Missing => name !in k.live
    case Unreadable => true
  }

  predicate BeginsNode(a: Action) {
    a.Begin? && a.job.NodeJob?
  }

  ghost predicate Enabled(k: Cluster, m: set<string>, c: Conn, e: Event) {
    match e
    case Appear(name, uid) => name !in k.holder && uid !in k.used
    case Vanish(name) => name in k.live
    case Act(a) =>
      && Legal(k.w, m, a)
      && (BeginsNode(a) ==> ConnOf(k.w.store.value) == c && TrueAnswer(k, a.job.name, a.job.node))
  }

  ghost function BusyAfter(k: Cluster, c: Conn, a: Action): Option<Visit>
    requires BeginsNode(a) ==> k.w.store.Some?
  {
    if BeginsNode(a) then
      Some(Visit(k.w.store.value.spec, a.job.name, a.job.node, k.holder, Project(k.w.db, c, KindsOf(NodeCtl)), []))
    else if a.Restart? || a == Finish(NodeCtl) then None
    else if a.CallNext? && a.ctl == NodeCtl && k.busy.Some? then Some(k.busy.value.(rs := k.busy.value.rs + [a.reply]))
    else k.busy
  }

  /** The delete reconcile of a Node that is gone returns with success. */
  predicate Reaps(k: Cluster, a: Action) {
    && a == Finish(NodeCtl) && NodeCtl in k.w.threads && Succeeded(k.w.threads[NodeCtl])
    && k.busy.Some? && k.busy.value.node.Missing? && k.busy.value.name in k.busy.value.known
  }

  ghost function Step(k: Cluster, m: set<string>, c: Conn, e: Event): Cluster
    requires Enabled(k, m, c, e)
  {
    match e
    case Appear(name, uid) => k.(holder := k.holder[name := uid], live := k.live + {name}, used := k.used + {uid})
    case Vanish(name) => k.(live := k.live - {name})
    case Act(a) =>
      k.(w := Do(k.w, m, a), busy := BusyAfter(k, c, a),
         holder := if Reaps(k, a) then k.holder - {k.busy.value.name} else k.holder)
  }

  ghost predicate IsTrack(k: Cluster, m: set<string>, c: Conn, es: seq<Event>)
    decreases |es|
  {
    es != [] ==> Enabled(k, m, c, es[0]) && IsTrack(Step(k, m, c, es[0]), m, c, es[1..])
  }

  ghost function EndOfTrack(k: Cluster, m: set<string>, c: Conn, es: seq<Event>): Cluster
    requires IsTrack(k, m, c, es)
    decreases |es|
  {
    if es == [] then k else EndOfTrack(Step(k, m, c, es[0]), m, c, es[1..])
  }

  /** The manager starts, and no Node has been synced under the tag of c. */
  ghost predicate Initial(k: Cluster, m: set<string>, c: Conn) {
    && Interleaving.Initial(k.w, m) && c.slug in m
    && k.holder == map[] && k.live == {} && k.busy == None
    && forall r :: Tagged(k.w.db, c, r) ==> !NodeLifecycle.IsNodeKind(r.kind)
  }

  // ---------------------------------------------------------------- the invariant

  predicate KnownStill(known: map<string, string>, holder: map<string, string>) {
    forall n <- known :: n in holder && holder[n] == known[n]
  }

  /** The Nodes and the tables at the start of the visit fit together as in a life of Nodes. */
  ghost predicate GoodVisit(v: Visit, c: Conn) {
    && NodeLifecycle.Inv(NodeLifecycle.Life(v.start, v.known, {}, v.known.Values), c)
    && (v.node.Present? ==> v.node.value.name == v.name && v.name in v.known && v.node.value.uid == v.known[v.name])
  }

  ghost predicate Follows(w: World, v: Visit, c: Conn) {
    && NodeCtl in w.threads && (w.threads[NodeCtl].Running? ==> w.threads[NodeCtl].conn == c)
    && IsRun(v.start, Start(c, NodePlan(v.spec, v.name, v.node)), v.rs)
    && After(v.start, Start(c, NodePlan(v.spec, v.name, v.node)), v.rs)
       == Config(Project(w.db, c, KindsOf(NodeCtl)), w.threads[NodeCtl])
  }

  ghost predicate TrackInv(k: Cluster, m: set<string>, c: Conn) {
    && Interleaving.Inv(k.w, m) && c.slug in m
    && (forall n <- k.live :: n in k.holder)
    && (forall n <- k.holder :: k.holder[n] in k.used)
    && (forall n, o :: n in k.holder && o in k.holder && k.holder[n] == k.holder[o] ==> n == o)
    && NodeLifecycle.Named(k.w.db, c, k.holder)
    && match k.busy
       case None => NodeCtl !in k.w.threads
       case Some(v) =>
         && GoodVisit(v, c) && KnownStill(v.known, k.holder) && Follows(k.w, v, c)
         && (v.node.Missing? && v.name in v.known ==> v.name !in k.live)
  }

  // ---------------------------------------------------------------- preservation

  /** The tagged Devices and VirtualMachines are those of the Node controller's tables. */
  lemma {:induction false} NamedByProjection(db: Tables, c: Conn, holder: map<string, string>)
    ensures NodeLifecycle.Named(Project(db, c, KindsOf(NodeCtl)), c, holder) <==> NodeLifecycle.Named(db, c, holder)
  {
    var p := Project(db, c, KindsOf(NodeCtl));
    assert forall r: Ref :: NodeLifecycle.IsNodeKind(r.kind) ==>
           (Tagged(p, c, r) <==> Tagged(db, c, r)) && (Tagged(db, c, r) ==> p[r] == db[r]);
  }

  lemma {:induction false} NamedStill(db: Tables, c: Conn, known: map<string, string>, holder: map<string, string>)
    requires NodeLifecycle.Named(db, c, known) && KnownStill(known, holder)
    ensures NodeLifecycle.Named(db, c, holder)
  {
    forall r | Tagged(db, c, r) && NodeLifecycle.IsNodeKind(r.kind) ensures NodeLifecycle.RowNamed(db[r], holder) {
      assert NodeLifecycle.RowNamed(db[r], known);
    }
  }

  /** All through a visit the objects bear names of Nodes that were known at its start. */
  lemma {:induction false} VisitNamed(w: World, v: Visit, c: Conn)
    requires GoodVisit(v, c) && Follows(w, v, c)
    ensures NodeLifecycle.Named(w.db, c, v.known)
  {
    NodeLifecycle.RunNamed(v.start, c, NodePlan(v.spec, v.name, v.node), v.rs, v.known);
    NamedByProjection(w.db, c, v.known);
  }

  lemma {:induction false} OwnCallFollows(w: World, m: set<string>, c: Conn, reply: Reply, v: Visit)
    requires Interleaving.Inv(w, m) && Legal(w, m, CallNext(NodeCtl, reply)) && Follows(w, v, c)
    ensures Follows(Do(w, m, CallNext(NodeCtl, reply)), v.(rs := v.rs + [reply]), c)
  {
    var th := w.threads[NodeCtl];
    assert ThreadGood(w, m, NodeCtl, th);
    ProjectStep(w.db, th, reply, KindsOf(NodeCtl));
    RunSnoc(v.start, Start(c, NodePlan(v.spec, v.name, v.node)), v.rs, reply);
  }

  lemma {:induction false} BeginFollows(k: Cluster, m: set<string>, c: Conn, a: Action)
    requires TrackInv(k, m, c) && Enabled(k, m, c, Act(a)) && BeginsNode(a)
    ensures GoodVisit(BusyAfter(k, c, a).value, c) && Follows(Do(k.w, m, a), BusyAfter(k, c, a).value, c)
  {
    assert Unique(k.w.db, c);
    ProjectUnique(k.w.db, c, KindsOf(NodeCtl));
    NamedByProjection(k.w.db, c, k.holder);
  }

  lemma {:induction false} ActFollows(k: Cluster, m: set<string>, c: Conn, a: Action)
    requires TrackInv(k, m, c) && Enabled(k, m, c, Act(a))
    ensures var k' := Step(k, m, c, Act(a));
            match k'.busy
            case None => NodeCtl !in k'.w.threads
            case Some(v) =>
              && GoodVisit(v, c) && KnownStill(v.known, k'.holder) && Follows(k'.w, v, c)
              && (v.node.Missing? && v.name in v.known ==> v.name !in k'.live)
  {
    if BeginsNode(a) {
      BeginFollows(k, m, c, a);
    } else if a.CallNext? && a.ctl == NodeCtl {
      OwnCallFollows(k.w, m, c, a.reply, k.busy.value);
    } else {
      OtherAction(k.w, m, a, NodeCtl, c);
    }
  }

  lemma {:induction false} ReapNames(k: Cluster, m: set<string>, c: Conn)
    requires TrackInv(k, m, c) && Enabled(k, m, c, Act(Finish(NodeCtl))) && Reaps(k, Finish(NodeCtl))
    ensures NodeLifecycle.Named(k.w.db, c, k.holder - {k.busy.value.name})
  {
    var v := k.busy.value;
    var l := NodeLifecycle.Life(v.start, v.known, {}, v.known.Values);
    NodeLifecycle.ReapNamed(l, c, v.spec, v.name, v.rs);
    NamedByProjection(k.w.db, c, v.known - {v.name});
    NamedStill(k.w.db, c, v.known - {v.name}, k.holder - {v.name});
  }

  lemma {:induction false} ActNamed(k: Cluster, m: set<string>, c: Conn, a: Action)
    requires TrackInv(k, m, c) && Enabled(k, m, c, Act(a))
    ensures NodeLifecycle.Named(Step(k, m, c, Act(a)).w.db, c, Step(k, m, c, Act(a)).holder)
  {
    var k' := Step(k, m, c, Act(a));
    if a.CallNext? && a.ctl == NodeCtl {
      ActFollows(k, m, c, a);
      VisitNamed(k'.w, k'.busy.value, c);
      NamedStill(k'.w.db, c, k'.busy.value.known, k'.holder);
    } else if Reaps(k, a) {
      ReapNames(k, m, c);
    } else {
      OtherAction(k.w, m, a, NodeCtl, c);
      NamedByProjection(k.w.db, c, k.holder);
      NamedByProjection(k'.w.db, c, k.holder);
    }
  }

  lemma {:induction false} StepTrackInv(k: Cluster, m: set<string>, c: Conn, e: Event)
    requires TrackInv(k, m, c) && Enabled(k, m, c, e)
    ensures TrackInv(Step(k, m, c, e), m, c)
  {
    match e {
      case Act(a) =>
        StepInv(k.w, m, a);
        ActFollows(k, m, c, a);
        ActNamed(k, m, c, a);
      case Appear(name, uid) =>
        NamedStill(k.w.db, c, k.holder, k.holder[name := uid]);
      case Vanish(_) =>
    }
  }

  lemma {:induction false} TrackInvHolds(k: Cluster, m: set<string>, c: Conn, es: seq<Event>)
    requires TrackInv(k, m, c) && IsTrack(k, m, c, es)
    ensures TrackInv(EndOfTrack(k, m, c, es), m, c)
    decreases |es|
  {
    if es == [] {
    } else {
      StepTrackInv(k, m, c, es[0]);
      TrackInvHolds(Step(k, m, c, es[0]), m, c, es[1..]);
    }
  }

  // ---------------------------------------------------------------- main result

  lemma {:induction false} InitialTrackInv(k: Cluster, m: set<string>, c: Conn)
    requires Initial(k, m, c)
    ensures TrackInv(k, m, c)
  {
  }

  /** Deletion by name under every interleaving: in any run in which no name is used again before a delete
      reconcile for it has succeeded, with all controllers, other users, failed calls, restarts, mapping
      switches, disables and re-enables, and Nodes that come and go in the middle of it all, a successful
      delete by name has taken from the tables it found exactly the Device and the VirtualMachine that bear
      the dead Node's UID, and leaves no tagged object of the name. */
  lemma {:induction false} DeletionByNameInterleaved(k0: Cluster, m: set<string>, c: Conn, es: seq<Event>)
    requires TrackInv(k0, m, c) && IsTrack(k0, m, c, es)
    requires var k := EndOfTrack(k0, m, c, es);
             Enabled(k, m, c, Act(Finish(NodeCtl))) && k.busy.Some? && k.busy.value.node.Missing?
                 && Succeeded(k.w.threads[NodeCtl])
    ensures var k := EndOfTrack(k0, m, c, es);
            var v, p := k.busy.value, Project(k.w.db, c, KindsOf(NodeCtl));
            && Unique(v.start, c) && Unique(p, c)
            && View(p, c) == View(v.start, c) - NodeLifecycle.KeysOfNode(v.known, v.name)
            && (forall r :: Tagged(k.w.db, c, r) && NodeLifecycle.IsNodeKind(r.kind) ==>
               k.w.db[r].payload.name != v.name)
  {
    TrackInvHolds(k0, m, c, es);
    var k := EndOfTrack(k0, m, c, es);
    var v := k.busy.value;
    var l := NodeLifecycle.Life(v.start, v.known, {}, v.known.Values);
    NodeLifecycle.ReapRun(l, c, v.spec, v.name, v.rs);
    NodeLifecycle.ReapNamed(l, c, v.spec, v.name, v.rs);
    NamedByProjection(k.w.db, c, v.known - {v.name});
    forall r | Tagged(k.w.db, c, r) && NodeLifecycle.IsNodeKind(r.kind) ensures k.w.db[r].payload.name != v.name {
      assert NodeLifecycle.RowNamed(k.w.db[r], v.known - {v.name});
    }
  }
}
