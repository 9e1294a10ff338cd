/** All controllers at once: one reconcile at a time each, interleaved call by call, sharing the
    Store and the tags, with other users of NetBox around them and restarts of the manager. */
module Interleaving {
  import opened ExternalIds
  import opened NetBox
  import opened Views
  import opened Plans

  // ---------------------------------------------------------------- the system

  datatype Controller = ConfigCtl | NodeCtl | ServiceCtl | PodCidrCtl | ClusterCtl

  /** The tables a controller writes. */
  function KindsOf(ctl: Controller): set<Kind> {
    match ctl
    case ConfigCtl => {}
    case NodeCtl => {Device, VirtualMachine}
    case ServiceCtl => {IPAddress}
    case PodCidrCtl => {Prefix, Aggregate}
    case ClusterCtl => {Cluster}
  }

  /** What the Store holds: a spec and the client built for it, which talks to one instance. */
  datatype Session = Session(site: nat, spec: Spec)

  function ConnOf(s: Session): Conn {
    Conn(s.site, ResolveTagSlug(s.spec))
  }

  /** A reconcile request together with what Kubernetes answers to it. */
  datatype Job =
    | NodeJob(name: string, node: Fetched<Node>)
    | ServiceJob(owner: Owner, svc: Fetched<Service>)
    | PodCidrJob(name: string, node: Fetched<Node>, nodes: Fetched<seq<Node>>)
    | ClusterJob(uid: string)

  function ControllerOf(job: Job): Controller {
    match job
    case NodeJob(_, _) => NodeCtl
    case ServiceJob(_, _) => ServiceCtl
    case PodCidrJob(_, _, _) => PodCidrCtl
    case ClusterJob(_) => ClusterCtl
  }

  predicate GoodJob(job: Job) {
    job.ServiceJob? ==> job.owner.ServiceOwner?
  }

  function PlanOf(spec: Spec, job: Job): seq<Op>
    requires GoodJob(job)
  {
    match job
    case NodeJob(name, node) => NodePlan(spec, name, node)
    case ServiceJob(o, svc) => ServicePlan(spec, o, svc)
    case PodCidrJob(name, node, nodes) => PodCidrPlan(spec, name, node, nodes)
    case ClusterJob(uid) => ClusterPlan(spec, uid)
  }

  /** The bootstrap of the HeraldConfig reconcile, up to the publication in the Store. */
  const BOOTSTRAP: seq<Op> := [EnsureTag, Check(CustomField)]

  datatype TagRef = TagRef(site: nat, id: nat)

  /** issued are all object IDs ever given out: NetBox never reuses one. pending is the session a
      running HeraldConfig reconcile is about to publish. fields are the instances that have the external-ID
      custom field. */
  datatype World = World(db: Tables, issued: set<Ref>, tags: map<TagRef, string>, fields: set<nat>,
                         store: Option<Session>, pending: Option<Session>, threads: map<Controller, Thread>)

  datatype Action =
    | Begin(job: Job)                              // a resource controller reads the Store and starts
    | BeginConfig(session: Session)                // the HeraldConfig controller starts its bootstrap
    | CallNext(ctl: Controller, reply: Reply)      // some running reconcile makes its next call
    | Finish(ctl: Controller)                      // a reconcile returns
    | Withdraw                                     // the HeraldConfig is gone, or its client cannot be built
    | UserEdit(ref: Ref, row: Option<Row>)         // somebody else writes or deletes an object
    | Restart                                      // the manager is replaced, between calls

  predicate HasTag(tags: map<TagRef, string>, c: Conn) {
    exists t :: t in tags && t.site == c.site && tags[t] == c.slug
  }

  predicate AdmissibleTag(w: World, c: Conn, call: Call, reply: Reply) {
    match call
    case ListTags => reply.TagListing? ==> (reply.found <==> HasTag(w.tags, c))
    case CreateTag => TakesEffect(reply) ==> TagRef(c.site, reply.id) !in w.tags
    case Create(kind, _) => TakesEffect(reply) ==> Ref(c.site, kind, reply.id) !in w.issued
    case _ => true
  }

  /** The two rows carry the same managed tags, and the same external ID if they carry one. */
  ghost predicate SameMark(m: set<string>, a: Row, b: Row) {
    && (forall slug <- m :: slug in a.tags <==> slug in b.tags)
    && (a.tags !! m || ReadExternalId(a.custom) == ReadExternalId(b.custom))
  }

  /** m are the managed-tag slugs ever configured. Other users may delete any object and change the
      content of any, at any time; what they do not do is put a managed tag on an object, take one
      off, or change the external ID of an object that carries one. */
  ghost predicate Possible(w: World, m: set<string>, a: Action) {
    match a
    case Begin(job) => GoodJob(job) && w.store.Some? && ControllerOf(job) !in w.threads
    case BeginConfig(s) => ConfigCtl !in w.threads && ResolveTagSlug(s.spec) in m
    case CallNext(ctl, reply) =>
      && ctl in w.threads && Active(w.threads[ctl])
      && var th := w.threads[ctl];
         Admissible(w.db, th.conn, NextCall(th), reply) && AdmissibleTag(w, th.conn, NextCall(th), reply)
    case Finish(ctl) => ctl in w.threads && !Active(w.threads[ctl])
    case Withdraw => ConfigCtl !in w.threads
    case UserEdit(r, row) =>
      if r in w.db then row.Some? ==> SameMark(m, w.db[r], row.value)
      else r !in w.issued && (row.Some? ==> row.value.tags !! m)
    case Restart => true
  }

  /** Other users moreover leave objects that carry a managed tag alone. */
  ghost predicate Legal(w: World, m: set<string>, a: Action) {
    Possible(w, m, a) && (a.UserEdit? && a.ref in w.db ==> w.db[a.ref].tags !! m)
  }

  function TagsAfter(tags: map<TagRef, string>, c: Conn, call: Call, reply: Reply): map<TagRef, string>
    requires call.CreateTag? ==> reply.Done? || reply.Lost?
  {
    if call.CreateTag? && TakesEffect(reply) then tags[TagRef(c.site, reply.id) := c.slug] else tags
  }

  function IssuedAfter(issued: set<Ref>, c: Conn, call: Call, reply: Reply): set<Ref>
    requires call.Create? ==> reply.Done? || reply.Lost?
  {
    if call.Create? && TakesEffect(reply) then issued + {Ref(c.site, call.kind, reply.id)} else issued
  }

  /** A call for the custom field that succeeds leaves it in place. */
  function FieldsAfter(fields: set<nat>, c: Conn, call: Call, reply: Reply): set<nat> {
    if call == Consult(CustomField) && TakesEffect(reply) then fields + {c.site} else fields
  }

  ghost function Do(w: World, m: set<string>, a: Action): World
    requires Possible(w, m, a)
  {
    match a
    case Begin(job) =>
      var s := w.store.value;
      w.(threads := w.threads[ControllerOf(job) := Start(ConnOf(s), PlanOf(s.spec, job))])
    case BeginConfig(s) =>
      w.(pending := Some(s), threads := w.threads[ConfigCtl := Start(ConnOf(s), BOOTSTRAP)])
    case CallNext(ctl, reply) =>
      var th := w.threads[ctl];
      w.(db := StepDb(w.db, th, reply),
         issued := IssuedAfter(w.issued, th.conn, NextCall(th), reply),
         tags := TagsAfter(w.tags, th.conn, NextCall(th), reply),
         fields := FieldsAfter(w.fields, th.conn, NextCall(th), reply),
         threads := w.threads[ctl := Advance(th, reply)])
    case Finish(ctl) =>
      w.(threads := w.threads - {ctl},
         store := if ctl != ConfigCtl then w.store else if Succeeded(w.threads[ctl]) then w.pending else None)
    case Withdraw => w.(store := None)
    case UserEdit(r, row) =>
      if row.Some? then w.(db := w.db[r := row.value], issued := w.issued + {r}) else w.(db := w.db - {r})
    case Restart => w.(store := None, threads := map[])
  }

  ghost predicate IsTrace(w: World, m: set<string>, acts: seq<Action>)
    decreases |acts|
  {
    acts != [] ==> Legal(w, m, acts[0]) && IsTrace(Do(w, m, acts[0]), m, acts[1..])
  }

  ghost function EndOfTrace(w: World, m: set<string>, acts: seq<Action>): World
    requires IsTrace(w, m, acts)
    decreases |acts|
  {
    if acts == [] then w else EndOfTrace(Do(w, m, acts[0]), m, acts[1..])
  }

  /** A course of events in which other users do whatever is possible. */
  ghost predicate IsCourse(w: World, m: set<string>, acts: seq<Action>)
    decreases |acts|
  {
    acts != [] ==> Possible(w, m, acts[0]) && IsCourse(Do(w, m, acts[0]), m, acts[1..])
  }

  ghost function EndOfCourse(w: World, m: set<string>, acts: seq<Action>): World
    requires IsCourse(w, m, acts)
    decreases |acts|
  {
    if acts == [] then w else EndOfCourse(Do(w, m, acts[0]), m, acts[1..])
  }

  /** The manager starts. Herald may have run before: there may be tags and managed objects, the
      tags distinct and the external IDs unique. */
  ghost predicate Initial(w: World, m: set<string>) {
    && w.store == None && w.pending == None && w.threads == map[]
    && w.db.Keys <= w.issued && UniqueAll(w.db, m) && TagsDistinct(w.tags)
  }

  // ---------------------------------------------------------------- the invariant

  predicate OpWithin(op: Op, kinds: set<Kind>) {
    op.Ensure? || op.Remove? ==> op.kind in kinds
  }

  predicate Within(ops: seq<Op>, kinds: set<Kind>) {
    forall op <- ops :: OpWithin(op, kinds)
  }

  ghost predicate UniqueAll(db: Tables, m: set<string>) {
    forall c: Conn :: c.slug in m ==> Unique(db, c)
  }

  ghost predicate TagsDistinct(tags: map<TagRef, string>) {
    forall s, t :: s in tags && t in tags && s.site == t.site && tags[s] == tags[t] ==> s == t
  }

  /** A running reconcile keeps to its tables, and what it knows of them is true. */
  ghost predicate ThreadGood(w: World, m: set<string>, ctl: Controller, th: Thread) {
    th.Running? ==> th.conn.slug in m && Within(th.ops, KindsOf(ctl)) && Knows(w.db, th)
  }

  /** A resource reconcile works on an instance that has its tag and the custom field. The bootstrap has
      ensured the tag once it is past its first operation, and still finds none when about to create it;
      and it has ensured the field at its end. */
  ghost predicate ThreadTagged(w: World, ctl: Controller, th: Thread) {
    th.Running? ==>
      if ctl != ConfigCtl then HasTag(w.tags, th.conn) && !th.phase.TagMissing? && th.conn.site in w.fields
      else
        && w.pending.Some? && th.conn == ConnOf(w.pending.value)
        && (th.phase.TagMissing? ==> !HasTag(w.tags, th.conn))
        && (EnsureTag !in th.ops ==> HasTag(w.tags, th.conn))
        && (th.ops == BOOTSTRAP || EnsureTag !in th.ops)
        && (th.ops == [] ==> th.conn.site in w.fields)
        && (th.ops == BOOTSTRAP || th.ops == [Check(CustomField)] || th.ops == [])
  }

  /** What a reconcile may rely on even if other users delete its objects under its hands: an Ensure
      knows the only object that can have its key, and what is to be updated or deleted is, if it is
      still there, the object that was found. */
  ghost predicate Guesses(w: World, th: Thread) {
    th.Running? && th.ops != [] ==>
      match th.phase
      case Found(target, _) =>
        th.ops[0].Ensure? ==>
          var k := Key(th.ops[0].kind, th.ops[0].ext);
          && (forall r :: HasKey(w.db, th.conn, r, k) ==> target == Some(r.id))
          && (target.Some? ==>
                var r := Ref(th.conn.site, k.kind, target.value);
                r in w.issued && (r in w.db ==> HasKey(w.db, th.conn, r, k)))
      case Doomed(ids) =>
        th.ops[0].Remove? ==>
          forall id <- ids ::
            var r := Ref(th.conn.site, th.ops[0].kind, id);
            r in w.issued && (r in w.db ==> Tagged(w.db, th.conn, r))
      case _ => true
  }

  ghost predicate ThreadCore(w: World, m: set<string>, ctl: Controller, th: Thread) {
    (th.Running? ==> th.conn.slug in m && Within(th.ops, KindsOf(ctl))) && Guesses(w, th) && ThreadTagged(w, ctl, th)
  }

  /** Safe whatever other users do. */
  ghost predicate Core(w: World, m: set<string>) {
    && w.db.Keys <= w.issued && UniqueAll(w.db, m) && TagsDistinct(w.tags)
    && (w.store.Some? ==> ConnOf(w.store.value).slug in m && HasTag(w.tags, ConnOf(w.store.value)))
    && (w.store.Some? ==> w.store.value.site in w.fields)
    && (w.pending.Some? ==> ConnOf(w.pending.value).slug in m)
    && (forall ctl <- w.threads :: ThreadCore(w, m, ctl, w.threads[ctl]))
  }

  /** Holds as long as other users leave managed objects alone. */
  ghost predicate Inv(w: World, m: set<string>) {
    Core(w, m) && forall ctl <- w.threads :: ThreadGood(w, m, ctl, w.threads[ctl])
  }

  // ---------------------------------------------------------------- frames

  /** The two states have the same tagged objects of these kinds. */
  ghost predicate SameRows(db: Tables, db': Tables, c: Conn, kinds: set<Kind>) {
    forall r: Ref :: r.kind in kinds ==>
        (Tagged(db, c, r) <==> Tagged(db', c, r)) && (Tagged(db, c, r) ==> db'[r] == db[r])
  }

  lemma {:induction false} KnowsFrame(db: Tables, db': Tables, th: Thread, kinds: set<Kind>)
    requires th.Running? && Within(th.ops, kinds) && Knows(db, th) && SameRows(db, db', th.conn, kinds)
    ensures Knows(db', th)
  {
    if th.ops != [] {
      assert OpWithin(th.ops[0], kinds);
      assert forall r, k: Key :: k.kind in kinds ==> (HasKey(db', th.conn, r, k) <==> HasKey(db, th.conn, r, k));
    }
  }

  /** A call changes at most one object, and that in a table of its operation. */
  lemma {:induction false} CallFrame(db: Tables, th: Thread, reply: Reply, c: Conn, kinds: set<Kind>)
    requires Active(th) && Admissible(db, th.conn, NextCall(th), reply)
    requires th.ops[0].Ensure? || th.ops[0].Remove? ==> th.ops[0].kind !in kinds
    ensures SameRows(db, StepDb(db, th, reply), c, kinds)
  {
  }

  /** A call under one tag adds nothing to the objects of another tag or instance. */
  lemma {:induction false} CallOther(db: Tables, th: Thread, reply: Reply, d: Conn)
    requires Active(th) && Admissible(db, th.conn, NextCall(th), reply)
    requires Unique(db, d) && d != th.conn
    ensures Unique(StepDb(db, th, reply), d)
  {
    var db' := StepDb(db, th, reply);
    assert forall r, k :: HasKey(db', d, r, k) ==> HasKey(db, d, r, k);
  }

  lemma {:induction false} UserFrame(w: World, m: set<string>, a: Action, c: Conn, kinds: set<Kind>)
    requires a.UserEdit? && Legal(w, m, a) && c.slug in m
    ensures SameRows(w.db, Do(w, m, a).db, c, kinds)
  {
  }

  const ALL_KINDS: set<Kind> := {Device, VirtualMachine, IPAddress, Prefix, Aggregate, Cluster}

  lemma {:induction false} EveryKind(k: Kind)
    ensures k in ALL_KINDS
  {
    match k case Device => case VirtualMachine => case IPAddress => case Prefix => case Aggregate => case Cluster =>
  }

  // ---------------------------------------------------------------- preservation

  lemma {:induction false} EnsuresWithin(kind: Kind, ws: seq<Want>, kinds: set<Kind>)
    requires kind in kinds
    ensures Within(Ensures(kind, ws), kinds)
  {
    forall op | op in Ensures(kind, ws) ensures OpWithin(op, kinds) {
      var i :| 0 <= i < |ws| && Ensures(kind, ws)[i] == op;
    }
  }

  lemma {:induction false} ClearWithin(nodes: seq<Node>, kinds: set<Kind>)
    requires Prefix in kinds
    ensures Within(ClearNodes(nodes), kinds)
  {
    forall op | op in ClearNodes(nodes) ensures OpWithin(op, kinds) {
      var i :| 0 <= i < |nodes| && ClearNodes(nodes)[i] == op;
    }
  }

  lemma {:induction false} PodCidrWithin(spec: Spec, name: string, node: Fetched<Node>, nodes: Fetched<seq<Node>>)
    ensures Within(PodCidrPlan(spec, name, node, nodes), KindsOf(PodCidrCtl))
  {
    if spec.podCidrs.aggregate {
      if nodes.Present? { ClearWithin(nodes.value, KindsOf(PodCidrCtl)); }
    } else if node.Present? {
      EnsuresWithin(Prefix, PrefixWants(node.value), KindsOf(PodCidrCtl));
    }
  }

  lemma {:induction false} PlanWithin(spec: Spec, job: Job)
    requires GoodJob(job)
    ensures Within(PlanOf(spec, job), KindsOf(ControllerOf(job)))
  {
    match job {
      case ServiceJob(o, svc) =>
        if svc.Present? {
          EnsuresWithin(IPAddress, ServiceWants(o, svc.value.parses, svc.value.ingress), KindsOf(ServiceCtl));
        }
      case PodCidrJob(name, node, nodes) => PodCidrWithin(spec, name, node, nodes);
      case _ =>
    }
  }

  lemma {:induction false} KindsApart(a: Controller, b: Controller, k: Kind)
    requires a != b && k in KindsOf(a)
    ensures k !in KindsOf(b)
  {
  }

  /** The step of one controller leaves the tables of another as they are. */
  lemma {:induction false} CallElsewhere(w: World, m: set<string>, ctl: Controller, reply: Reply, r: Ref)
    requires Core(w, m) && Possible(w, m, CallNext(ctl, reply)) && r.kind !in KindsOf(ctl)
    ensures var db' := Do(w, m, CallNext(ctl, reply)).db;
            (r in w.db <==> r in db') && (r in w.db ==> db'[r] == w.db[r])
  {
    var th := w.threads[ctl];
    assert ThreadCore(w, m, ctl, th) && OpWithin(th.ops[0], KindsOf(ctl));
  }

  /** Objects of these kinds may have gone, but none has come that matters, and none has changed its mark. */
  ghost predicate Fades(w: World, w': World, c: Conn, kinds: set<Kind>) {
    && w.issued <= w'.issued
    && (forall r: Ref, k: Key :: r.kind in kinds && HasKey(w'.db, c, r, k) ==> HasKey(w.db, c, r, k))
    && (forall r: Ref :: r.kind in kinds && r in w.issued && r in w'.db ==>
       r in w.db && (Tagged(w.db, c, r) ==> Tagged(w'.db, c, r)))
    && (forall r: Ref, k: Key :: r.kind in kinds && r in w'.db && HasKey(w.db, c, r, k) ==> HasKey(w'.db, c, r, k))
  }

  lemma {:induction false} GuessFrame(w: World, w': World, th: Thread, kinds: set<Kind>)
    requires th.Running? && Within(th.ops, kinds) && Guesses(w, th) && Fades(w, w', th.conn, kinds)
    ensures Guesses(w', th)
  {
    if th.ops != [] {
      assert OpWithin(th.ops[0], kinds);
    }
  }

  /** What is known is a fortiori guessed. */
  lemma {:induction false} KnowsGuesses(w: World, th: Thread)
    requires th.Running? && Knows(w.db, th) && Unique(w.db, th.conn) && w.db.Keys <= w.issued
    ensures Guesses(w, th)
  {
  }

  lemma {:induction false} UserFades(w: World, m: set<string>, a: Action, c: Conn, kinds: set<Kind>)
    requires a.UserEdit? && Possible(w, m, a) && c.slug in m && w.db.Keys <= w.issued
    ensures Fades(w, Do(w, m, a), c, kinds)
  {
    var w' := Do(w, m, a);
    assert forall r: Ref :: r != a.ref ==> (r in w.db <==> r in w'.db) && (r in w.db ==> w'.db[r] == w.db[r]);
    if a.ref in w.db && a.row.Some? {
      assert c.slug in w.db[a.ref].tags <==> c.slug in a.row.value.tags;
    }
  }

  lemma {:induction false} OwnGuesses(w: World, m: set<string>, ctl: Controller, reply: Reply)
    requires Core(w, m) && Possible(w, m, CallNext(ctl, reply))
    ensures var w' := Do(w, m, CallNext(ctl, reply)); Guesses(w', w'.threads[ctl])
  {
    var th, w' := w.threads[ctl], Do(w, m, CallNext(ctl, reply));
    assert ThreadCore(w, m, ctl, th) && Unique(w.db, th.conn);
    if reply.Listing? {
      ListKnows(w.db, th, reply);
      KnowsGuesses(w', Advance(th, reply));
    } else if th.phase.Doomed? && reply.Done? && |th.phase.ids| > 1 {
      assert forall id <- th.phase.ids[1..] :: id in th.phase.ids;
    }
  }

  lemma {:induction false} OtherGuesses(w: World, m: set<string>, ctl: Controller, reply: Reply, other: Controller)
    requires Core(w, m) && Possible(w, m, CallNext(ctl, reply)) && other in w.threads && other != ctl
    ensures Guesses(Do(w, m, CallNext(ctl, reply)), w.threads[other])
  {
    var th, w' := w.threads[other], Do(w, m, CallNext(ctl, reply));
    assert ThreadCore(w, m, other, th);
    if th.Running? {
      forall r: Ref | r.kind in KindsOf(other)
        ensures (r in w.db <==> r in w'.db) && (r in w.db ==> w'.db[r] == w.db[r])
      {
        KindsApart(other, ctl, r.kind);
        CallElsewhere(w, m, ctl, reply, r);
      }
      GuessFrame(w, w', th, KindsOf(other));
    }
  }

  lemma {:induction false} CallWithin(w: World, m: set<string>, ctl: Controller, reply: Reply)
    requires Core(w, m) && Possible(w, m, CallNext(ctl, reply))
    ensures var th' := Advance(w.threads[ctl], reply);
            th'.Running? ==> th'.conn.slug in m && Within(th'.ops, KindsOf(ctl))
  {
    var th, th' := w.threads[ctl], Advance(w.threads[ctl], reply);
    assert ThreadCore(w, m, ctl, th);
    assert th'.Running? ==> forall op <- th'.ops :: op in th.ops;
  }

  /** An Ensure that guesses right does not duplicate a key. */
  lemma {:induction false} StepUnique(w: World, th: Thread, reply: Reply)
    requires Active(th) && Admissible(w.db, th.conn, NextCall(th), reply) && Guesses(w, th)
    requires Unique(w.db, th.conn)
    ensures Unique(StepDb(w.db, th, reply), th.conn)
  {
    var c, db' := th.conn, StepDb(w.db, th, reply);
    if NextCall(th).Create? && TakesEffect(reply) {
      var r, k := Ref(c.site, th.ops[0].kind, reply.id), Key(th.ops[0].kind, th.ops[0].ext);
      assert forall s, j | s != r :: HasKey(db', c, s, j) <==> HasKey(w.db, c, s, j);
      assert forall j :: HasKey(db', c, r, j) ==> j == k;
      assert forall s :: !HasKey(w.db, c, s, k);
    } else {
      assert forall s, j :: HasKey(db', c, s, j) ==> HasKey(w.db, c, s, j);
    }
  }

  lemma {:induction false} CallUnique(w: World, m: set<string>, ctl: Controller, reply: Reply)
    requires Core(w, m) && Possible(w, m, CallNext(ctl, reply))
    ensures UniqueAll(Do(w, m, CallNext(ctl, reply)).db, m)
  {
    var th := w.threads[ctl];
    assert ThreadCore(w, m, ctl, th);
    assert Unique(w.db, th.conn);
    StepUnique(w, th, reply);
    forall d: Conn | d.slug in m ensures Unique(StepDb(w.db, th, reply), d) {
      assert Unique(w.db, d);
      if d != th.conn { CallOther(w.db, th, reply, d); }
    }
  }

  lemma {:induction false} TagsGrow(w: World, m: set<string>, ctl: Controller, reply: Reply)
    requires Core(w, m) && Possible(w, m, CallNext(ctl, reply))
    ensures var w' := Do(w, m, CallNext(ctl, reply));
            && TagsDistinct(w'.tags) && w.fields <= w'.fields
            && (forall c :: HasTag(w.tags, c) ==> HasTag(w'.tags, c))
            && (NextCall(w.threads[ctl]).CreateTag? && reply.Done? ==> HasTag(w'.tags, w.threads[ctl].conn))
  {
    var th, w' := w.threads[ctl], Do(w, m, CallNext(ctl, reply));
    assert ThreadCore(w, m, ctl, th);
    if NextCall(th).CreateTag? && TakesEffect(reply) {
      var t := TagRef(th.conn.site, reply.id);
      assert w'.tags[t] == th.conn.slug;
      assert forall s :: s in w.tags ==> s in w'.tags && w'.tags[s] == w.tags[s];
    }
    forall c | HasTag(w.tags, c) ensures HasTag(w'.tags, c) {
      var s :| s in w.tags && s.site == c.site && w.tags[s] == c.slug;
      assert s in w'.tags && w'.tags[s] == w.tags[s];
    }
  }

  lemma {:induction false} CallTags(w: World, m: set<string>, ctl: Controller, reply: Reply)
    requires Core(w, m) && Possible(w, m, CallNext(ctl, reply))
    ensures var w' := Do(w, m, CallNext(ctl, reply));
            && TagsDistinct(w'.tags)
            && (forall c :: HasTag(w.tags, c) ==> HasTag(w'.tags, c))
            && (forall other <- w'.threads :: ThreadTagged(w', other, w'.threads[other]))
  {
    var th, w' := w.threads[ctl], Do(w, m, CallNext(ctl, reply));
    assert ThreadCore(w, m, ctl, th);
    TagsGrow(w, m, ctl, reply);
    forall other | other in w'.threads ensures ThreadTagged(w', other, w'.threads[other]) {
      assert ThreadCore(w, m, other, w.threads[other]);
      if other == ctl && w'.threads[ctl].Running? {
        assert forall op <- w'.threads[ctl].ops :: op in th.ops;
        assert BOOTSTRAP[1..] == [Check(CustomField)];
      }
    }
  }

  lemma {:induction false} CallCore(w: World, m: set<string>, ctl: Controller, reply: Reply)
    requires Core(w, m) && Possible(w, m, CallNext(ctl, reply))
    ensures Core(Do(w, m, CallNext(ctl, reply)), m)
  {
    var w' := Do(w, m, CallNext(ctl, reply));
    assert ThreadCore(w, m, ctl, w.threads[ctl]);
    CallUnique(w, m, ctl, reply);
    CallTags(w, m, ctl, reply);
    forall other | other in w'.threads ensures ThreadCore(w', m, other, w'.threads[other]) {
      assert ThreadCore(w, m, other, w.threads[other]);
      if other == ctl {
        OwnGuesses(w, m, ctl, reply);
        CallWithin(w, m, ctl, reply);
      } else {
        OtherGuesses(w, m, ctl, reply, other);
      }
    }
  }

  lemma {:induction false} UserCore(w: World, m: set<string>, a: Action)
    requires Core(w, m) && a.UserEdit? && Possible(w, m, a)
    ensures Core(Do(w, m, a), m)
  {
    var w' := Do(w, m, a);
    forall c: Conn | c.slug in m ensures Unique(w'.db, c) {
      assert Unique(w.db, c);
      UserFades(w, m, a, c, ALL_KINDS);
      forall r: Ref ensures r.kind in ALL_KINDS { EveryKind(r.kind); }
    }
    forall ctl | ctl in w'.threads ensures ThreadCore(w', m, ctl, w'.threads[ctl]) {
      var th := w.threads[ctl];
      assert ThreadCore(w, m, ctl, th);
      if th.Running? {
        UserFades(w, m, a, th.conn, KindsOf(ctl));
        GuessFrame(w, w', th, KindsOf(ctl));
      }
    }
  }

  /** Threads that go on undisturbed keep what they know. */
  lemma {:induction false} KeepThreads(w: World, w': World, m: set<string>)
    requires Core(w, m) && w'.db == w.db && w'.tags == w.tags && w'.fields == w.fields
             && w'.pending == w.pending && w'.issued == w.issued
    requires forall ctl <- w'.threads :: ctl in w.threads && w'.threads[ctl] == w.threads[ctl]
    ensures forall ctl <- w'.threads :: ThreadCore(w', m, ctl, w'.threads[ctl])
  {
    forall ctl | ctl in w'.threads ensures ThreadCore(w', m, ctl, w'.threads[ctl]) {
      assert ThreadCore(w, m, ctl, w.threads[ctl]);
    }
  }

  lemma {:induction false} BeginCore(w: World, m: set<string>, job: Job)
    requires Core(w, m) && Possible(w, m, Begin(job))
    ensures Core(Do(w, m, Begin(job)), m)
  {
    var w' := Do(w, m, Begin(job));
    PlanWithin(w.store.value.spec, job);
    forall ctl | ctl in w'.threads ensures ThreadCore(w', m, ctl, w'.threads[ctl]) {
      if ctl in w.threads { assert ThreadCore(w, m, ctl, w.threads[ctl]); }
    }
  }

  lemma {:induction false} BeginConfigCore(w: World, m: set<string>, s: Session)
    requires Core(w, m) && Possible(w, m, BeginConfig(s))
    ensures Core(Do(w, m, BeginConfig(s)), m)
  {
    var w' := Do(w, m, BeginConfig(s));
    assert BOOTSTRAP[0] == EnsureTag && EnsureTag in BOOTSTRAP;
    forall ctl | ctl in w'.threads ensures ThreadCore(w', m, ctl, w'.threads[ctl]) {
      if ctl in w.threads { assert ThreadCore(w, m, ctl, w.threads[ctl]); }
    }
  }

  lemma {:induction false} StepCore(w: World, m: set<string>, a: Action)
    requires Core(w, m) && Possible(w, m, a)
    ensures Core(Do(w, m, a), m)
  {
    match a {
      case CallNext(ctl, reply) => CallCore(w, m, ctl, reply);
      case UserEdit(_, _) => UserCore(w, m, a);
      case Begin(job) => BeginCore(w, m, job);
      case BeginConfig(s) => BeginConfigCore(w, m, s);
      case Finish(ctl) =>
        assert ThreadCore(w, m, ctl, w.threads[ctl]);
        KeepThreads(w, Do(w, m, a), m);
      case _ => KeepThreads(w, Do(w, m, a), m);
    }
  }

  lemma {:induction false} CourseCore(w: World, m: set<string>, acts: seq<Action>)
    requires Core(w, m) && IsCourse(w, m, acts)
    ensures Core(EndOfCourse(w, m, acts), m)
    decreases |acts|
  {
    if acts == [] {
    } else {
      StepCore(w, m, acts[0]);
      CourseCore(Do(w, m, acts[0]), m, acts[1..]);
    }
  }

  lemma {:induction false} CallGood(w: World, m: set<string>, ctl: Controller, reply: Reply, other: Controller)
    requires Inv(w, m) && Legal(w, m, CallNext(ctl, reply)) && other in w.threads
    ensures var w' := Do(w, m, CallNext(ctl, reply));
            ThreadGood(w', m, other, w'.threads[other])
  {
    var th := w.threads[ctl];
    assert ThreadGood(w, m, ctl, th) && ThreadGood(w, m, other, w.threads[other]);
    assert Unique(w.db, th.conn);
    assert OpWithin(th.ops[0], KindsOf(ctl));
    if other == ctl {
      StepMoves(w.db, th, reply);
      CallWithin(w, m, ctl, reply);
    } else if w.threads[other].Running? {
      if th.ops[0].Ensure? || th.ops[0].Remove? { KindsApart(ctl, other, th.ops[0].kind); }
      CallFrame(w.db, th, reply, w.threads[other].conn, KindsOf(other));
      KnowsFrame(w.db, StepDb(w.db, th, reply), w.threads[other], KindsOf(other));
    }
  }

  lemma {:induction false} StepGood(w: World, m: set<string>, a: Action, ctl: Controller)
    requires Inv(w, m) && Legal(w, m, a) && ctl in Do(w, m, a).threads
    ensures ThreadGood(Do(w, m, a), m, ctl, Do(w, m, a).threads[ctl])
  {
    if a.CallNext? {
      CallGood(w, m, a.ctl, a.reply, ctl);
    } else if (a.Begin? && ctl == ControllerOf(a.job)) || (a.BeginConfig? && ctl == ConfigCtl) {
      StepCore(w, m, a);
      assert ThreadCore(Do(w, m, a), m, ctl, Do(w, m, a).threads[ctl]);
    } else {
      var th := w.threads[ctl];
      assert ThreadGood(w, m, ctl, th);
      if a.UserEdit? && th.Running? {
        UserFrame(w, m, a, th.conn, KindsOf(ctl));
        KnowsFrame(w.db, Do(w, m, a).db, th, KindsOf(ctl));
      }
    }
  }

  lemma {:induction false} StepInv(w: World, m: set<string>, a: Action)
    requires Inv(w, m) && Legal(w, m, a)
    ensures Inv(Do(w, m, a), m)
  {
    StepCore(w, m, a);
    var w' := Do(w, m, a);
    forall ctl | ctl in w'.threads ensures ThreadGood(w', m, ctl, w'.threads[ctl]) {
      StepGood(w, m, a, ctl);
    }
  }

  lemma {:induction false} TraceInv(w: World, m: set<string>, acts: seq<Action>)
    requires Inv(w, m) && IsTrace(w, m, acts)
    ensures Inv(EndOfTrace(w, m, acts), m)
    decreases |acts|
  {
    if acts == [] {
    } else {
      StepInv(w, m, acts[0]);
      TraceInv(Do(w, m, acts[0]), m, acts[1..]);
    }
  }

  // ---------------------------------------------------------------- main results

  /** In every reachable state of every interleaving, each table of each instance holds at most one
      object per managed tag and external ID, although every Ensure is a find followed by a create and
      other users may delete managed objects in between. */
  lemma {:induction false} AtMostOneObject(w: World, m: set<string>, acts: seq<Action>, c: Conn, r: Ref, s: Ref, k: Key)
    requires Initial(w, m) && IsCourse(w, m, acts) && c.slug in m
    requires HasKey(EndOfCourse(w, m, acts).db, c, r, k) && HasKey(EndOfCourse(w, m, acts).db, c, s, k)
    ensures r == s
  {
    CourseCore(w, m, acts);
    assert Unique(EndOfCourse(w, m, acts).db, c);
  }

  /** In every reachable state: the session in the Store, and the one a running resource reconcile
      holds, name an instance that has that spec's tag and the external-ID custom field; no resource
      controller is about to create a tag; and each slug has at most one tag per instance. */
  lemma {:induction false} TagBeforeUse(w: World, m: set<string>, acts: seq<Action>)
    requires Initial(w, m) && IsCourse(w, m, acts)
    ensures var e := EndOfCourse(w, m, acts);
            && (e.store.Some? ==> HasTag(e.tags, ConnOf(e.store.value)) && e.store.value.site in e.fields)
            && (forall ctl <- e.threads :: ctl != ConfigCtl && e.threads[ctl].Running? ==>
                  HasTag(e.tags, e.threads[ctl].conn) && e.threads[ctl].conn.site in e.fields)
            && (forall ctl <- e.threads :: ctl != ConfigCtl && Active(e.threads[ctl]) ==>
               !NextCall(e.threads[ctl]).CreateTag?)
            && TagsDistinct(e.tags)
  {
    CourseCore(w, m, acts);
    var e := EndOfCourse(w, m, acts);
    forall ctl | ctl in e.threads && ctl != ConfigCtl && e.threads[ctl].Running?
      ensures HasTag(e.tags, e.threads[ctl].conn) && !e.threads[ctl].phase.TagMissing?
      ensures e.threads[ctl].conn.site in e.fields
    {
      assert ThreadCore(e, m, ctl, e.threads[ctl]);
    }
  }

  /** In every reachable state, the next call of any controller changes or deletes only an object
      that carries the managed tag at that moment. */
  lemma {:induction false} OnlyTaggedTouched(w: World, m: set<string>, acts: seq<Action>, ctl: Controller,
                                             reply: Reply, r: Ref)
    requires Initial(w, m) && IsCourse(w, m, acts)
    requires var e := EndOfCourse(w, m, acts);
             && Possible(e, m, CallNext(ctl, reply)) && r in e.db
             && var db' := Do(e, m, CallNext(ctl, reply)).db; r !in db' || db'[r] != e.db[r]
    ensures var e := EndOfCourse(w, m, acts);
            Tagged(e.db, e.threads[ctl].conn, r)
  {
    CourseCore(w, m, acts);
    var e := EndOfCourse(w, m, acts);
    assert ThreadCore(e, m, ctl, e.threads[ctl]);
  }

  /** A HeraldConfig reconcile returns after its whole bootstrap. */
  predicate Publishes(w: World, a: Action) {
    a == Finish(ConfigCtl) && ConfigCtl in w.threads && Succeeded(w.threads[ConfigCtl])
  }

  ghost predicate NonePublishes(w: World, m: set<string>, acts: seq<Action>)
    requires IsCourse(w, m, acts)
    decreases |acts|
  {
    acts != [] ==> !Publishes(w, acts[0]) && NonePublishes(Do(w, m, acts[0]), m, acts[1..])
  }

  lemma {:induction false} GateStaysClosed(w: World, m: set<string>, acts: seq<Action>)
    requires w.store == None && IsCourse(w, m, acts) && NonePublishes(w, m, acts)
    ensures EndOfCourse(w, m, acts).store == None && forall a <- acts :: !a.Begin?
    decreases |acts|
  {
    if acts == [] {
    } else {
      GateStaysClosed(Do(w, m, acts[0]), m, acts[1..]);
      assert acts == [acts[0]] + acts[1..];
    }
  }

  /** Once a HeraldConfig reconcile has failed, or the HeraldConfig is gone, or the manager has restarted, the
      Store is empty and no resource reconcile starts until a bootstrap has been carried out in full. */
  lemma {:induction false} FailureClosesGate(w: World, m: set<string>, a: Action, acts: seq<Action>)
    requires Possible(w, m, a) && (a.Withdraw? || a.Restart? || (a == Finish(ConfigCtl) && !Publishes(w, a)))
    requires IsCourse(Do(w, m, a), m, acts) && NonePublishes(Do(w, m, a), m, acts)
    ensures EndOfCourse(Do(w, m, a), m, acts).store == None && forall b <- acts :: !b.Begin?
  {
    GateStaysClosed(Do(w, m, a), m, acts);
  }

  // ---------------------------------------------------------------- every controller by itself

  /** The tagged objects of a controller's tables. */
  function Project(db: Tables, c: Conn, kinds: set<Kind>): Tables {
    map r | r in db && Tagged(db, c, r) && r.kind in kinds :: db[r]
  }

  lemma {:induction false} ProjectFrame(db: Tables, db': Tables, c: Conn, kinds: set<Kind>)
    requires SameRows(db, db', c, kinds)
    ensures Project(db', c, kinds) == Project(db, c, kinds)
  {
  }

  lemma {:induction false} ProjectUnique(db: Tables, c: Conn, kinds: set<Kind>)
    requires Unique(db, c)
    ensures Unique(Project(db, c, kinds), c)
  {
    assert forall r, k :: HasKey(Project(db, c, kinds), c, r, k) ==> HasKey(db, c, r, k);
  }

  lemma {:induction false} ProjectListing(db: Tables, c: Conn, kinds: set<Kind>, kind: Kind, items: seq<Item>)
    requires IsListing(db, c, kind, items) && kind in kinds
    ensures IsListing(Project(db, c, kinds), c, kind, items)
  {
    var p := Project(db, c, kinds);
    forall i | 0 <= i < |items|
      ensures Ref(c.site, kind, items[i].id) in p && p[Ref(c.site, kind, items[i].id)] == items[i].row
    {
      assert Tagged(db, c, Ref(c.site, kind, items[i].id));
    }
  }

  lemma {:induction false} ProjectApply(db: Tables, th: Thread, reply: Reply, kinds: set<Kind>)
    requires Active(th) && Admissible(db, th.conn, NextCall(th), reply)
    requires Knows(db, th) && Within(th.ops, kinds)
    ensures StepDb(Project(db, th.conn, kinds), th, reply) == Project(StepDb(db, th, reply), th.conn, kinds)
  {
    assert OpWithin(th.ops[0], kinds);
    var a, b := StepDb(Project(db, th.conn, kinds), th, reply), Project(StepDb(db, th, reply), th.conn, kinds);
    assert forall r :: r in a <==> r in b;
    assert forall r :: r in a ==> a[r] == b[r];
  }

  /** A call acts on the projection as it does on all tables. */
  lemma {:induction false} ProjectStep(db: Tables, th: Thread, reply: Reply, kinds: set<Kind>)
    requires Active(th) && Admissible(db, th.conn, NextCall(th), reply)
    requires Knows(db, th) && Within(th.ops, kinds)
    ensures Admissible(Project(db, th.conn, kinds), th.conn, NextCall(th), reply)
    ensures StepDb(Project(db, th.conn, kinds), th, reply) == Project(StepDb(db, th, reply), th.conn, kinds)
  {
    assert OpWithin(th.ops[0], kinds);
    if NextCall(th).List? && reply.Listing? {
      ProjectListing(db, th.conn, kinds, NextCall(th).kind, reply.items);
    }
    ProjectApply(db, th, reply, kinds);
  }

  /** The replies a controller gets in a trace. */
  function OwnReplies(acts: seq<Action>, ctl: Controller): seq<Reply> {
    if acts == [] then []
    else (if acts[0].CallNext? && acts[0].ctl == ctl then [acts[0].reply] else []) + OwnReplies(acts[1..], ctl)
  }

  /** No restart, and the controller's reconcile does not return. */
  predicate Undisturbed(acts: seq<Action>, ctl: Controller) {
    forall a <- acts :: !a.Restart? && a != Finish(ctl)
  }

  lemma {:induction false} OtherAction(w: World, m: set<string>, a: Action, ctl: Controller, c: Conn)
    requires Inv(w, m) && Legal(w, m, a) && c.slug in m && !(a.CallNext? && a.ctl == ctl)
    ensures Project(Do(w, m, a).db, c, KindsOf(ctl)) == Project(w.db, c, KindsOf(ctl))
  {
    if a.CallNext? {
      var th := w.threads[a.ctl];
      assert ThreadGood(w, m, a.ctl, th) && OpWithin(th.ops[0], KindsOf(a.ctl));
      if th.ops[0].Ensure? || th.ops[0].Remove? { KindsApart(a.ctl, ctl, th.ops[0].kind); }
      CallFrame(w.db, th, a.reply, c, KindsOf(ctl));
      ProjectFrame(w.db, Do(w, m, a).db, c, KindsOf(ctl));
    } else if a.UserEdit? {
      UserFrame(w, m, a, c, KindsOf(ctl));
      ProjectFrame(w.db, Do(w, m, a).db, c, KindsOf(ctl));
    }
  }

  /** The thread takes the controller's tables from db to db', and itself to th', on its own. */
  ghost predicate RunsAlone(db: Tables, th: Thread, rs: seq<Reply>, db': Tables, th': Thread, c: Conn,
                            kinds: set<Kind>)
  {
    && IsRun(Project(db, c, kinds), th, rs)
    && After(Project(db, c, kinds), th, rs) == Config(Project(db', c, kinds), th')
  }

  /** A run of the projection starts with a call of the thread. */
  lemma {:induction false} RunCons(db: Tables, th: Thread, reply: Reply, kinds: set<Kind>, rs: seq<Reply>)
    requires Active(th) && Admissible(db, th.conn, NextCall(th), reply) && Knows(db, th) && Within(th.ops, kinds)
    requires IsRun(Project(StepDb(db, th, reply), th.conn, kinds), Advance(th, reply), rs)
    ensures var p := Project(db, th.conn, kinds);
            && IsRun(p, th, [reply] + rs)
            && After(p, th, [reply] + rs)
               == After(Project(StepDb(db, th, reply), th.conn, kinds), Advance(th, reply), rs)
  {
    ProjectStep(db, th, reply, kinds);
    assert ([reply] + rs)[1..] == rs;
  }

  lemma {:induction false} StoppedForGood(w: World, m: set<string>, acts: seq<Action>, ctl: Controller, c: Conn)
    requires Inv(w, m) && IsTrace(w, m, acts) && Undisturbed(acts, ctl) && c.slug in m
    requires ctl in w.threads && w.threads[ctl].Stopped?
    ensures var e := EndOfTrace(w, m, acts);
            && ctl in e.threads && e.threads[ctl] == Stopped && OwnReplies(acts, ctl) == []
            && Project(e.db, c, KindsOf(ctl)) == Project(w.db, c, KindsOf(ctl))
    decreases |acts|
  {
    if acts == [] {
    } else {
      StepInv(w, m, acts[0]);
      assert acts[0] in acts;
      assert forall b <- acts[1..] :: b in acts;
      OtherAction(w, m, acts[0], ctl, c);
      StoppedForGood(Do(w, m, acts[0]), m, acts[1..], ctl, c);
    }
  }

  /** Serializability: in any interleaving, what happens to a controller's tables while one of its
      reconciles runs is exactly that reconcile's own sequential run on them. All results about
      sequential runs therefore hold of every reconcile in every interleaving. */
  lemma {:induction false} Serializable(w: World, m: set<string>, acts: seq<Action>, ctl: Controller)
    requires Inv(w, m) && IsTrace(w, m, acts) && Undisturbed(acts, ctl)
    requires ctl in w.threads && w.threads[ctl].Running?
    ensures var e := EndOfTrace(w, m, acts);
            && ctl in e.threads
            && RunsAlone(w.db, w.threads[ctl], OwnReplies(acts, ctl), e.db, e.threads[ctl], w.threads[ctl].conn,
               KindsOf(ctl))
    decreases |acts|
  {
    if acts == [] {
    } else {
      var a := acts[0];
      StepInv(w, m, a);
      assert a in acts;
      assert forall b <- acts[1..] :: b in acts;
      if a.CallNext? && a.ctl == ctl {
        OwnCall(w, m, acts, ctl);
      } else {
        OtherAction(w, m, a, ctl, w.threads[ctl].conn) by { assert ThreadGood(w, m, ctl, w.threads[ctl]); }
        assert OwnReplies(acts, ctl) == OwnReplies(acts[1..], ctl);
        Serializable(Do(w, m, a), m, acts[1..], ctl);
      }
    }
  }

  lemma {:induction false} OwnCall(w: World, m: set<string>, acts: seq<Action>, ctl: Controller)
    requires Inv(w, m) && IsTrace(w, m, acts) && Undisturbed(acts, ctl)
    requires ctl in w.threads && w.threads[ctl].Running?
    requires acts != [] && acts[0].CallNext? && acts[0].ctl == ctl
    requires Inv(Do(w, m, acts[0]), m) && Undisturbed(acts[1..], ctl)
    ensures var e := EndOfTrace(w, m, acts);
            && ctl in e.threads
            && RunsAlone(w.db, w.threads[ctl], OwnReplies(acts, ctl), e.db, e.threads[ctl], w.threads[ctl].conn,
               KindsOf(ctl))
    decreases |acts|, 0
  {
    var th, reply, w' := w.threads[ctl], acts[0].reply, Do(w, m, acts[0]);
    assert ThreadGood(w, m, ctl, th);
    assert w'.threads[ctl] == Advance(th, reply) && w'.db == StepDb(w.db, th, reply);
    var e, rest := EndOfTrace(w', m, acts[1..]), OwnReplies(acts[1..], ctl);
    assert ctl in e.threads && RunsAlone(w'.db, w'.threads[ctl], rest, e.db, e.threads[ctl], th.conn, KindsOf(ctl)) by {
      if w'.threads[ctl].Running? {
        Serializable(w', m, acts[1..], ctl);
      } else {
        StoppedForGood(w', m, acts[1..], ctl, th.conn);
      }
    }
    RunCons(w.db, th, reply, KindsOf(ctl), rest);
  }
}
