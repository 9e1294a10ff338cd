/** The life of Nodes: they appear, are synced under changing specs, vanish, and are reaped by
    name because their UID is gone with them. */
module NodeLifecycle {
  import opened NetBox
  import opened Views
  import opened Plans

  /** holder gives the UID behind each Node name, from the Node's appearance until a delete
      reconcile for it has succeeded; used are all UIDs so far. */
  datatype Life = Life(db: Tables, holder: map<string, string>, live: set<string>, used: set<string>)

  datatype Event =
    | Appear(name: string, uid: string)
    | Sync(spec: Spec, node: Node, rs: seq<Reply>)                // a reconcile of a live Node, however it ends
    | Vanish(name: string)
    | Reap(spec: Spec, name: string, rs: seq<Reply>, ok: bool)    // a reconcile of a Node that is gone

  ghost predicate Enabled(l: Life, c: Conn, e: Event) {
    match e
    case Appear(name, uid) => name !in l.holder && uid !in l.used
    case Sync(spec, node, rs) =>
      && node.name in l.live && node.name in l.holder && node.uid == l.holder[node.name]
      && IsRun(l.db, Start(c, NodePlan(spec, node.name, Present(node))), rs)
    case Vanish(name) => name in l.live
    case Reap(spec, name, rs, ok) =>
      && name !in l.live
      && IsRun(l.db, Start(c, NodePlan(spec, name, Missing)), rs)
      && (ok ==> Succeeded(After(l.db, Start(c, NodePlan(spec, name, Missing)), rs).th))
  }

  ghost function Step(l: Life, c: Conn, e: Event): Life
    requires Enabled(l, c, e)
  {
    match e
    case Appear(name, uid) => l.(holder := l.holder[name := uid], live := l.live + {name}, used := l.used + {uid})
    case Sync(spec, node, rs) => l.(db := After(l.db, Start(c, NodePlan(spec, node.name, Present(node))), rs).db)
    case Vanish(name) => l.(live := l.live - {name})
    case Reap(spec, name, rs, ok) =>
      l.(db := After(l.db, Start(c, NodePlan(spec, name, Missing)), rs).db,
         holder := if ok then l.holder - {name} else l.holder)
  }

  ghost predicate IsLife(l: Life, c: Conn, es: seq<Event>)
    decreases |es|
  {
    es != [] ==> Enabled(l, c, es[0]) && IsLife(Step(l, c, es[0]), c, es[1..])
  }

  ghost function EndOfLife(l: Life, c: Conn, es: seq<Event>): Life
    requires IsLife(l, c, es)
    decreases |es|
  {
    if es == [] then l else EndOfLife(Step(l, c, es[0]), c, es[1..])
  }

  predicate IsNodeKind(k: Kind) {
    k.Device? || k.VirtualMachine?
  }

  /** Herald starts with no tagged Device or VirtualMachine and no known Node. */
  ghost predicate Initial(l: Life, c: Conn) {
    && l.holder == map[] && l.live == {} && Unique(l.db, c)
    && forall r :: Tagged(l.db, c, r) ==> !IsNodeKind(r.kind)
  }

  predicate RowNamed(row: Row, holder: map<string, string>) {
    row.payload.name in holder && ReadExternalId(row.custom) == Some(holder[row.payload.name])
  }

  ghost predicate Named(db: Tables, c: Conn, holder: map<string, string>) {
    forall r :: Tagged(db, c, r) && IsNodeKind(r.kind) ==> RowNamed(db[r], holder)
  }

  /** Each tagged Device and VirtualMachine bears the name of a known Node and the UID behind it. */
  ghost predicate Inv(l: Life, c: Conn) {
    && Unique(l.db, c)
    && (forall n <- l.live :: n in l.holder)
    && (forall n <- l.holder :: l.holder[n] in l.used)
    && (forall m, n :: m in l.holder && n in l.holder && l.holder[m] == l.holder[n] ==> m == n)
    && Named(l.db, c, l.holder)
  }

  lemma {:induction false} InitialInv(l: Life, c: Conn)
    requires Initial(l, c)
    ensures Inv(l, c)
  {
  }

  /** A run leaves only rows that were there before and rows that one of its operations writes. */
  lemma {:induction false} RunRows(db: Tables, th: Thread, rs: seq<Reply>, r: Ref)
    requires IsRun(db, th, rs) && th.Running? && r in After(db, th, rs).db
    ensures var row := After(db, th, rs).db[r];
            || (r in db && row == db[r])
            || exists op ::
                 && op in th.ops && op.Ensure? && op.kind == r.kind && r.site == th.conn.site
                 && row == HeraldRow(th.conn.slug, op.ext, op.payload)
    decreases |rs|
  {
    if rs == [] {
    } else {
      var db', th' := StepDb(db, th, rs[0]), Advance(th, rs[0]);
      assert th.ops[0] in th.ops;
      if th'.Running? {
        RunRows(db', th', rs[1..], r);
        assert forall op <- th'.ops :: op in th.ops;
      }
    }
  }

  lemma {:induction false} RunNamed(db: Tables, c: Conn, ops: seq<Op>, rs: seq<Reply>, holder: map<string, string>)
    requires IsRun(db, Start(c, ops), rs) && Named(db, c, holder)
    requires forall op <- ops :: op.Ensure? && IsNodeKind(op.kind) ==>
               op.payload.name in holder && op.ext == holder[op.payload.name]
    ensures Named(After(db, Start(c, ops), rs).db, c, holder)
  {
    var db' := After(db, Start(c, ops), rs).db;
    forall r | Tagged(db', c, r) && IsNodeKind(r.kind) ensures RowNamed(db'[r], holder) {
      RunRows(db, Start(c, ops), rs, r);
      if r in db && db'[r] == db[r] { assert Tagged(db, c, r); }
    }
  }

  lemma {:induction false} NamedSolo(l: Life, c: Conn, kind: Kind, name: string)
    requires Inv(l, c) && IsNodeKind(kind)
    ensures Solo(l.db, c, kind, name)
  {
    forall r, s | Tagged(l.db, c, r) && Tagged(l.db, c, s) && r.kind == kind && s.kind == kind
                  && l.db[r].payload.name == name && l.db[s].payload.name == name
      ensures r == s && Managed(l.db, c, r)
    {
      assert RowNamed(l.db[r], l.holder) && RowNamed(l.db[s], l.holder);
      assert HasKey(l.db, c, r, Key(kind, l.holder[name])) && HasKey(l.db, c, s, Key(kind, l.holder[name]));
    }
  }

  /** The keys a Node of this name may hold. */
  function KeysOfNode(holder: map<string, string>, name: string): set<Key> {
    if name in holder then {Key(Device, holder[name]), Key(VirtualMachine, holder[name])} else {}
  }

  lemma {:induction false} NameIsUid(l: Life, c: Conn, name: string, k: Key)
    requires Inv(l, c) && k in View(l.db, c) && IsNodeKind(k.kind)
    ensures View(l.db, c)[k].name == name <==> k in KeysOfNode(l.holder, name)
  {
    var r := Holder(l.db, c, k);
    assert RowNamed(l.db[r], l.holder);
  }

  lemma {:induction false} RemovedByName(v: ViewMap, name: string, keys: set<Key>)
    requires forall k <- keys :: IsNodeKind(k.kind)
    requires forall k <- v :: IsNodeKind(k.kind) ==> (v[k].name == name <==> k in keys)
    ensures EffectOf(Remove(VirtualMachine, ByName(name)), EffectOf(Remove(Device, ByName(name)), v)) == v - keys
  {
  }

  lemma {:induction false} ByNameIsByUid(l: Life, c: Conn, name: string)
    requires Inv(l, c)
    ensures EffectOf(Remove(VirtualMachine, ByName(name)), EffectOf(Remove(Device, ByName(name)), View(l.db, c)))
         == View(l.db, c) - KeysOfNode(l.holder, name)
  {
    var v := View(l.db, c);
    forall k | k in v && IsNodeKind(k.kind)
      ensures v[k].name == name <==> k in KeysOfNode(l.holder, name)
    {
      NameIsUid(l, c, name, k);
    }
    RemovedByName(v, name, KeysOfNode(l.holder, name));
  }

  lemma {:induction false} ReapRun(l: Life, c: Conn, spec: Spec, name: string, rs: seq<Reply>)
    requires Inv(l, c) && IsRun(l.db, Start(c, NodePlan(spec, name, Missing)), rs)
    ensures var k := After(l.db, Start(c, NodePlan(spec, name, Missing)), rs);
            && Unique(k.db, c) && Named(k.db, c, l.holder)
            && (Succeeded(k.th) ==> View(k.db, c) == View(l.db, c) - KeysOfNode(l.holder, name))
  {
    var ops := NodePlan(spec, name, Missing);
    NamedSolo(l, c, Device, name);
    NamedSolo(l, c, VirtualMachine, name);
    RunEffect(l.db, Start(c, ops), rs);
    RunNamed(l.db, c, ops, rs, l.holder);
    Effect2(ops[0], ops[1], View(l.db, c));
    ByNameIsByUid(l, c, name);
  }

  lemma {:induction false} ReapNamed(l: Life, c: Conn, spec: Spec, name: string, rs: seq<Reply>)
    requires Inv(l, c) && IsRun(l.db, Start(c, NodePlan(spec, name, Missing)), rs)
    requires Succeeded(After(l.db, Start(c, NodePlan(spec, name, Missing)), rs).th)
    ensures Named(After(l.db, Start(c, NodePlan(spec, name, Missing)), rs).db, c, l.holder - {name})
  {
    ReapRun(l, c, spec, name, rs);
    var db' := After(l.db, Start(c, NodePlan(spec, name, Missing)), rs).db;
    forall r | Tagged(db', c, r) && IsNodeKind(r.kind) ensures RowNamed(db'[r], l.holder - {name}) {
      assert RowNamed(db'[r], l.holder);
      InView(db', c, r);
    }
  }

  lemma {:induction false} StepInv(l: Life, c: Conn, e: Event)
    requires Inv(l, c) && Enabled(l, c, e)
    ensures Inv(Step(l, c, e), c)
  {
    match e {
      case Sync(spec, node, rs) =>
        var ops := NodePlan(spec, node.name, Present(node));
        RunNamed(l.db, c, ops, rs, l.holder);
        RunEffect(l.db, Start(c, ops), rs);
      case Reap(spec, name, rs, ok) =>
        ReapRun(l, c, spec, name, rs);
        if ok { ReapNamed(l, c, spec, name, rs); }
      case _ =>
    }
  }

  lemma {:induction false} LifeInv(l: Life, c: Conn, es: seq<Event>)
    requires Inv(l, c) && IsLife(l, c, es)
    ensures Inv(EndOfLife(l, c, es), c)
    decreases |es|
  {
    if es == [] {
    } else {
      StepInv(l, c, es[0]);
      LifeInv(Step(l, c, es[0]), c, es[1..]);
    }
  }

  /** In every run in which no name is used again before a delete reconcile for it has succeeded,
      with any mapping switches, disables, re-enables and failures on the way, a successful delete by
      name removes exactly the Device and the VirtualMachine that bear the dead Node's UID; each
      UID has at most one of each; and the name is then borne by no tagged object. */
  lemma {:induction false} DeletionByNameExact(l0: Life, c: Conn, es: seq<Event>, e: Event)
    requires Inv(l0, c) && IsLife(l0, c, es)
    requires e.Reap? && e.ok && Enabled(EndOfLife(l0, c, es), c, e)
    ensures var l := EndOfLife(l0, c, es);
            var l' := Step(l, c, e);
            && Unique(l.db, c) && Unique(l'.db, c)
            && View(l'.db, c) == View(l.db, c) - KeysOfNode(l.holder, e.name)
            && (forall r :: Tagged(l'.db, c, r) && IsNodeKind(r.kind) ==> l'.db[r].payload.name != e.name)
  {
    LifeInv(l0, c, es);
    var l := EndOfLife(l0, c, es);
    ReapRun(l, c, e.spec, e.name, e.rs);
    StepInv(l, c, e);
    var l' := Step(l, c, e);
    forall r | Tagged(l'.db, c, r) && IsNodeKind(r.kind) ensures l'.db[r].payload.name != e.name {
      assert RowNamed(l'.db[r], l'.holder);
    }
  }
}
