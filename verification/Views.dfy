/** What a reconcile does to the view: the map from (kind, external ID) to payload of the
    objects it manages, in which NetBox IDs do not appear. */
module Views {
  import opened ExternalIds
  import opened NetBox

  datatype Key = Key(kind: Kind, ext: string)

  type ViewMap = map<Key, Payload>

  // ---------------------------------------------------------------- views

  predicate Tagged(db: Tables, c: Conn, r: Ref) {
    r in db && r.site == c.site && c.slug in db[r].tags
  }

  /** Carries the managed tag and an external ID. */
  predicate Managed(db: Tables, c: Conn, r: Ref) {
    Tagged(db, c, r) && ReadExternalId(db[r].custom).Some?
  }

  function KeyOf(db: Tables, c: Conn, r: Ref): Key
    requires Managed(db, c, r)
  {
    Key(r.kind, ReadExternalId(db[r].custom).value)
  }

  predicate HasKey(db: Tables, c: Conn, r: Ref, k: Key) {
    Managed(db, c, r) && KeyOf(db, c, r) == k
  }

  /** At most one object per table, managed tag and external ID. */
  ghost predicate Unique(db: Tables, c: Conn) {
    forall r, s, k :: HasKey(db, c, r, k) && HasKey(db, c, s, k) ==> r == s
  }

  function KeysIn(db: Tables, c: Conn): set<Key> {
    set r | r in db && Managed(db, c, r) :: KeyOf(db, c, r)
  }

  ghost function HolderOf(db: Tables, c: Conn, k: Key): (r: Ref)
    requires k in KeysIn(db, c)
    ensures HasKey(db, c, r, k)
  {
    var r :| r in db && Managed(db, c, r) && KeyOf(db, c, r) == k; r
  }

  ghost function View(db: Tables, c: Conn): ViewMap
    requires Unique(db, c)
  {
    map k | k in KeysIn(db, c) :: db[HolderOf(db, c, k)].payload
  }

  lemma {:induction false} InView(db: Tables, c: Conn, r: Ref)
    requires Unique(db, c) && Managed(db, c, r)
    ensures KeyOf(db, c, r) in View(db, c) && View(db, c)[KeyOf(db, c, r)] == db[r].payload
  {
    var k := KeyOf(db, c, r);
    assert HasKey(db, c, r, k) && HasKey(db, c, HolderOf(db, c, k), k);
  }

  lemma {:induction false} Holder(db: Tables, c: Conn, k: Key) returns (r: Ref)
    requires Unique(db, c) && k in View(db, c)
    ensures HasKey(db, c, r, k) && View(db, c)[k] == db[r].payload
  {
    r := HolderOf(db, c, k);
  }

  ghost predicate SameAt(v: ViewMap, w: ViewMap, k: Key) {
    (k in v <==> k in w) && (k in v ==> v[k] == w[k])
  }

  lemma {:induction false} SameEverywhere(v: ViewMap, w: ViewMap)
    requires forall k :: SameAt(v, w, k)
    ensures v == w
  {
    assert forall k :: k in v <==> k in w by {
      forall k ensures k in v <==> k in w { assert SameAt(v, w, k); }
    }
    forall k | k in v ensures v[k] == w[k] { assert SameAt(v, w, k); }
  }

  /** Writing Herald's row over its own object, or as a new object whose key is free. */
  lemma {:induction false} ViewPut(db: Tables, c: Conn, r: Ref, ext: string, payload: Payload)
    requires Unique(db, c) && r.site == c.site
    requires r in db ==> HasKey(db, c, r, Key(r.kind, ext))
    requires r !in db ==> forall s :: !HasKey(db, c, s, Key(r.kind, ext))
    ensures var db' := db[r := HeraldRow(c.slug, ext, payload)];
            Unique(db', c) && View(db', c) == View(db, c)[Key(r.kind, ext) := payload]
  {
    var k := Key(r.kind, ext);
    var db' := db[r := HeraldRow(c.slug, ext, payload)];
    assert HasKey(db', c, r, k);
    assert forall s, j | s != r :: HasKey(db', c, s, j) <==> HasKey(db, c, s, j);
    var v, w := View(db, c)[k := payload], View(db', c);
    forall j | j in w ensures j in v && w[j] == v[j] {
      var s := Holder(db', c, j);
      if s != r { InView(db, c, s); }
    }
    forall j | j in v ensures j in w {
      if j == k { InView(db', c, r); } else {
        var s := Holder(db, c, j);
        InView(db', c, s);
      }
    }
  }

  lemma {:induction false} ViewDrop(db: Tables, c: Conn, r: Ref)
    requires Unique(db, c)
    ensures Unique(db - {r}, c)
    ensures View(db - {r}, c) == if Managed(db, c, r) then View(db, c) - {KeyOf(db, c, r)} else View(db, c)
  {
    var db' := db - {r};
    assert forall s, j | s != r :: HasKey(db', c, s, j) <==> HasKey(db, c, s, j);
    assert forall j :: !HasKey(db', c, r, j);
    var v, w := if Managed(db, c, r) then View(db, c) - {KeyOf(db, c, r)} else View(db, c), View(db', c);
    forall j | j in w ensures j in v && w[j] == v[j] {
      var s := Holder(db', c, j);
      InView(db, c, s);
      if Managed(db, c, r) { assert HasKey(db, c, r, KeyOf(db, c, r)); }
    }
    forall j | j in v ensures j in w {
      var s := Holder(db, c, j);
      InView(db', c, s);
    }
  }

  // ---------------------------------------------------------------- what operations mean

  /** op removes an object with this key and payload. */
  predicate Hits(op: Op, k: Key, p: Payload) {
    && op.Remove? && k.kind == op.kind
    && match op.sel
       case ByExternalId(ext) => k.ext == ext
       case ByName(name) => p.name == name
       case Owned(prefix, keep) => HasPrefix(k.ext, prefix) && k.ext !in keep
  }

  function EffectOf(op: Op, v: ViewMap): ViewMap {
    match op
    case Ensure(kind, ext, payload, _) => v[Key(kind, ext) := payload]
    case Remove(_, _) => map k | k in v && !Hits(op, k, v[k]) :: v[k]
    case _ => v
  }

  /** The meaning of a list of operations, without calls, replies or NetBox IDs. */
  function Effect(ops: seq<Op>, v: ViewMap): ViewMap {
    if ops == [] then v else Effect(ops[1..], EffectOf(ops[0], v))
  }

  lemma {:induction false} EffectConcat(a: seq<Op>, b: seq<Op>, v: ViewMap)
    ensures Effect(a + b, v) == Effect(b, Effect(a, v))
  {
    if a == [] {
      assert a + b == b;
    } else {
      assert (a + b)[1..] == a[1..] + b;
      EffectConcat(a[1..], b, EffectOf(a[0], v));
    }
  }

  // ---------------------------------------------------------------- listings

  lemma {:induction false} FirstWithIdFinds(items: seq<Item>, ext: string)
    ensures var o := FirstWithId(items, ext);
            && (o.None? ==> forall i :: 0 <= i < |items| ==> ReadExternalId(items[i].row.custom) != Some(ext))
            && (o.Some? ==>
                  exists i ::
                    && 0 <= i < |items| && items[i].id == o.value
                    && ReadExternalId(items[i].row.custom) == Some(ext))
  {
    if items == [] || ReadExternalId(items[0].row.custom) == Some(ext) {
    } else {
      FirstWithIdFinds(items[1..], ext);
      assert forall i :: 0 < i < |items| ==> items[i] == items[1..][i - 1];
    }
  }

  lemma {:induction false} FirstWithNameFinds(items: seq<Item>, name: string)
    ensures var o := FirstWithName(items, name);
            && (o.None? ==> forall i :: 0 <= i < |items| ==> items[i].row.payload.name != name)
            && (o.Some? ==> exists i :: 0 <= i < |items| && items[i].id == o.value && items[i].row.payload.name == name)
  {
    if items == [] || items[0].row.payload.name == name {
    } else {
      FirstWithNameFinds(items[1..], name);
      assert forall i :: 0 < i < |items| ==> items[i] == items[1..][i - 1];
    }
  }

  lemma {:induction false} StaleIdsFinds(items: seq<Item>, prefix: string, keep: set<string>, id: nat)
    ensures id in StaleIds(items, prefix, keep)
       <==> exists i :: 0 <= i < |items| && items[i].id == id && Stale(items[i].row, prefix, keep)
  {
    if items == [] {
    } else {
      StaleIdsFinds(items[1..], prefix, keep, id);
      assert forall i :: 0 < i < |items| ==> items[i] == items[1..][i - 1];
      assert forall i :: 0 <= i < |items[1..]| ==> items[1..][i] == items[i + 1];
    }
  }

  predicate Distinct(ids: seq<nat>) {
    forall i, j :: 0 <= i < j < |ids| ==> ids[i] != ids[j]
  }

  lemma {:induction false} StaleIdsDistinct(items: seq<Item>, prefix: string, keep: set<string>)
    requires forall i, j :: 0 <= i < j < |items| ==> items[i].id != items[j].id
    ensures Distinct(StaleIds(items, prefix, keep))
  {
    if items == [] {
    } else {
      StaleIdsDistinct(items[1..], prefix, keep);
      StaleIdsFinds(items[1..], prefix, keep, items[0].id);
      assert forall i :: 0 <= i < |items[1..]| ==> items[1..][i] == items[i + 1];
    }
  }

  /** sel chooses this row, were it listed first. */
  predicate Chosen(sel: Selector, row: Row) {
    match sel
    case ByExternalId(ext) => ReadExternalId(row.custom) == Some(ext)
    case ByName(name) => row.payload.name == name
    case Owned(prefix, keep) => Stale(row, prefix, keep)
  }

  /** The victims of a listing are distinct chosen objects; a selector by owner, and under uniqueness one
      by external ID, misses none; and none are found only when none is chosen. */
  lemma {:induction false} VictimsExact(db: Tables, c: Conn, kind: Kind, sel: Selector, items: seq<Item>)
    requires IsListing(db, c, kind, items)
    ensures Distinct(Victims(sel, items))
    ensures forall id <- Victims(sel, items) ::
              Tagged(db, c, Ref(c.site, kind, id)) && Chosen(sel, db[Ref(c.site, kind, id)])
    ensures Victims(sel, items) == [] ==>
              forall r :: Tagged(db, c, r) && r.kind == kind ==> !Chosen(sel, db[r])
    ensures sel.Owned? ==>
              forall r :: Tagged(db, c, r) && r.kind == kind && Chosen(sel, db[r]) ==> r.id in Victims(sel, items)
    ensures sel.ByExternalId? && Unique(db, c) ==>
              forall r :: Tagged(db, c, r) && r.kind == kind && Chosen(sel, db[r]) ==> r.id in Victims(sel, items)
  {
    match sel
    case ByExternalId(ext) =>
      FirstWithIdFinds(items, ext);
      if Unique(db, c) && Victims(sel, items) != [] {
        var k := Key(kind, ext);
        assert HasKey(db, c, Ref(c.site, kind, Victims(sel, items)[0]), k);
        assert forall r :: Tagged(db, c, r) && r.kind == kind && Chosen(sel, db[r]) ==> HasKey(db, c, r, k);
      }
    case ByName(name) => FirstWithNameFinds(items, name);
    case Owned(prefix, keep) =>
      StaleIdsDistinct(items, prefix, keep);
      forall id ensures id in StaleIds(items, prefix, keep)
                   <==> exists i :: 0 <= i < |items| && items[i].id == id && Stale(items[i].row, prefix, keep) {
        StaleIdsFinds(items, prefix, keep, id);
      }
      forall r | Tagged(db, c, r) && r.kind == kind && Chosen(sel, db[r]) ensures r.id in Victims(sel, items) {
        var i :| 0 <= i < |items| && items[i].id == r.id;
        assert Ref(c.site, kind, items[i].id) == r;
      }
  }

  // ---------------------------------------------------------------- one step

  ghost predicate KnowsVictims(db: Tables, c: Conn, kind: Kind, sel: Selector, ids: seq<nat>) {
    && Distinct(ids)
    && (forall id <- ids :: Tagged(db, c, Ref(c.site, kind, id)) && Chosen(sel, db[Ref(c.site, kind, id)]))
    && (!sel.ByName? ==>
          forall r :: Tagged(db, c, r) && r.kind == kind && Chosen(sel, db[r]) ==> r.id in ids)
  }

  /** What a thread under way knows about the tables: an Ensure that found its object, or
      found none, is still right; a Remove under way names tagged, chosen objects, and except
      by name all of them. */
  ghost predicate Knows(db: Tables, th: Thread) {
    th.Running? && th.ops != [] ==>
      match th.phase
      case Found(target, _) =>
        th.ops[0].Ensure? ==>
          var k := Key(th.ops[0].kind, th.ops[0].ext);
          if target.Some? then HasKey(db, th.conn, Ref(th.conn.site, k.kind, target.value), k)
          else forall r :: !HasKey(db, th.conn, r, k)
      case Doomed(ids) =>
        th.ops[0].Remove? ==> KnowsVictims(db, th.conn, th.ops[0].kind, th.ops[0].sel, ids)
      case _ => true
  }

  /** At most one tagged object of the kind bears the name, and it is managed. */
  ghost predicate Solo(db: Tables, c: Conn, kind: Kind, name: string) {
    forall r, s :: Tagged(db, c, r) && Tagged(db, c, s) && r.kind == kind && s.kind == kind
                   && db[r].payload.name == name && db[s].payload.name == name
                   ==> r == s && Managed(db, c, r)
  }

  predicate RemovesByName(op: Op) {
    op.Remove? && op.sel.ByName?
  }

  /** Every removal by name that th still has to make faces at most one candidate. */
  ghost predicate SoloAll(db: Tables, th: Thread) {
    th.Running? ==> forall op <- th.ops :: RemovesByName(op) ==> Solo(db, th.conn, op.kind, op.sel.name)
  }

  /** How one step of a thread may move the view: not at all, one key to the payload the
      first operation ensures, or one key away that the first operation hits. */
  ghost predicate Moves(op: Op, v: ViewMap, v': ViewMap) {
    || v' == v
    || (op.Ensure? && v' == v[Key(op.kind, op.ext) := op.payload])
    || (op.Remove? && exists k :: k in v && Hits(op, k, v[k]) && v' == v - {k})
  }

  ghost function StepDb(db: Tables, th: Thread, reply: Reply): Tables
    requires Active(th)
  {
    Apply(db, th.conn, NextCall(th), reply)
  }

  lemma {:induction false} ListKnows(db: Tables, th: Thread, reply: Reply)
    requires Active(th) && Admissible(db, th.conn, NextCall(th), reply)
    requires Unique(db, th.conn) && reply.Listing?
    ensures Knows(db, Advance(th, reply))
  {
    var c, op := th.conn, th.ops[0];
    if op.Ensure? {
      FirstWithIdFinds(reply.items, op.ext);
      forall r | HasKey(db, c, r, Key(op.kind, op.ext)) ensures FirstWithId(reply.items, op.ext).Some? {
        var i :| 0 <= i < |reply.items| && reply.items[i].id == r.id;
        assert Ref(c.site, op.kind, reply.items[i].id) == r;
      }
    } else {
      VictimsExact(db, c, op.kind, op.sel, reply.items);
    }
  }

  lemma {:induction false} DeleteKnows(db: Tables, th: Thread, reply: Reply)
    requires Knows(db, th) && Active(th) && th.phase.Doomed? && reply.Done?
    ensures Knows(StepDb(db, th, reply), Advance(th, reply))
  {
    var ids, c, kind := th.phase.ids, th.conn, th.ops[0].kind;
    var db' := StepDb(db, th, reply);
    if |ids| > 1 {
      assert forall id <- ids[1..] :: id in ids && id != ids[0];
      forall r | Tagged(db', c, r) && r.kind == kind && Chosen(th.ops[0].sel, db'[r]) && !th.ops[0].sel.ByName?
        ensures r.id in ids[1..]
      {
        assert Tagged(db, c, r) && r.id in ids;
        assert ids == [ids[0]] + ids[1..];
      }
    }
  }

  /** One step keeps external IDs unique and what the thread knows true, and moves the view
      by at most one key. */
  lemma {:induction false} StepMoves(db: Tables, th: Thread, reply: Reply)
    requires Active(th) && Admissible(db, th.conn, NextCall(th), reply)
    requires Unique(db, th.conn) && Knows(db, th)
    ensures Unique(StepDb(db, th, reply), th.conn)
    ensures Knows(StepDb(db, th, reply), Advance(th, reply))
    ensures Moves(th.ops[0], View(db, th.conn), View(StepDb(db, th, reply), th.conn))
  {
    var c, op := th.conn, th.ops[0];
    match NextCall(th) {
      case Create(kind, row) =>
        if TakesEffect(reply) { ViewPut(db, c, Ref(c.site, kind, reply.id), op.ext, op.payload); }
      case Update(kind, id, row) =>
        if TakesEffect(reply) { ViewPut(db, c, Ref(c.site, kind, id), op.ext, op.payload); }
      case Delete(kind, id) =>
        if TakesEffect(reply) {
          var r := Ref(c.site, kind, id);
          ViewDrop(db, c, r);
          if Managed(db, c, r) {
            InView(db, c, r);
            assert Hits(op, KeyOf(db, c, r), View(db, c)[KeyOf(db, c, r)]);
          }
          if reply.Done? { DeleteKnows(db, th, reply); }
        }
      case List(_) =>
        if reply.Listing? { ListKnows(db, th, reply); }
      case _ =>
    }
  }

  /** A removal with no candidate left changes nothing. */
  lemma {:induction false} RemovalDone(db: Tables, c: Conn, op: Op)
    requires Unique(db, c) && op.Remove?
    requires forall r :: Tagged(db, c, r) && r.kind == op.kind ==> !Chosen(op.sel, db[r])
    ensures EffectOf(op, View(db, c)) == View(db, c)
  {
    forall k | k in View(db, c) ensures !Hits(op, k, View(db, c)[k]) {
      var r := Holder(db, c, k);
    }
  }

  /** A removal is not changed by taking away something it hits. */
  lemma {:induction false} RemovalAbsorbs(op: Op, v: ViewMap, k: Key)
    requires k in v && Hits(op, k, v[k])
    ensures EffectOf(op, v - {k}) == EffectOf(op, v)
  {
  }

  lemma {:induction false} RemovalEnds(db: Tables, th: Thread, reply: Reply)
    requires Active(th) && Admissible(db, th.conn, NextCall(th), reply)
    requires Unique(db, th.conn) && Knows(db, th) && SoloAll(db, th)
    requires th.ops[0].Remove? && !reply.Lost? && Advance(th, reply).ops != th.ops
    ensures var db', op := StepDb(db, th, reply), th.ops[0];
            forall r :: Tagged(db', th.conn, r) && r.kind == op.kind ==> !Chosen(op.sel, db'[r])
  {
    var c, op, db' := th.conn, th.ops[0], StepDb(db, th, reply);
    if reply.Listing? {
      VictimsExact(db, c, op.kind, op.sel, reply.items);
    } else {
      var gone := Ref(c.site, op.kind, th.phase.ids[0]);
      assert th.phase.ids == [th.phase.ids[0]];
      assert op.sel.ByName? ==> Solo(db, c, op.kind, op.sel.name);
      assert Tagged(db, c, gone) && Chosen(op.sel, db[gone]);
      assert forall r :: Tagged(db', c, r) ==> Tagged(db, c, r) && r != gone && db'[r] == db[r];
    }
  }

  lemma {:induction false} RemoveStepEffect(db: Tables, th: Thread, reply: Reply)
    requires Active(th) && Admissible(db, th.conn, NextCall(th), reply)
    requires Unique(db, th.conn) && Knows(db, th) && SoloAll(db, th)
    requires th.ops[0].Remove? && !reply.Lost?
    ensures Unique(StepDb(db, th, reply), th.conn)
    ensures Effect(Advance(th, reply).ops, View(StepDb(db, th, reply), th.conn)) == Effect(th.ops, View(db, th.conn))
  {
    StepMoves(db, th, reply);
    var op, v, v' := th.ops[0], View(db, th.conn), View(StepDb(db, th, reply), th.conn);
    assert EffectOf(op, v') == EffectOf(op, v) by {
      if v' != v {
        var k :| k in v && Hits(op, k, v[k]) && v' == v - {k};
        RemovalAbsorbs(op, v, k);
      }
    }
    if Advance(th, reply).ops != th.ops {
      RemovalEnds(db, th, reply);
      RemovalDone(StepDb(db, th, reply), th.conn, op);
    }
  }

  lemma {:induction false} EnsureEnds(db: Tables, th: Thread, reply: Reply)
    requires Active(th) && Admissible(db, th.conn, NextCall(th), reply)
    requires Unique(db, th.conn) && Knows(db, th)
    requires th.ops[0].Ensure? && !reply.Lost? && Advance(th, reply).ops != th.ops
    ensures Unique(StepDb(db, th, reply), th.conn)
    ensures View(StepDb(db, th, reply), th.conn)
         == View(db, th.conn)[Key(th.ops[0].kind, th.ops[0].ext) := th.ops[0].payload]
  {
    var c, op := th.conn, th.ops[0];
    match NextCall(th) {
      case Create(kind, row) => ViewPut(db, c, Ref(c.site, kind, reply.id), op.ext, op.payload);
      case Update(kind, id, row) => ViewPut(db, c, Ref(c.site, kind, id), op.ext, op.payload);
    }
  }

  /** One successful step leaves the meaning of what is still to do unchanged: the view the
      thread is heading for is the same before and after. */
  lemma {:induction false} StepEffect(db: Tables, th: Thread, reply: Reply)
    requires Active(th) && Admissible(db, th.conn, NextCall(th), reply)
    requires Unique(db, th.conn) && Knows(db, th) && SoloAll(db, th)
    ensures Unique(StepDb(db, th, reply), th.conn)
    ensures Advance(th, reply).Running? ==>
              Effect(Advance(th, reply).ops, View(StepDb(db, th, reply), th.conn)) == Effect(th.ops, View(db, th.conn))
  {
    StepMoves(db, th, reply);
    if Advance(th, reply).Running? {
      if th.ops[0].Remove? {
        RemoveStepEffect(db, th, reply);
      } else if th.ops[0].Ensure? && Advance(th, reply).ops != th.ops {
        EnsureEnds(db, th, reply);
      }
    }
  }

  // ---------------------------------------------------------------- whole runs

  /** No Ensure writes into a table from which another operation of the list removes by name. */
  predicate NamesApart(ops: seq<Op>) {
    forall e, d :: e in ops && d in ops && e.Ensure? && RemovesByName(d) ==> e.kind != d.kind
  }

  lemma {:induction false} StepSolo(db: Tables, th: Thread, reply: Reply)
    requires Active(th) && SoloAll(db, th) && NamesApart(th.ops)
    requires Admissible(db, th.conn, NextCall(th), reply)
    ensures SoloAll(StepDb(db, th, reply), Advance(th, reply))
    ensures Advance(th, reply).Running? ==> NamesApart(Advance(th, reply).ops)
  {
    var db', th' := StepDb(db, th, reply), Advance(th, reply);
    if th'.Running? {
      assert forall op <- th'.ops :: op in th.ops;
      forall op | op in th'.ops && RemovesByName(op) ensures Solo(db', th.conn, op.kind, op.sel.name) {
        assert Solo(db, th.conn, op.kind, op.sel.name);
        assert forall r :: Tagged(db', th.conn, r) && r.kind == op.kind ==> Tagged(db, th.conn, r) && db'[r] == db[r];
      }
    }
  }

  /** Refinement: along any run, finished or not, external IDs stay unique and the view the
      thread is heading for never changes while it has not failed. */
  lemma {:induction false} RunEffect(db: Tables, th: Thread, rs: seq<Reply>)
    requires IsRun(db, th, rs)
    requires th.Running? && Unique(db, th.conn) && Knows(db, th) && SoloAll(db, th) && NamesApart(th.ops)
    ensures var k := After(db, th, rs);
            && Unique(k.db, th.conn)
            && (k.th.Running? ==>
                  && k.th.conn == th.conn && Knows(k.db, k.th)
                  && Effect(k.th.ops, View(k.db, th.conn)) == Effect(th.ops, View(db, th.conn)))
    decreases |rs|
  {
    if rs == [] {
    } else {
      StepMoves(db, th, rs[0]);
      StepEffect(db, th, rs[0]);
      StepSolo(db, th, rs[0]);
      if Advance(th, rs[0]).Running? {
        RunEffect(StepDb(db, th, rs[0]), Advance(th, rs[0]), rs[1..]);
      }
    }
  }

  predicate NameFree(ops: seq<Op>) {
    forall op <- ops :: !RemovesByName(op)
  }

  /** A reconcile that succeeds has exactly the effect of its operations on the view. */
  lemma {:induction false} SuccessEffect(db: Tables, c: Conn, ops: seq<Op>, rs: seq<Reply>)
    requires Unique(db, c) && NameFree(ops) && IsRun(db, Start(c, ops), rs)
    ensures var k := After(db, Start(c, ops), rs);
            Unique(k.db, c) && (Succeeded(k.th) ==> View(k.db, c) == Effect(ops, View(db, c)))
  {
    RunEffect(db, Start(c, ops), rs);
  }

  // ---------------------------------------------------------------- patches

  /** A patch replaces everything in its scope by its content. */
  datatype Patch = Patch(scope: iset<Key>, content: ViewMap)

  ghost predicate WellFormed(p: Patch) {
    forall k <- p.content :: k in p.scope
  }

  ghost function Patched(p: Patch, v: ViewMap): ViewMap {
    (map k | k in v && k !in p.scope :: v[k]) + p.content
  }

  /** Every operation moves keys only to where the patch puts them. */
  ghost predicate Toward(ops: seq<Op>, p: Patch) {
    && (forall op <- ops :: op.Ensure? ==>
          var k := Key(op.kind, op.ext);
          k in p.scope && k in p.content && p.content[k] == op.payload)
    && (forall op, k, q :: op in ops && Hits(op, k, q) ==> k in p.scope && k !in p.content)
  }

  /** Each key is where it was, or where the patch puts it. */
  ghost predicate Between(v: ViewMap, w: ViewMap, p: Patch) {
    forall k :: SameAt(w, v, k) || (k in p.scope && SameAt(w, p.content, k))
  }

  lemma {:induction false} MoveBetween(op: Op, v: ViewMap, w: ViewMap, w': ViewMap, p: Patch)
    requires Between(v, w, p) && Moves(op, w, w') && Toward([op], p)
    ensures Between(v, w', p)
  {
    assert op in [op];
    forall k ensures SameAt(w', v, k) || (k in p.scope && SameAt(w', p.content, k)) {
      assert SameAt(w, v, k) || (k in p.scope && SameAt(w, p.content, k));
      if op.Remove? && w' != w {
        var j :| j in w && Hits(op, j, w[j]) && w' == w - {j};
        assert j in p.scope && j !in p.content;
      }
    }
  }

  /** Half-way states: a run cut at any call, or failed at any call with or without the call
      taking effect, has left every key where it was or where the patch puts it. */
  lemma {:induction false} RunBetween(db: Tables, th: Thread, rs: seq<Reply>, p: Patch, v: ViewMap)
    requires IsRun(db, th, rs)
    requires th.Running? && Unique(db, th.conn) && Knows(db, th) && Toward(th.ops, p)
    requires Between(v, View(db, th.conn), p)
    ensures Unique(After(db, th, rs).db, th.conn)
    ensures Between(v, View(After(db, th, rs).db, th.conn), p)
    decreases |rs|
  {
    if rs == [] {
    } else {
      StepMoves(db, th, rs[0]);
      var db', th' := StepDb(db, th, rs[0]), Advance(th, rs[0]);
      assert Toward([th.ops[0]], p) by { assert th.ops[0] in th.ops; }
      MoveBetween(th.ops[0], v, View(db, th.conn), View(db', th.conn), p);
      if th'.Running? {
        assert forall op <- th'.ops :: op in th.ops;
        RunBetween(db', th', rs[1..], p, v);
      }
    }
  }

  // ---------------------------------------------------------------- identities

  /** No removal among the operations can hit the key. */
  ghost predicate Spared(ops: seq<Op>, k: Key) {
    forall op, q :: op in ops ==> !Hits(op, k, q)
  }

  lemma {:induction false} StepKeeps(db: Tables, th: Thread, reply: Reply, r: Ref, k: Key)
    requires Active(th) && Admissible(db, th.conn, NextCall(th), reply)
    requires Unique(db, th.conn) && Knows(db, th)
    requires HasKey(db, th.conn, r, k) && forall q :: !Hits(th.ops[0], k, q)
    ensures HasKey(StepDb(db, th, reply), th.conn, r, k)
  {
    var op := th.ops[0];
    if op.Remove? && th.phase.Doomed? {
      var gone := Ref(th.conn.site, op.kind, th.phase.ids[0]);
      assert gone == r ==> Hits(op, k, db[r].payload);
    }
  }

  /** An object whose key no removal hits keeps its NetBox ID through every state of a run. */
  lemma {:induction false} RunKeeps(db: Tables, th: Thread, rs: seq<Reply>, r: Ref, k: Key)
    requires IsRun(db, th, rs)
    requires th.Running? && Unique(db, th.conn) && Knows(db, th)
    requires HasKey(db, th.conn, r, k) && Spared(th.ops, k)
    ensures HasKey(After(db, th, rs).db, th.conn, r, k)
    decreases |rs|
  {
    if rs == [] {
    } else {
      StepMoves(db, th, rs[0]);
      assert th.ops[0] in th.ops;
      StepKeeps(db, th, rs[0], r, k);
      var th' := Advance(th, rs[0]);
      if th'.Running? {
        assert forall op <- th'.ops :: op in th.ops;
        RunKeeps(StepDb(db, th, rs[0]), th', rs[1..], r, k);
      }
    }
  }

  /** The view already is what every operation would make of it. */
  ghost predicate Settled(ops: seq<Op>, v: ViewMap) {
    && (forall op <- ops :: op.Ensure? ==>
          var k := Key(op.kind, op.ext); k in v && v[k] == op.payload)
    && (forall op, k :: op in ops && k in v ==> !Hits(op, k, v[k]))
  }

  lemma {:induction false} SettledTail(ops: seq<Op>, later: seq<Op>, v: ViewMap)
    requires NameFree(ops) && Settled(ops, v) && forall op <- later :: op in ops
    ensures NameFree(later) && Settled(later, v)
  {
  }

  lemma {:induction false} SettledMove(ops: seq<Op>, op: Op, v: ViewMap, v': ViewMap)
    requires op in ops && Settled(ops, v) && Moves(op, v, v')
    ensures v' == v
  {
    if op.Ensure? {
      assert v[Key(op.kind, op.ext) := op.payload] == v;
    }
  }

  lemma {:induction false} NoVictims(db: Tables, c: Conn, op: Op)
    requires Unique(db, c) && op.Remove? && !op.sel.ByName?
    requires forall k :: k in View(db, c) ==> !Hits(op, k, View(db, c)[k])
    ensures forall r :: Tagged(db, c, r) && r.kind == op.kind ==> !Chosen(op.sel, db[r])
  {
    forall r | Tagged(db, c, r) && r.kind == op.kind ensures !Chosen(op.sel, db[r]) {
      if Managed(db, c, r) { InView(db, c, r); }
    }
  }

  lemma {:induction false} StepQuiet(db: Tables, th: Thread)
    requires Active(th) && Unique(db, th.conn) && Knows(db, th)
    requires NameFree(th.ops) && Settled(th.ops, View(db, th.conn))
    ensures !NextCall(th).Create? && !NextCall(th).Delete?
  {
    var c, op := th.conn, th.ops[0];
    assert op in th.ops;
    if op.Ensure? {
      var r := Holder(db, c, Key(op.kind, op.ext));
    } else if op.Remove? {
      assert th.phase.Doomed? ==> th.phase.ids[0] in th.phase.ids;
      NoVictims(db, c, op);
    }
  }

  /** From a settled view a run creates nothing and deletes nothing, at any of its calls. */
  lemma {:induction false} RunQuiet(db: Tables, th: Thread, rs: seq<Reply>)
    requires IsRun(db, th, rs)
    requires th.Running? && Unique(db, th.conn) && Knows(db, th)
    requires NameFree(th.ops) && Settled(th.ops, View(db, th.conn))
    ensures var k := After(db, th, rs);
            && Unique(k.db, th.conn) && View(k.db, th.conn) == View(db, th.conn)
            && k.db.Keys == db.Keys
            && (Active(k.th) ==> !NextCall(k.th).Create? && !NextCall(k.th).Delete?)
    decreases |rs|
  {
    if Active(th) { StepQuiet(db, th); }
    if rs == [] {
    } else {
      StepMoves(db, th, rs[0]);
      var db', th' := StepDb(db, th, rs[0]), Advance(th, rs[0]);
      SettledMove(th.ops, th.ops[0], View(db, th.conn), View(db', th.conn));
      if th'.Running? {
        SettledTail(th.ops, th'.ops, View(db, th.conn));
        RunQuiet(db', th', rs[1..]);
      }
    }
  }
}
