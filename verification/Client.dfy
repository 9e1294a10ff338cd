/** NetBox as a server that changes under the calls made to it, and the functions of the netbox
    package: find, ensure, list and delete. Each is proved to make exactly the calls of an operation. */
module Client {
  import opened ExternalIds
  import opened NetBox
  import opened Views
  import opened Plans
  import opened Convergence

  // ---------------------------------------------------------------- NetBox

  /** NetBox and the network in front of it. script is what they will answer; an answer that does
      not fit the call in the state of the tables becomes a failure without effect. made and log are
      the calls since a reconcile was bound to its plan and their replies; at follows the plan. */
  class NetBoxServer {
    var db: Tables
    var script: seq<Reply>
    ghost var start: Tables
    ghost var origin: Thread
    ghost var made: seq<Call>
    ghost var log: seq<Reply>
    ghost var at: Thread

    /** The calls made since Bind are a run of the plan, and have led to these tables. */
    ghost predicate Valid()
      reads this
    {
      IsRun(start, origin, log) && After(start, origin, log) == Config(db, at) && made == CallsOf(start, origin, log)
    }

    ghost predicate AtOps(c: Conn, ops: seq<Op>)
      reads this
    {
      Valid() && at == Start(c, ops)
    }

    /** After an operation or a group of them: past it on success, stopped on failure. */
    ghost predicate Past(ok: bool, c: Conn, rest: seq<Op>)
      reads this
    {
      Valid() && at == if ok then Start(c, rest) else Stopped
    }

    constructor (db: Tables, script: seq<Reply>)
      ensures this.db == db && this.script == script
    {
      this.db, this.script := db, script;
      start, origin, made, log, at := db, Stopped, [], [], Stopped;
    }

    /** Binds the calls that follow to a plan. */
    ghost method Bind(c: Conn, ops: seq<Op>)
      modifies this`start, this`origin, this`made, this`log, this`at
      ensures AtOps(c, ops) && start == db && origin == Start(c, ops) && made == [] && log == []
    {
      start, origin, made, log, at := db, Start(c, ops), [], [], Start(c, ops);
    }

    /** One API call: it must be the next one of the plan. */
    method Perform(c: Conn, call: Call) returns (reply: Reply)
      requires Valid() && Active(at) && at.conn == c && NextCall(at) == call
      modifies this`db, this`script, this`made, this`log, this`at
      ensures Valid() && at == Advance(old(at), reply)
      ensures made == old(made) + [call] && log == old(log) + [reply]
      ensures Admissible(old(db), c, call, reply) && db == Apply(old(db), c, call, reply)
    {
      reply := Lost(false, 0);
      if script != [] {
        if Admissible(db, c, call, script[0]) {
          reply := script[0];
        }
        script := script[1..];
      }
      RunSnoc(start, origin, log, reply);
      db := Apply(db, c, call, reply);
      made, log := made + [call], log + [reply];
      at := Advance(at, reply);
    }
  }

  lemma {:induction false} FirstOfRest(op: Op, rest: seq<Op>)
    ensures ([op] + rest)[0] == op && ([op] + rest)[1..] == rest
  {
  }

  // ---------------------------------------------------------------- find, ensure, delete

  /** The last call found the managed tag or created it. */
  ghost predicate TagSeen(made: seq<Call>, log: seq<Reply>) {
    && made != [] && |made| == |log|
    && var i := |made| - 1;
       (made[i] == ListTags && log[i] == TagListing(true)) || (made[i] == CreateTag && log[i].Done?)
  }

  method EnsureManagedTag(s: NetBoxServer, c: Conn, ghost rest: seq<Op>) returns (ok: bool)
    requires s.AtOps(c, [EnsureTag] + rest)
    modifies s`db, s`script, s`made, s`log, s`at
    ensures s.Past(ok, c, rest)
    ensures ok ==> TagSeen(s.made, s.log)
  {
    FirstOfRest(EnsureTag, rest);
    var listed := s.Perform(c, ListTags);
    if listed.Lost? { return false; }
    if listed.found { return true; }
    var created := s.Perform(c, CreateTag);
    ok := created.Done?;
  }

  /** A call on tables that are not modelled. */
  method Consulting(s: NetBoxServer, c: Conn, what: Query, ghost rest: seq<Op>) returns (ok: bool)
    requires s.AtOps(c, [Check(what)] + rest)
    modifies s`db, s`script, s`made, s`log, s`at
    ensures s.Past(ok, c, rest)
    ensures |s.log| == |s.made| == |old(s.made)| + 1
    ensures s.made == old(s.made) + [Consult(what)] && s.log == old(s.log) + [s.log[|s.log| - 1]]
    ensures ok <==> s.log[|s.log| - 1].Done?
  {
    FirstOfRest(Check(what), rest);
    var reply := s.Perform(c, Consult(what));
    ok := reply.Done?;
  }

  /** The search loop of the find functions. */
  method SearchById(items: seq<Item>, ext: string) returns (found: Option<nat>)
    ensures found == FirstWithId(items, ext)
  {
    var i := 0;
    while i < |items|
      invariant i <= |items| && FirstWithId(items, ext) == FirstWithId(items[i..], ext)
    {
      var id := ReadExternalId(items[i].row.custom);
      if id.Some? && id.value == ext {
        return Some(items[i].id);
      }
      assert items[i..][1..] == items[i + 1..];
      i := i + 1;
    }
    found := None;
  }

  method SearchByName(items: seq<Item>, name: string) returns (found: Option<nat>)
    ensures found == FirstWithName(items, name)
  {
    var i := 0;
    while i < |items|
      invariant i <= |items| && FirstWithName(items, name) == FirstWithName(items[i..], name)
    {
      if items[i].row.payload.name == name {
        return Some(items[i].id);
      }
      assert items[i..][1..] == items[i + 1..];
      i := i + 1;
    }
    found := None;
  }

  /** The Ensure functions: find by external ID, resolve the references, then update or create. */
  method EnsureObject(s: NetBoxServer, c: Conn, kind: Kind, ext: string, payload: Payload, lookups: seq<Query>,
                      ghost rest: seq<Op>)
    returns (ok: bool)
    requires s.AtOps(c, [Ensure(kind, ext, payload, lookups)] + rest)
    modifies s`db, s`script, s`made, s`log, s`at
    ensures s.Past(ok, c, rest)
  {
    ghost var ops := [Ensure(kind, ext, payload, lookups)] + rest;
    FirstOfRest(ops[0], rest);
    var listed := s.Perform(c, List(kind));
    if listed.Lost? { return false; }
    var existing := SearchById(listed.items, ext);
    var i := 0;
    while i < |lookups|
      invariant i <= |lookups| && s.Valid() && s.at == Running(c, ops, Found(existing, lookups[i..]))
    {
      var looked := s.Perform(c, Consult(lookups[i]));
      if looked.Lost? { return false; }
      i := i + 1;
    }
    var row := HeraldRow(c.slug, ext, payload);
    var written: Reply;
    if existing.Some? {
      written := s.Perform(c, Update(kind, existing.value, row));
    } else {
      written := s.Perform(c, Create(kind, row));
    }
    ok := written.Done?;
  }

  /** Delete by external ID or by name: the first match, if there is one. */
  method DeleteFirst(s: NetBoxServer, c: Conn, kind: Kind, sel: Selector, ghost rest: seq<Op>) returns (ok: bool)
    requires !sel.Owned? && s.AtOps(c, [Remove(kind, sel)] + rest)
    modifies s`db, s`script, s`made, s`log, s`at
    ensures s.Past(ok, c, rest)
  {
    FirstOfRest(Remove(kind, sel), rest);
    var listed := s.Perform(c, List(kind));
    if listed.Lost? { return false; }
    var existing: Option<nat>;
    match sel {
      case ByExternalId(ext) => existing := SearchById(listed.items, ext);
      case ByName(name) => existing := SearchByName(listed.items, name);
    }
    if existing.None? { return true; }
    var deleted := s.Perform(c, Delete(kind, existing.value));
    ok := deleted.Done?;
  }

  // ---------------------------------------------------------------- list what is owned, delete the rest

  function OwnedItems(items: seq<Item>, prefix: string): seq<Item> {
    if items == [] then []
    else OwnedItems(items[..|items| - 1], prefix)
         + (if Stale(items[|items| - 1].row, prefix, {}) then [items[|items| - 1]] else [])
  }

  /** The grouping loop of the List functions. */
  method SelectOwned(items: seq<Item>, prefix: string) returns (owned: seq<Item>)
    ensures owned == OwnedItems(items, prefix)
  {
    owned := [];
    for i := 0 to |items|
      invariant owned == OwnedItems(items[..i], prefix)
    {
      assert items[..i + 1][..i] == items[..i];
      var id := ReadExternalId(items[i].row.custom);
      if id.Some? && HasPrefix(id.value, prefix) {
        owned := owned + [items[i]];
      }
    }
    assert items[..|items|] == items;
  }

  lemma {:induction false} ConcatAssociates(a: seq<nat>, b: seq<nat>, c: seq<nat>)
    ensures a + (b + c) == (a + b) + c
  {
  }

  lemma {:induction false} StaleIdsConcat(a: seq<Item>, b: seq<Item>, prefix: string, keep: set<string>)
    ensures StaleIds(a + b, prefix, keep) == StaleIds(a, prefix, keep) + StaleIds(b, prefix, keep)
  {
    if a == [] {
      assert a + b == b;
    } else {
      StaleIdsConcat(a[1..], b, prefix, keep);
      var ab, head := a + b, if Stale(a[0].row, prefix, keep) then [a[0].id] else [];
      assert ab[0] == a[0] && ab[1..] == a[1..] + b;
      ConcatAssociates(head, StaleIds(a[1..], prefix, keep), StaleIds(b, prefix, keep));
    }
  }

  /** Grouping first does not change which objects are stale. */
  lemma {:induction false} OwnedItemsStale(items: seq<Item>, prefix: string, keep: set<string>)
    ensures StaleIds(OwnedItems(items, prefix), prefix, keep) == StaleIds(items, prefix, keep)
    ensures forall x <- OwnedItems(items, prefix) :: Stale(x.row, prefix, {})
  {
    if items == [] {
    } else {
      var init, last := items[..|items| - 1], items[|items| - 1];
      OwnedItemsStale(init, prefix, keep);
      assert items == init + [last];
      StaleIdsConcat(init, [last], prefix, keep);
      StaleIdsConcat(OwnedItems(init, prefix), if Stale(last.row, prefix, {}) then [last] else [], prefix, keep);
    }
  }

  /** Where a removal stands when these victims are left. */
  ghost function Removing(c: Conn, op: Op, rest: seq<Op>, ids: seq<nat>): Thread {
    if ids == [] then Start(c, rest) else Running(c, [op] + rest, Doomed(ids))
  }

  lemma {:induction false} StaleIdsAt(owned: seq<Item>, i: nat, prefix: string, keep: set<string>)
    requires i < |owned|
    ensures StaleIds(owned[i..], prefix, keep)
         == (if Stale(owned[i].row, prefix, keep) then [owned[i].id] else []) + StaleIds(owned[i + 1..], prefix, keep)
  {
    assert owned[i..][1..] == owned[i + 1..];
  }

  method DeleteStale(s: NetBoxServer, c: Conn, kind: Kind, o: Owner, desired: seq<string>, owned: seq<Item>,
                     ghost rest: seq<Op>)
    returns (ok: bool)
    requires forall x <- owned :: Stale(x.row, OwnerPrefix(o), {})
    requires var keep := set e | e in desired;
             && s.Valid()
             && s.at == Removing(c, Prune(kind, o, keep), rest, StaleIds(owned, OwnerPrefix(o), keep))
    modifies s`db, s`script, s`made, s`log, s`at
    ensures s.Past(ok, c, rest)
  {
    ghost var keep := set e | e in desired;
    ghost var op := Prune(kind, o, keep);
    FirstOfRest(op, rest);
    var i := 0;
    assert owned[0..] == owned;
    while i < |owned|
      invariant i <= |owned| && s.Valid() && s.at == Removing(c, op, rest, StaleIds(owned[i..], OwnerPrefix(o), keep))
    {
      assert owned[i] in owned;
      StaleIdsAt(owned, i, OwnerPrefix(o), keep);
      ghost var later := StaleIds(owned[i + 1..], OwnerPrefix(o), keep);
      ghost var here := StaleIds(owned[i..], OwnerPrefix(o), keep);
      var id := ReadExternalId(owned[i].row.custom);
      assert Stale(owned[i].row, OwnerPrefix(o), keep) <==> id.value !in desired;
      if id.value !in desired {
        assert here[0] == owned[i].id && here[1..] == later;
        var deleted := s.Perform(c, Delete(kind, owned[i].id));
        if deleted.Lost? { return false; }
      } else {
        assert here == later;
      }
      assert s.at == Removing(c, op, rest, later);
      i := i + 1;
    }
    ok := true;
  }

  /** List what the owner has, then delete each object whose ID is not among the desired ones. */
  method PruneOwned(s: NetBoxServer, c: Conn, kind: Kind, o: Owner, desired: seq<string>, ghost rest: seq<Op>)
    returns (ok: bool)
    requires s.AtOps(c, [Prune(kind, o, set e | e in desired)] + rest)
    modifies s`db, s`script, s`made, s`log, s`at
    ensures s.Past(ok, c, rest)
  {
    ghost var op := Prune(kind, o, set e | e in desired);
    FirstOfRest(op, rest);
    var listed := s.Perform(c, List(kind));
    if listed.Lost? { return false; }
    var owned := SelectOwned(listed.items, OwnerPrefix(o));
    OwnedItemsStale(listed.items, OwnerPrefix(o), op.sel.keep);
    ok := DeleteStale(s, c, kind, o, desired, owned, rest);
  }

  /** DeleteServiceIPs and DeleteNodePodCIDRPrefixes: everything the owner has. */
  method DeleteOwned(s: NetBoxServer, c: Conn, kind: Kind, o: Owner) returns (ok: bool)
    requires s.AtOps(c, [Prune(kind, o, {})])
    modifies s`db, s`script, s`made, s`log, s`at
    ensures s.Past(ok, c, [])
  {
    assert (set e: string | e in []) == {};
    assert [Prune(kind, o, {})] == [Prune(kind, o, {})] + [];
    ok := PruneOwned(s, c, kind, o, [], []);
  }

  // ---------------------------------------------------------------- sequences of operations

  lemma {:induction false} EnsuresCons(kind: Kind, w: Want, ws: seq<Want>, tail: seq<Op>)
    ensures Ensures(kind, [w] + ws) + tail == [Ensure(kind, w.ext, w.payload, [])] + (Ensures(kind, ws) + tail)
  {
  }

  function IdsOf(ws: seq<Want>): seq<string> {
    seq(|ws|, i requires 0 <= i < |ws| => ws[i].ext)
  }

  lemma {:induction false} IdsOfExts(ws: seq<Want>)
    ensures (set e | e in IdsOf(ws)) == Exts(ws)
  {
    forall e | e in Exts(ws) ensures e in IdsOf(ws) {
      var w :| w in ws && w.ext == e;
      var i :| 0 <= i < |ws| && ws[i] == w;
      assert IdsOf(ws)[i] == e;
    }
    forall e | e in IdsOf(ws) ensures e in Exts(ws) {
      var i :| 0 <= i < |IdsOf(ws)| && IdsOf(ws)[i] == e;
      assert ws[i] in ws;
    }
  }

  lemma {:induction false} IdsOfCons(ids: seq<string>, ws: seq<Want>)
    requires ws != []
    ensures ids + IdsOf(ws) == (ids + [ws[0].ext]) + IdsOf(ws[1..])
  {
    assert IdsOf(ws) == [ws[0].ext] + IdsOf(ws[1..]);
  }

  /** The calls made are a run of the plan; success and failure are those of the plan. */
  ghost predicate CarriedOut(db: Tables, c: Conn, ops: seq<Op>, rs: seq<Reply>, db': Tables, ok: bool) {
    && IsRun(db, Start(c, ops), rs)
    && var k := After(db, Start(c, ops), rs);
       k.db == db' && if ok then Succeeded(k.th) else Errored(k.th)
  }

  lemma {:induction false} CarriedOutEffect(db: Tables, c: Conn, t: Task, rs: seq<Reply>, db': Tables, ok: bool)
    requires CarriedOut(db, c, t.ops, rs, db', ok) && GoodTask(t) && Unique(db, c)
    ensures Unique(db', c) && Between(View(db, c), View(db', c), t.patch)
    ensures ok ==> View(db', c) == Patched(t.patch, View(db, c))
  {
    TurnEffect(db, c, Turn(t, rs, ok));
  }
}
