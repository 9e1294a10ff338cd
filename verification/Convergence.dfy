/** What reconciles achieve: exact convergence, make-before-break, indifference to failures
    and to order, mode switches, counts, and the round trip of disabling and re-enabling. */
module Convergence {
  import opened ExternalIds
  import opened NetBox
  import opened Views
  import opened Plans

  // ---------------------------------------------------------------- ensure, then prune

  /** Ensure-then-prune has the effect of deleting all the owner has and then creating all
      that is wanted. */
  lemma {:induction false} SyncIsReplacement(kind: Kind, o: Owner, ws: seq<Want>, v: ViewMap)
    requires BelongTo(ws, o)
    ensures Effect(SyncOps(kind, o, ws), v) == Effect([Prune(kind, o, {})] + Ensures(kind, ws), v)
  {
    SyncEffect(kind, o, ws, v);
    EffectConcat([Prune(kind, o, {})], Ensures(kind, ws), v);
    PruneEffect(kind, o, v);
    EnsuresEffect(kind, ws, Effect([Prune(kind, o, {})], v));
    assert Patched(Patch(OwnerScope(kind, o), map[]), v) + Content(kind, ws) == Patched(SyncPatch(kind, o, ws), v);
  }

  lemma {:induction false} WantedKeep(db: Tables, c: Conn, kind: Kind, o: Owner, ws: seq<Want>, rs: seq<Reply>)
    requires Unique(db, c) && BelongTo(ws, o) && Coherent(ws)
    requires IsRun(db, Start(c, SyncOps(kind, o, ws)), rs)
    ensures forall r, k :: HasKey(db, c, r, k) && k in Content(kind, ws)
                           ==> HasKey(After(db, Start(c, SyncOps(kind, o, ws)), rs).db, c, r, k)
  {
    SyncToward(kind, o, ws);
    forall r, k | HasKey(db, c, r, k) && k in Content(kind, ws)
      ensures HasKey(After(db, Start(c, SyncOps(kind, o, ws)), rs).db, c, r, k)
    {
      RunKeeps(db, Start(c, SyncOps(kind, o, ws)), rs, r, k);
    }
  }

  /** Exact convergence: after a sync that succeeds, the owner has exactly the wanted objects,
      with the wanted payloads, everyone else's view is unchanged, and each wanted object that
      was there before keeps its NetBox ID. */
  lemma {:induction false} SyncConverges(db: Tables, c: Conn, kind: Kind, o: Owner, ws: seq<Want>, rs: seq<Reply>)
    requires Unique(db, c) && BelongTo(ws, o) && Coherent(ws)
    requires IsRun(db, Start(c, SyncOps(kind, o, ws)), rs)
    requires Succeeded(After(db, Start(c, SyncOps(kind, o, ws)), rs).th)
    ensures var db' := After(db, Start(c, SyncOps(kind, o, ws)), rs).db;
            && Unique(db', c)
            && (forall k :: k in OwnerScope(kind, o) ==> (k in View(db', c) <==> k.ext in Exts(ws)))
            && (forall w <- ws :: Key(kind, w.ext) in View(db', c) && View(db', c)[Key(kind, w.ext)] == w.payload)
            && (forall k :: k !in OwnerScope(kind, o) ==> SameAt(View(db', c), View(db, c), k))
            && (forall r, k :: HasKey(db, c, r, k) && k in Content(kind, ws) ==> HasKey(db', c, r, k))
  {
    SyncToward(kind, o, ws);
    SuccessEffect(db, c, SyncOps(kind, o, ws), rs);
    SyncEffect(kind, o, ws, View(db, c));
    ContentKeys(kind, ws);
    assert forall w <- ws :: w.ext in Exts(ws);
    WantedKeep(db, c, kind, o, ws, rs);
  }

  // ---------------------------------------------------------------- make before break

  /** No object of the earlier tables has been removed. */
  ghost predicate Whole(db0: Tables, db: Tables, c: Conn) {
    forall r, k :: HasKey(db0, c, r, k) ==> HasKey(db, c, r, k)
  }

  /** Every wanted object exists. */
  ghost predicate Complete(db: Tables, c: Conn, kind: Kind, ws: seq<Want>)
    requires Unique(db, c)
  {
    forall w <- ws :: Key(kind, w.ext) in View(db, c)
  }

  /** The thread still is to ensure every wanted object that does not exist yet, and removes
      nothing before its last operation. */
  ghost predicate Making(db: Tables, th: Thread, kind: Kind, ws: seq<Want>)
    requires th.Running? ==> Unique(db, th.conn)
  {
    th.Running? ==>
      && th.ops != []
      && (forall i :: 0 <= i < |th.ops| - 1 ==> !th.ops[i].Remove?)
      && (forall w <- ws ::
            Key(kind, w.ext) in View(db, th.conn) || Ensure(kind, w.ext, w.payload, []) in th.ops[..|th.ops| - 1])
  }

  lemma {:induction false} StepMaking(db0: Tables, db: Tables, th: Thread, reply: Reply, kind: Kind, ws: seq<Want>)
    requires Active(th) && Admissible(db, th.conn, NextCall(th), reply)
    requires Unique(db, th.conn) && Knows(db, th) && Making(db, th, kind, ws) && Whole(db0, db, th.conn)
    requires |th.ops| > 1
    ensures Unique(StepDb(db, th, reply), th.conn) && Knows(StepDb(db, th, reply), Advance(th, reply))
    ensures Making(StepDb(db, th, reply), Advance(th, reply), kind, ws)
    ensures Whole(db0, StepDb(db, th, reply), th.conn)
  {
    StepMoves(db, th, reply);
    var db', th', c := StepDb(db, th, reply), Advance(th, reply), th.conn;
    assert !th.ops[0].Remove?;
    forall r, k | HasKey(db0, c, r, k) ensures HasKey(db', c, r, k) {
      StepKeeps(db, th, reply, r, k);
    }
    if th'.Running? {
      forall w | w in ws
        ensures Key(kind, w.ext) in View(db', c) || Ensure(kind, w.ext, w.payload, []) in th'.ops[..|th'.ops| - 1]
      {
        var op := Ensure(kind, w.ext, w.payload, []);
        if Key(kind, w.ext) !in View(db, c) && th'.ops != th.ops {
          if op == th.ops[0] {
            EnsureEnds(db, th, reply);
          } else {
            var i :| 0 <= i < |th.ops| - 1 && th.ops[i] == op;
            assert th'.ops[i - 1] == op;
          }
        }
      }
    }
  }

  lemma {:induction false} RunUnique(db: Tables, th: Thread, rs: seq<Reply>)
    requires IsRun(db, th, rs) && th.Running? && Unique(db, th.conn) && Knows(db, th)
    ensures Unique(After(db, th, rs).db, th.conn)
    decreases |rs|
  {
    if rs == [] {
    } else {
      StepMoves(db, th, rs[0]);
      if Advance(th, rs[0]).Running? { RunUnique(StepDb(db, th, rs[0]), Advance(th, rs[0]), rs[1..]); }
    }
  }

  lemma {:induction false} CompleteStays(db: Tables, th: Thread, rs: seq<Reply>, kind: Kind, ws: seq<Want>)
    requires IsRun(db, th, rs) && th.Running?
    requires Unique(db, th.conn) && Knows(db, th) && Complete(db, th.conn, kind, ws)
    requires forall w <- ws :: Spared(th.ops, Key(kind, w.ext))
    ensures var db' := After(db, th, rs).db;
            Unique(db', th.conn) && Complete(db', th.conn, kind, ws)
  {
    var db' := After(db, th, rs).db;
    RunUnique(db, th, rs);
    forall w | w in ws ensures Key(kind, w.ext) in View(db', th.conn) {
      var r := Holder(db, th.conn, Key(kind, w.ext));
      RunKeeps(db, th, rs, r, Key(kind, w.ext));
      InView(db', th.conn, r);
    }
  }

  lemma {:induction false} RunMaking(db0: Tables, db: Tables, th: Thread, rs: seq<Reply>, kind: Kind, ws: seq<Want>)
    requires IsRun(db, th, rs) && th.Running?
    requires Unique(db, th.conn) && Knows(db, th) && Making(db, th, kind, ws) && Whole(db0, db, th.conn)
    requires forall w <- ws :: Spared(th.ops, Key(kind, w.ext))
    ensures var db' := After(db, th, rs).db;
            Unique(db', th.conn) && (Whole(db0, db', th.conn) || Complete(db', th.conn, kind, ws))
    decreases |rs|
  {
    if rs == [] {
    } else {
      if |th.ops| == 1 {
        CompleteStays(db, th, rs, kind, ws);
      } else {
        StepMaking(db0, db, th, rs[0], kind, ws);
        var th' := Advance(th, rs[0]);
        if th'.Running? {
          assert forall op <- th'.ops :: op in th.ops;
          RunMaking(db0, StepDb(db, th, rs[0]), th', rs[1..], kind, ws);
        }
      }
    }
  }

  ghost predicate OwnsSome(v: ViewMap, kind: Kind, o: Owner) {
    exists k :: k in v && k in OwnerScope(kind, o)
  }

  /** Every wanted object has its operation before the last one of the plan, and no operation removes it. */
  lemma {:induction false} WantedFirst(kind: Kind, o: Owner, ws: seq<Want>)
    requires BelongTo(ws, o) && Coherent(ws)
    ensures var ops := SyncOps(kind, o, ws);
            forall w <- ws :: Spared(ops, Key(kind, w.ext)) && Ensure(kind, w.ext, w.payload, []) in ops[..|ops| - 1]
  {
    var ops := SyncOps(kind, o, ws);
    SyncToward(kind, o, ws);
    ContentKeys(kind, ws);
    assert ops[..|ops| - 1] == [EnsureTag] + Ensures(kind, ws);
    forall w | w in ws ensures Spared(ops, Key(kind, w.ext)) && Ensure(kind, w.ext, w.payload, []) in ops[..|ops| - 1] {
      assert Key(kind, w.ext) in SyncPatch(kind, o, ws).content;
      var i :| 0 <= i < |ws| && ws[i] == w;
      assert Ensures(kind, ws)[i] == Ensure(kind, w.ext, w.payload, []);
      assert Ensures(kind, ws)[i] in Ensures(kind, ws);
    }
  }

  /** Make-before-break, in every state of a sync and after any error: wanted objects present at
      the start are still there under their NetBox IDs; nothing at all is removed before every
      wanted object exists; and an owner that had objects and wants some never has none. */
  lemma {:induction false} MakeBeforeBreak(db: Tables, c: Conn, kind: Kind, o: Owner, ws: seq<Want>, rs: seq<Reply>)
    requires Unique(db, c) && BelongTo(ws, o) && Coherent(ws)
    requires IsRun(db, Start(c, SyncOps(kind, o, ws)), rs)
    ensures var db' := After(db, Start(c, SyncOps(kind, o, ws)), rs).db;
            && (forall r, k :: HasKey(db, c, r, k) && k in Content(kind, ws) ==> HasKey(db', c, r, k))
            && Unique(db', c) && (Whole(db, db', c) || Complete(db', c, kind, ws))
            && (ws != [] && OwnsSome(View(db, c), kind, o) ==> OwnsSome(View(db', c), kind, o))
  {
    var th := Start(c, SyncOps(kind, o, ws));
    WantedKeep(db, c, kind, o, ws, rs);
    WantedFirst(kind, o, ws);
    ContentKeys(kind, ws);
    RunMaking(db, db, th, rs, kind, ws);
    var db' := After(db, th, rs).db;
    if ws != [] && OwnsSome(View(db, c), kind, o) {
      if Whole(db, db', c) {
        var k :| k in View(db, c) && k in OwnerScope(kind, o);
        var r := Holder(db, c, k);
        InView(db', c, r);
      } else {
        assert Key(kind, ws[0].ext) in View(db', c);
      }
    }
  }

  // ---------------------------------------------------------------- histories

  /** A plan with the patch it amounts to. */
  datatype Task = Task(ops: seq<Op>, patch: Patch)

  ghost predicate GoodTask(t: Task) {
    forall v :: Realizes(t.ops, t.patch, v)
  }

  /** The tasks agree wherever both have a say. */
  ghost predicate Compatible(t: Task, u: Task) {
    forall k :: k in t.patch.scope && k in u.patch.scope ==> SameAt(t.patch.content, u.patch.content, k)
  }

  /** One reconcile of a history. It may be cut or fail anywhere; ok says that it succeeded. */
  datatype Turn = Turn(task: Task, rs: seq<Reply>, ok: bool)

  ghost predicate IsTurn(db: Tables, c: Conn, t: Turn) {
    && IsRun(db, Start(c, t.task.ops), t.rs)
    && (t.ok ==> Succeeded(After(db, Start(c, t.task.ops), t.rs).th))
  }

  ghost function TurnEnd(db: Tables, c: Conn, t: Turn): Tables
    requires IsTurn(db, c, t)
  {
    After(db, Start(c, t.task.ops), t.rs).db
  }

  ghost predicate IsHistory(db: Tables, c: Conn, h: seq<Turn>)
    decreases |h|
  {
    h != [] ==> IsTurn(db, c, h[0]) && GoodTask(h[0].task) && IsHistory(TurnEnd(db, c, h[0]), c, h[1..])
  }

  ghost function EndOf(db: Tables, c: Conn, h: seq<Turn>): Tables
    requires IsHistory(db, c, h)
    decreases |h|
  {
    if h == [] then db else EndOf(TurnEnd(db, c, h[0]), c, h[1..])
  }

  lemma {:induction false} StoppedStays(db: Tables, rs: seq<Reply>)
    requires IsRun(db, Stopped, rs)
    ensures rs == [] && After(db, Stopped, rs) == Config(db, Stopped)
  {
  }

  lemma {:induction false} NoAbortOnSuccess(db: Tables, th: Thread, rs: seq<Reply>)
    requires IsRun(db, th, rs) && th.Running? && Succeeded(After(db, th, rs).th)
    ensures Abort !in th.ops
    decreases |rs|
  {
    if rs == [] {
    } else {
      var th' := Advance(th, rs[0]);
      if th'.Stopped? {
        StoppedStays(StepDb(db, th, rs[0]), rs[1..]);
      } else {
        NoAbortOnSuccess(StepDb(db, th, rs[0]), th', rs[1..]);
        assert th.ops == [th.ops[0]] + th.ops[1..];
      }
    }
  }

  lemma {:induction false} TurnEffect(db: Tables, c: Conn, t: Turn)
    requires Unique(db, c) && IsTurn(db, c, t) && GoodTask(t.task)
    ensures Unique(TurnEnd(db, c, t), c)
    ensures Between(View(db, c), View(TurnEnd(db, c, t), c), t.task.patch)
    ensures t.ok ==> View(TurnEnd(db, c, t), c) == Patched(t.task.patch, View(db, c))
  {
    assert Realizes(t.task.ops, t.task.patch, View(db, c));
    var v := View(db, c);
    assert Between(v, v, t.task.patch) by { assert forall k :: SameAt(v, v, k); }
    RunBetween(db, Start(c, t.task.ops), t.rs, t.task.patch, v);
    if t.ok {
      NoAbortOnSuccess(db, Start(c, t.task.ops), t.rs);
      SuccessEffect(db, c, t.task.ops, t.rs);
    }
  }

  lemma {:induction false} HistoryUnique(db: Tables, c: Conn, h: seq<Turn>)
    requires Unique(db, c) && IsHistory(db, c, h)
    ensures Unique(EndOf(db, c, h), c)
    decreases |h|
  {
    if h == [] {
    } else {
      TurnEffect(db, c, h[0]);
      HistoryUnique(TurnEnd(db, c, h[0]), c, h[1..]);
    }
  }

  /** The task has succeeded at least once. */
  ghost predicate DoneIn(h: seq<Turn>, t: Task) {
    exists s :: s in h && s.ok && s.task == t
  }

  lemma {:induction false} BetweenKeeps(v: ViewMap, w: ViewMap, p: Patch, target: ViewMap, k: Key)
    requires Between(v, w, p) && SameAt(v, target, k)
    requires k in p.scope ==> SameAt(p.content, target, k)
    ensures SameAt(w, target, k)
  {
    assert SameAt(w, v, k) || (k in p.scope && SameAt(w, p.content, k));
  }

  /** Settling: once a task has succeeded, every key of its scope is where the task puts it,
      and stays there through any further reconciles, cut, failed or successful, of tasks that
      agree with it. */
  lemma {:induction false} Settles(db: Tables, c: Conn, h: seq<Turn>, u: Task, k: Key)
    requires Unique(db, c) && IsHistory(db, c, h)
    requires k in u.patch.scope && forall t <- h :: Compatible(t.task, u)
    requires SameAt(View(db, c), u.patch.content, k) || DoneIn(h, u)
    ensures Unique(EndOf(db, c, h), c) && SameAt(View(EndOf(db, c, h), c), u.patch.content, k)
    decreases |h|
  {
    if h == [] {
    } else {
      var t := h[0];
      TurnEffect(db, c, t);
      var db' := TurnEnd(db, c, t);
      assert t in h;
      assert forall s <- h :: s == t || s in h[1..];
      if SameAt(View(db, c), u.patch.content, k) {
        assert k in t.task.patch.scope ==> SameAt(t.task.patch.content, u.patch.content, k);
        BetweenKeeps(View(db, c), View(db', c), t.task.patch, u.patch.content, k);
      } else if t.ok && t.task == u {
        assert Realizes(u.ops, u.patch, View(db, c));
      } else {
        var s :| s in h && s.ok && s.task == u;
        assert s in h[1..];
      }
      Settles(db', c, h[1..], u, k);
    }
  }

  /** Keys in no task's scope are left alone. */
  lemma {:induction false} Untouched(db: Tables, c: Conn, h: seq<Turn>, k: Key)
    requires Unique(db, c) && IsHistory(db, c, h)
    requires forall t <- h :: k !in t.task.patch.scope
    ensures Unique(EndOf(db, c, h), c) && SameAt(View(EndOf(db, c, h), c), View(db, c), k)
    decreases |h|
  {
    if h == [] {
    } else {
      TurnEffect(db, c, h[0]);
      assert h[0] in h;
      assert forall t <- h[1..] :: t in h;
      var v, w := View(db, c), View(TurnEnd(db, c, h[0]), c);
      assert SameAt(w, v, k);
      Untouched(TurnEnd(db, c, h[0]), c, h[1..], k);
    }
  }

  ghost predicate AllCompatible(h: seq<Turn>) {
    forall s, t :: s in h && t in h ==> Compatible(s.task, t.task)
  }

  /** Every key that some reconcile of the history may move is in the scope of a task that has succeeded
      in both g and h. Reconciles that fail for good, or that have nothing to say, are no obstacle. */
  ghost predicate Covered(turns: seq<Turn>, g: seq<Turn>, h: seq<Turn>) {
    forall t, k :: t in turns && k in t.task.patch.scope ==>
        exists u :: DoneIn(g, u) && DoneIn(h, u) && k in u.patch.scope
  }

  lemma {:induction false} SettlesDone(db: Tables, c: Conn, h: seq<Turn>, all: seq<Turn>, u: Task, k: Key)
    requires Unique(db, c) && IsHistory(db, c, h) && AllCompatible(all) && (forall t <- h :: t in all)
    requires DoneIn(h, u) && k in u.patch.scope
    ensures Unique(EndOf(db, c, h), c) && SameAt(View(EndOf(db, c, h), c), u.patch.content, k)
  {
    var s :| s in h && s.ok && s.task == u;
    assert forall t <- h :: Compatible(t.task, s.task);
    Settles(db, c, h, u, k);
  }

  lemma {:induction false} ConfluentAt(db: Tables, db2: Tables, c: Conn, g: seq<Turn>, h: seq<Turn>, k: Key)
    requires Unique(db, c) && Unique(db2, c) && SameAt(View(db, c), View(db2, c), k)
    requires IsHistory(db, c, g) && IsHistory(db2, c, h)
    requires AllCompatible(g + h) && Covered(g + h, g, h)
    ensures Unique(EndOf(db, c, g), c) && Unique(EndOf(db2, c, h), c)
    ensures SameAt(View(EndOf(db, c, g), c), View(EndOf(db2, c, h), c), k)
  {
    if t :| t in g + h && k in t.task.patch.scope {
      var u :| DoneIn(g, u) && DoneIn(h, u) && k in u.patch.scope;
      SettlesDone(db, c, g, g + h, u, k);
      SettlesDone(db2, c, h, g + h, u, k);
    } else {
      assert forall t <- g :: t in g + h;
      assert forall t <- h :: t in g + h;
      Untouched(db, c, g, k);
      Untouched(db2, c, h, k);
    }
  }

  /** Confluence: two histories of compatible tasks, in any order, with any repeats and any failures in
      between, in which every key at stake has been settled, end in the same view. */
  lemma {:induction false} Confluence(db: Tables, db2: Tables, c: Conn, g: seq<Turn>, h: seq<Turn>)
    requires Unique(db, c) && Unique(db2, c) && View(db, c) == View(db2, c)
    requires IsHistory(db, c, g) && IsHistory(db2, c, h)
    requires AllCompatible(g + h) && Covered(g + h, g, h)
    ensures Unique(EndOf(db, c, g), c) && Unique(EndOf(db2, c, h), c)
    ensures View(EndOf(db, c, g), c) == View(EndOf(db2, c, h), c)
  {
    HistoryUnique(db, c, g);
    HistoryUnique(db2, c, h);
    var v, w := View(EndOf(db, c, g), c), View(EndOf(db2, c, h), c);
    forall k ensures SameAt(v, w, k) {
      ConfluentAt(db, db2, c, g, h, k);
    }
    SameEverywhere(v, w);
  }

  // ---------------------------------------------------------------- failures

  lemma {:induction false} SomeSuccess(db: Tables, c: Conn, h: seq<Turn>, s: Turn)
    requires IsHistory(db, c, h) && s in h && s.ok
    ensures Abort !in s.task.ops
    decreases |h|
  {
    if s == h[0] {
      NoAbortOnSuccess(db, Start(c, s.task.ops), s.rs);
    } else {
      SomeSuccess(TurnEnd(db, c, h[0]), c, h[1..], s);
    }
  }

  lemma {:induction false} OneTaskView(db: Tables, c: Conn, t: Task, h: seq<Turn>)
    requires Unique(db, c) && IsHistory(db, c, h) && GoodTask(t)
    requires forall s <- h :: s.task == t
    requires exists s :: s in h && s.ok
    ensures Unique(EndOf(db, c, h), c) && Abort !in t.ops
    ensures Realizes(t.ops, t.patch, View(db, c))
    ensures View(EndOf(db, c, h), c) == Patched(t.patch, View(db, c))
  {
    HistoryUnique(db, c, h);
    var v, w := View(db, c), View(EndOf(db, c, h), c);
    var s :| s in h && s.ok;
    SomeSuccess(db, c, h, s);
    assert Realizes(t.ops, t.patch, v);
    forall k ensures SameAt(w, Patched(t.patch, v), k) {
      if k in t.patch.scope { Settles(db, c, h, t, k); } else { Untouched(db, c, h, k); }
    }
    SameEverywhere(w, Patched(t.patch, v));
  }

  /** Without removals by name, what a removal hits does not depend on the payload. */
  lemma {:induction false} SettledSpares(ops: seq<Op>, v: ViewMap, k: Key)
    requires NameFree(ops) && Settled(ops, v) && k in v
    ensures Spared(ops, k)
  {
    forall op, q | op in ops ensures !Hits(op, k, q) {
      assert !Hits(op, k, v[k]);
    }
  }

  lemma {:induction false} PatchedSettled(t: Task, v: ViewMap)
    requires Realizes(t.ops, t.patch, v)
    ensures Settled(t.ops, Patched(t.patch, v))
  {
  }

  /** Failure transparency: any number of reconciles of one task, each cut or failed at any call
      with or without that call taking effect, and then one that succeeds, give the view of a
      single clean success; and whatever runs next creates nothing and deletes nothing. */
  lemma {:induction false} FailureTransparency(db: Tables, c: Conn, t: Task, h: seq<Turn>, rs: seq<Reply>)
    requires Unique(db, c) && IsHistory(db, c, h) && GoodTask(t)
    requires forall s <- h :: s.task == t
    requires exists s :: s in h && s.ok
    ensures Unique(EndOf(db, c, h), c) && View(EndOf(db, c, h), c) == Effect(t.ops, View(db, c))
    ensures IsRun(EndOf(db, c, h), Start(c, t.ops), rs) ==>
              var k := After(EndOf(db, c, h), Start(c, t.ops), rs);
              && k.db.Keys == EndOf(db, c, h).Keys
              && (Active(k.th) ==> !NextCall(k.th).Create? && !NextCall(k.th).Delete?)
  {
    OneTaskView(db, c, t, h);
    PatchedSettled(t, View(db, c));
    if IsRun(EndOf(db, c, h), Start(c, t.ops), rs) {
      RunQuiet(EndOf(db, c, h), Start(c, t.ops), rs);
    }
  }

  /** From a settled view, every object keeps its NetBox ID through every state of a run. */
  lemma {:induction false} QuietWhole(db: Tables, c: Conn, ops: seq<Op>, rs: seq<Reply>)
    requires Unique(db, c) && IsRun(db, Start(c, ops), rs)
    requires NameFree(ops) && Settled(ops, View(db, c))
    ensures Whole(db, After(db, Start(c, ops), rs).db, c)
  {
    forall r, k | HasKey(db, c, r, k) ensures HasKey(After(db, Start(c, ops), rs).db, c, r, k) {
      InView(db, c, r);
      SettledSpares(ops, View(db, c), k);
      RunKeeps(db, Start(c, ops), rs, r, k);
    }
  }

  /** A history from a view that already is what all its tasks would make of it changes no view, and
      every object keeps its NetBox ID. */
  lemma {:induction false} HistoryQuiet(db: Tables, c: Conn, h: seq<Turn>)
    requires Unique(db, c) && IsHistory(db, c, h)
    requires forall t <- h :: Settled(t.task.ops, View(db, c))
    ensures var db' := EndOf(db, c, h);
            db'.Keys == db.Keys && Unique(db', c) && View(db', c) == View(db, c) && Whole(db, db', c)
    decreases |h|
  {
    if h == [] {
    } else {
      assert Realizes(h[0].task.ops, h[0].task.patch, View(db, c));
      assert h[0] in h;
      RunQuiet(db, Start(c, h[0].task.ops), h[0].rs);
      QuietWhole(db, c, h[0].task.ops, h[0].rs);
      assert forall t <- h[1..] :: t in h;
      HistoryQuiet(TurnEnd(db, c, h[0]), c, h[1..]);
    }
  }
}
