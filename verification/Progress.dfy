/** That reconciles can succeed: NetBox can always answer, and a plan can be carried out exactly when
    it has no error of its own and every reference object that it looks up exists. */
module Progress {
  import opened NetBox
  import opened Views
  import opened Convergence

  /** The names looked up in a run, in order. */
  function Consults(db: Tables, th: Thread, rs: seq<Reply>): seq<Query>
    requires IsRun(db, th, rs)
    decreases |rs|
  {
    if rs == [] then []
    else
      (if NextCall(th).Consult? then [NextCall(th).what] else [])
      + Consults(Apply(db, th.conn, NextCall(th), rs[0]), Advance(th, rs[0]), rs[1..])
  }

  function Queries(ops: seq<Op>): seq<Query> {
    if ops == [] then []
    else
      (match ops[0] case Ensure(_, _, _, lookups) => lookups case Check(what) => [what] case _ => [])
      + Queries(ops[1..])
  }

  /** The names a thread still has to look up. */
  function Owed(th: Thread): seq<Query>
    requires th.Running?
  {
    if th.ops != [] && th.ops[0].Ensure? && th.phase.Found? then th.phase.pending + Queries(th.ops[1..])
    else Queries(th.ops)
  }

  lemma {:induction false} OwedStep(th: Thread, reply: Reply)
    requires Active(th) && !reply.Lost? && (NextCall(th).List? <==> reply.Listing?)
             && (NextCall(th).ListTags? <==> reply.TagListing?)
    ensures Owed(th) == (if NextCall(th).Consult? then [NextCall(th).what] else []) + Owed(Advance(th, reply))
  {
  }

  /** A run that succeeds has looked up every name of its plan, once each and in order. */
  lemma {:induction false} ConsultsAll(db: Tables, th: Thread, rs: seq<Reply>)
    requires IsRun(db, th, rs) && th.Running? && Succeeded(After(db, th, rs).th)
    ensures Consults(db, th, rs) == Owed(th)
    decreases |rs|
  {
    if rs == [] {
    } else {
      var db', th' := StepDb(db, th, rs[0]), Advance(th, rs[0]);
      if th'.Stopped? {
        StoppedStays(db', rs[1..]);
      } else {
        OwedStep(th, rs[0]);
        ConsultsAll(db', th', rs[1..]);
      }
    }
  }

  /** NetBox finds only reference objects that it has. */
  predicate Honest(db: Tables, th: Thread, rs: seq<Reply>, known: set<Query>)
    requires IsRun(db, th, rs)
    decreases |rs|
  {
    rs != [] ==>
      && (NextCall(th).Consult? && rs[0].Done? ==> NextCall(th).what in known)
      && Honest(Apply(db, th.conn, NextCall(th), rs[0]), Advance(th, rs[0]), rs[1..], known)
  }

  lemma {:induction false} HonestNeedsAll(db: Tables, th: Thread, rs: seq<Reply>, known: set<Query>)
    requires IsRun(db, th, rs) && th.Running? && Succeeded(After(db, th, rs).th) && Honest(db, th, rs, known)
    ensures forall q <- Owed(th) :: q in known
    decreases |rs|
  {
    if rs == [] {
    } else {
      var db', th' := StepDb(db, th, rs[0]), Advance(th, rs[0]);
      if th'.Stopped? {
        StoppedStays(db', rs[1..]);
      } else {
        OwedStep(th, rs[0]);
        HonestNeedsAll(db', th', rs[1..], known);
      }
    }
  }

  lemma {:induction false} FreshId(refs: set<Ref>) returns (id: nat)
    ensures forall r <- refs :: r.id < id
    decreases refs
  {
    if refs == {} {
      id := 0;
    } else {
      var r :| r in refs;
      var rest := FreshId(refs - {r});
      id := if r.id < rest then rest else r.id + 1;
    }
  }

  /** NetBox can always list. */
  lemma {:induction false} ListingOf(db: Tables, c: Conn, kind: Kind, refs: set<Ref>) returns (items: seq<Item>)
    requires forall r <- refs :: Tagged(db, c, r) && r.kind == kind
    ensures forall i, j :: 0 <= i < j < |items| ==> items[i].id != items[j].id
    ensures forall i :: 0 <= i < |items| ==>
              var r := Ref(c.site, kind, items[i].id); r in refs && r in db && db[r] == items[i].row
    ensures forall r <- refs :: exists i :: 0 <= i < |items| && items[i].id == r.id
    decreases refs
  {
    if refs == {} {
      items := [];
    } else {
      var r :| r in refs;
      var rest := ListingOf(db, c, kind, refs - {r});
      items := rest + [Item(r.id, db[r])];
      assert items[|rest|].id == r.id;
      forall s | s in refs ensures exists i :: 0 <= i < |items| && items[i].id == s.id {
        if s != r {
          var i :| 0 <= i < |rest| && rest[i].id == s.id;
          assert items[i].id == s.id;
        }
      }
    }
  }

  // ---------------------------------------------------------------- runs to the end

  /** rs carries the thread to the end, if NetBox has the known reference objects. */
  ghost predicate Completes(db: Tables, th: Thread, rs: seq<Reply>, known: set<Query>) {
    IsRun(db, th, rs) && Succeeded(After(db, th, rs).th) && Honest(db, th, rs, known)
  }

  lemma {:induction false} CompletesCons(db: Tables, th: Thread, reply: Reply, rest: seq<Reply>, known: set<Query>)
    requires Active(th) && Admissible(db, th.conn, NextCall(th), reply)
    requires NextCall(th).Consult? && reply.Done? ==> NextCall(th).what in known
    requires Completes(Apply(db, th.conn, NextCall(th), reply), Advance(th, reply), rest, known)
    ensures Completes(db, th, [reply] + rest, known)
  {
    assert ([reply] + rest)[1..] == rest;
  }

  lemma {:induction false} QueriesCons(ops: seq<Op>)
    requires ops != []
    ensures forall q <- Queries(ops[1..]) :: q in Queries(ops)
    ensures ops[0].Ensure? ==> forall q <- ops[0].lookups :: q in Queries(ops)
    ensures ops[0].Check? ==> ops[0].what in Queries(ops)
  {
  }

  /** From where a removal has chosen its victims, a run to the end of the plan. */
  lemma {:induction false} DeleteOut(db: Tables, c: Conn, ops: seq<Op>, ids: seq<nat>, known: set<Query>)
    returns (rs: seq<Reply>)
    requires ops != [] && ops[0].Remove? && ids != [] && Distinct(ids)
    requires forall id <- ids :: Ref(c.site, ops[0].kind, id) in db
    requires Abort !in ops && forall q <- Queries(ops) :: q in known
    ensures Completes(db, Running(c, ops, Doomed(ids)), rs, known)
    decreases |ops|, 0, |ids|
  {
    var th := Running(c, ops, Doomed(ids));
    var left := Apply(db, c, NextCall(th), Done(0));
    QueriesCons(ops);
    var rest;
    if |ids| > 1 {
      assert forall id <- ids[1..] :: id in ids && id != ids[0];
      rest := DeleteOut(left, c, ops, ids[1..], known);
    } else {
      rest := RunOut(left, c, ops[1..], known);
    }
    CompletesCons(db, th, Done(0), rest, known);
    rs := [Done(0)] + rest;
  }

  /** From a listing on. */
  lemma {:induction false} ListOut(db: Tables, c: Conn, ops: seq<Op>, known: set<Query>) returns (rs: seq<Reply>)
    requires ops != [] && (ops[0].Ensure? || ops[0].Remove?)
    requires Abort !in ops && forall q <- Queries(ops) :: q in known
    ensures Completes(db, Start(c, ops), rs, known)
    decreases |ops|, 1, 0
  {
    var op := ops[0];
    var items := ListingOf(db, c, op.kind, set r | r in db && Tagged(db, c, r) && r.kind == op.kind);
    assert IsListing(db, c, op.kind, items);
    QueriesCons(ops);
    var rest;
    if op.Ensure? {
      FirstWithIdFinds(items, op.ext);
      rest := WriteOut(db, c, ops, FirstWithId(items, op.ext), op.lookups, known);
    } else {
      VictimsExact(db, c, op.kind, op.sel, items);
      if Victims(op.sel, items) == [] {
        rest := RunOut(db, c, ops[1..], known);
      } else {
        rest := DeleteOut(db, c, ops, Victims(op.sel, items), known);
      }
    }
    CompletesCons(db, Start(c, ops), Listing(items), rest, known);
    rs := [Listing(items)] + rest;
  }

  lemma {:induction false} RunOut(db: Tables, c: Conn, ops: seq<Op>, known: set<Query>) returns (rs: seq<Reply>)
    requires Abort !in ops && forall q <- Queries(ops) :: q in known
    ensures Completes(db, Start(c, ops), rs, known)
    decreases |ops|, 2, 0
  {
    if ops == [] {
      rs := [];
    } else if ops[0].Ensure? || ops[0].Remove? {
      rs := ListOut(db, c, ops, known);
    } else {
      assert ops[0] in ops;
      QueriesCons(ops);
      var reply := if ops[0].EnsureTag? then TagListing(true) else Done(0);
      var rest := RunOut(db, c, ops[1..], known);
      CompletesCons(db, Start(c, ops), reply, rest, known);
      rs := [reply] + rest;
    }
  }

  /** From where an Ensure has looked for its object, a run to the end of the plan. */
  lemma {:induction false} WriteOut(db: Tables, c: Conn, ops: seq<Op>, target: Option<nat>, pending: seq<Query>,
                                    known: set<Query>) returns (rs: seq<Reply>)
    requires ops != [] && ops[0].Ensure? && (target.Some? ==> Ref(c.site, ops[0].kind, target.value) in db)
    requires (forall q <- pending :: q in known) && Abort !in ops && forall q <- Queries(ops) :: q in known
    ensures Completes(db, Running(c, ops, Found(target, pending)), rs, known)
    decreases |ops|, 0, |pending|
  {
    var th := Running(c, ops, Found(target, pending));
    if pending == [] {
      var unused := FreshId(db.Keys);
      var reply := Done(if target.Some? then 0 else unused);
      assert Ref(c.site, ops[0].kind, unused) !in db;
      QueriesCons(ops);
      var rest := RunOut(Apply(db, c, NextCall(th), reply), c, ops[1..], known);
      CompletesCons(db, th, reply, rest, known);
      rs := [reply] + rest;
    } else {
      var rest := WriteOut(db, c, ops, target, pending[1..], known);
      CompletesCons(db, th, Done(0), rest, known);
      rs := [Done(0)] + rest;
    }
  }

  /** A reconcile with this plan can succeed. */
  ghost predicate CanSucceed(db: Tables, c: Conn, ops: seq<Op>, known: set<Query>) {
    exists rs :: Completes(db, Start(c, ops), rs, known)
  }

  /** Exactly when the plan has no error of its own and all it looks up exists. */
  lemma {:induction false} CanSucceedIff(db: Tables, c: Conn, ops: seq<Op>, known: set<Query>)
    ensures CanSucceed(db, c, ops, known) <==> Abort !in ops && forall q <- Queries(ops) :: q in known
  {
    if rs :| Completes(db, Start(c, ops), rs, known) {
      NoAbortOnSuccess(db, Start(c, ops), rs);
      HonestNeedsAll(db, Start(c, ops), rs, known);
    }
    if Abort !in ops && forall q <- Queries(ops) :: q in known {
      var rs := RunOut(db, c, ops, known);
    }
  }
}
