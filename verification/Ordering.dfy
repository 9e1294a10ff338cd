/** In which order reconciles act: the tag before any write, the other representation's objects before
    one's own, and what has been done when a reconcile meets an error of its own. */
module Ordering {
  import opened Cidrs
  import opened ExternalIds
  import opened NetBox
  import opened Views
  import opened Plans
  import opened Convergence
  import opened Interleaving
  import opened Outcomes

  // ---------------------------------------------------------------- the tag before any write

  predicate Writes(call: Call) {
    call.Create? || call.Update?
  }

  /** This call found the managed tag, or created it. */
  predicate SeesTag(call: Call, reply: Reply) {
    (call == ListTags && reply == TagListing(true)) || (call == CreateTag && reply.Done?)
  }

  /** Every write comes after a call that saw the tag, or the tag had been seen before. */
  ghost predicate TagBeforeWrites(calls: seq<Call>, rs: seq<Reply>, seen: bool)
    requires |calls| == |rs|
  {
    forall j :: 0 <= j < |calls| && Writes(calls[j]) ==> seen || exists i :: 0 <= i < j && SeesTag(calls[i], rs[i])
  }

  predicate TagFirst(ops: seq<Op>) {
    ops != [] && !ops[0].EnsureTag? ==> !ops[0].Ensure? && TagFirst(ops[1..])
  }

  lemma {:induction false} TagFirstWithout(ops: seq<Op>)
    requires forall op <- ops :: !op.Ensure?
    ensures TagFirst(ops)
    decreases |ops|
  {
    if ops == [] {
    } else {
      TagFirstWithout(ops[1..]);
    }
  }

  lemma {:induction false} TagFirstAfter(a: seq<Op>, b: seq<Op>)
    requires (forall op <- a :: !op.Ensure?) && TagFirst(b)
    ensures TagFirst(a + b)
    decreases |a|
  {
    if a == [] {
      assert a + b == b;
    } else {
      assert (a + b)[1..] == a[1..] + b;
      TagFirstAfter(a[1..], b);
    }
  }

  lemma {:induction false} ConsTagFirst(calls: seq<Call>, rs: seq<Reply>, seen: bool)
    requires |calls| == |rs| && calls != [] && (Writes(calls[0]) ==> seen)
    requires TagBeforeWrites(calls[1..], rs[1..], seen || SeesTag(calls[0], rs[0]))
    ensures TagBeforeWrites(calls, rs, seen)
  {
    forall j | 0 <= j < |calls| && Writes(calls[j]) && !seen
      ensures exists i :: 0 <= i < j && SeesTag(calls[i], rs[i]) {
      assert calls[1..][j - 1] == calls[j];
      if !SeesTag(calls[0], rs[0]) {
        var i :| 0 <= i < j - 1 && SeesTag(calls[1..][i], rs[1..][i]);
        assert SeesTag(calls[i + 1], rs[i + 1]);
      }
    }
  }

  lemma {:induction false} RunTagFirst(db: Tables, th: Thread, rs: seq<Reply>, seen: bool)
    requires IsRun(db, th, rs) && th.Running?
    requires seen || TagFirst(th.ops)
    ensures TagBeforeWrites(CallsOf(db, th, rs), rs, seen)
    decreases |rs|
  {
    if rs == [] {
    } else {
      var th', calls := Advance(th, rs[0]), CallsOf(db, th, rs);
      var now := seen || SeesTag(calls[0], rs[0]);
      if th'.Running? {
        RunTagFirst(StepDb(db, th, rs[0]), th', rs[1..], now);
      } else {
        StoppedStays(StepDb(db, th, rs[0]), rs[1..]);
      }
      ConsTagFirst(calls, rs, seen);
    }
  }

  lemma {:induction false} ServiceTagFirst(spec: Spec, o: Owner, svc: Fetched<Service>)
    requires o.ServiceOwner?
    ensures TagFirst(ServicePlan(spec, o, svc))
  {
    if svc.Present? && ToBeSynced(spec, svc.value) {
      assert ServicePlan(spec, o, svc)[0] == EnsureTag;
    } else {
      TagFirstWithout(ServicePlan(spec, o, svc));
    }
  }

  lemma {:induction false} PodCidrTagFirst(spec: Spec, name: string, node: Fetched<Node>, nodes: Fetched<seq<Node>>)
    ensures TagFirst(PodCidrPlan(spec, name, node, nodes))
  {
    var tail := PrefixTail(spec, name, node);
    if spec.podCidrs.aggregate {
      if spec.podCidrs.enabled && nodes.Present? {
        TagFirstAfter(ClearNodes(nodes.value), AggregateTail(spec, nodes.value));
      } else {
        TagFirstWithout(AggregatePlan(spec, nodes));
      }
    } else {
      if tail == [] || tail[0] != EnsureTag { TagFirstWithout(tail); }
      TagFirstAfter(DROP_AGGREGATES, tail);
    }
  }

  /** Whatever a reconcile creates or updates, it has found or created the managed tag before, in the same run. */
  lemma {:induction false} TagBeforeWrite(db: Tables, c: Conn, spec: Spec, job: Job, rs: seq<Reply>)
    requires GoodJob(job) && IsRun(db, Start(c, PlanOf(spec, job)), rs)
    ensures TagBeforeWrites(CallsOf(db, Start(c, PlanOf(spec, job)), rs), rs, false)
  {
    match job {
      case ServiceJob(o, svc) => ServiceTagFirst(spec, o, svc);
      case PodCidrJob(name, node, nodes) => PodCidrTagFirst(spec, name, node, nodes);
      case NodeJob(name, node) =>
        if node.Missing? { TagFirstWithout(NodePlan(spec, name, node)); }
      case ClusterJob(_) =>
    }
    RunTagFirst(db, Start(c, PlanOf(spec, job)), rs, false);
  }

  // ---------------------------------------------------------------- a run of two parts

  lemma {:induction false} AdvanceSplit(c: Conn, a: seq<Op>, b: seq<Op>, phase: Phase, reply: Reply)
    requires a != [] && Active(Running(c, a + b, phase))
    ensures Active(Running(c, a, phase)) && NextCall(Running(c, a, phase)) == NextCall(Running(c, a + b, phase))
    ensures var th, th' := Running(c, a, phase), Advance(Running(c, a, phase), reply);
            && (th'.Running? ==> th'.conn == c && (th'.ops == [] ==> th'.phase == Ready))
            && Advance(Running(c, a + b, phase), reply) == if th'.Running? then Running(c, th'.ops + b, th'.phase)
               else Stopped
  {
    assert (a + b)[0] == a[0] && (a + b)[1..] == a[1..] + b;
  }

  /** A run of a + b either stays within a, or is a successful run of a and then a run of b. */
  lemma {:induction false} RunSplit(db: Tables, c: Conn, a: seq<Op>, b: seq<Op>, phase: Phase, rs: seq<Reply>)
    returns (within: bool, i: nat)
    requires (a == [] ==> phase == Ready) && IsRun(db, Running(c, a + b, phase), rs)
    ensures i <= |rs| && (within ==> i == |rs|)
    ensures IsRun(db, Running(c, a, phase), rs[..i])
    ensures within ==>
              var k, whole := After(db, Running(c, a, phase), rs[..i]), After(db, Running(c, a + b, phase), rs);
              && k.db == whole.db
              && (whole.th.Running? ==> k.th.Running? && k.th.ops != [] && whole.th.ops == k.th.ops + b)
    ensures !within ==>
              var k := After(db, Running(c, a, phase), rs[..i]);
              && Succeeded(k.th) && IsRun(k.db, Start(c, b), rs[i..])
              && After(k.db, Start(c, b), rs[i..]) == After(db, Running(c, a + b, phase), rs)
    decreases |rs|
  {
    if a == [] {
      assert a + b == b && rs[0..] == rs && rs[..0] == [];
      within, i := false, 0;
    } else if rs == [] {
      within, i := true, 0;
    } else {
      AdvanceSplit(c, a, b, phase, rs[0]);
      var db', thA' := StepDb(db, Running(c, a, phase), rs[0]), Advance(Running(c, a, phase), rs[0]);
      if thA'.Stopped? {
        StoppedStays(db', rs[1..]);
        assert rs[..1] == rs && rs[1..] == [];
        within, i := true, 1;
      } else {
        var i';
        within, i' := RunSplit(db', c, thA'.ops, b, thA'.phase, rs[1..]);
        i := i' + 1;
        assert rs[..i][1..] == rs[1..][..i'] && rs[1..][i'..] == rs[i..];
      }
    }
  }

  /** A run that only removes adds nothing to the view and changes no payload. */
  ghost predicate OnlyLess(v: ViewMap, w: ViewMap) {
    forall k <- w :: k in v && w[k] == v[k]
  }

  lemma {:induction false} RunOnlyLess(db: Tables, c: Conn, ops: seq<Op>, rs: seq<Reply>)
    requires Unique(db, c) && IsRun(db, Start(c, ops), rs) && NameFree(ops) && forall op <- ops :: !op.Ensure?
    ensures var db' := After(db, Start(c, ops), rs).db; Unique(db', c) && OnlyLess(View(db, c), View(db', c))
  {
    var p := Patch(iset k: Key | HasPrefix(k.ext, ""), map[]);
    assert Between(View(db, c), View(db, c), p) by { assert forall k :: SameAt(View(db, c), View(db, c), k); }
    assert Toward(ops, p);
    RunBetween(db, Start(c, ops), rs, p, View(db, c));
    var w := View(After(db, Start(c, ops), rs).db, c);
    forall k | k in w ensures k in View(db, c) && w[k] == View(db, c)[k] {
      assert SameAt(w, View(db, c), k) || SameAt(w, p.content, k);
    }
  }

  /** What is not in the view and not wanted does not come. */
  lemma {:induction false} RunKeepsOut(db: Tables, c: Conn, ops: seq<Op>, rs: seq<Reply>, p: Patch, out: iset<Key>)
    requires Unique(db, c) && IsRun(db, Start(c, ops), rs) && Toward(ops, p)
    requires (forall k <- View(db, c) :: k !in out) && (forall k <- p.content :: k !in out)
    ensures var db' := After(db, Start(c, ops), rs).db;
            Unique(db', c) && forall k <- View(db', c) :: k !in out
  {
    var v := View(db, c);
    assert Between(v, v, p) by { assert forall k :: SameAt(v, v, k); }
    RunBetween(db, Start(c, ops), rs, p, v);
    var w := View(After(db, Start(c, ops), rs).db, c);
    forall k | k in w ensures k !in out {
      assert SameAt(w, v, k) || (k in p.scope && SameAt(w, p.content, k));
    }
  }

  /** First a removes, then b acts: in every state nothing has been written, or what a removes is gone. */
  lemma {:induction false} Staged(db: Tables, c: Conn, a: seq<Op>, b: seq<Op>, rs: seq<Reply>, p: Patch, out: iset<Key>)
    requires Unique(db, c) && IsRun(db, Start(c, a + b), rs)
    requires NameFree(a) && (forall op <- a :: !op.Ensure?) && (forall k <- Effect(a, View(db, c)) :: k !in out)
    requires Toward(b, p) && (forall k <- p.content :: k !in out)
    ensures var db' := After(db, Start(c, a + b), rs).db;
            Unique(db', c) && (OnlyLess(View(db, c), View(db', c)) || forall k <- View(db', c) :: k !in out)
  {
    var within, i := RunSplit(db, c, a, b, Ready, rs);
    if within {
      RunOnlyLess(db, c, a, rs[..i]);
    } else {
      SuccessEffect(db, c, a, rs[..i]);
      RunKeepsOut(After(db, Start(c, a), rs[..i]).db, c, b, rs[i..], p, out);
    }
  }

  // ---------------------------------------------------------------- one representation at a time

  /** In every state of a Prefix-mode reconcile no Prefix has been written, or both Aggregates are gone. */
  lemma {:induction false} PrefixesAfterAggregates(db: Tables, c: Conn, spec: Spec, name: string, node: Fetched<Node>,
                                                   rs: seq<Reply>)
    requires Unique(db, c) && (node.Present? ==> node.value.name == name)
    requires IsRun(db, Start(c, PrefixPlan(spec, name, node)), rs)
    ensures var v, db' := View(db, c), After(db, Start(c, PrefixPlan(spec, name, node)), rs).db;
            && Unique(db', c)
            && (OnlyLess(v, View(db', c)) || forall k <- View(db', c) :: !IsPodAggregate(k))
  {
    var v := View(db, c);
    DropAggregatesEffect(v);
    TailRealizes(spec, name, node, Effect(DROP_AGGREGATES, v));
    PodAggregates();
    Staged(db, c, DROP_AGGREGATES, PrefixTail(spec, name, node), rs, TailPatch(spec, name, node), AggregateScope());
  }

  lemma {:induction false} InNodesScope(nodes: seq<Node>, k: Key)
    ensures k in NodesScope(nodes) <==> exists n :: n in nodes && Under(k, Prefix, n.name + "/")
  {
    assert forall n: Node :: OwnerPrefix(NodeOwner(n.name)) == n.name + "/";
  }

  /** In every state of an enabled Aggregate-mode reconcile no Aggregate has been written, or no live Node
      has a Prefix. */
  lemma {:induction false} AggregatesAfterPrefixes(db: Tables, c: Conn, spec: Spec, nodes: seq<Node>, rs: seq<Reply>)
    requires Unique(db, c) && spec.podCidrs.enabled && IsRun(db, Start(c, AggregatePlan(spec, Present(nodes))), rs)
    ensures var v, db' := View(db, c), After(db, Start(c, AggregatePlan(spec, Present(nodes))), rs).db;
            && Unique(db', c)
            && (OnlyLess(v, View(db', c)) || forall n <- nodes :: NoneUnder(View(db', c), Prefix, n.name + "/"))
  {
    var v, clear := View(db, c), ClearNodes(nodes);
    ClearNodesEffect(nodes, v);
    ClearNodesToward(nodes, Patch(NodesScope(nodes), map[]));
    assert forall op <- clear :: !op.Ensure?;
    AggregateTailRealizes(spec, nodes, Effect(clear, v));
    Staged(db, c, clear, AggregateTail(spec, nodes), rs, Patch(AggregateScope(), AggregateContent(spec, nodes)),
           NodesScope(nodes));
    forall n, k | n in nodes && Under(k, Prefix, n.name + "/")
      ensures k in NodesScope(nodes) { InNodesScope(nodes, k); }
  }

  // ---------------------------------------------------------------- errors of a reconcile's own

  /** The reconcile has come to an error of its own: every call so far was answered. */
  ghost predicate ComesToError(db: Tables, c: Conn, ops: seq<Op>, rs: seq<Reply>) {
    && IsRun(db, Start(c, ops), rs)
    && var th := After(db, Start(c, ops), rs).th;
       th.Running? && th.ops != [] && th.ops[0].Abort?
  }

  /** A plan without errors of its own comes to none. */
  lemma {:induction false} RunNoAbort(db: Tables, th: Thread, rs: seq<Reply>)
    requires IsRun(db, th, rs) && th.Running? && Abort !in th.ops
    ensures var k := After(db, th, rs); k.th.Running? ==> Abort !in k.th.ops
    decreases |rs|
  {
    if rs == [] {
    } else {
      var db', th' := StepDb(db, th, rs[0]), Advance(th, rs[0]);
      if th'.Running? {
        RunNoAbort(db', th', rs[1..]);
      } else {
        StoppedStays(db', rs[1..]);
      }
    }
  }

  lemma {:induction false} ErrorEffect(db: Tables, c: Conn, before: seq<Op>, rs: seq<Reply>)
    requires Unique(db, c) && NameFree(before) && Abort !in before && ComesToError(db, c, before + [Abort], rs)
    ensures var db' := After(db, Start(c, before + [Abort]), rs).db;
            Unique(db', c) && View(db', c) == Effect(before, View(db, c))
  {
    var within, i := RunSplit(db, c, before, [Abort], Ready, rs);
    var mid := After(db, Start(c, before), rs[..i]);
    assert mid.th.Running? && mid.th.ops != [] ==> mid.th.ops[0] in mid.th.ops;
    RunNoAbort(db, Start(c, before), rs[..i]);
    if !within { SuccessEffect(db, c, before, rs[..i]); }
  }

  /** The first entry of a Service that has an IP which is no address. */
  predicate FirstInvalid(svc: Service, i: nat) {
    && i < |svc.ingress| && svc.ingress[i] != "" && svc.ingress[i] !in svc.parses
    && forall j :: 0 <= j < i ==> svc.ingress[j] == "" || svc.ingress[j] in svc.parses
  }

  lemma {:induction false} EarliestInvalid(svc: Service, i: nat) returns (first: nat)
    requires i < |svc.ingress| && svc.ingress[i] != "" && svc.ingress[i] !in svc.parses
    ensures FirstInvalid(svc, first)
  {
    first := i;
    if j :| 0 <= j < i && svc.ingress[j] != "" && svc.ingress[j] !in svc.parses {
      first := EarliestInvalid(svc, j);
    }
  }

  lemma {:induction false} FirstInvalidExists(svc: Service)
    ensures AllAddresses(svc) <==> !exists i :: FirstInvalid(svc, i)
  {
    if !AllAddresses(svc) {
      var ip :| ip in svc.ingress && ip != "" && ip !in svc.parses;
      var i :| 0 <= i < |svc.ingress| && svc.ingress[i] == ip;
      var first := EarliestInvalid(svc, i);
    }
  }

  lemma {:induction false} AddedOnly(v: ViewMap, content: ViewMap, prefix: string, svc: Service, i: nat)
    requires i <= |svc.ingress|
    requires forall j :: 0 <= j < i && svc.ingress[j] != "" ==> Key(IPAddress, prefix + svc.ingress[j]) in content
    requires forall k <- content :: exists j :: 0 <= j < i && k == Key(IPAddress, prefix + svc.ingress[j])
    ensures var w := v + content;
            && (forall k <- v :: k in w)
            && (forall j :: 0 <= j < i && svc.ingress[j] != "" ==> Key(IPAddress, prefix + svc.ingress[j]) in w)
            && (forall k :: (forall j :: 0 <= j < i ==> k != Key(IPAddress, prefix + svc.ingress[j])) ==>
               SameAt(w, v, k))
  {
  }

  lemma {:induction false} InvalidService(spec: Spec, ns: string, name: string, svc: Service, i: nat)
    requires ToBeSynced(spec, svc) && FirstInvalid(svc, i)
    ensures var before := [EnsureTag]
            + Ensures(IPAddress, ServiceWants(ServiceOwner(ns, name), svc.parses, svc.ingress));
            && ServicePlan(spec, ServiceOwner(ns, name), Present(svc)) == before + [Abort]
            && NameFree(before) && Abort !in before
  {
    assert svc.ingress[i] in svc.ingress;
  }

  lemma {:induction false} EnsuredOnly(ws: seq<Want>, v: ViewMap)
    ensures Effect([EnsureTag] + Ensures(IPAddress, ws), v) == v + Content(IPAddress, ws)
  {
    EffectConcat([EnsureTag], Ensures(IPAddress, ws), v);
    EffectOne(EnsureTag, v);
    EnsuresEffect(IPAddress, ws, v);
  }

  lemma {:induction false} WantedBefore(o: Owner, svc: Service, i: nat, from: nat, j: nat)
    requires o.ServiceOwner? && FirstInvalid(svc, i) && from <= j < i && svc.ingress[j] != ""
    ensures ServiceWant(o, svc.parses, svc.ingress[j]) in ServiceWants(o, svc.parses, svc.ingress[from..])
    ensures from == 0 ==> OwnedId(o, svc.ingress[j]) in Exts(ServiceWants(o, svc.parses, svc.ingress))
    decreases j - from
  {
    assert svc.ingress[from..][1..] == svc.ingress[from + 1..];
    if from < j { WantedBefore(o, svc, i, from + 1, j); }
    if from == 0 {
      assert svc.ingress[0..] == svc.ingress;
      assert ServiceWant(o, svc.parses, svc.ingress[j]).ext == OwnedId(o, svc.ingress[j]);
    }
  }

  lemma {:induction false} OnlyWantedBefore(o: Owner, svc: Service, i: nat, from: nat, w: Want) returns (j: nat)
    requires o.ServiceOwner? && FirstInvalid(svc, i) && from <= i
    requires w in ServiceWants(o, svc.parses, svc.ingress[from..])
           || (from == 0 && w in ServiceWants(o, svc.parses, svc.ingress))
    ensures from <= j < i && svc.ingress[j] in svc.parses && w == ServiceWant(o, svc.parses, svc.ingress[j])
    decreases i - from
  {
    if from == 0 { assert svc.ingress[0..] == svc.ingress; }
    assert svc.ingress[from..][1..] == svc.ingress[from + 1..];
    if from < i && svc.ingress[from] != "" && w == ServiceWant(o, svc.parses, svc.ingress[from]) {
      j := from;
    } else {
      j := OnlyWantedBefore(o, svc, i, from + 1, w);
    }
  }

  lemma {:induction false} ContentBefore(ns: string, name: string, svc: Service, i: nat)
    requires FirstInvalid(svc, i)
    ensures var content := Content(IPAddress, ServiceWants(ServiceOwner(ns, name), svc.parses, svc.ingress));
            && (forall j :: 0 <= j < i && svc.ingress[j] != "" ==>
                  Key(IPAddress, ns + "/" + name + "/" + svc.ingress[j]) in content)
            && (forall k <- content ::
                  exists j :: 0 <= j < i && k == Key(IPAddress, ns + "/" + name + "/" + svc.ingress[j]))
  {
    var o := ServiceOwner(ns, name);
    var ws := ServiceWants(o, svc.parses, svc.ingress);
    ContentKeys(IPAddress, ws);
    forall j | 0 <= j < i && svc.ingress[j] != ""
      ensures Key(IPAddress, ns + "/" + name + "/" + svc.ingress[j]) in Content(IPAddress, ws)
    {
      WantedBefore(o, svc, i, 0, j);
      ServicePrefix(ns, name, svc.ingress[j]);
    }
    forall k | k in Content(IPAddress, ws)
      ensures exists j :: 0 <= j < i && k == Key(IPAddress, ns + "/" + name + "/" + svc.ingress[j])
    {
      var w :| w in ws && w.ext == k.ext;
      var j := OnlyWantedBefore(o, svc, i, 0, w);
      ServicePrefix(ns, name, svc.ingress[j]);
    }
  }

  /** A Service sync that meets an invalid address has put in place the addresses before it, removed nothing,
      and changed nothing else. */
  lemma {:induction false} ServiceError(db: Tables, c: Conn, spec: Spec, ns: string, name: string, svc: Service, i: nat,
                                        rs: seq<Reply>)
    requires Unique(db, c) && ToBeSynced(spec, svc) && FirstInvalid(svc, i)
    requires ComesToError(db, c, ServicePlan(spec, ServiceOwner(ns, name), Present(svc)), rs)
    ensures var v, db' := View(db, c),
            After(db, Start(c, ServicePlan(spec, ServiceOwner(ns, name), Present(svc))), rs).db;
            && Unique(db', c)
            && (forall k <- v :: k in View(db', c))
            && (forall j :: 0 <= j < i && svc.ingress[j] != "" ==>
                  Key(IPAddress, ns + "/" + name + "/" + svc.ingress[j]) in View(db', c))
            && (forall k :: (forall j :: 0 <= j < i ==> k != Key(IPAddress, ns + "/" + name + "/" + svc.ingress[j]))
                            ==> SameAt(View(db', c), v, k))
  {
    var o := ServiceOwner(ns, name);
    var ws := ServiceWants(o, svc.parses, svc.ingress);
    InvalidService(spec, ns, name, svc, i);
    ErrorEffect(db, c, [EnsureTag] + Ensures(IPAddress, ws), rs);
    EnsuredOnly(ws, View(db, c));
    ContentBefore(ns, name, svc, i);
    AddedOnly(View(db, c), Content(IPAddress, ws), ns + "/" + name + "/", svc, i);
  }

  lemma {:induction false} DropsExactly(v: ViewMap)
    ensures var w := Patched(Patch(AggregateScope(), map[]), v);
            forall k :: if IsPodAggregate(k) then k !in w else SameAt(w, v, k)
  {
    PodAggregates();
  }

  /** A Prefix-mode reconcile whose Node cannot be read has removed both Aggregates and changed nothing else. */
  lemma {:induction false} PrefixError(db: Tables, c: Conn, spec: Spec, name: string, rs: seq<Reply>)
    requires Unique(db, c) && ComesToError(db, c, PrefixPlan(spec, name, Unreadable), rs)
    ensures var v, db' := View(db, c), After(db, Start(c, PrefixPlan(spec, name, Unreadable)), rs).db;
            && Unique(db', c)
            && (forall k :: if IsPodAggregate(k) then k !in View(db', c) else SameAt(View(db', c), v, k))
  {
    ErrorEffect(db, c, DROP_AGGREGATES, rs);
    DropAggregatesEffect(View(db, c));
    DropsExactly(View(db, c));
  }

  /** An error is met only where the plan has one. */
  lemma {:induction false} AbortThere(db: Tables, th: Thread, rs: seq<Reply>)
    requires IsRun(db, th, rs) && th.Running?
    requires var k := After(db, th, rs).th; k.Running? && k.ops != [] && k.ops[0].Abort?
    ensures Abort in th.ops
  {
    var k := After(db, th, rs).th;
    assert k.ops[0] in k.ops;
    if Abort !in th.ops { RunNoAbort(db, th, rs); }
  }

  lemma {:induction false} InvalidPlan(spec: Spec, nodes: seq<Node>)
    requires spec.podCidrs.enabled && !AllValid(nodes)
    ensures AggregatePlan(spec, Present(nodes)) == ClearNodes(nodes) + [Abort]
  {
    GatheredValid(nodes);
    SupernetsLeast(AllCidrs(nodes));
  }

  /** An Aggregate sync that meets an invalid pod CIDR has removed the Prefixes of the live Nodes and changed
      nothing else; one whose Nodes cannot be listed has changed nothing. */
  lemma {:induction false} AggregateError(db: Tables, c: Conn, spec: Spec, nodes: Fetched<seq<Node>>, rs: seq<Reply>)
    requires Unique(db, c) && ComesToError(db, c, AggregatePlan(spec, nodes), rs)
    ensures var v, db' := View(db, c), After(db, Start(c, AggregatePlan(spec, nodes)), rs).db;
            && Unique(db', c) && spec.podCidrs.enabled
            && (!nodes.Present? ==> View(db', c) == v)
            && (nodes.Present? ==>
                  forall k :: if exists n :: n in nodes.value && Under(k, Prefix, n.name + "/")
                              then k !in View(db', c) else SameAt(View(db', c), v, k))
  {
    AbortThere(db, Start(c, AggregatePlan(spec, nodes)), rs);
    AggregateAborts(spec, nodes);
    if nodes.Present? {
      var ns := nodes.value;
      InvalidPlan(spec, ns);
      ClearNodesToward(ns, Patch(NodesScope(ns), map[]));
      ErrorEffect(db, c, ClearNodes(ns), rs);
      ClearNodesEffect(ns, View(db, c));
      forall k ensures k in NodesScope(ns) <==>
          exists n :: n in ns && Under(k, Prefix, n.name + "/") { InNodesScope(ns, k); }
    } else {
      assert AggregatePlan(spec, nodes) == [] + [Abort];
      ErrorEffect(db, c, [], rs);
    }
  }

  /** A Node reconcile that comes to an error of its own has changed nothing. */
  lemma {:induction false} NodeError(db: Tables, c: Conn, spec: Spec, name: string, node: Fetched<Node>, rs: seq<Reply>)
    requires Unique(db, c) && ComesToError(db, c, NodePlan(spec, name, node), rs)
    ensures var db' := After(db, Start(c, NodePlan(spec, name, node)), rs).db;
            Unique(db', c) && View(db', c) == View(db, c)
  {
    AbortThere(db, Start(c, NodePlan(spec, name, node)), rs);
    NodeAborts(spec, name, node);
    if node.Unreadable? {
      assert NodePlan(spec, name, node) == [] + [Abort];
      ErrorEffect(db, c, [], rs);
    } else {
      assert NodePlan(spec, name, node) == [EnsureTag] + [Abort];
      ErrorEffect(db, c, [EnsureTag], rs);
      EffectOne(EnsureTag, View(db, c));
    }
  }
}
