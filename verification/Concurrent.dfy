/** The convergence results under every interleaving: the part of a trace that concerns one
    controller's tables is a history of that controller's reconciles, one after another. */
module Concurrent {
  import opened NetBox
  import opened Views
  import opened Plans
  import opened Convergence
  import opened Scenarios
  import opened Interleaving

  predicate HasTaskOf(job: Job) {
    (job.ServiceJob? && job.owner.ServiceOwner?)
    || (job.PodCidrJob? && (job.node.Present? ==> job.node.value.name == job.name))
    || (job.NodeJob? && !job.node.Missing?)
  }

  /** The task that a Service or pod CIDR job, or that of a Node that is not gone, is under a spec. */
  ghost function TaskOf(spec: Spec, job: Job): (t: Task)
    requires HasTaskOf(job)
    ensures GoodTask(t) && GoodJob(job) && t.ops == PlanOf(spec, job)
  {
    match job
    case ServiceJob(o, svc) => ServiceTask(spec, o, svc)
    case PodCidrJob(name, node, nodes) => PodCidrTask(spec, name, node, nodes)
    case NodeJob(name, node) => NodeTask(spec, name, node)
  }

  /** Throughout the trace the Store holds nothing but sessions of this instance and slug, and the
      controller starts nothing but jobs whose tasks are in the fleet. */
  ghost predicate Steady(w: World, m: set<string>, acts: seq<Action>, ctl: Controller, c: Conn, fleet: iset<Task>)
    requires IsTrace(w, m, acts)
    decreases |acts|
  {
    && (w.store.Some? ==> ConnOf(w.store.value) == c)
    && (acts != [] ==>
          && (acts[0].Begin? && ControllerOf(acts[0].job) == ctl ==>
                HasTaskOf(acts[0].job) && TaskOf(w.store.value.spec, acts[0].job) in fleet)
          && Steady(Do(w, m, acts[0]), m, acts[1..], ctl, c, fleet))
  }

  /** The task the controller is at after an action, if any. */
  ghost function TaskAfter(w: World, m: set<string>, a: Action, ctl: Controller, cur: Option<Task>): Option<Task>
    requires Legal(w, m, a)
  {
    if a.Begin? && ControllerOf(a.job) == ctl then
      if HasTaskOf(a.job) then Some(TaskOf(w.store.value.spec, a.job)) else None
    else if a.Restart? || a == Finish(ctl) then None
    else cur
  }

  /** Somewhere in the trace the controller, which starts at task cur, returns from task u with success. */
  ghost predicate Completes(w: World, m: set<string>, acts: seq<Action>, ctl: Controller, cur: Option<Task>, u: Task)
    requires IsTrace(w, m, acts)
    decreases |acts|
  {
    && acts != []
    && ((acts[0] == Finish(ctl) && Succeeded(w.threads[ctl]) && cur == Some(u))
        || Completes(Do(w, m, acts[0]), m, acts[1..], ctl, TaskAfter(w, m, acts[0], ctl, cur), u))
  }

  /** A reconcile under way: its task, the controller's tables when it started, and its replies so far. */
  datatype Current = Current(task: Task, start: Tables, rs: seq<Reply>)

  ghost predicate Tracks(w: World, ctl: Controller, c: Conn, cur: Option<Current>) {
    match cur
    case None => ctl !in w.threads
    case Some(k) =>
      && ctl in w.threads && GoodTask(k.task) && (w.threads[ctl].Running? ==> w.threads[ctl].conn == c)
      && IsRun(k.start, Start(c, k.task.ops), k.rs)
      && After(k.start, Start(c, k.task.ops), k.rs) == Config(Project(w.db, c, KindsOf(ctl)), w.threads[ctl])
  }

  ghost function CurrentAfter(w: World, m: set<string>, a: Action, ctl: Controller, c: Conn,
                              cur: Option<Current>): Option<Current>
    requires Legal(w, m, a)
    requires a.Begin? && ControllerOf(a.job) == ctl ==> HasTaskOf(a.job)
    requires a.CallNext? && a.ctl == ctl ==> cur.Some?
  {
    if a.Begin? && ControllerOf(a.job) == ctl then
      Some(Current(TaskOf(w.store.value.spec, a.job), Project(w.db, c, KindsOf(ctl)), []))
    else if a.Restart? || a == Finish(ctl) then None
    else if a.CallNext? && a.ctl == ctl then Some(cur.value.(rs := cur.value.rs + [a.reply]))
    else cur
  }

  lemma {:induction false} OwnCallTracks(w: World, m: set<string>, a: Action, ctl: Controller, c: Conn,
                                         cur: Option<Current>)
    requires Inv(w, m) && Legal(w, m, a) && Tracks(w, ctl, c, cur) && c.slug in m && ctl != ConfigCtl
    requires a.CallNext? && a.ctl == ctl
    ensures cur.Some? && Tracks(Do(w, m, a), ctl, c, CurrentAfter(w, m, a, ctl, c, cur))
  {
    var th := w.threads[ctl];
    assert ThreadGood(w, m, ctl, th);
    ProjectStep(w.db, th, a.reply, KindsOf(ctl));
    RunSnoc(cur.value.start, Start(c, cur.value.task.ops), cur.value.rs, a.reply);
  }

  lemma {:induction false} StepTracks(w: World, m: set<string>, a: Action, ctl: Controller, c: Conn,
                                      cur: Option<Current>)
    requires Inv(w, m) && Legal(w, m, a) && Tracks(w, ctl, c, cur) && c.slug in m && ctl != ConfigCtl
    requires w.store.Some? ==> ConnOf(w.store.value) == c
    requires a.Begin? && ControllerOf(a.job) == ctl ==> HasTaskOf(a.job)
    ensures a.CallNext? && a.ctl == ctl ==> cur.Some?
    ensures Tracks(Do(w, m, a), ctl, c, CurrentAfter(w, m, a, ctl, c, cur))
  {
    if a.CallNext? && a.ctl == ctl {
      OwnCallTracks(w, m, a, ctl, c, cur);
    } else {
      OtherAction(w, m, a, ctl, c);
    }
  }

  /** Where the controller's story starts: at the start of the reconcile under way, or now. */
  ghost function Origin(w: World, ctl: Controller, c: Conn, cur: Option<Current>): Tables {
    if cur.Some? then cur.value.start else Project(w.db, c, KindsOf(ctl))
  }

  ghost function TaskIn(cur: Option<Current>): Option<Task> {
    if cur.Some? then Some(cur.value.task) else None
  }

  /** The reconcile that ends with this action, if one does. */
  ghost function Ended(w: World, a: Action, ctl: Controller, cur: Option<Current>): seq<Turn>
    requires a == Finish(ctl) ==> ctl in w.threads
  {
    if cur.Some? && (a.Restart? || a == Finish(ctl))
    then [Turn(cur.value.task, cur.value.rs, a == Finish(ctl) && Succeeded(w.threads[ctl]))]
    else []
  }

  /** Every task completed in the trace has succeeded in the history. */
  ghost predicate AllCompleted(w: World, m: set<string>, acts: seq<Action>, ctl: Controller, cur: Option<Task>,
                               h: seq<Turn>)
    requires IsTrace(w, m, acts)
  {
    forall u :: Completes(w, m, acts, ctl, cur, u) ==> DoneIn(h, u)
  }

  lemma {:induction false} LastTurn(w: World, ctl: Controller, c: Conn, cur: Option<Current>) returns (h: seq<Turn>)
    requires Tracks(w, ctl, c, cur)
    ensures IsHistory(Origin(w, ctl, c, cur), c, h) && (forall t <- h :: cur.Some? && t.task == cur.value.task)
    ensures EndOf(Origin(w, ctl, c, cur), c, h) == Project(w.db, c, KindsOf(ctl))
  {
    h := if cur.Some? then [Turn(cur.value.task, cur.value.rs, false)] else [];
  }

  lemma {:induction false} Prepend(db: Tables, c: Conn, first: seq<Turn>, rest: seq<Turn>, h: seq<Turn>)
    requires |first| <= 1 && h == first + rest
    requires first == [] ==> IsHistory(db, c, rest)
    requires first != [] ==>
               && IsTurn(db, c, first[0]) && GoodTask(first[0].task)
               && IsHistory(TurnEnd(db, c, first[0]), c, rest)
    ensures IsHistory(db, c, h)
    ensures EndOf(db, c, h) == if first == [] then EndOf(db, c, rest) else EndOf(TurnEnd(db, c, first[0]), c, rest)
  {
    if first == [] {
      assert h == rest;
    } else {
      assert h[0] == first[0] && h[1..] == rest;
    }
  }

  lemma {:induction false} CompletesNow(w: World, m: set<string>, acts: seq<Action>, ctl: Controller, c: Conn,
                                        cur: Option<Current>,
                     u: Task, rest: seq<Turn>)
    requires IsTrace(w, m, acts) && acts != [] && Completes(w, m, acts, ctl, TaskIn(cur), u)
    requires acts[0].Begin? && ControllerOf(acts[0].job) == ctl ==> HasTaskOf(acts[0].job)
    requires acts[0].CallNext? && acts[0].ctl == ctl ==> cur.Some?
    requires var a := acts[0];
             var cur' := CurrentAfter(w, m, a, ctl, c, cur);
             Completes(Do(w, m, a), m, acts[1..], ctl, TaskIn(cur'), u) ==> DoneIn(rest, u)
    ensures DoneIn(Ended(w, acts[0], ctl, cur) + rest, u)
  {
    var a := acts[0];
    var h := Ended(w, a, ctl, cur) + rest;
    assert TaskIn(CurrentAfter(w, m, a, ctl, c, cur)) == TaskAfter(w, m, a, ctl, TaskIn(cur));
    if a == Finish(ctl) && Succeeded(w.threads[ctl]) && TaskIn(cur) == Some(u) {
      assert h[0].ok && h[0].task == u;
      assert h[0] in h;
    } else {
      var s :| s in rest && s.ok && s.task == u;
      assert s in h;
    }
  }

  lemma {:induction false} AllCompletesNow(w: World, m: set<string>, acts: seq<Action>, ctl: Controller, c: Conn,
                                           cur: Option<Current>, rest: seq<Turn>)
    requires IsTrace(w, m, acts) && acts != []
    requires acts[0].Begin? && ControllerOf(acts[0].job) == ctl ==> HasTaskOf(acts[0].job)
    requires acts[0].CallNext? && acts[0].ctl == ctl ==> cur.Some?
    requires var a := acts[0];
             var cur' := CurrentAfter(w, m, a, ctl, c, cur);
             AllCompleted(Do(w, m, a), m, acts[1..], ctl, TaskIn(cur'), rest)
    ensures AllCompleted(w, m, acts, ctl, TaskIn(cur), Ended(w, acts[0], ctl, cur) + rest)
  {
    forall u | Completes(w, m, acts, ctl, TaskIn(cur), u) ensures DoneIn(Ended(w, acts[0], ctl, cur) + rest, u) {
      CompletesNow(w, m, acts, ctl, c, cur, u, rest);
    }
  }

  /** Between reconciles nobody else moves the controller's tables; during one, the origin stays. */
  lemma {:induction false} OriginAfter(w: World, m: set<string>, a: Action, ctl: Controller, c: Conn,
                                       cur: Option<Current>)
    requires Inv(w, m) && Legal(w, m, a) && Tracks(w, ctl, c, cur) && c.slug in m && ctl != ConfigCtl
    requires a.Begin? && ControllerOf(a.job) == ctl ==> HasTaskOf(a.job)
    requires a.CallNext? && a.ctl == ctl ==> cur.Some?
    ensures Ended(w, a, ctl, cur) == [] ==>
              Origin(Do(w, m, a), ctl, c, CurrentAfter(w, m, a, ctl, c, cur)) == Origin(w, ctl, c, cur)
    ensures Ended(w, a, ctl, cur) != [] ==>
              var t := Ended(w, a, ctl, cur)[0];
              && IsTurn(Origin(w, ctl, c, cur), c, t) && GoodTask(t.task)
              && TurnEnd(Origin(w, ctl, c, cur), c, t)
                 == Origin(Do(w, m, a), ctl, c, CurrentAfter(w, m, a, ctl, c, cur))
  {
    if !(a.CallNext? && a.ctl == ctl) { OtherAction(w, m, a, ctl, c); }
  }

  /** Every interleaving, seen from one controller's tables, is a history of its reconciles, with the
      same tasks and the same successes; those cut by a restart are cut turns of the history. */
  lemma {:induction false} HistoryOf(w: World, m: set<string>, acts: seq<Action>, ctl: Controller, c: Conn,
                                     fleet: iset<Task>, cur: Option<Current>) returns (h: seq<Turn>)
    requires Inv(w, m) && IsTrace(w, m, acts) && c.slug in m && ctl != ConfigCtl
    requires Steady(w, m, acts, ctl, c, fleet)
    requires Tracks(w, ctl, c, cur) && (cur.Some? ==> cur.value.task in fleet)
    ensures IsHistory(Origin(w, ctl, c, cur), c, h) && FromFleet(h, fleet)
    ensures EndOf(Origin(w, ctl, c, cur), c, h) == Project(EndOfTrace(w, m, acts).db, c, KindsOf(ctl))
    ensures AllCompleted(w, m, acts, ctl, TaskIn(cur), h)
    decreases |acts|
  {
    if acts == [] {
      h := LastTurn(w, ctl, c, cur);
    } else {
      var a := acts[0];
      StepInv(w, m, a);
      StepTracks(w, m, a, ctl, c, cur);
      OriginAfter(w, m, a, ctl, c, cur);
      var w', cur', first := Do(w, m, a), CurrentAfter(w, m, a, ctl, c, cur), Ended(w, a, ctl, cur);
      assert cur'.Some? ==> cur'.value.task in fleet;
      var rest := HistoryOf(w', m, acts[1..], ctl, c, fleet, cur');
      h := first + rest;
      Prepend(Origin(w, ctl, c, cur), c, first, rest, h);
      AllCompletesNow(w, m, acts, ctl, c, cur, rest);
    }
  }

  /** The controller's part of the view. */
  ghost function OwnView(w: World, m: set<string>, ctl: Controller, c: Conn): ViewMap
    requires Inv(w, m) && c.slug in m
  {
    assert Unique(w.db, c);
    ProjectUnique(w.db, c, KindsOf(ctl));
    View(Project(w.db, c, KindsOf(ctl)), c)
  }

  /** Settling under every interleaving: in any trace with other controllers, other users, failed
      calls and restarts, once a task has succeeded every key of its scope is where the task puts it. */
  lemma {:induction false} ConcurrentSettles(w: World, m: set<string>, acts: seq<Action>, ctl: Controller, c: Conn,
                          fleet: iset<Task>, u: Task, k: Key)
    requires Inv(w, m) && IsTrace(w, m, acts) && c.slug in m && ctl != ConfigCtl && ctl !in w.threads
    requires Steady(w, m, acts, ctl, c, fleet) && IsFleet(fleet)
    requires u in fleet && Completes(w, m, acts, ctl, None, u) && k in u.patch.scope
    ensures Inv(EndOfTrace(w, m, acts), m)
    ensures SameAt(OwnView(EndOfTrace(w, m, acts), m, ctl, c), u.patch.content, k)
  {
    TraceInv(w, m, acts);
    var h := HistoryOf(w, m, acts, ctl, c, fleet, None);
    assert Unique(w.db, c);
    ProjectUnique(w.db, c, KindsOf(ctl));
    FleetSettles(Project(w.db, c, KindsOf(ctl)), c, h, fleet, u, k);
  }

  /** Confluence under every interleaving: two traces in which the controller runs tasks of one fleet and
      completes enough of them to settle every key at stake end in the same view of its tables, if they
      started in the same one. Reconciles that fail for good, as when Kubernetes does not answer, may be
      among them. */
  lemma {:induction false} ConcurrentConfluence(w1: World, w2: World, m: set<string>, acts1: seq<Action>,
                                                acts2: seq<Action>,
                             ctl: Controller, c: Conn, fleet: iset<Task>)
    requires Inv(w1, m) && Inv(w2, m) && IsTrace(w1, m, acts1) && IsTrace(w2, m, acts2)
    requires c.slug in m && ctl != ConfigCtl && ctl !in w1.threads && ctl !in w2.threads && IsFleet(fleet)
    requires Steady(w1, m, acts1, ctl, c, fleet) && Steady(w2, m, acts2, ctl, c, fleet)
    requires forall t, k :: t in fleet && k in t.patch.scope ==>
               exists u ::
                 && Completes(w1, m, acts1, ctl, None, u) && Completes(w2, m, acts2, ctl, None, u)
                 && k in u.patch.scope
    requires OwnView(w1, m, ctl, c) == OwnView(w2, m, ctl, c)
    ensures Inv(EndOfTrace(w1, m, acts1), m) && Inv(EndOfTrace(w2, m, acts2), m)
    ensures OwnView(EndOfTrace(w1, m, acts1), m, ctl, c) == OwnView(EndOfTrace(w2, m, acts2), m, ctl, c)
  {
    TraceInv(w1, m, acts1);
    TraceInv(w2, m, acts2);
    var g := HistoryOf(w1, m, acts1, ctl, c, fleet, None);
    var h := HistoryOf(w2, m, acts2, ctl, c, fleet, None);
    assert Unique(w1.db, c) && Unique(w2.db, c);
    ProjectUnique(w1.db, c, KindsOf(ctl));
    ProjectUnique(w2.db, c, KindsOf(ctl));
    FleetConfluence(Project(w1.db, c, KindsOf(ctl)), Project(w2.db, c, KindsOf(ctl)), c, g, h, fleet);
  }
}
