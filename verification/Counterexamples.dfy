/** For each promise of the documentation that holds only under a condition, a state in which it fails. */
module Counterexamples {
  import opened Cidrs
  import opened ExternalIds
  import opened NetBox
  import opened Views
  import opened Plans
  import opened Convergence
  import opened Scenarios
  import opened Progress
  import opened Outcomes
  import opened Promises

  const AT: Conn := Conn(0, "managed")
  const WORKER: Node := Node("worker", "uid-1", [])
  const WEB: Owner := ServiceOwner("default", "web")
  const GONE: Owner := ServiceOwner("default", "gone")

  /** NetBox with a single object, of Herald's. */
  function OneObject(kind: Kind, ext: string, payload: Payload): Tables {
    map[Ref(0, kind, 1) := HeraldRow("managed", ext, payload)]
  }

  function TheItem(ext: string, payload: Payload): Item {
    Item(1, HeraldRow("managed", ext, payload))
  }

  lemma {:induction false} OneObjectListed(kind: Kind, ext: string, payload: Payload)
    ensures var db := OneObject(kind, ext, payload);
            && IsListing(db, AT, kind, [TheItem(ext, payload)])
            && forall other: Kind :: other != kind ==> IsListing(db, AT, other, [])
  {
    assert [TheItem(ext, payload)][0].id == 1;
  }

  lemma {:induction false} OneObjectView(kind: Kind, ext: string, payload: Payload)
    ensures var db := OneObject(kind, ext, payload);
            && Unique(db, AT) && KeysIn(db, AT) == {Key(kind, ext)} && Key(kind, ext) in View(db, AT)
            && IsListing(db, AT, kind, [TheItem(ext, payload)])
            && forall other: Kind :: other != kind ==> IsListing(db, AT, other, [])
  {
    OneObjectListed(kind, ext, payload);
    var db := OneObject(kind, ext, payload);
    assert forall r, k :: HasKey(db, AT, r, k) ==> r == Ref(0, kind, 1);
    InView(db, AT, Ref(0, kind, 1));
  }

  function SomeSpec(nodes: NodesSpec, services: ServicesSpec, podCidrs: PodCidrsSpec): Spec {
    Spec("managed", nodes, services, podCidrs, ClusterSpec(false, "", "", "", ""))
  }

  /** Everything disabled, with or without retention, in Prefix or Aggregate mode. */
  function Off(retain: bool, aggregate: bool): Spec {
    SomeSpec(NodesSpec(false, retain, DeviceMapping, "", "", "", "", ""), ServicesSpec(false, retain),
             PodCidrsSpec(false, retain, aggregate, ""))
  }

  /** A removal whose listing is rs[0] and chooses nothing; the rest of the run follows. */
  lemma {:induction false} NoneRemoved(db: Tables, ops: seq<Op>, items: seq<Item>, rs: seq<Reply>)
    requires ops != [] && ops[0].Remove? && IsListing(db, AT, ops[0].kind, items) && Victims(ops[0].sel, items) == []
    requires rs != [] && rs[0] == Listing(items) && IsRun(db, Start(AT, ops[1..]), rs[1..])
    ensures IsRun(db, Start(AT, ops), rs) && After(db, Start(AT, ops), rs) == After(db, Start(AT, ops[1..]), rs[1..])
  {
  }

  /** A removal that lists and deletes one object. */
  lemma {:induction false} OneRemoved(db: Tables, left: Tables, ops: seq<Op>, items: seq<Item>, id: nat, rs: seq<Reply>)
    requires ops != [] && ops[0].Remove? && IsListing(db, AT, ops[0].kind, items) && Victims(ops[0].sel, items) == [id]
    requires Ref(0, ops[0].kind, id) in db && left == db - {Ref(0, ops[0].kind, id)}
    requires |rs| >= 2 && rs[0] == Listing(items) && rs[1] == Done(id) && IsRun(left, Start(AT, ops[1..]), rs[2..])
    ensures IsRun(db, Start(AT, ops), rs) && After(db, Start(AT, ops), rs) == After(left, Start(AT, ops[1..]), rs[2..])
  {
    assert rs[1..][1..] == rs[2..];
    assert IsRun(db, Running(AT, ops, Doomed([id])), rs[1..]);
  }

  /** An owner's prune finds in a listing of one object that object exactly if it is the owner's. */
  lemma {:induction false} OwnVictim(o: Owner, p: Owner, part: string, payload: Payload)
    requires WellNamed(o) && WellNamed(p) && o.NodeOwner? == p.NodeOwner?
    ensures Victims(Owned(OwnerPrefix(o), {}), [TheItem(OwnedId(p, part), payload)]) == if o == p then [1] else []
  {
    var items := [TheItem(OwnedId(p, part), payload)];
    assert items[1..] == [] && ReadExternalId(items[0].row.custom) == Some(OwnedId(p, part));
    FilterExact(o, p, part);
    assert Stale(items[0].row, OwnerPrefix(o), {}) <==> o == p;
    assert StaleIds(items[1..], OwnerPrefix(o), {}) == [];
  }

  lemma {:induction false} TwoEmptyListings(db: Tables, ops: seq<Op>, rs: seq<Reply>)
    requires |ops| >= 2 && ops[0].Remove? && ops[1].Remove? && !ops[0].sel.Owned? && !ops[1].sel.Owned?
    requires IsListing(db, AT, ops[0].kind, []) && IsListing(db, AT, ops[1].kind, [])
    requires |rs| >= 2 && rs[0] == rs[1] == Listing([]) && IsRun(db, Start(AT, ops[2..]), rs[2..])
    ensures IsRun(db, Start(AT, ops), rs) && After(db, Start(AT, ops), rs) == After(db, Start(AT, ops[2..]), rs[2..])
  {
    assert ops[1..][1..] == ops[2..] && rs[1..][1..] == rs[2..];
    NoneRemoved(db, ops[1..], [], rs[1..]);
    NoneRemoved(db, ops, [], rs);
  }

  /** Disabled controllers make calls even when paused: here for a Service and a Node that are gone, for
      the pod CIDRs of a Node that is there, for the count of a Service that is there, and for the Cluster. */
  lemma {:induction false} DisabledStillCalls() returns (spec: Spec)
    ensures !spec.services.enabled && spec.services.retainOnDisable && !Silent(ServicePlan(spec, WEB, Missing))
    ensures !Silent(Reported(ServicePlan(spec, WEB, Present(Service(true, [], map[]))), true))
    ensures !spec.nodes.enabled && spec.nodes.retainOnDisable && !Silent(NodePlan(spec, "worker", Missing))
    ensures !spec.podCidrs.enabled && spec.podCidrs.retainOnDisable
    ensures !Silent(PodCidrPlan(spec, "worker", Present(WORKER), Present([WORKER])))
    ensures !spec.cluster.enabled && !Silent(ClusterPlan(spec, "kube-system-uid"))
  {
    spec := Off(true, false);
    SilentIff(ServicePlan(spec, WEB, Missing));
    ServiceSilentIff(spec, WEB, Present(Service(true, [], map[])), true);
    SilentIff(NodePlan(spec, "worker", Missing));
    SilentIff(PodCidrPlan(spec, "worker", Present(WORKER), Present([WORKER])));
    ClusterNeverSilent(spec, "kube-system-uid");
  }

  function SomeNodes(site: string): NodesSpec {
    NodesSpec(true, false, DeviceMapping, "generic-server", "kubernetes-node", site, "", "")
  }

  /** With a device type, a role and the Site dc1 in NetBox, a Device sync that names the Site can succeed,
      and one that leaves the optional siteName empty cannot. */
  lemma {:induction false} EmptySiteFails(db: Tables) returns (known: set<Query>, named: Spec, unnamed: Spec)
    ensures named == SomeSpec(SomeNodes("dc1"), Off(false, false).services, Off(false, false).podCidrs)
    ensures unnamed == SomeSpec(SomeNodes(""), Off(false, false).services, Off(false, false).podCidrs)
    ensures Lookup(Sites, "dc1") in known
    ensures CanSucceed(db, AT, NodePlan(named, "worker", Present(WORKER)), known)
    ensures !CanSucceed(db, AT, NodePlan(unnamed, "worker", Present(WORKER)), known)
  {
    known := {Lookup(DeviceTypes, "generic-server"), Lookup(DeviceRoles, "kubernetes-node"), Lookup(Sites, "dc1")};
    named := SomeSpec(SomeNodes("dc1"), Off(false, false).services, Off(false, false).podCidrs);
    unnamed := SomeSpec(SomeNodes(""), Off(false, false).services, Off(false, false).podCidrs);
    NodePossibleIff(db, AT, named, "worker", Present(WORKER), known);
    NodePossibleIff(db, AT, unnamed, "worker", Present(WORKER), known);
    assert Lookup(Sites, "") in NodeRefs(unnamed);
  }

  /** Pausing pod CIDR sync in Prefix mode deletes an Aggregate. */
  lemma {:induction false} RetainDeletesAggregate() returns (db: Tables, spec: Spec, rs: seq<Reply>)
    ensures Unique(db, AT) && !spec.podCidrs.enabled && spec.podCidrs.retainOnDisable
    ensures IsTurn(db, AT, Turn(PodCidrTask(spec, "worker", Present(WORKER), Present([WORKER])), rs, true))
    ensures var db' := TurnEnd(db, AT, Turn(PodCidrTask(spec, "worker", Present(WORKER), Present([WORKER])), rs, true));
            Unique(db', AT) && View(db', AT) != View(db, AT)
  {
    var ext, payload := AggregateId(IPv4), AggregatePayload("RFC1918", IPv4, Block(IPv4, 0, 8));
    db, spec := OneObject(Aggregate, ext, payload), Off(true, false);
    OneObjectView(Aggregate, ext, payload);
    var ops := PrefixPlan(spec, "worker", Present(WORKER));
    rs := [Listing([TheItem(ext, payload)]), Done(1), Listing([])];
    var left: Tables := map[];
    assert ops == DROP_AGGREGATES && db - {Ref(0, Aggregate, 1)} == left;
    NoneRemoved(left, ops[1..], [], rs[2..]);
    OneRemoved(db, left, ops, [TheItem(ext, payload)], 1, rs);
    RetainUntouchedIff(db, AT, spec, "worker", Present(WORKER), Present([WORKER]), rs);
  }

  /** A run that finds no Aggregate and the one Prefix of the owner. */
  lemma {:induction false} OwnPrefixRun(db: Tables, o: Owner, part: string, payload: Payload, ops: seq<Op>,
                                        rs: seq<Reply>)
    requires o.NodeOwner? && WellNamed(o) && db == OneObject(Prefix, OwnedId(o, part), payload)
    requires ops == DROP_AGGREGATES + [Prune(Prefix, o, {})]
    requires rs == [Listing([]), Listing([]), Listing([TheItem(OwnedId(o, part), payload)]), Done(1)]
    ensures IsRun(db, Start(AT, ops), rs) && After(db, Start(AT, ops), rs).th == Start(AT, [])
  {
    var items, left: Tables := [TheItem(OwnedId(o, part), payload)], map[];
    OneObjectListed(Prefix, OwnedId(o, part), payload);
    OwnVictim(o, o, part, payload);
    assert ops[2..][1..] == [] && rs[2..][2..] == [] && db - {Ref(0, Prefix, 1)} == left;
    OneRemoved(db, left, ops[2..], items, 1, rs[2..]);
    TwoEmptyListings(db, ops, rs);
  }

  lemma {:induction false} OwnPrefix(v: ViewMap, o: Owner, part: string)
    requires Key(Prefix, OwnedId(o, part)) in v
    ensures OwnsSome(v, Prefix, o)
  {
    assert Key(Prefix, OwnedId(o, part)) in OwnerScope(Prefix, o);
  }

  lemma {:induction false} RetainDeletesOwn(db: Tables, spec: Spec, name: string, part: string, payload: Payload,
                                            rs: seq<Reply>)
    requires SlashFree(name) && spec == Off(true, false)
             && db == OneObject(Prefix, OwnedId(NodeOwner(name), part), payload)
    requires rs == [Listing([]), Listing([]), Listing([TheItem(OwnedId(NodeOwner(name), part), payload)]), Done(1)]
    ensures Unique(db, AT) && NoAggregates(View(db, AT))
    ensures IsTurn(db, AT, Turn(PodCidrTask(spec, name, Missing, Present([])), rs, true))
    ensures var db' := TurnEnd(db, AT, Turn(PodCidrTask(spec, name, Missing, Present([])), rs, true));
            Unique(db', AT) && View(db', AT) != View(db, AT)
  {
    var o := NodeOwner(name);
    OneObjectView(Prefix, OwnedId(o, part), payload);
    OwnPrefixRun(db, o, part, payload, PrefixPlan(spec, name, Missing), rs);
    RetainUntouchedIff(db, AT, spec, name, Missing, Present([]), rs);
    OwnPrefix(View(db, AT), o, part);
  }

  /** And, with no Aggregate about, the Prefix of a Node that is gone. */
  lemma {:induction false} RetainDeletesPrefix() returns (db: Tables, spec: Spec, rs: seq<Reply>)
    ensures Unique(db, AT) && NoAggregates(View(db, AT)) && !spec.podCidrs.enabled && spec.podCidrs.retainOnDisable
    ensures IsTurn(db, AT, Turn(PodCidrTask(spec, "worker", Missing, Present([])), rs, true))
    ensures var db' := TurnEnd(db, AT, Turn(PodCidrTask(spec, "worker", Missing, Present([])), rs, true));
            Unique(db', AT) && View(db', AT) != View(db, AT)
  {
    var ext, payload := OwnedId(NodeOwner("worker"), "10.0.0.0/24"), Payload("", ["10.0.0.0/24"], [], None);
    db, spec := OneObject(Prefix, ext, payload), Off(true, false);
    rs := [Listing([]), Listing([]), Listing([TheItem(ext, payload)]), Done(1)];
    RetainDeletesOwn(db, spec, "worker", "10.0.0.0/24", payload, rs);
  }

  /** Pausing Service sync deletes the address of a Service that is gone. */
  lemma {:induction false} RetainDeletesAddress() returns (db: Tables, spec: Spec, rs: seq<Reply>)
    ensures Unique(db, AT) && !spec.services.enabled && spec.services.retainOnDisable
    ensures IsTurn(db, AT, Turn(ServiceTask(spec, GONE, Missing), rs, true))
    ensures var db' := TurnEnd(db, AT, Turn(ServiceTask(spec, GONE, Missing), rs, true));
            Unique(db', AT) && View(db', AT) != View(db, AT)
  {
    var ext, payload := OwnedId(GONE, "192.0.2.1"), Payload("", ["192.0.2.1/32"], [], None);
    db, spec := OneObject(IPAddress, ext, payload), Off(true, false);
    OneObjectView(IPAddress, ext, payload);
    var ops := ServicePlan(spec, GONE, Missing);
    rs := [Listing([TheItem(ext, payload)]), Done(1)];
    var left: Tables := map[];
    assert ops[1..] == [] && rs[2..] == [] && db - {Ref(0, IPAddress, 1)} == left;
    OwnVictim(GONE, GONE, "192.0.2.1", payload);
    OneRemoved(db, left, ops, [TheItem(ext, payload)], 1, rs);
    ServiceRetainIff(db, AT, spec, GONE, Missing, rs);
    assert Key(IPAddress, ext) in OwnerScope(IPAddress, GONE);
  }

  /** Pausing Node sync deletes the Device of a Node that is gone. */
  lemma {:induction false} RetainDeletesDevice() returns (db: Tables, spec: Spec, rs: seq<Reply>)
    ensures !spec.nodes.enabled && spec.nodes.retainOnDisable
    ensures IsRun(db, Start(AT, NodePlan(spec, "worker", Missing)), rs)
    ensures var k := After(db, Start(AT, NodePlan(spec, "worker", Missing)), rs); Succeeded(k.th) && k.db != db
  {
    var payload := Payload("worker", [], [], None);
    db, spec := OneObject(Device, "uid-1", payload), Off(true, false);
    OneObjectView(Device, "uid-1", payload);
    var ops := NodePlan(spec, "worker", Missing);
    rs := [Listing([TheItem("uid-1", payload)]), Done(1), Listing([])];
    var left: Tables := map[];
    assert db - {Ref(0, Device, 1)} == left && ops[1..][1..] == [];
    NoneRemoved(left, ops[1..], [], rs[2..]);
    OneRemoved(db, left, ops, [TheItem("uid-1", payload)], 1, rs);
  }

  lemma {:induction false} OneTurn(db: Tables, t: Turn)
    requires IsTurn(db, AT, t) && GoodTask(t.task) && t.ok
    ensures IsHistory(db, AT, [t]) && EndOf(db, AT, [t]) == TurnEnd(db, AT, t) && DoneIn([t], t.task)
  {
    assert [t][1..] == [] && t in [t];
  }

  /** Disabling pod CIDR sync in Aggregate mode leaves a live Node's Prefix. */
  lemma {:induction false} DisableLeavesPrefix() returns (db: Tables, nodes: NodeSnapshot, h: seq<Turn>)
    ensures Unique(db, AT) && GoodNodes(nodes) && "worker" in nodes && nodes["worker"] == Present(WORKER)
    ensures IsHistory(db, AT, h) && PodCidrsDone(h, Off(false, true), nodes, [WORKER])
    ensures Unique(EndOf(db, AT, h), AT) && OwnsSome(View(EndOf(db, AT, h), AT), Prefix, NodeOwner("worker"))
  {
    var spec, o := Off(false, true), NodeOwner("worker");
    var ext, payload := OwnedId(o, "10.0.0.0/24"), Payload("", ["10.0.0.0/24"], [], None);
    db, nodes := OneObject(Prefix, ext, payload), map["worker" := Present(WORKER)];
    OneObjectView(Prefix, ext, payload);
    var t := Turn(AggregateTask(spec, Present([WORKER])), [Listing([]), Listing([])], true);
    assert t.task.ops == DROP_AGGREGATES && t.task.ops[2..] == [] && t.rs[2..] == [];
    TwoEmptyListings(db, t.task.ops, t.rs);
    h := [t];
    OneTurn(db, t);
    DisableDeletesIff(db, AT, spec, nodes, [WORKER], h);
    OwnPrefix(View(db, AT), o, "10.0.0.0/24");
  }

  lemma {:induction false} GonePrefixRun(db: Tables, ext: string, payload: Payload, ops: seq<Op>, rs: seq<Reply>)
    requires ext == OwnedId(NodeOwner("gone"), "10.0.0.0/24") && db == OneObject(Prefix, ext, payload)
    requires ops == DROP_AGGREGATES + [Prune(Prefix, NodeOwner("worker"), {})]
    requires rs == [Listing([]), Listing([]), Listing([TheItem(ext, payload)])]
    ensures IsRun(db, Start(AT, ops), rs) && After(db, Start(AT, ops), rs) == Config(db, Start(AT, []))
  {
    OneObjectListed(Prefix, ext, payload);
    OwnVictim(NodeOwner("worker"), NodeOwner("gone"), "10.0.0.0/24", payload);
    assert ops[2..][1..] == [] && rs[2..][1..] == [];
    NoneRemoved(db, ops[2..], [TheItem(ext, payload)], rs[2..]);
    TwoEmptyListings(db, ops, rs);
  }

  lemma {:induction false} OwnersApart(spec: Spec, nodes: NodeSnapshot, ext: string)
    requires nodes == map["worker" := Present(WORKER)] && ext == OwnedId(NodeOwner("gone"), "10.0.0.0/24")
    ensures forall n <- nodes :: Key(Prefix, ext) !in OwnerScope(Prefix, NodeOwner(n))
  {
    FilterExact(NodeOwner("worker"), NodeOwner("gone"), "10.0.0.0/24");
  }

  /** In Prefix mode it leaves the Prefix of a Node that is gone, though all live Nodes have been reconciled. */
  lemma {:induction false} DisableLeavesGonePrefix() returns (db: Tables, nodes: NodeSnapshot, h: seq<Turn>)
    ensures Unique(db, AT) && GoodNodes(nodes) && nodes == map["worker" := Present(WORKER)]
    ensures IsHistory(db, AT, h) && PodCidrsDone(h, Off(false, false), nodes, [WORKER])
    ensures Unique(EndOf(db, AT, h), AT) && !NoneOf(View(EndOf(db, AT, h), AT), Prefix)
  {
    var spec := Off(false, false);
    var ext, payload := OwnedId(NodeOwner("gone"), "10.0.0.0/24"), Payload("", ["10.0.0.0/24"], [], None);
    db, nodes := OneObject(Prefix, ext, payload), map["worker" := Present(WORKER)];
    OneObjectView(Prefix, ext, payload);
    var t := Turn(PrefixTask(spec, "worker", Present(WORKER)),
        [Listing([]), Listing([]), Listing([TheItem(ext, payload)])], true);
    GonePrefixRun(db, ext, payload, t.task.ops, t.rs);
    h := [t];
    OneTurn(db, t);
    OwnersApart(spec, nodes, ext);
    DisableDeletesIff(db, AT, spec, nodes, [WORKER], h);
  }

  /** A run that finds one address, of another Service. */
  lemma {:induction false} OtherAddressRun(db: Tables, o: Owner, p: Owner, part: string, payload: Payload,
                                           ops: seq<Op>, rs: seq<Reply>)
    requires o.ServiceOwner? && p.ServiceOwner? && WellNamed(o) && WellNamed(p) && o != p
    requires db == OneObject(IPAddress, OwnedId(p, part), payload)
    requires ops == [Prune(IPAddress, o, {})] && rs == [Listing([TheItem(OwnedId(p, part), payload)])]
    ensures IsRun(db, Start(AT, ops), rs) && After(db, Start(AT, ops), rs) == Config(db, Start(AT, []))
  {
    OneObjectListed(IPAddress, OwnedId(p, part), payload);
    OwnVictim(o, p, part, payload);
    assert ops[1..] == [] && rs[1..] == [];
    NoneRemoved(db, ops, [TheItem(OwnedId(p, part), payload)], rs);
  }

  lemma {:induction false} GoneAddressStays(db: Tables, spec: Spec, svcs: ServiceSnapshot, h: seq<Turn>, o: Owner,
                                            p: Owner, part: string)
    requires Unique(db, AT) && !spec.services.enabled && !spec.services.retainOnDisable
    requires GoodServices(svcs) && IsHistory(db, AT, h) && ServicesDone(h, spec, svcs)
    requires svcs.Keys == {o} && p.ServiceOwner? && WellNamed(p) && o != p
             && Key(IPAddress, OwnedId(p, part)) in View(db, AT)
    ensures Unique(EndOf(db, AT, h), AT) && !NoneOf(View(EndOf(db, AT, h), AT), IPAddress)
  {
    ServicesDisableIff(db, AT, spec, svcs, h);
    assert o in svcs;
    FilterExact(o, p, part);
    assert Key(IPAddress, OwnedId(p, part)) !in OwnerScope(IPAddress, o);
  }

  /** Disabling Service sync leaves the address of a Service that is gone. */
  lemma {:induction false} DisableLeavesGoneAddress() returns (db: Tables, svcs: ServiceSnapshot, h: seq<Turn>)
    ensures Unique(db, AT) && GoodServices(svcs) && svcs.Keys == {WEB} && svcs[WEB].Present?
    ensures IsHistory(db, AT, h) && ServicesDone(h, Off(false, false), svcs)
    ensures Unique(EndOf(db, AT, h), AT) && !NoneOf(View(EndOf(db, AT, h), AT), IPAddress)
  {
    var spec, web := Off(false, false), Present(Service(true, [], map[]));
    var ext, payload := OwnedId(GONE, "192.0.2.1"), Payload("", ["192.0.2.1/32"], [], None);
    db, svcs := OneObject(IPAddress, ext, payload), map[WEB := web];
    OneObjectView(IPAddress, ext, payload);
    var t := Turn(ServiceTask(spec, WEB, web), [Listing([TheItem(ext, payload)])], true);
    OtherAddressRun(db, WEB, GONE, "192.0.2.1", payload, t.task.ops, t.rs);
    h := [t];
    OneTurn(db, t);
    GoneAddressStays(db, spec, svcs, h, WEB, GONE, "192.0.2.1");
  }

  /** Disabling Node sync leaves the Device of a Node that is gone. */
  lemma {:induction false} DisableLeavesGoneDevice() returns (db: Tables, h: seq<Turn>)
    ensures Unique(db, AT) && IsHistory(db, AT, h) && NodesDone(h, Off(false, false), iset{WORKER})
    ensures Unique(EndOf(db, AT, h), AT) && !NoneOf(View(EndOf(db, AT, h), AT), Device)
  {
    var spec, payload := Off(false, false), Payload("gone", [], [], None);
    db := OneObject(Device, "uid-0", payload);
    OneObjectView(Device, "uid-0", payload);
    var item := TheItem("uid-0", payload);
    var t := Turn(NodeTask(spec, "worker", Present(WORKER)), [Listing([item])], true);
    assert t.task.ops == [Remove(Device, ByExternalId("uid-1"))] && t.task.ops[1..] == [] && t.rs[1..] == [];
    assert FirstWithId([item], "uid-1") == None by { assert [item][1..] == []; }
    NoneRemoved(db, t.task.ops, [item], t.rs);
    h := [t];
    OneTurn(db, t);
    NodesDisableIff(db, AT, spec, iset{WORKER}, h);
    assert Key(Device, "uid-0") in View(db, AT);
    Untouched(db, AT, h, Key(Device, "uid-0"));
  }

  lemma {:induction false} TagThenTwoListings(db: Tables, ops: seq<Op>, rs: seq<Reply>)
    requires ops == DROP_AGGREGATES && rs == [TagListing(true), Listing([]), Listing([])]
    requires IsListing(db, AT, Aggregate, [])
    ensures IsRun(db, Start(AT, [EnsureTag] + ops), rs)
    ensures After(db, Start(AT, [EnsureTag] + ops), rs) == Config(db, Start(AT, []))
  {
    assert ([EnsureTag] + ops)[1..] == ops && rs[1..] == [Listing([]), Listing([])] && ops[2..] == []
           && rs[1..][2..] == [];
    TwoEmptyListings(db, ops, rs[1..]);
  }

  /** Switching to Aggregate leaves the Prefix of a Node that is gone. */
  lemma {:induction false} SwitchLeavesPrefix() returns (db: Tables, spec: Spec, rs: seq<Reply>)
    ensures Unique(db, AT) && spec.podCidrs.enabled
    ensures IsTurn(db, AT, Turn(AggregateTask(spec, Present([])), rs, true))
    ensures var db' := TurnEnd(db, AT, Turn(AggregateTask(spec, Present([])), rs, true));
            Unique(db', AT) && OwnsSome(View(db', AT), Prefix, NodeOwner("worker"))
  {
    var ext, payload := OwnedId(NodeOwner("worker"), "10.0.0.0/24"), Payload("", ["10.0.0.0/24"], [], None);
    db := OneObject(Prefix, ext, payload);
    spec := SomeSpec(Off(false, true).nodes, Off(false, true).services, PodCidrsSpec(true, false, true, "RFC1918"));
    OneObjectView(Prefix, ext, payload);
    rs := [TagListing(true), Listing([]), Listing([])];
    assert AggregatePlan(spec, Present([])) == [EnsureTag] + DROP_AGGREGATES;
    TagThenTwoListings(db, DROP_AGGREGATES, rs);
    SwitchClearsIff(db, AT, spec, [], rs, "worker");
    OwnPrefix(View(db, AT), NodeOwner("worker"), "10.0.0.0/24");
  }

  /** Disabling Node sync after a switch of the mapping leaves the object of the earlier mapping. */
  lemma {:induction false} NodeDisableLeavesObject() returns (db: Tables, spec: Spec, rs: seq<Reply>)
    ensures Unique(db, AT) && !spec.nodes.enabled && !spec.nodes.retainOnDisable
    ensures IsTurn(db, AT, Turn(NodeTask(spec, "worker", Present(WORKER)), rs, true))
    ensures var db' := TurnEnd(db, AT, Turn(NodeTask(spec, "worker", Present(WORKER)), rs, true));
            Unique(db', AT) && Key(VirtualMachine, WORKER.uid) in View(db', AT)
  {
    var payload := Payload("worker", [], [], None);
    db, spec := OneObject(VirtualMachine, WORKER.uid, payload), Off(false, false);
    OneObjectView(VirtualMachine, WORKER.uid, payload);
    rs := [Listing([])];
    var ops := NodePlan(spec, "worker", Present(WORKER));
    assert ops == [Remove(Device, ByExternalId(WORKER.uid))] && ops[1..] == [] && rs[1..] == [];
    NoneRemoved(db, ops, [], rs);
    NodeDisableDeletesIff(db, AT, spec, WORKER, rs);
  }

  /** A deletion by name that finds two Devices of the name. */
  lemma {:induction false} TwoDevicesRun(older: Row, newer: Row, name: string, rs: seq<Reply>)
    requires older.tags == newer.tags == {"managed"} && older.payload.name == newer.payload.name == name
    requires rs == [Listing([Item(1, older), Item(2, newer)]), Done(1), Listing([])]
    ensures var db, left: Tables := map[Ref(0, Device, 1) := older, Ref(0, Device, 2) := newer],
            map[Ref(0, Device, 2) := newer];
            var ops := [Remove(Device, ByName(name)), Remove(VirtualMachine, ByName(name))];
            IsRun(db, Start(AT, ops), rs) && After(db, Start(AT, ops), rs) == Config(left, Start(AT, []))
  {
    var db, left: Tables := map[Ref(0, Device, 1) := older, Ref(0, Device, 2) := newer],
        map[Ref(0, Device, 2) := newer];
    var ops, items := [Remove(Device, ByName(name)), Remove(VirtualMachine, ByName(name))],
        [Item(1, older), Item(2, newer)];
    assert db - {Ref(0, Device, 1)} == left && items[0].id == 1 && items[1].id == 2 && ops[1..][1..] == [];
    assert IsListing(db, AT, Device, items);
    NoneRemoved(left, ops[1..], [], rs[2..]);
    OneRemoved(db, left, ops, items, 1, rs);
  }

  /** When a name has been used by two Nodes in turn, deletion by name leaves one of the objects. */
  lemma {:induction false} ReusedNameLeavesObject() returns (db: Tables, spec: Spec, rs: seq<Reply>)
    ensures Unique(db, AT) && IsRun(db, Start(AT, NodePlan(spec, "worker", Missing)), rs)
    ensures var k := After(db, Start(AT, NodePlan(spec, "worker", Missing)), rs);
            Succeeded(k.th) && Bears(k.db, AT, Remove(Device, ByName("worker")), Ref(0, Device, 2))
  {
    var payload := Payload("worker", [], [], None);
    var older, newer := HeraldRow("managed", "uid-1", payload), HeraldRow("managed", "uid-2", payload);
    db := map[Ref(0, Device, 1) := older, Ref(0, Device, 2) := newer];
    spec := Off(false, false);
    rs := [Listing([Item(1, older), Item(2, newer)]), Done(1), Listing([])];
    TwoDevicesRun(older, newer, "worker", rs);
  }
}
