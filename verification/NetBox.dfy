/** NetBox as Herald sees it: tables of tagged objects, the calls of its API, the
    replies they may get, and a reconcile as a machine that makes those calls. */
module NetBox {
  import opened Cidrs
  import opened ExternalIds

  datatype Option<+T> = None | Some(value: T)

  // ---------------------------------------------------------------- tables

  datatype Kind = Device | VirtualMachine | IPAddress | Prefix | Aggregate | Cluster

  /** Names one object: the NetBox instance, the table, and the ID in that table. */
  datatype Ref = Ref(site: nat, kind: Kind, id: nat)

  /** The tables of reference objects, which Herald only reads. */
  datatype RefTable = Sites | ClusterTypes | ClusterGroups | Clusters | DeviceRoles | DeviceTypes | Rirs | Platforms

  /** A call outside the object tables: the look-up of a reference object by name, the bootstrap of
      the external-ID custom field, or the count that a status update makes. */
  datatype Query = Lookup(table: RefTable, name: string) | CustomField | Count

  /** The writable content of an object besides its tags and external ID. References to other NetBox
      objects are given by table and name; an aggregate also carries its block. */
  datatype Payload = Payload(name: string, fields: seq<string>, refs: seq<Query>, block: Option<Block>)

  /** Custom fields as decoded from JSON. */
  datatype Json = Null | Text(text: string) | OtherJson

  datatype CustomFields = Fields(entries: map<string, Json>) | NotAMap

  datatype Row = Row(tags: set<string>, custom: CustomFields, payload: Payload)

  type Tables = map<Ref, Row>

  const EXTERNAL_ID_FIELD := "netbox_herald_external_id"

  /** readExternalID: absent when the custom fields are no map, or the field is missing,
      null, or not text. */
  function ReadExternalId(custom: CustomFields): Option<string> {
    if custom.Fields? && EXTERNAL_ID_FIELD in custom.entries && custom.entries[EXTERNAL_ID_FIELD].Text?
    then Some(custom.entries[EXTERNAL_ID_FIELD].text)
    else None
  }

  /** The row Herald writes: exactly one tag, and the external ID as its only custom field. */
  function HeraldRow(slug: string, ext: string, payload: Payload): Row {
    Row({slug}, Fields(map[EXTERNAL_ID_FIELD := Text(ext)]), payload)
  }

  // ---------------------------------------------------------------- calls and replies

  /** What a reconcile works with from start to end: the NetBox instance its client talks
      to and the managed-tag slug of its spec. */
  datatype Conn = Conn(site: nat, slug: string)

  datatype Call =
    | ListTags
    | CreateTag
    | Consult(what: Query)                       // a call on tables not modelled here
    | List(kind: Kind)                           // every object of the kind carrying the managed tag
    | Create(kind: Kind, row: Row)
    | Update(kind: Kind, id: nat, row: Row)
    | Delete(kind: Kind, id: nat)

  datatype Item = Item(id: nat, row: Row)

  /** Lost is an error return; the call may have been carried out all the same. */
  datatype Reply =
    | Listing(items: seq<Item>)
    | TagListing(found: bool)
    | Done(id: nat)
    | Lost(applied: bool, id: nat)

  predicate TakesEffect(reply: Reply) {
    reply.Done? || (reply.Lost? && reply.applied)
  }

  /** A listing holds each tagged object of the kind once, in any order, and nothing else. */
  predicate IsListing(db: Tables, c: Conn, kind: Kind, items: seq<Item>) {
    && (forall i, j :: 0 <= i < j < |items| ==> items[i].id != items[j].id)
    && (forall i :: 0 <= i < |items| ==>
          var r := Ref(c.site, kind, items[i].id);
          r in db && db[r] == items[i].row && c.slug in db[r].tags)
    && (forall r <- db :: r.site == c.site && r.kind == kind && c.slug in db[r].tags ==>
          exists i :: 0 <= i < |items| && items[i].id == r.id)
  }

  /** The replies NetBox may give to a call in a state of its object tables. Tag replies are
      constrained where tags are modelled. */
  predicate Admissible(db: Tables, c: Conn, call: Call, reply: Reply) {
    match call
    case ListTags => reply.TagListing? || reply.Lost?
    case CreateTag => reply.Done? || reply.Lost?
    case Consult(_) => reply.Done? || reply.Lost?
    case List(kind) => reply.Lost? || (reply.Listing? && IsListing(db, c, kind, reply.items))
    case Create(kind, _) => (reply.Done? || reply.Lost?) && (TakesEffect(reply) ==> Ref(c.site, kind, reply.id) !in db)
    case Update(kind, id, _) => (reply.Done? && Ref(c.site, kind, id) in db) || reply.Lost?
    case Delete(kind, id) => (reply.Done? && Ref(c.site, kind, id) in db) || reply.Lost?
  }

  /** What a call does to the object tables, given its reply. */
  function Apply(db: Tables, c: Conn, call: Call, reply: Reply): Tables {
    if !TakesEffect(reply) then db
    else match call
      case Create(kind, row) => db[Ref(c.site, kind, reply.id) := row]
      case Update(kind, id, row) => if Ref(c.site, kind, id) in db then db[Ref(c.site, kind, id) := row] else db
      case Delete(kind, id) => db - {Ref(c.site, kind, id)}
      case _ => db
  }

  // ---------------------------------------------------------------- reconciles

  /** Which of the listed objects an operation removes. */
  datatype Selector =
    | ByExternalId(ext: string)                         // the first one with this external ID
    | ByName(name: string)                              // the first one with this name
    | Owned(prefix: string, keep: set<string>)          // all of an owner's, except those kept

  datatype Op =
    | EnsureTag
    | Check(what: Query)
    | Ensure(kind: Kind, ext: string, payload: Payload, lookups: seq<Query>)
    | Remove(kind: Kind, sel: Selector)
    | Abort                                             // an error that needs no call

  datatype Phase =
    | Ready
    | TagMissing
    | Found(target: Option<nat>, pending: seq<Query>)  // an Ensure that has looked for its object
    | Doomed(ids: seq<nat>)                             // a Remove that has chosen its victims

  /** A reconcile under way: the operations left, the first of them in the given phase.
      Stopped is an error return. */
  datatype Thread = Running(conn: Conn, ops: seq<Op>, phase: Phase) | Stopped

  function Start(c: Conn, ops: seq<Op>): Thread {
    Running(c, ops, Ready)
  }

  predicate Succeeded(th: Thread) {
    th.Running? && th.ops == []
  }

  predicate Errored(th: Thread) {
    th.Stopped? || (th.ops != [] && th.ops[0].Abort?)
  }

  /** The thread is at a point where it makes a call. */
  predicate Active(th: Thread) {
    && th.Running? && th.ops != []
    && match th.phase
       case Ready => !th.ops[0].Abort?
       case TagMissing => th.ops[0].EnsureTag?
       case Found(_, _) => th.ops[0].Ensure?
       case Doomed(ids) => th.ops[0].Remove? && ids != []
  }

  /** The call an active thread makes. */
  function NextCall(th: Thread): Call
    requires Active(th)
  {
    var op := th.ops[0];
    match th.phase
    case Ready =>
      (match op
       case EnsureTag => ListTags
       case Check(what) => Consult(what)
       case Ensure(kind, _, _, _) => List(kind)
       case Remove(kind, _) => List(kind))
    case TagMissing => CreateTag
    case Found(target, pending) =>
      if pending != [] then Consult(pending[0])
      else
        var row := HeraldRow(th.conn.slug, op.ext, op.payload);
        if target.Some? then Update(op.kind, target.value, row) else Create(op.kind, row)
    case Doomed(ids) => Delete(op.kind, ids[0])
  }

  function FirstWithId(items: seq<Item>, ext: string): Option<nat> {
    if items == [] then None
    else if ReadExternalId(items[0].row.custom) == Some(ext) then Some(items[0].id)
    else FirstWithId(items[1..], ext)
  }

  function FirstWithName(items: seq<Item>, name: string): Option<nat> {
    if items == [] then None
    else if items[0].row.payload.name == name then Some(items[0].id)
    else FirstWithName(items[1..], name)
  }

  predicate Stale(row: Row, prefix: string, keep: set<string>) {
    var id := ReadExternalId(row.custom);
    id.Some? && HasPrefix(id.value, prefix) && id.value !in keep
  }

  function StaleIds(items: seq<Item>, prefix: string, keep: set<string>): seq<nat> {
    if items == [] then []
    else (if Stale(items[0].row, prefix, keep) then [items[0].id] else []) + StaleIds(items[1..], prefix, keep)
  }

  function Singleton(o: Option<nat>): seq<nat> {
    if o.Some? then [o.value] else []
  }

  function Victims(sel: Selector, items: seq<Item>): seq<nat> {
    match sel
    case ByExternalId(ext) => Singleton(FirstWithId(items, ext))
    case ByName(name) => Singleton(FirstWithName(items, name))
    case Owned(prefix, keep) => StaleIds(items, prefix, keep)
  }

  function Proceed(th: Thread): Thread
    requires th.Running? && th.ops != []
  {
    th.(ops := th.ops[1..], phase := Ready)
  }

  /** The thread after the reply to its call. */
  function Advance(th: Thread, reply: Reply): Thread
    requires Active(th)
  {
    match reply
    case Lost(_, _) => Stopped
    case TagListing(found) => if found then Proceed(th) else th.(phase := TagMissing)
    case Listing(items) =>
      (match th.ops[0]
       case Ensure(_, ext, _, lookups) => th.(phase := Found(FirstWithId(items, ext), lookups))
       case Remove(_, sel) =>
         (var ids := Victims(sel, items);
          if ids == [] then Proceed(th) else th.(phase := Doomed(ids)))
       case _ => th)
    case Done(_) =>
      (match th.phase
       case Found(target, pending) =>
         if pending != [] then th.(phase := Found(target, pending[1..])) else Proceed(th)
       case Doomed(ids) => if |ids| > 1 then th.(phase := Doomed(ids[1..])) else Proceed(th)
       case _ => Proceed(th))
  }

  // ---------------------------------------------------------------- runs

  /** rs are replies the thread may get, one call after another, from these tables on. The
      run need not be finished: it may stop before any call. */
  predicate IsRun(db: Tables, th: Thread, rs: seq<Reply>)
    decreases |rs|
  {
    rs != [] ==>
      && Active(th)
      && Admissible(db, th.conn, NextCall(th), rs[0])
      && IsRun(Apply(db, th.conn, NextCall(th), rs[0]), Advance(th, rs[0]), rs[1..])
  }

  datatype Config = Config(db: Tables, th: Thread)

  /** Tables and thread after the replies rs. */
  function After(db: Tables, th: Thread, rs: seq<Reply>): Config
    requires IsRun(db, th, rs)
    decreases |rs|
  {
    if rs == [] then Config(db, th)
    else After(Apply(db, th.conn, NextCall(th), rs[0]), Advance(th, rs[0]), rs[1..])
  }

  /** The calls of a run, one for each reply. */
  function CallsOf(db: Tables, th: Thread, rs: seq<Reply>): (calls: seq<Call>)
    requires IsRun(db, th, rs)
    ensures |calls| == |rs|
    decreases |rs|
  {
    if rs == [] then []
    else [NextCall(th)] + CallsOf(Apply(db, th.conn, NextCall(th), rs[0]), Advance(th, rs[0]), rs[1..])
  }

  /** A run may be extended by the reply to its next call. */
  lemma {:induction false} RunSnoc(db: Tables, th: Thread, rs: seq<Reply>, reply: Reply)
    requires IsRun(db, th, rs)
    requires var k := After(db, th, rs);
             Active(k.th) && Admissible(k.db, k.th.conn, NextCall(k.th), reply)
    ensures IsRun(db, th, rs + [reply])
    ensures var k := After(db, th, rs);
            After(db, th, rs + [reply])
            == Config(Apply(k.db, k.th.conn, NextCall(k.th), reply), Advance(k.th, reply))
    ensures CallsOf(db, th, rs + [reply]) == CallsOf(db, th, rs) + [NextCall(After(db, th, rs).th)]
    decreases |rs|
  {
    if rs == [] {
      assert [reply][1..] == [];
    } else {
      RunSnoc(Apply(db, th.conn, NextCall(th), rs[0]), Advance(th, rs[0]), rs[1..], reply);
      assert (rs + [reply])[1..] == rs[1..] + [reply];
    }
  }
}
