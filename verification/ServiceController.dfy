/** The Service controller as the source writes it: its loops and early returns make exactly the
    calls of the Service plan, in their order, and succeed exactly when it has been carried out. */
module ServiceController {
  import opened ExternalIds
  import opened NetBox
  import opened Views
  import opened Plans
  import opened Scenarios
  import opened Outcomes
  import opened Interleaving
  import opened Client
  import opened ConfigStore

  /** What one more ingress entry adds: nothing, an invalid address that ends the list, or an object. */
  lemma {:induction false} NextIngress(o: Owner, svc: Service, i: nat, tail: seq<Op>)
    requires o.ServiceOwner? && i < |svc.ingress|
    ensures var ip, here := svc.ingress[i], ServiceWants(o, svc.parses, svc.ingress[i..]);
            var later := ServiceWants(o, svc.parses, svc.ingress[i + 1..]);
            && (Usable(svc.parses, svc.ingress[i..]) <==>
               (ip != "" ==> ip in svc.parses) && Usable(svc.parses, svc.ingress[i + 1..]))
            && (ip == "" ==> here == later)
            && (ip != "" && ip !in svc.parses ==> Ensures(IPAddress, here) + tail == tail)
            && (ip != "" && ip in svc.parses ==>
                  var w := ServiceWant(o, svc.parses, ip);
                  && here == [w] + later
                  && Ensures(IPAddress, here) + tail
                     == [Ensure(IPAddress, w.ext, w.payload, [])] + (Ensures(IPAddress, later) + tail))
  {
    var ip, later := svc.ingress[i], ServiceWants(o, svc.parses, svc.ingress[i + 1..]);
    assert svc.ingress[i..] == [ip] + svc.ingress[i + 1..];
    if ip in svc.parses {
      EnsuresCons(IPAddress, ServiceWant(o, svc.parses, ip), later, tail);
    }
  }

  /** EnsureServiceIP with the description that the sync gives it. */
  method EnsureAddress(s: NetBoxServer, c: Conn, o: Owner, externalId: string, address: string, ghost rest: seq<Op>)
    returns (ok: bool)
    requires o.ServiceOwner?
    requires var description := "Kubernetes Service " + o.namespace + "/" + o.service;
             s.AtOps(c, [Ensure(IPAddress, externalId, Payload("", [address, description], [], None), [])] + rest)
    modifies s`db, s`script, s`made, s`log, s`at
    ensures s.Past(ok, c, rest)
  {
    var description := "Kubernetes Service " + o.namespace + "/" + o.service;
    ok := EnsureObject(s, c, IPAddress, externalId, Payload("", [address, description], [], None), [], rest);
  }

  /** The loop over the ingress entries. */
  method EnsureAddresses(s: NetBoxServer, c: Conn, o: Owner, svc: Service, ghost tail: seq<Op>)
    returns (ok: bool, desired: seq<string>)
    requires o.ServiceOwner? && (Usable(svc.parses, svc.ingress) || tail == [Abort])
    requires s.AtOps(c, Ensures(IPAddress, ServiceWants(o, svc.parses, svc.ingress)) + tail)
    modifies s`db, s`script, s`made, s`log, s`at
    ensures s.Valid() && (!ok ==> Errored(s.at))
    ensures ok ==> desired == IdsOf(ServiceWants(o, svc.parses, svc.ingress)) && Usable(svc.parses, svc.ingress)
    ensures ok ==> s.AtOps(c, Ensures(IPAddress, []) + tail)
  {
    desired := [];
    ghost var usable := Usable(svc.parses, svc.ingress);
    ghost var all := IdsOf(ServiceWants(o, svc.parses, svc.ingress));
    ghost var left := ServiceWants(o, svc.parses, svc.ingress);
    var i := 0;
    assert svc.ingress[0..] == svc.ingress;
    while i < |svc.ingress|
      invariant i <= |svc.ingress| && left == ServiceWants(o, svc.parses, svc.ingress[i..])
      invariant desired + IdsOf(left) == all
      invariant usable <==> Usable(svc.parses, svc.ingress[i..])
      invariant s.AtOps(c, Ensures(IPAddress, left) + tail)
    {
      NextIngress(o, svc, i, tail);
      var ip := svc.ingress[i];
      if ip != "" {
        var address := CidrForIp(svc.parses, ip);
        if address.None? {
          return false, desired;
        }
        var externalId := OwnedId(o, ip);
        IdsOfCons(desired, left);
        left := left[1..];
        desired := desired + [externalId];
        ok := EnsureAddress(s, c, o, externalId, address.value, Ensures(IPAddress, left) + tail);
        if !ok { return; }
      }
      i := i + 1;
    }
    assert desired == all;
    ok := true;
  }

  /** The end of the sync: everything wanted is in place, the rest goes. */
  method PruneAddresses(s: NetBoxServer, c: Conn, o: Owner, desired: seq<string>, ghost all: seq<Want>)
    returns (ok: bool)
    requires desired == IdsOf(all) && s.AtOps(c, Ensures(IPAddress, []) + [Prune(IPAddress, o, Exts(all))])
    modifies s`db, s`script, s`made, s`log, s`at
    ensures s.Past(ok, c, [])
  {
    IdsOfExts(all);
    assert Ensures(IPAddress, []) + [Prune(IPAddress, o, Exts(all))]
           == [Prune(IPAddress, o, set e | e in desired)] + [];
    ok := PruneOwned(s, c, IPAddress, o, desired, []);
  }

  method SyncServiceAddresses(s: NetBoxServer, c: Conn, o: Owner, svc: Service) returns (ok: bool)
    requires o.ServiceOwner? && s.AtOps(c, ServiceSync(o, svc))
    modifies s`db, s`script, s`made, s`log, s`at
    ensures s.Valid() && (if ok then Succeeded(s.at) else Errored(s.at))
  {
    ghost var all := ServiceWants(o, svc.parses, svc.ingress);
    ghost var tail := if Usable(svc.parses, svc.ingress) then [Prune(IPAddress, o, Exts(all))] else [Abort];
    assert ServiceSync(o, svc) == [EnsureTag] + (Ensures(IPAddress, all) + tail);
    var tagged := EnsureManagedTag(s, c, Ensures(IPAddress, all) + tail);
    if !tagged { return false; }
    var desired: seq<string>;
    ok, desired := EnsureAddresses(s, c, o, svc, tail);
    if !ok { return; }
    ok := PruneAddresses(s, c, o, desired, all);
  }

  method ReconcileService(store: Store, s: NetBoxServer, o: Owner, svc: Fetched<Service>) returns (ok: bool)
    requires o.ServiceOwner?
    modifies s
    ensures store.Current() == None ==> ok && s.db == old(s.db)
    ensures store.Current().Some? ==>
              var c, spec := ConnOf(store.Current().value), store.Current().value.spec;
              && CarriedOut(old(s.db), c, ServicePlan(spec, o, svc), s.log, s.db, ok)
              && (Unique(old(s.db), c) ==>
                    && Unique(s.db, c)
                    && Between(View(old(s.db), c), View(s.db, c), ServicePatch(spec, o, svc))
                    && (ok ==> View(s.db, c) == Patched(ServicePatch(spec, o, svc), View(old(s.db), c)))
                    && (ok ==> ServiceOutcome(View(old(s.db), c), View(s.db, c), spec, o.namespace, o.service, svc)))
  {
    var published, client := store.Get();
    if published.None? || client.None? { return true; }
    var spec := published.value;
    var c := Conn(client.value, ResolveTagSlug(spec));
    s.Bind(c, ServicePlan(spec, o, svc));
    match svc {
      case Unreadable =>
        ok := false;
      case Missing =>
        ok := DeleteOwned(s, c, IPAddress, o);
      case Present(v) =>
        var qualifies := spec.services.enabled && v.loadBalancer;
        if qualifies {
          ok := SyncServiceAddresses(s, c, o, v);
        } else if spec.services.enabled || !spec.services.retainOnDisable {
          ok := DeleteOwned(s, c, IPAddress, o);
        } else {
          ok := true;
        }
    }
    if Unique(old(s.db), c) {
      CarriedOutEffect(old(s.db), c, ServiceTask(spec, o, svc), s.log, s.db, ok);
      if ok { ServiceSucceeded(old(s.db), c, spec, o.namespace, o.service, svc, s.log); }
    }
  }
}
