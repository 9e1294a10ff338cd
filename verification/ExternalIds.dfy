/** The external IDs by which Herald finds its NetBox objects again, and the string
    prefix by which it recognises the objects of one Kubernetes owner. */
module ExternalIds {
  import opened Cidrs

  /** A Kubernetes object that owns several NetBox objects: a Node's pod CIDRs,
      or the external addresses of a Service. */
  datatype Owner = NodeOwner(node: string) | ServiceOwner(namespace: string, service: string)

  /** Kubernetes names never contain a slash. */
  predicate SlashFree(name: string) {
    '/' !in name
  }

  predicate WellNamed(o: Owner) {
    match o
    case NodeOwner(node) => SlashFree(node)
    case ServiceOwner(namespace, service) => SlashFree(namespace) && SlashFree(service)
  }

  function OwnerPrefix(o: Owner): string {
    match o
    case NodeOwner(node) => node + "/"
    case ServiceOwner(namespace, service) => namespace + "/" + service + "/"
  }

  /** The external ID of the object that stands for `part` (a CIDR or an address) of o. */
  function OwnedId(o: Owner, part: string): string {
    OwnerPrefix(o) + part
  }

  function FamilyName(f: Family): string {
    match f case IPv4 => "ipv4" case IPv6 => "ipv6"
  }

  function AggregateId(f: Family): string {
    "cluster-pod-cidrs/" + FamilyName(f)
  }

  predicate HasPrefix(s: string, prefix: string) {
    prefix <= s
  }

  lemma {:induction false} LongerHasSlash(a: string, b: string, s: string)
    requires HasPrefix(s, a + "/") && HasPrefix(s, b + "/")
    ensures |a| < |b| ==> !SlashFree(b)
  {
    if |a| < |b| {
      assert b[|a|] == s[|a|] == '/';
    }
  }

  /** The text before the first slash is determined by the whole. */
  lemma {:induction false} FirstSegment(a: string, b: string, s: string)
    requires SlashFree(a) && SlashFree(b)
    requires HasPrefix(s, a + "/") && HasPrefix(s, b + "/")
    ensures a == b
  {
    LongerHasSlash(a, b, s);
    LongerHasSlash(b, a, s);
    assert a == s[..|a|] && b == s[..|b|];
  }

  /** No string starts with the prefixes of two owners of the same sort, even when one
      name is a prefix of the other. */
  lemma {:induction false} OwnersDisjoint(o: Owner, p: Owner, s: string)
    requires WellNamed(o) && WellNamed(p) && o.NodeOwner? == p.NodeOwner?
    requires HasPrefix(s, OwnerPrefix(o)) && HasPrefix(s, OwnerPrefix(p))
    ensures o == p
  {
    if o.NodeOwner? {
      FirstSegment(o.node, p.node, s);
    } else {
      assert o.namespace + "/" <= OwnerPrefix(o) <= s;
      assert p.namespace + "/" <= OwnerPrefix(p) <= s;
      FirstSegment(o.namespace, p.namespace, s);
      var rest := s[|o.namespace| + 1..];
      assert o.service + "/" <= rest && p.service + "/" <= rest;
      FirstSegment(o.service, p.service, rest);
    }
  }

  /** The prefix filter selects an ID exactly when it was built for that owner. */
  lemma {:induction false} FilterExact(o: Owner, p: Owner, part: string)
    requires WellNamed(o) && WellNamed(p) && o.NodeOwner? == p.NodeOwner?
    ensures HasPrefix(OwnedId(p, part), OwnerPrefix(o)) <==> o == p
  {
    if HasPrefix(OwnedId(p, part), OwnerPrefix(o)) {
      OwnersDisjoint(o, p, OwnedId(p, part));
    }
  }

  /** External IDs are injective in the owner and the part. */
  lemma {:induction false} OwnedIdInjective(o: Owner, part: string, p: Owner, qart: string)
    requires WellNamed(o) && WellNamed(p) && o.NodeOwner? == p.NodeOwner?
    requires OwnedId(o, part) == OwnedId(p, qart)
    ensures o == p && part == qart
  {
    OwnersDisjoint(o, p, OwnedId(o, part));
    assert part == OwnedId(o, part)[|OwnerPrefix(o)|..];
    assert qart == OwnedId(p, qart)[|OwnerPrefix(p)|..];
  }
}
