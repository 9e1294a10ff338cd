/** The aggregation of pod CIDRs: per address family, the smallest CIDR block that
    holds every input block in full. Prefix notation is that of section 3.1 of
    RFC 4632 (IPv4) and section 2.3 of RFC 4291 (IPv6). */
module Cidrs {
  import opened Bits

  datatype Family = IPv4 | IPv6

  function Width(f: Family): nat {
    match f case IPv4 => 32 case IPv6 => 128
  }

  /** A CIDR block: a network address and the number of leading bits it fixes. */
  datatype Block = Block(family: Family, addr: nat, len: nat) {
    function HostBits(): nat
      requires len <= Width(family)
    {
      Width(family) - len
    }

    /** The highest address of the block. */
    function Last(): nat
      requires len <= Width(family)
    {
      addr + Pow2(HostBits()) - 1
    }

    /** The block is one that parsing CIDR text can yield: it is aligned and fits. */
    predicate Valid() {
      && len <= Width(family)
      && addr % Pow2(HostBits()) == 0
      && Last() < Pow2(Width(family))
    }
  }

  type ValidBlock = b: Block | b.Valid() witness (assert Block(IPv4, 0, 32).Valid(); Block(IPv4, 0, 32))

  datatype ParsedCidr = Parsed(block: ValidBlock) | Malformed

  /** A pod CIDR as Kubernetes gives it: its text, and what parsing that text yields. */
  datatype Cidr = Cidr(text: string, parsed: ParsedCidr)

  datatype Outcome<+T> = Computed(value: T) | Invalid(text: string)

  predicate Contains(outer: Block, inner: Block)
    requires outer.Valid() && inner.Valid()
  {
    outer.family == inner.family && outer.addr <= inner.addr && inner.Last() <= outer.Last()
  }

  predicate IsAbove(s: ValidBlock, bs: set<ValidBlock>) {
    forall b <- bs :: Contains(s, b)
  }

  /** s is the least block above every member of bs. */
  ghost predicate IsLeastAbove(s: ValidBlock, bs: set<ValidBlock>) {
    IsAbove(s, bs) && forall t: ValidBlock :: IsAbove(t, bs) ==> Contains(t, s)
  }

  // ---------------------------------------------------------------- the two passes, as functions

  datatype Bounds = Bounds(bits: nat, min: nat, max: nat)

  predicate Fits(f: Family, b: Bounds) {
    b.bits == Width(f) && b.min <= b.max < Pow2(b.bits)
  }

  /** First pass, one block: open the family's bounds or widen them. */
  function Widen(families: map<Family, Bounds>, b: ValidBlock): map<Family, Bounds> {
    if b.family in families then
      var was := families[b.family];
      families[b.family := Bounds(was.bits,
                                  if b.addr < was.min then b.addr else was.min,
                                  if b.Last() > was.max then b.Last() else was.max)]
    else
      families[b.family := Bounds(Width(b.family), b.addr, b.Last())]
  }

  /** First pass, whole list: the bounds of each family, or the first text that does not parse. */
  function Spread(cidrs: seq<Cidr>): Outcome<map<Family, Bounds>> {
    if cidrs == [] then Computed(map[])
    else
      var last := cidrs[|cidrs| - 1];
      match Spread(cidrs[..|cidrs| - 1])
      case Invalid(t) => Invalid(t)
      case Computed(m) =>
        if last.parsed.Parsed? then Computed(Widen(m, last.parsed.block)) else Invalid(last.text)
  }

  /** Second pass, one family: mask off every bit from the first one in which the bounds differ. */
  function Enclose(f: Family, b: Bounds): Block {
    var diff := BitLen(Xor(b.min, b.max));
    var ones := if b.bits >= diff then b.bits - diff else 0;
    Block(f, And(b.min, Mask(ones, b.bits)), ones)
  }

  function Supernets(cidrs: seq<Cidr>): Outcome<map<Family, Block>> {
    match Spread(cidrs)
    case Invalid(t) => Invalid(t)
    case Computed(m) => Computed(map f | f in m :: Enclose(f, m[f]))
  }

  // ---------------------------------------------------------------- the enclosing block

  /** Bounds that fit in `bits` bits never meet the clamp to zero, and masking the
      lower bound or the upper one gives the same network. */
  lemma {:induction false} EncloseExact(f: Family, b: Bounds)
    requires Fits(f, b)
    ensures BitLen(Xor(b.min, b.max)) <= b.bits
    ensures Enclose(f, b).len == b.bits - BitLen(Xor(b.min, b.max))
    ensures Enclose(f, b).addr == And(b.min, Mask(Enclose(f, b).len, b.bits))
    ensures Enclose(f, b).addr == And(b.max, Mask(Enclose(f, b).len, b.bits))
    ensures Enclose(f, b).addr == b.min - b.min % Pow2(b.bits - Enclose(f, b).len)
    ensures Enclose(f, b).addr == b.max - b.max % Pow2(b.bits - Enclose(f, b).len)
  {
    var k := BitLen(Xor(b.min, b.max));
    HighestDifferingBit(b.min, b.max, b.bits);
    QuotientUnique(b.min, Pow2(b.bits), 0, b.min);
    QuotientUnique(b.max, Pow2(b.bits), 0, b.max);
    HighestDifferingBit(b.min, b.max, k);
    AndMask(b.min, b.bits - k, b.bits);
    AndMask(b.max, b.bits - k, b.bits);
    SameQuotient(b.min, b.max, Pow2(k));
  }

  lemma {:induction false} RoundsBelow(a: nat, p: nat, m: nat)
    requires p > 0 && a < m * p
    ensures a - a % p + p <= m * p
  {
    RoundDown(a, p);
    MulGrows(a / p, m, p);
    MulGrows(m, a / p, p);
  }

  lemma {:induction false} RoundsBelowPow2(a: nat, k: nat, bits: nat)
    requires k <= bits && a < Pow2(bits)
    ensures a - a % Pow2(k) + Pow2(k) <= Pow2(bits)
  {
    Pow2Sum(bits - k, k);
    RoundsBelow(a, Pow2(k), Pow2(bits - k));
  }

  lemma {:induction false} EncloseCovers(f: Family, b: Bounds)
    requires Fits(f, b)
    ensures Enclose(f, b).Valid()
    ensures Enclose(f, b).addr <= b.min && b.max <= Enclose(f, b).Last()
  {
    EncloseExact(f, b);
    var s := Enclose(f, b);
    var p := Pow2(s.HostBits());
    RoundedAligned(b.max, p);
    RoundsBelowPow2(b.max, s.HostBits(), b.bits);
  }

  /** Two addresses in one valid block agree once its host bits are dropped. */
  lemma {:induction false} SameNetwork(t: ValidBlock, x: nat)
    requires t.addr <= x <= t.Last()
    ensures x / Pow2(t.HostBits()) == t.addr / Pow2(t.HostBits())
  {
    var p := Pow2(t.HostBits());
    RoundDown(t.addr, p);
    QuotientUnique(x, p, t.addr / p, x - t.addr);
  }

  lemma {:induction false} Associate(d: nat, m: nat, p: nat)
    ensures d * (m * p) == (d * m) * p
  {
  }

  lemma {:induction false} Distribute(c: nat, m: nat, p: nat)
    ensures c * p + m * p == (c + m) * p
  {
  }

  /** A multiple of m * p is a multiple of p. */
  lemma {:induction false} Refine(t: nat, m: nat, p: nat, w: nat) returns (c: nat)
    requires w > 0 && w == m * p && t % w == 0
    ensures t == c * p && t + w == (c + m) * p
  {
    var d := t / w;
    c := d * m;
    assert t == d * w;
    Associate(d, m, p);
    Distribute(c, m, p);
  }

  lemma {:induction false} NestedMultiples(q: nat, c: nat, e: nat, p: nat, min: nat, max: nat)
    requires q * p <= min <= max < q * p + p
    requires c * p <= min && max < e * p
    ensures c * p <= q * p && q * p + p <= e * p
  {
    MulGrows(q, c, p);
    MulGrows(c, q, p);
    MulGrows(q, e, p);
    MulGrows(e, q, p);
  }

  /** Of two intervals aligned to p and to w = m * p that share a point, the first lies in the second. */
  lemma {:induction false} Nested(s: nat, p: nat, t: nat, m: nat, w: nat, min: nat, max: nat)
    requires p > 0 && w > 0 && w == m * p && s % p == 0 && t % w == 0
    requires s <= min <= max < s + p
    requires t <= min && max < t + w
    ensures t <= s && s + p <= t + w
  {
    var c := Refine(t, m, p, w);
    RoundDown(s, p);
    NestedMultiples(s / p, c, c + m, p, min, max);
  }

  lemma {:induction false} NestedPow2(s: nat, k: nat, t: nat, j: nat, min: nat, max: nat)
    requires k <= j && s % Pow2(k) == 0 && t % Pow2(j) == 0
    requires s <= min <= max < s + Pow2(k)
    requires t <= min && max < t + Pow2(j)
    ensures t <= s && s + Pow2(k) <= t + Pow2(j)
  {
    Pow2Sum(j - k, k);
    Nested(s, Pow2(k), t, Pow2(j - k), Pow2(j), min, max);
  }

  /** Every valid block holding both bounds holds the enclosing block. */
  lemma {:induction false} EncloseLeast(f: Family, b: Bounds, t: ValidBlock)
    requires Fits(f, b)
    requires t.family == f && t.addr <= b.min && b.max <= t.Last()
    ensures Enclose(f, b).Valid() && Contains(t, Enclose(f, b))
  {
    EncloseCovers(f, b);
    EncloseExact(f, b);
    var s := Enclose(f, b);
    SameNetwork(t, b.min);
    SameNetwork(t, b.max);
    var k, j := s.HostBits(), t.HostBits();
    assert k <= j by { HighestDifferingBit(b.min, b.max, j); }
    NestedPow2(s.addr, k, t.addr, j, b.min, b.max);
  }

  // ---------------------------------------------------------------- the first pass

  /** The blocks of one family among a list of pod CIDRs. */
  function Blocks(cidrs: seq<Cidr>, f: Family): set<ValidBlock> {
    set i | 0 <= i < |cidrs| && cidrs[i].parsed.Parsed? && cidrs[i].parsed.block.family == f :: cidrs[i].parsed.block
  }

  predicate AllParse(cidrs: seq<Cidr>) {
    forall c <- cidrs :: c.parsed.Parsed?
  }

  /** b are the exact bounds of bs. */
  ghost predicate Tight(f: Family, b: Bounds, bs: set<ValidBlock>) {
    && b.bits == Width(f)
    && (exists lo :: lo in bs && lo.addr == b.min)
    && (exists hi :: hi in bs && hi.Last() == b.max)
    && (forall x <- bs :: x.family == f && b.min <= x.addr && x.Last() <= b.max)
  }

  lemma {:induction false} BlocksSnoc(cidrs: seq<Cidr>, f: Family)
    requires cidrs != []
    ensures var init, last := cidrs[..|cidrs| - 1], cidrs[|cidrs| - 1];
            Blocks(cidrs, f) == Blocks(init, f)
                                + (if last.parsed.Parsed? && last.parsed.block.family == f then {last.parsed.block}
                                    else {})
  {
    var init, last := cidrs[..|cidrs| - 1], cidrs[|cidrs| - 1];
    assert cidrs == init + [last];
    forall b | b in Blocks(cidrs, f)
      ensures b in Blocks(init, f) || (last.parsed.Parsed? && b == last.parsed.block)
    {
      var i :| 0 <= i < |cidrs| && cidrs[i].parsed.Parsed? && cidrs[i].parsed.block.family == f
          && cidrs[i].parsed.block == b;
      if i < |init| { assert init[i] == cidrs[i]; }
    }
    forall b | b in Blocks(init, f)
      ensures b in Blocks(cidrs, f)
    {
      var i :| 0 <= i < |init| && init[i].parsed.Parsed? && init[i].parsed.block.family == f
          && init[i].parsed.block == b;
      assert cidrs[i] == init[i];
    }
  }

  lemma {:induction false} WidenTight(m: map<Family, Bounds>, b: ValidBlock, f: Family, bs: set<ValidBlock>)
    requires f in m <==> bs != {}
    requires f in m ==> Tight(f, m[f], bs)
    ensures var bs' := bs + if b.family == f then {b} else {};
            && (f in Widen(m, b) <==> bs' != {})
            && (f in Widen(m, b) ==> Tight(f, Widen(m, b)[f], bs'))
  {
    if b.family == f {
      assert b in bs + {b};
      if f in m {
        var lo :| lo in bs && lo.addr == m[f].min;
        var hi :| hi in bs && hi.Last() == m[f].max;
        assert lo in bs + {b} && hi in bs + {b};
      }
    } else {
      assert bs + {} == bs;
    }
  }

  /** The bounds fold computes: it succeeds exactly when every text parses, has exactly
      the families present, and gives each family its tight bounds. */
  lemma {:induction false} SpreadTight(cidrs: seq<Cidr>)
    ensures Spread(cidrs).Computed? <==> AllParse(cidrs)
    ensures Spread(cidrs).Computed? ==>
              forall f: Family ::
                && (f in Spread(cidrs).value <==> Blocks(cidrs, f) != {})
                && (f in Spread(cidrs).value ==> Tight(f, Spread(cidrs).value[f], Blocks(cidrs, f)))
  {
    if cidrs == [] {
    } else {
      var init, last := cidrs[..|cidrs| - 1], cidrs[|cidrs| - 1];
      SpreadTight(init);
      assert cidrs == init + [last];
      if Spread(cidrs).Computed? {
        forall f: Family
          ensures f in Spread(cidrs).value <==> Blocks(cidrs, f) != {}
          ensures f in Spread(cidrs).value ==> Tight(f, Spread(cidrs).value[f], Blocks(cidrs, f))
        {
          BlocksSnoc(cidrs, f);
          WidenTight(Spread(init).value, last.parsed.block, f, Blocks(init, f));
        }
      }
    }
  }

  // ---------------------------------------------------------------- main results

  lemma {:induction false} TightFits(f: Family, b: Bounds, bs: set<ValidBlock>)
    requires Tight(f, b, bs)
    ensures Fits(f, b)
  {
    var lo :| lo in bs && lo.addr == b.min;
    var hi :| hi in bs && hi.Last() == b.max;
    assert lo.addr <= lo.Last();
  }

  /** The bounds the first pass builds always fit the family's address width. */
  lemma {:induction false} SpreadFits(cidrs: seq<Cidr>)
    ensures Spread(cidrs).Computed? ==> forall f <- Spread(cidrs).value :: Fits(f, Spread(cidrs).value[f])
  {
    SpreadTight(cidrs);
    if Spread(cidrs).Computed? {
      forall f | f in Spread(cidrs).value
        ensures Fits(f, Spread(cidrs).value[f])
      {
        TightFits(f, Spread(cidrs).value[f], Blocks(cidrs, f));
      }
    }
  }

  lemma {:induction false} EncloseIsAbove(f: Family, b: Bounds, bs: set<ValidBlock>)
    requires Fits(f, b) && Tight(f, b, bs)
    ensures Enclose(f, b).Valid() && IsAbove(Enclose(f, b), bs)
  {
    EncloseCovers(f, b);
  }

  lemma {:induction false} EncloseBelow(f: Family, b: Bounds, bs: set<ValidBlock>, t: ValidBlock)
    requires Fits(f, b) && Tight(f, b, bs) && IsAbove(t, bs)
    ensures Enclose(f, b).Valid() && Contains(t, Enclose(f, b))
  {
    var lo :| lo in bs && lo.addr == b.min;
    var hi :| hi in bs && hi.Last() == b.max;
    assert Contains(t, lo) && Contains(t, hi);
    EncloseLeast(f, b, t);
  }

  lemma {:induction false} EncloseIsLeastAbove(f: Family, b: Bounds, bs: set<ValidBlock>)
    requires Tight(f, b, bs)
    ensures Enclose(f, b).Valid() && IsLeastAbove(Enclose(f, b), bs)
  {
    TightFits(f, b, bs);
    EncloseIsAbove(f, b, bs);
    forall t: ValidBlock | IsAbove(t, bs)
      ensures Contains(t, Enclose(f, b))
    {
      EncloseBelow(f, b, bs, t);
    }
  }

  /** Least upper bound: the supernet of a family is valid, holds every pod CIDR of that
      family in full, and lies inside every block that does. Exactly the families present
      get one, and the computation succeeds exactly when every text parses. */
  lemma {:induction false} SupernetsLeast(cidrs: seq<Cidr>)
    ensures Supernets(cidrs).Computed? <==> AllParse(cidrs)
    ensures Supernets(cidrs).Computed? ==>
              forall f: Family ::
                && (f in Supernets(cidrs).value <==> Blocks(cidrs, f) != {})
                && (f in Supernets(cidrs).value ==>
                      Supernets(cidrs).value[f].Valid() && IsLeastAbove(Supernets(cidrs).value[f], Blocks(cidrs, f)))
  {
    SpreadTight(cidrs);
    if Supernets(cidrs).Computed? {
      var m := Spread(cidrs).value;
      forall f: Family | f in m
        ensures Enclose(f, m[f]).Valid() && IsLeastAbove(Enclose(f, m[f]), Blocks(cidrs, f))
      {
        EncloseIsLeastAbove(f, m[f], Blocks(cidrs, f));
      }
    }
  }

  lemma {:induction false} SizeDetermines(j: nat, k: nat)
    ensures j < k ==> Pow2(j) < Pow2(k)
  {
    if j < k { Pow2Monotone(j, k - 1); }
  }

  /** Containment is antisymmetric, so a least block is unique. */
  lemma {:induction false} LeastUnique(s: ValidBlock, t: ValidBlock, bs: set<ValidBlock>)
    requires IsLeastAbove(s, bs) && IsLeastAbove(t, bs)
    ensures s == t
  {
    assert Contains(s, t) && Contains(t, s);
    SizeDetermines(s.HostBits(), t.HostBits());
    SizeDetermines(t.HostBits(), s.HostBits());
  }

  /** Order, repetition and the other family do not matter: equal sets of blocks
      of a family give the same supernet. */
  lemma {:induction false} SupernetsFromSet(a: seq<Cidr>, b: seq<Cidr>, f: Family)
    requires AllParse(a) && AllParse(b) && Blocks(a, f) == Blocks(b, f)
    ensures Supernets(a).Computed? && Supernets(b).Computed?
    ensures f in Supernets(a).value <==> f in Supernets(b).value
    ensures f in Supernets(a).value ==> Supernets(a).value[f] == Supernets(b).value[f]
  {
    SupernetsLeast(a);
    SupernetsLeast(b);
    if f in Supernets(a).value {
      LeastUnique(Supernets(a).value[f], Supernets(b).value[f], Blocks(a, f));
    }
  }

  lemma {:induction false} AboveUnion(s: ValidBlock, t: ValidBlock, bs: set<ValidBlock>, cs: set<ValidBlock>,
                                      x: ValidBlock)
    requires IsLeastAbove(s, bs) && IsLeastAbove(t, cs)
    ensures IsAbove(x, bs + cs) <==> IsAbove(x, {s, t})
  {
    if IsAbove(x, bs + cs) {
      assert IsAbove(x, bs) && IsAbove(x, cs);
    }
    if IsAbove(x, {s, t}) {
      assert Contains(x, s) && Contains(x, t);
      assert forall b <- bs :: Contains(s, b);
      assert forall b <- cs :: Contains(t, b);
    }
  }

  /** The supernet of the union of two sets is the least block above their two supernets. */
  lemma {:induction false} LeastOfUnion(s: ValidBlock, t: ValidBlock, bs: set<ValidBlock>, cs: set<ValidBlock>,
                                        u: ValidBlock)
    requires IsLeastAbove(s, bs) && IsLeastAbove(t, cs)
    ensures IsLeastAbove(u, bs + cs) <==> IsLeastAbove(u, {s, t})
  {
    forall x: ValidBlock
      ensures IsAbove(x, bs + cs) <==> IsAbove(x, {s, t})
    {
      AboveUnion(s, t, bs, cs, x);
    }
  }

  lemma {:induction false} BlocksConcat(a: seq<Cidr>, b: seq<Cidr>, f: Family)
    ensures Blocks(a + b, f) == Blocks(a, f) + Blocks(b, f)
  {
    var ab := a + b;
    forall x | x in Blocks(ab, f)
      ensures x in Blocks(a, f) + Blocks(b, f)
    {
      var i :| 0 <= i < |ab| && ab[i].parsed.Parsed? && ab[i].parsed.block.family == f && ab[i].parsed.block == x;
      if i < |a| { assert a[i] == ab[i]; } else { assert b[i - |a|] == ab[i]; }
    }
    forall x | x in Blocks(a, f)
      ensures x in Blocks(ab, f)
    {
      var i :| 0 <= i < |a| && a[i].parsed.Parsed? && a[i].parsed.block.family == f && a[i].parsed.block == x;
      assert ab[i] == a[i];
    }
    forall x | x in Blocks(b, f)
      ensures x in Blocks(ab, f)
    {
      var i :| 0 <= i < |b| && b[i].parsed.Parsed? && b[i].parsed.block.family == f && b[i].parsed.block == x;
      assert ab[|a| + i] == b[i];
    }
  }

  /** The supernet of a family is the one block with the least-block property. */
  lemma {:induction false} SupernetIs(cidrs: seq<Cidr>, f: Family, u: ValidBlock)
    requires AllParse(cidrs) && Blocks(cidrs, f) != {}
    ensures Supernets(cidrs).Computed? && f in Supernets(cidrs).value
    ensures Supernets(cidrs).value[f] == u <==> IsLeastAbove(u, Blocks(cidrs, f))
  {
    SupernetsLeast(cidrs);
    if IsLeastAbove(u, Blocks(cidrs, f)) {
      LeastUnique(u, Supernets(cidrs).value[f], Blocks(cidrs, f));
    }
  }

  lemma {:induction false} SupernetFamily(s: ValidBlock, bs: set<ValidBlock>, f: Family)
    requires IsLeastAbove(s, bs) && bs != {} && forall b <- bs :: b.family == f
    ensures s.family == f
  {
    var b :| b in bs;
    assert Contains(s, b);
  }

  lemma {:induction false} PartsBlocks(a: seq<Cidr>, b: seq<Cidr>, f: Family, s: ValidBlock, t: ValidBlock,
                                       parts: seq<Cidr>)
    requires Blocks(a, f) != {} && IsLeastAbove(s, Blocks(a, f))
    requires Blocks(b, f) != {} && IsLeastAbove(t, Blocks(b, f))
    requires |parts| == 2 && parts[0].parsed == Parsed(s) && parts[1].parsed == Parsed(t)
    ensures Blocks(parts, f) == {s, t} && AllParse(parts)
  {
    SupernetFamily(s, Blocks(a, f), f);
    SupernetFamily(t, Blocks(b, f), f);
    assert parts[0].parsed.block in Blocks(parts, f) && parts[1].parsed.block in Blocks(parts, f);
  }

  lemma {:induction false} ComposeLeast(a: seq<Cidr>, b: seq<Cidr>, f: Family, s: ValidBlock, t: ValidBlock,
                                        parts: seq<Cidr>)
    requires AllParse(a) && Blocks(a, f) != {} && IsLeastAbove(s, Blocks(a, f))
    requires AllParse(b) && Blocks(b, f) != {} && IsLeastAbove(t, Blocks(b, f))
    requires |parts| == 2 && parts[0].parsed == Parsed(s) && parts[1].parsed == Parsed(t)
    ensures Supernets(a + b).Computed? && Supernets(parts).Computed?
    ensures f in Supernets(a + b).value && f in Supernets(parts).value
    ensures Supernets(a + b).value[f] == Supernets(parts).value[f]
  {
    BlocksConcat(a, b, f);
    PartsBlocks(a, b, f, s, t, parts);
    SupernetIs(parts, f, s);
    SupernetsLeast(parts);
    var u: ValidBlock := Supernets(parts).value[f];
    LeastOfUnion(s, t, Blocks(a, f), Blocks(b, f), u);
    SupernetIs(a + b, f, u);
  }

  /** Supernets compose: the supernet of a concatenation is that of the two partial
      supernets, whatever text stands for them. */
  lemma {:induction false} SupernetsCompose(a: seq<Cidr>, b: seq<Cidr>, f: Family, s: ValidBlock, t: ValidBlock,
                                            parts: seq<Cidr>)
    requires AllParse(a) && Supernets(a).Computed? && f in Supernets(a).value && s == Supernets(a).value[f]
    requires AllParse(b) && Supernets(b).Computed? && f in Supernets(b).value && t == Supernets(b).value[f]
    requires |parts| == 2 && parts[0].parsed == Parsed(s) && parts[1].parsed == Parsed(t)
    ensures Supernets(a + b).Computed? && Supernets(parts).Computed?
    ensures f in Supernets(a + b).value && f in Supernets(parts).value
    ensures Supernets(a + b).value[f] == Supernets(parts).value[f]
  {
    SupernetsLeast(a);
    SupernetsLeast(b);
    ComposeLeast(a, b, f, s, t, parts);
  }

  // ---------------------------------------------------------------- the loops

  /** Tight bounds are determined by the blocks they bound. */
  lemma {:induction false} SameBounds(f: Family, x: Bounds, y: Bounds, bs: set<ValidBlock>)
    requires Tight(f, x, bs) && Tight(f, y, bs)
    ensures x == y
  {
    var lo :| lo in bs && lo.addr == x.min;
    var hi :| hi in bs && hi.Last() == x.max;
    var lo' :| lo' in bs && lo'.addr == y.min;
    var hi' :| hi' in bs && hi'.Last() == y.max;
  }

  lemma {:induction false} TightUnique(m: map<Family, Bounds>, wider: map<Family, Bounds>, b: ValidBlock,
                                       bs: set<ValidBlock>)
    requires b.family in m <==> bs != {}
    requires b.family in m ==> Tight(b.family, m[b.family], bs)
    requires wider.Keys == m.Keys + {b.family} && forall f <- m :: f != b.family ==> wider[f] == m[f]
    requires Tight(b.family, wider[b.family], bs + {b})
    ensures wider == Widen(m, b)
  {
    WidenTight(m, b, b.family, bs);
    SameBounds(b.family, wider[b.family], Widen(m, b)[b.family], bs + {b});
  }

  /** The body of the first loop: compare the block's two ends with the bounds held so far. Bounds that
      were tight for the blocks seen so far are tight for those and this one, and no family is touched
      but the block's. */
  method WidenBounds(families: map<Family, Bounds>, block: ValidBlock) returns (wider: map<Family, Bounds>)
    ensures wider.Keys == families.Keys + {block.family}
    ensures forall f <- families :: f != block.family ==> wider[f] == families[f]
    ensures wider[block.family].min <= block.addr && block.Last() <= wider[block.family].max
    ensures forall bs: set<ValidBlock> ::
              (if block.family in families then Tight(block.family, families[block.family], bs) else bs == {})
              ==> Tight(block.family, wider[block.family], bs + {block})
  {
    wider := families;
    var start, end := block.addr, block.Last();
    var family := block.family;
    if family in families {
      if start < wider[family].min {
        wider := wider[family := wider[family].(min := start)];
      }
      if end > wider[family].max {
        wider := wider[family := wider[family].(max := end)];
      }
    } else {
      wider := wider[family := Bounds(Width(family), start, end)];
    }
    forall bs: set<ValidBlock> | if family in families then Tight(family, families[family], bs) else bs == {}
      ensures Tight(family, wider[family], bs + {block})
    {
      WidenTight(families, block, family, bs);
      assert wider[family] == Widen(families, block)[family];
    }
  }

  /** The body of the second loop. The bounds fit the address width, so the address
      bytes hold the lower bound, and the prefix length is never negative. */
  method EncloseBounds(family: Family, b: Bounds) returns (block: Block)
    requires Fits(family, b)
    ensures block == Enclose(family, b)
    ensures block.len + BitLen(Xor(b.min, b.max)) == b.bits
  {
    EncloseExact(family, b);
    var diff := Xor(b.min, b.max);
    var prefixLen := if b.bits >= BitLen(diff) then b.bits - BitLen(diff) else 0;
    block := Block(family, And(b.min, Mask(prefixLen, b.bits)), prefixLen);
  }

  /** The second loop, over the families in any order. */
  method EncloseAll(families: map<Family, Bounds>) returns (result: map<Family, Block>)
    requires forall f <- families :: Fits(f, families[f])
    ensures result == map f | f in families :: Enclose(f, families[f])
  {
    result := map[];
    var todo := families.Keys;
    while todo != {}
      invariant todo <= families.Keys
      invariant result == map f | f in families.Keys - todo :: Enclose(f, families[f])
      decreases |todo|
    {
      var family :| family in todo;
      var block := EncloseBounds(family, families[family]);
      result := result[family := block];
      todo := todo - {family};
    }
  }

  lemma {:induction false} InvalidPrefix(cidrs: seq<Cidr>, n: nat)
    requires n <= |cidrs| && Spread(cidrs[..n]).Invalid?
    ensures Spread(cidrs) == Spread(cidrs[..n])
    decreases |cidrs| - n
  {
    if n == |cidrs| {
      assert cidrs[..n] == cidrs;
    } else {
      assert cidrs[..n + 1][..n] == cidrs[..n];
      InvalidPrefix(cidrs, n + 1);
    }
  }

  /** computeSupernets: a first loop builds each family's bounds, a second turns
      them into blocks. */
  method ComputeSupernets(cidrs: seq<Cidr>) returns (r: Outcome<map<Family, Block>>)
    ensures r == Supernets(cidrs)
    ensures r.Computed? <==> AllParse(cidrs)
    ensures r.Computed? ==> forall f <- r.value :: r.value[f].Valid() && IsLeastAbove(r.value[f], Blocks(cidrs, f))
  {
    SupernetsLeast(cidrs);
    var families: map<Family, Bounds> := map[];
    for n := 0 to |cidrs|
      invariant Spread(cidrs[..n]) == Computed(families)
    {
      assert cidrs[..n + 1][..n] == cidrs[..n];
      var c := cidrs[n];
      if c.parsed.Malformed? {
        InvalidPrefix(cidrs, n + 1);
        return Invalid(c.text);
      }
      SpreadTight(cidrs[..n]);
      SpreadTight(cidrs[..n + 1]);
      BlocksSnoc(cidrs[..n + 1], c.parsed.block.family);
      ghost var before := families;
      families := WidenBounds(families, c.parsed.block);
      TightUnique(before, families, c.parsed.block, Blocks(cidrs[..n], c.parsed.block.family));
    }
    assert cidrs[..|cidrs|] == cidrs;
    SpreadFits(cidrs);
    var result := EncloseAll(families);
    r := Computed(result);
  }
}
