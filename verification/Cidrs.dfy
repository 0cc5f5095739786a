/** IPv4 prefixes as (base, prefix length) pairs on 32-bit naturals, in the
    notation of section 3.1 of RFC 4632, and the halving arithmetic that the buddy
    trees rest on. Parsing and printing of CIDR strings is not modelled. */
module Cidrs {

  const ADDRESS_SPACE: nat := 0x1_0000_0000

  /** The number of addresses of a /prefix block. */
  function Size(prefix: nat): (size: nat)
    ensures size >= 1
    decreases 32 - prefix
  {
    if prefix >= 32 then 1 else 2 * Size(prefix + 1)
  }

  /** x is a multiple of n, by repeated subtraction, so that no proof needs non-linear arithmetic. */
  predicate Multiple(x: nat, n: nat)
    requires n > 0
  {
    x == 0 || (x >= n && Multiple(x - n, n))
  }

  datatype Cidr = Cidr(base: nat, prefix: nat) {

    function Last(): nat { base + Size(prefix) - 1 }

    predicate Contains(address: nat) { base <= address <= Last() }
  }

  /** A network: no host bit set, and inside the address space. */
  ghost predicate Aligned(c: Cidr) {
    c.prefix <= 32 && Multiple(c.base, Size(c.prefix)) && c.base + Size(c.prefix) <= ADDRESS_SPACE
  }

  predicate Within(inner: Cidr, outer: Cidr) {
    outer.base <= inner.base && inner.Last() <= outer.Last()
  }

  predicate Disjoint(c: Cidr, d: Cidr) {
    c.Last() < d.base || d.Last() < c.base
  }

  function LowerHalf(c: Cidr): Cidr { Cidr(c.base, c.prefix + 1) }

  function UpperHalf(c: Cidr): Cidr { Cidr(c.base + Size(c.prefix + 1), c.prefix + 1) }

  predicate IsHalf(half: Cidr, c: Cidr) {
    c.prefix < 32 && (half == LowerHalf(c) || half == UpperHalf(c))
  }

  /** The block one level up that contains c. */
  function Parent(c: Cidr): Cidr
    requires c.prefix > 0
  {
    Cidr(if Multiple(c.base, 2 * Size(c.prefix)) || c.base < Size(c.prefix)
         then c.base else c.base - Size(c.prefix), c.prefix - 1)
  }

  /** The other half of the parent of c. */
  function Sibling(c: Cidr): Cidr
    requires c.prefix > 0
  {
    Cidr(if Parent(c).base == c.base then c.base + Size(c.prefix) else Parent(c).base, c.prefix)
  }

  // ---- multiples ----

  lemma {:induction false} MultipleOfDouble(x: nat, n: nat)
    requires n > 0 && Multiple(x, 2 * n)
    ensures Multiple(x, n) && Multiple(x + n, n) && !Multiple(x + n, 2 * n)
  {
    if x > 0 { MultipleOfDouble(x - 2 * n, n); }
  }

  lemma {:induction false} EvenOrOddMultiple(x: nat, n: nat)
    requires n > 0 && Multiple(x, n)
    ensures Multiple(x, 2 * n) || (x >= n && Multiple(x - n, 2 * n))
  {
    if x >= 2 * n { EvenOrOddMultiple(x - 2 * n, n); }
  }

  lemma {:induction false} MultiplesApart(x: nat, y: nat, n: nat)
    requires n > 0 && Multiple(x, n) && Multiple(y, n) && x < y
    ensures x + n <= y
  {
    if x > 0 { MultiplesApart(x - n, y - n, n); }
  }

  lemma {:induction false} SpaceIsMultiple(prefix: nat)
    requires prefix <= 32
    ensures Multiple(ADDRESS_SPACE, Size(prefix))
  {
    if prefix == 0 {
      assert Size(24) == 256;
      assert Size(16) == 256 * Size(24);
      assert Size(8) == 256 * Size(16);
      assert Size(0) == 256 * Size(8) == ADDRESS_SPACE;
      assert Multiple(0, Size(0));
    } else {
      SpaceIsMultiple(prefix - 1);
      MultipleOfDouble(ADDRESS_SPACE, Size(prefix));
    }
  }

  // ---- halving ----

  lemma HalvesAligned(c: Cidr)
    requires Aligned(c) && c.prefix < 32
    ensures Aligned(LowerHalf(c)) && Aligned(UpperHalf(c))
    ensures Parent(LowerHalf(c)) == c == Parent(UpperHalf(c))
    ensures Sibling(LowerHalf(c)) == UpperHalf(c) && Sibling(UpperHalf(c)) == LowerHalf(c)
  {
    MultipleOfDouble(c.base, Size(c.prefix + 1));
  }

  lemma ParentAligned(c: Cidr)
    requires Aligned(c) && c.prefix > 0
    ensures Aligned(Parent(c)) && IsHalf(c, Parent(c)) && IsHalf(Sibling(c), Parent(c))
    ensures Aligned(Sibling(c)) && Disjoint(c, Sibling(c)) && Sibling(Sibling(c)) == c
    ensures Parent(Sibling(c)) == Parent(c) && Within(c, Parent(c)) && Within(Sibling(c), Parent(c))
  {
    EvenOrOddMultiple(c.base, Size(c.prefix));
    assert Size(c.prefix - 1) == 2 * Size(c.prefix);
    SpaceIsMultiple(c.prefix - 1);
    assert Multiple(Parent(c).base, Size(c.prefix - 1)) by {
      if !Multiple(c.base, 2 * Size(c.prefix)) { assert c.base >= Size(c.prefix); }
    }
    MultiplesApart(Parent(c).base, ADDRESS_SPACE, Size(c.prefix - 1));
    HalvesAligned(Parent(c));
  }

  lemma {:induction false} SizeMonotone(p: nat, q: nat)
    requires p <= q <= 32
    ensures Size(p) >= Size(q)
    ensures p < q ==> Size(p) >= 2 * Size(q)
    decreases q - p
  {
    if p < q { SizeMonotone(p + 1, q); }
  }

  // ---- nesting ----

  /** Aligned blocks never overlap partially: the smaller one is inside the larger one or apart from it. */
  lemma {:induction false} NestedOrDisjoint(c: Cidr, d: Cidr)
    requires Aligned(c) && Aligned(d) && c.prefix <= d.prefix
    ensures Within(d, c) || Disjoint(c, d)
    ensures c.prefix == d.prefix ==> c == d || Disjoint(c, d)
    decreases d.prefix
  {
    if c.prefix == d.prefix {
      if c.base < d.base {
        MultiplesApart(c.base, d.base, Size(c.prefix));
      } else if d.base < c.base {
        MultiplesApart(d.base, c.base, Size(c.prefix));
      }
    } else {
      ParentAligned(d);
      NestedOrDisjoint(c, Parent(d));
    }
  }

  /** A block strictly inside c lies in one of the halves of c. */
  lemma StrictlyWithin(d: Cidr, c: Cidr)
    requires Aligned(c) && Aligned(d) && Within(d, c) && d != c
    ensures c.prefix < d.prefix && (Within(d, LowerHalf(c)) || Within(d, UpperHalf(c)))
    ensures Within(d, UpperHalf(c)) <==> d.base >= UpperHalf(c).base
    ensures Within(Parent(d), c) && Parent(d).prefix >= c.prefix
  {
    if d.prefix <= c.prefix {
      SizeMonotone(d.prefix, c.prefix);
      NestedOrDisjoint(d, c);
    } else {
      HalvesAligned(c);
      NestedOrDisjoint(LowerHalf(c), d);
      NestedOrDisjoint(UpperHalf(c), d);
      ParentAligned(d);
      NestedOrDisjoint(c, Parent(d));
    }
  }

  /** Blocks that share an address are nested, the one with the longer prefix inside. */
  lemma SharedAddress(c: Cidr, d: Cidr, address: nat)
    requires Aligned(c) && Aligned(d) && c.Contains(address) && d.Contains(address)
    ensures c.prefix <= d.prefix ==> Within(d, c)
    ensures d.prefix <= c.prefix ==> Within(c, d)
    ensures c.prefix == d.prefix ==> c == d
  {
    if c.prefix <= d.prefix { NestedOrDisjoint(c, d); }
    if d.prefix <= c.prefix { NestedOrDisjoint(d, c); }
  }

  // ---- sets of blocks ----

  predicate Covers(s: set<Cidr>, a: nat) {
    exists c :: c in s && c.Contains(a)
  }

  function SetOf(cs: seq<Cidr>): set<Cidr> {
    set c | c in cs
  }

  // ---- powers of two ----

  function Pow2(n: nat): (p: nat)
    ensures p >= 1
  {
    if n == 0 then 1 else 2 * Pow2(n - 1)
  }

  lemma {:induction false} Pow2Monotone(i: nat, j: nat)
    requires i <= j
    ensures Pow2(i) <= Pow2(j)
    decreases j
  {
    if i < j { Pow2Monotone(i, j - 1); }
  }
}
