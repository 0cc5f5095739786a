/** What a buddy tree means address by address: an address of the range is free, or it lies in
    one held block. Everything a caller of the allocator is promised is said in these terms. */
module Addresses {
  import opened Cidrs
  import opened Shapes

  type Holdings = map<Cidr, Kind>

  ghost predicate FreeAddress(held: Holdings, address: nat) {
    forall c :: c in held ==> !c.Contains(address)
  }

  ghost predicate FreeRegion(held: Holdings, region: Cidr) {
    forall a :: region.Contains(a) ==> FreeAddress(held, a)
  }

  /** Some aligned region of this size has every address free. */
  ghost predicate HasRoom(held: Holdings, root: Cidr, prefix: nat) {
    exists r :: Aligned(r) && r.prefix == prefix && Within(r, root) && FreeRegion(held, r)
  }

  /** A free region that cannot be widened. */
  ghost predicate FreeBlock(held: Holdings, root: Cidr, c: Cidr) {
    && Aligned(c) && Within(c, root) && FreeRegion(held, c)
    && (c == root || c.prefix == 0 || !FreeRegion(held, Parent(c)))
  }

  /** Of the free blocks that can hold a /prefix, the smallest, and of those the lowest. */
  ghost predicate BestFit(held: Holdings, root: Cidr, c: Cidr, prefix: nat) {
    && FreeBlock(held, root, c) && c.prefix <= prefix
    && forall d :: FreeBlock(held, root, d) && d.prefix <= prefix ==>
         d.prefix < c.prefix || (d.prefix == c.prefix && c.base <= d.base)
  }

  /** The quarantines that have run out by now are over. */
  function Swept(held: Holdings, now: int): Holdings {
    map c | c in held && !IsDue(held[c], now) :: held[c]
  }

  predicate IsDue(kind: Kind, now: int) {
    kind.Quarantined? && kind.releaseAt <= now
  }

  lemma FreeRegionIsNothingHeld(s: Shape, region: Cidr)
    ensures FreeRegion(Held(s), region) <==> NothingHeldIn(s, region)
  {
    if FreeRegion(Held(s), region) {
      forall d | d in Held(s) ensures Disjoint(region, d) {
        var a := if region.base < d.base then d.base else region.base;
        assert region.Contains(a) ==> FreeAddress(Held(s), a);
      }
    }
  }

  /** In a merged tree the free blocks are exactly the maximal free regions of the range. */
  lemma FreeBlocksAreMaximal(s: Shape, root: Cidr, c: Cidr)
    requires Tree(s, root) && Merged(s)
    ensures (c in s && s[c] == Free) <==> FreeBlock(Held(s), root, c)
  {
    FreeRegionIsNothingHeld(s, c);
    if c in s && s[c] == Free {
      assert NodeOk(s, root, c);
      FreeBlockHoldsNothing(s, root, c);
      if c != root {
        FreeRegionIsNothingHeld(s, Parent(c));
        if NothingHeldIn(s, Parent(c)) { EmptyBlockIsFree(s, root, Parent(c)); }
      }
    } else if FreeBlock(Held(s), root, c) {
      var leaf := FreeBlockCoversFreeRegion(s, root, c);
      assert NodeOk(s, root, leaf);
      if leaf != c {
        StrictlyWithin(c, leaf);
        NestedOrDisjoint(leaf, c);
        FreeBlockHoldsNothing(s, root, leaf);
        FreeRegionIsNothingHeld(s, Parent(c));
      }
    }
  }

  /** A merged tree has a free block of at least a given size exactly if some aligned region of
      that size is free address by address: searching block by block misses nothing. */
  lemma SearchIsComplete(s: Shape, root: Cidr, prefix: nat)
    requires Tree(s, root) && Merged(s) && root.prefix <= prefix <= 32
    ensures HasRoom(Held(s), root, prefix) <==> exists c :: c in s && s[c] == Free && c.prefix <= prefix
  {
    if HasRoom(Held(s), root, prefix) {
      var r :| Aligned(r) && r.prefix == prefix && Within(r, root) && FreeRegion(Held(s), r);
      FreeRegionIsNothingHeld(s, r);
      var leaf := FreeBlockCoversFreeRegion(s, root, r);
    }
    if c :| c in s && s[c] == Free && c.prefix <= prefix {
      var r := Cidr(c.base, prefix);
      assert NodeOk(s, root, c);
      LowestPiece(c, prefix);
      FreeBlockHoldsNothing(s, root, c);
      FreeRegionIsNothingHeld(s, c);
      assert FreeRegion(Held(s), r);
    }
  }

  /** The lowest piece of a block is aligned. */
  lemma {:induction false} LowestPiece(c: Cidr, prefix: nat)
    requires Aligned(c) && c.prefix <= prefix <= 32
    ensures Aligned(Cidr(c.base, prefix)) && Within(Cidr(c.base, prefix), c)
    decreases prefix - c.prefix
  {
    if c.prefix < prefix {
      HalvesAligned(c);
      LowestPiece(LowerHalf(c), prefix);
    }
  }

  /** The highest piece of a block is aligned. */
  lemma {:induction false} HighestPiece(c: Cidr, prefix: nat)
    requires Aligned(c) && c.prefix <= prefix <= 32
    ensures Size(prefix) <= Size(c.prefix)
    ensures Aligned(Cidr(c.base + Size(c.prefix) - Size(prefix), prefix))
    ensures Within(Cidr(c.base + Size(c.prefix) - Size(prefix), prefix), c)
    decreases prefix - c.prefix
  {
    if c.prefix < prefix {
      HalvesAligned(c);
      HighestPiece(UpperHalf(c), prefix);
    }
  }

  // ---- whole ownership ----

  /** Everything under c is allocated to node. */
  ghost predicate FullyOwned(s: Shape, c: Cidr, node: string)
    decreases 32 - c.prefix
  {
    c in s &&
    match s[c]
    case Allocated(owner) => owner == node
    case Split => c.prefix < 32 && FullyOwned(s, LowerHalf(c), node) && FullyOwned(s, UpperHalf(c), node)
    case _ => false
  }

  ghost predicate OwnsAddress(held: Holdings, a: nat, node: string) {
    exists d :: d in held && held[d] == Allocated(node) && d.Contains(a)
  }

  ghost predicate OwnsAll(held: Holdings, c: Cidr, node: string) {
    forall a :: c.Contains(a) ==> OwnsAddress(held, a, node)
  }

  lemma {:induction false} FullyOwnedByAddress(s: Shape, root: Cidr, c: Cidr, node: string)
    requires Tree(s, root) && c in s
    ensures FullyOwned(s, c, node) <==> OwnsAll(Held(s), c, node)
    decreases 32 - c.prefix
  {
    assert NodeOk(s, root, c);
    if s[c] == Split {
      FullyOwnedByAddress(s, root, LowerHalf(c), node);
      FullyOwnedByAddress(s, root, UpperHalf(c), node);
      HalvesCover(Held(s), c, node);
    } else {
      LeafOwnership(s, root, c, node);
    }
  }

  lemma HalvesCover(held: Holdings, c: Cidr, node: string)
    requires c.prefix < 32
    ensures OwnsAll(held, c, node) <==> OwnsAll(held, LowerHalf(c), node) && OwnsAll(held, UpperHalf(c), node)
  {
    forall a ensures c.Contains(a) <==> LowerHalf(c).Contains(a) || UpperHalf(c).Contains(a) {}
  }

  lemma LeafOwnership(s: Shape, root: Cidr, c: Cidr, node: string)
    requires Tree(s, root) && c in s && s[c] != Split
    ensures s[c] == Allocated(node) <==> OwnsAll(Held(s), c, node)
  {
    if s[c] == Allocated(node) {
      forall a | c.Contains(a) ensures OwnsAddress(Held(s), a, node) { assert c in Held(s); }
    } else if OwnsAll(Held(s), c, node) {
      assert c.Contains(c.base) && OwnsAddress(Held(s), c.base, node);
      var d :| d in Held(s) && Held(s)[d] == Allocated(node) && d.Contains(c.base);
      LeavesDisjoint(s, root, c, d);
    }
  }

  // ---- the piece of a free buddy next to a range ----

  /** The /prefix piece of c nearest to a range that lies beside c and starts at base. */
  function NearPiece(c: Cidr, base: nat, prefix: nat): Cidr
    requires c.prefix <= prefix <= 32
  {
    SizeAtMost(c.prefix, prefix);
    Cidr(if c.base < base then c.base + Size(c.prefix) - Size(prefix) else c.base, prefix)
  }

  lemma SizeAtMost(p: nat, q: nat)
    requires p <= q <= 32
    ensures Size(q) <= Size(p)
  {
    SizeMonotone(p, q);
  }

  lemma NearPieceFits(c: Cidr, base: nat, prefix: nat)
    requires Aligned(c) && c.prefix <= prefix <= 32
    ensures Aligned(NearPiece(c, base, prefix)) && Within(NearPiece(c, base, prefix), c)
  {
    LowestPiece(c, prefix);
    HighestPiece(c, prefix);
  }

  // ---- counting addresses ----

  datatype AddressClass = IsFree | IsAllocated | IsQuarantined

  ghost predicate AddressIs(held: Holdings, a: nat, what: AddressClass) {
    match what
    case IsFree => FreeAddress(held, a)
    case IsAllocated => exists d :: d in held && d.Contains(a) && held[d].Allocated?
    case IsQuarantined => exists d :: d in held && d.Contains(a) && held[d].Quarantined?
  }

  ghost function Census(held: Holdings, c: Cidr, what: AddressClass): set<nat> {
    set a: nat | c.base <= a < c.base + Size(c.prefix) && AddressIs(held, a, what)
  }

  lemma CensusOfHalves(held: Holdings, c: Cidr, what: AddressClass)
    requires c.prefix < 32
    ensures |Census(held, c, what)| == |Census(held, LowerHalf(c), what)| + |Census(held, UpperHalf(c), what)|
  {
    var l, u := Census(held, LowerHalf(c), what), Census(held, UpperHalf(c), what);
    assert Census(held, c, what) == l + u;
    assert l !! u;
  }

  function ClassOf(kind: Kind): AddressClass
    requires kind != Split
  {
    match kind case Free => IsFree case Allocated(_) => IsAllocated case Quarantined(_) => IsQuarantined
  }

  lemma CensusOfLeaf(s: Shape, root: Cidr, c: Cidr, what: AddressClass)
    requires Tree(s, root) && c in s && s[c] != Split
    ensures |Census(Held(s), c, what)| == if what == ClassOf(s[c]) then Size(c.prefix) else 0
  {
    forall a | c.Contains(a) ensures AddressIs(Held(s), a, what) <==> what == ClassOf(s[c]) {
      LeafAddress(s, root, c, a, what);
    }
    if what == ClassOf(s[c]) {
      assert Census(Held(s), c, what) == Interval(c.base, Size(c.prefix));
    } else {
      assert Census(Held(s), c, what) == {};
    }
  }

  /** Free, allocated and quarantined addresses make up every block of the tree. */
  lemma {:induction false} AddressesConserved(s: Shape, root: Cidr, c: Cidr)
    requires Tree(s, root) && c in s
    ensures |Census(Held(s), c, IsFree)| + |Census(Held(s), c, IsAllocated)|
      + |Census(Held(s), c, IsQuarantined)| == Size(c.prefix)
    decreases 32 - c.prefix
  {
    assert NodeOk(s, root, c);
    if s[c] == Split {
      AddressesConserved(s, root, LowerHalf(c));
      AddressesConserved(s, root, UpperHalf(c));
      CensusOfHalves(Held(s), c, IsFree);
      CensusOfHalves(Held(s), c, IsAllocated);
      CensusOfHalves(Held(s), c, IsQuarantined);
    } else {
      CensusOfLeaf(s, root, c, IsFree);
      CensusOfLeaf(s, root, c, IsAllocated);
      CensusOfLeaf(s, root, c, IsQuarantined);
    }
  }

  lemma LeafAddress(s: Shape, root: Cidr, c: Cidr, a: nat, what: AddressClass)
    requires Tree(s, root) && c in s && s[c] != Split && c.Contains(a)
    ensures AddressIs(Held(s), a, what) <==> what == ClassOf(s[c])
  {
    if s[c].Held() { assert c in Held(s); }
    forall d | d in Held(s) && d.Contains(a) ensures d == c {
      if d != c { LeavesDisjoint(s, root, c, d); }
    }
  }

  ghost function Interval(base: nat, n: nat): (all: set<nat>)
    ensures |all| == n && forall a :: a in all <==> base <= a < base + n
  {
    if n == 0 then {} else Interval(base, n - 1) + {base + n - 1}
  }
}
