/** Counting the free space of a pool in minimum blocks. A pool is, as a value, a list of
    ranges with what is held in each. */
module Units {
  import opened Cidrs
  import opened Shapes
  import opened Addresses

  /** The /prefix blocks that make up c. */
  ghost function UnitsOf(c: Cidr, prefix: nat): set<Cidr>
    decreases prefix - c.prefix
  {
    if c.prefix >= prefix then {c} else UnitsOf(LowerHalf(c), prefix) + UnitsOf(UpperHalf(c), prefix)
  }

  lemma {:induction false} UnitsAreParts(c: Cidr, prefix: nat, r: Cidr)
    requires Aligned(c) && c.prefix <= prefix <= 32
    ensures r in UnitsOf(c, prefix) <==> Aligned(r) && r.prefix == prefix && Within(r, c)
    decreases prefix - c.prefix
  {
    if c.prefix < prefix {
      HalvesAligned(c);
      UnitsAreParts(LowerHalf(c), prefix, r);
      UnitsAreParts(UpperHalf(c), prefix, r);
      if Aligned(r) && r.prefix == prefix && Within(r, c) { StrictlyWithin(r, c); }
    } else if Aligned(r) && r.prefix == prefix && Within(r, c) && r != c {
      StrictlyWithin(r, c);
    }
  }

  lemma {:induction false} UnitCount(c: Cidr, prefix: nat)
    requires Aligned(c) && c.prefix <= prefix <= 32
    ensures |UnitsOf(c, prefix)| == Pow2(prefix - c.prefix)
    decreases prefix - c.prefix
  {
    if c.prefix < prefix {
      HalvesAligned(c);
      UnitCount(LowerHalf(c), prefix);
      UnitCount(UpperHalf(c), prefix);
      var l, u := UnitsOf(LowerHalf(c), prefix), UnitsOf(UpperHalf(c), prefix);
      forall r | r in l && r in u ensures false {
        UnitsAreParts(LowerHalf(c), prefix, r);
        UnitsAreParts(UpperHalf(c), prefix, r);
      }
      assert l !! u;
    }
  }

  /** The ranges of a pool and what is held in each of them. */
  datatype PoolState = PoolState(roots: seq<Cidr>, held: seq<Holdings>) {

    ghost predicate Ok() {
      && |roots| == |held|
      && (forall i :: 0 <= i < |roots| ==> Aligned(roots[i]))
      && (forall i, j :: 0 <= i < j < |roots| ==> Disjoint(roots[i], roots[j]))
    }

    ghost predicate FreeIn(i: nat, c: Cidr)
      requires |roots| == |held|
    {
      i < |roots| && Aligned(c) && Within(c, roots[i]) && FreeRegion(held[i], c)
    }

    /** The free /prefix blocks of the pool. */
    ghost function FreeUnits(prefix: nat): set<Cidr>
      requires |roots| == |held|
    {
      set i, r | 0 <= i < |roots| && r in UnitsOf(roots[i], prefix) && FreeRegion(held[i], r) :: r
    }

    /** Only range i changed. */
    ghost function With(i: nat, h: Holdings): PoolState
      requires i < |held|
    {
      PoolState(roots, held[i := h])
    }
  }

  lemma FreeUnitsAre(s: PoolState, prefix: nat, r: Cidr)
    requires s.Ok() && prefix <= 32 && forall i :: 0 <= i < |s.roots| ==> s.roots[i].prefix <= prefix
    ensures r in s.FreeUnits(prefix) <==> r.prefix == prefix && exists i: nat :: s.FreeIn(i, r)
  {
    if r in s.FreeUnits(prefix) {
      var i :| 0 <= i < |s.roots| && r in UnitsOf(s.roots[i], prefix) && FreeRegion(s.held[i], r);
      UnitsAreParts(s.roots[i], prefix, r);
      assert s.FreeIn(i, r);
    }
    if r.prefix == prefix && exists i: nat :: s.FreeIn(i, r) {
      var i: nat :| s.FreeIn(i, r);
      UnitsAreParts(s.roots[i], prefix, r);
    }
  }

  ghost predicate RootsHold(s: PoolState, prefix: nat) {
    s.Ok() && prefix <= 32 && forall i :: 0 <= i < |s.roots| ==> s.roots[i].prefix <= prefix
  }

  /** A region lies in one range only. */
  lemma OneRange(s: PoolState, i: nat, j: nat, c: Cidr, d: Cidr)
    requires s.Ok() && i < |s.roots| && j < |s.roots| && Within(c, s.roots[i]) && Within(d, s.roots[j]) && i != j
    ensures Disjoint(c, d)
  {
    if i < j { assert Disjoint(s.roots[i], s.roots[j]); } else { assert Disjoint(s.roots[j], s.roots[i]); }
  }

  /** Taking a free block takes exactly its units. */
  lemma TakeUnits(s: PoolState, i: nat, c: Cidr, kind: Kind, prefix: nat)
    requires RootsHold(s, prefix) && s.FreeIn(i, c) && c.prefix <= prefix
    ensures var t := s.With(i, s.held[i][c := kind]);
      t.FreeUnits(prefix) == s.FreeUnits(prefix) - UnitsOf(c, prefix)
    ensures UnitsOf(c, prefix) <= s.FreeUnits(prefix)
    ensures |s.With(i, s.held[i][c := kind]).FreeUnits(prefix)| == |s.FreeUnits(prefix)| - Pow2(prefix - c.prefix)
  {
    var t := s.With(i, s.held[i][c := kind]);
    forall r ensures r in t.FreeUnits(prefix) <==> r in s.FreeUnits(prefix) && r !in UnitsOf(c, prefix) {
      TakeUnit(s, i, c, kind, prefix, r);
    }
    forall r | r in UnitsOf(c, prefix) ensures r in s.FreeUnits(prefix) {
      UnitsAreParts(c, prefix, r);
      FreeUnitsAre(s, prefix, r);
      assert s.FreeIn(i, r);
    }
    UnitCount(c, prefix);
  }

  lemma TakeUnit(s: PoolState, i: nat, c: Cidr, kind: Kind, prefix: nat, r: Cidr)
    requires RootsHold(s, prefix) && s.FreeIn(i, c) && c.prefix <= prefix
    ensures var t := s.With(i, s.held[i][c := kind]);
      r in t.FreeUnits(prefix) <==> r in s.FreeUnits(prefix) && r !in UnitsOf(c, prefix)
  {
    var h := s.held[i][c := kind];
    var t := s.With(i, h);
    FreeUnitsAre(s, prefix, r);
    FreeUnitsAre(t, prefix, r);
    UnitsAreParts(c, prefix, r);
    if Aligned(r) && r.prefix == prefix { NestedOrDisjoint(c, r); }
    if r in t.FreeUnits(prefix) {
      var j: nat :| t.FreeIn(j, r);
      StillFree(s.held[i], h, c, r);
      assert s.FreeIn(j, r);
      assert r.Contains(r.base);
      assert FreeAddress(t.held[j], r.base);
      if Within(r, c) && i != j { OneRange(s, i, j, c, r); }
    }
    if r in s.FreeUnits(prefix) && r !in UnitsOf(c, prefix) {
      var j: nat :| s.FreeIn(j, r);
      StillFree(s.held[i], h, c, r);
      assert t.FreeIn(j, r);
    }
  }

  /** Holding one more block changes freedom only where that block is. */
  lemma StillFree(h: Holdings, h': Holdings, c: Cidr, r: Cidr)
    requires h'.Keys == h.Keys + {c}
    ensures FreeRegion(h', r) ==> FreeRegion(h, r)
    ensures FreeRegion(h, r) && Disjoint(c, r) ==> FreeRegion(h', r)
  {
    if FreeRegion(h', r) {
      forall a | r.Contains(a) ensures FreeAddress(h, a) { assert FreeAddress(h', a); }
    }
    if FreeRegion(h, r) && Disjoint(c, r) {
      forall a | r.Contains(a) ensures FreeAddress(h', a) { assert FreeAddress(h, a); }
    }
  }

  // ---- handing out a set of blocks ----

  ghost function Grant(s: PoolState, blocks: set<Cidr>, node: string): PoolState
    requires |s.roots| == |s.held|
  {
    PoolState(s.roots, seq(|s.held|, i requires 0 <= i < |s.held| => GrantIn(s.roots[i], s.held[i], blocks, node)))
  }

  ghost function GrantIn(root: Cidr, held: Holdings, blocks: set<Cidr>, node: string): Holdings {
    held + map c | c in blocks && Within(c, root) :: Allocated(node)
  }

  /** These blocks were free and apart from each other, and t is s with all of them handed out. */
  ghost predicate Took(s: PoolState, t: PoolState, blocks: set<Cidr>, node: string) {
    && s.Ok() && t == Grant(s, blocks, node)
    && (forall c {:trigger InSome(s, c)} :: c in blocks ==> InSome(s, c))
    && (forall c, d {:trigger Disjoint(c, d)} :: c in blocks && d in blocks && c != d ==> Disjoint(c, d))
  }

  ghost predicate InSome(s: PoolState, c: Cidr)
    requires |s.roots| == |s.held|
  {
    exists i: nat :: s.FreeIn(i, c)
  }

  /** Taking blocks leaves no more free than before. */
  lemma TookFewer(s: PoolState, t: PoolState, blocks: set<Cidr>, node: string, prefix: nat)
    requires Took(s, t, blocks, node) && RootsHold(s, prefix)
    ensures |t.FreeUnits(prefix)| <= |s.FreeUnits(prefix)|
  {
    forall r | r in t.FreeUnits(prefix) ensures r in s.FreeUnits(prefix) {
      FreeUnitsAre(t, prefix, r);
      var i: nat :| t.FreeIn(i, r);
      StillFreeBefore(s, t, blocks, node, i, r);
      FreeUnitsAre(s, prefix, r);
    }
    Fewer(t.FreeUnits(prefix), s.FreeUnits(prefix));
  }

  lemma {:induction false} Fewer(a: set<Cidr>, b: set<Cidr>)
    requires a <= b
    ensures |a| <= |b|
  {
    assert b == a + (b - a);
  }

  /** c is one of the blocks that are held. */
  ghost predicate HeldIn(s: PoolState, c: Cidr)
    requires |s.roots| == |s.held|
  {
    Aligned(c) && exists i: nat :: i < |s.roots| && Within(c, s.roots[i]) && c in s.held[i]
  }

  /** A free block is apart from every block that is held. */
  lemma FreeIsApart(s: PoolState, i: nat, c: Cidr, d: Cidr)
    requires s.Ok() && s.FreeIn(i, c) && HeldIn(s, d)
    ensures Disjoint(d, c)
  {
    var j: nat :| j < |s.roots| && Within(d, s.roots[j]) && d in s.held[j];
    if j != i {
      OneRange(s, i, j, c, d);
    } else {
      var a := if c.base < d.base then d.base else c.base;
      assert c.Contains(a) ==> FreeAddress(s.held[i], a);
    }
  }

  lemma TakenIsHeld(s: PoolState, i: nat, c: Cidr, node: string)
    requires s.Ok() && s.FreeIn(i, c)
    ensures var t := s.With(i, s.held[i][c := Allocated(node)]);
      HeldIn(t, c) && forall d :: HeldIn(s, d) ==> HeldIn(t, d)
  {
    var t := s.With(i, s.held[i][c := Allocated(node)]);
    assert c in t.held[i];
    forall d | HeldIn(s, d) ensures HeldIn(t, d) {
      var j: nat :| j < |s.roots| && Within(d, s.roots[j]) && d in s.held[j];
      assert d in t.held[j];
    }
  }

  lemma TookIsHeld(s: PoolState, t: PoolState, blocks: set<Cidr>, node: string)
    requires Took(s, t, blocks, node)
    ensures |t.roots| == |t.held| && (forall c :: c in blocks ==> HeldIn(t, c))
    ensures forall d :: HeldIn(s, d) ==> HeldIn(t, d)
  {
    forall c | c in blocks ensures HeldIn(t, c) {
      assert InSome(s, c);
      var i: nat :| s.FreeIn(i, c);
      assert c in t.held[i];
    }
    forall d | HeldIn(s, d) ensures HeldIn(t, d) {
      var j: nat :| j < |s.roots| && Within(d, s.roots[j]) && d in s.held[j];
      assert d in t.held[j];
    }
  }

  lemma TookNothing(s: PoolState, node: string)
    requires s.Ok()
    ensures Took(s, s, {}, node)
  {
    forall i | 0 <= i < |s.held| ensures GrantIn(s.roots[i], s.held[i], {}, node) == s.held[i] {}
  }

  lemma TookOne(s: PoolState, i: nat, c: Cidr, node: string)
    requires s.Ok() && s.FreeIn(i, c)
    ensures Took(s, s.With(i, s.held[i][c := Allocated(node)]), {c}, node)
  {
    var t := s.With(i, s.held[i][c := Allocated(node)]);
    forall j: nat | j < |s.held| ensures t.held[j] == GrantIn(s.roots[j], s.held[j], {c}, node) {
      if j != i && Within(c, s.roots[j]) { OneRange(s, i, j, c, c); }
    }
  }

  /** A block that is free after some were handed out was free before, and is apart from them. */
  lemma StillFreeBefore(s: PoolState, t: PoolState, blocks: set<Cidr>, node: string, i: nat, c: Cidr)
    requires Took(s, t, blocks, node) && t.FreeIn(i, c)
    ensures s.FreeIn(i, c) && forall d :: d in blocks ==> Disjoint(c, d)
  {
    forall a | c.Contains(a) ensures FreeAddress(s.held[i], a) { assert FreeAddress(t.held[i], a); }
    forall d | d in blocks ensures Disjoint(c, d) {
      assert InSome(s, d);
      var j: nat :| s.FreeIn(j, d);
      if j != i {
        OneRange(s, i, j, c, d);
      } else {
        var a := if c.base < d.base then d.base else c.base;
        assert d in t.held[i];
        assert c.Contains(a) ==> FreeAddress(t.held[i], a);
      }
    }
  }

  lemma TookMore(s: PoolState, t: PoolState, u: PoolState, first: set<Cidr>, second: set<Cidr>, node: string)
    requires Took(s, t, first, node) && Took(t, u, second, node)
    ensures Took(s, u, first + second, node) && first !! second
  {
    forall c | c in second ensures InSome(s, c) && c !in first && forall d :: d in first ==> Disjoint(c, d) {
      assert InSome(t, c) && !Disjoint(c, c);
      var i: nat :| t.FreeIn(i, c);
      StillFreeBefore(s, t, first, node, i, c);
    }
    GrantTwice(s, first, second, node);
  }

  lemma GrantTwice(s: PoolState, first: set<Cidr>, second: set<Cidr>, node: string)
    requires |s.roots| == |s.held|
    ensures Grant(Grant(s, first, node), second, node) == Grant(s, first + second, node)
  {
    forall i: nat | i < |s.held|
      ensures GrantIn(s.roots[i], GrantIn(s.roots[i], s.held[i], first, node), second, node)
           == GrantIn(s.roots[i], s.held[i], first + second, node)
    {
      GrantInTwice(s.roots[i], s.held[i], first, second, node);
    }
  }

  lemma GrantInTwice(root: Cidr, held: Holdings, first: set<Cidr>, second: set<Cidr>, node: string)
    ensures GrantIn(root, GrantIn(root, held, first, node), second, node) == GrantIn(root, held, first + second, node)
  {
  }

  lemma GrantInLess(root: Cidr, held: Holdings, blocks: set<Cidr>, node: string, c: Cidr)
    requires c in blocks && c !in held
    ensures GrantIn(root, held, blocks - {c}, node) == GrantIn(root, held, blocks, node) - {c}
    ensures !Within(c, root) ==> GrantIn(root, held, blocks - {c}, node) == GrantIn(root, held, blocks, node)
    ensures Within(c, root) ==> c in GrantIn(root, held, blocks, node)
  {
  }

  lemma NotHeld(s: PoolState, c: Cidr, i: nat)
    requires s.Ok() && InSome(s, c) && i < |s.roots| && Within(c, s.roots[i])
    ensures s.FreeIn(i, c) && c !in s.held[i]
  {
    var j: nat :| s.FreeIn(j, c);
    if j != i { OneRange(s, i, j, c, c); }
    assert c.Contains(c.base) && FreeAddress(s.held[i], c.base);
  }

  /** Giving one of the blocks back undoes having taken it. */
  lemma GaveBack(s: PoolState, t: PoolState, blocks: set<Cidr>, node: string, i: nat, c: Cidr)
    requires Took(s, t, blocks, node) && c in blocks && i < |s.roots| && Within(c, s.roots[i])
    ensures c in t.held[i] && Took(s, t.With(i, t.held[i] - {c}), blocks - {c}, node)
  {
    assert InSome(s, c);
    NotHeld(s, c, i);
    GrantInLess(s.roots[i], s.held[i], blocks, node, c);
    var u := t.With(i, t.held[i] - {c});
    forall k: nat | k < |s.held| ensures u.held[k] == GrantIn(s.roots[k], s.held[k], blocks - {c}, node) {
      if k != i { GaveBackElsewhere(s, blocks, node, i, k, c); }
    }
  }

  lemma GaveBackElsewhere(s: PoolState, blocks: set<Cidr>, node: string, i: nat, k: nat, c: Cidr)
    requires s.Ok() && i < |s.roots| && k < |s.roots| && i != k && Within(c, s.roots[i])
    ensures GrantIn(s.roots[k], s.held[k], blocks - {c}, node) == GrantIn(s.roots[k], s.held[k], blocks, node)
  {
    if Within(c, s.roots[k]) { OneRange(s, i, k, c, c); }
  }

  /** Something can only be taken where there is something, and taking nothing changes nothing. */
  lemma TookSomething(s: PoolState, t: PoolState, blocks: set<Cidr>, node: string, prefix: nat)
    requires Took(s, t, blocks, node) && RootsHold(s, prefix) && forall c :: c in blocks ==> c.prefix <= prefix
    ensures blocks == {} ==> t == s
    ensures blocks != {} ==> |s.FreeUnits(prefix)| > 0
    ensures t == s ==> blocks == {}
  {
    if blocks == {} {
      TookNothing(s, node);
    } else {
      var c :| c in blocks;
      assert InSome(s, c);
      var i: nat :| s.FreeIn(i, c);
      TakeUnits(s, i, c, Allocated(node), prefix);
      UnitCount(c, prefix);
      assert c in t.held[i] && c.Contains(c.base);
      assert FreeAddress(s.held[i], c.base);
    }
  }
}
