/** The buddy tree as a value: which blocks exist and what each one is. The heap
    structure of BuddyAllocator.dfy carries one of these as its abstract state. What a
    client sees of a tree is only Held, the blocks handed out or quarantined: by
    Canonical below, a merged tree is a function of it. */
module Shapes {
  import opened Cidrs

  datatype Kind = Free | Split | Allocated(node: string) | Quarantined(releaseAt: int) {
    predicate Held() { Allocated? || Quarantined? }
  }

  type Shape = map<Cidr, Kind>

  ghost predicate NodeOk(s: Shape, root: Cidr, c: Cidr)
    requires c in s
  {
    && Aligned(c) && Within(c, root)
    && (s[c] == Split ==> c.prefix < 32 && LowerHalf(c) in s && UpperHalf(c) in s)
    && (c != root ==> c.prefix > root.prefix && Parent(c) in s && s[Parent(c)] == Split)
  }

  /** Every block is the root or half of a split block, and every split block has both halves. */
  ghost predicate Tree(s: Shape, root: Cidr) {
    && root in s && Aligned(root)
    && forall c {:trigger NodeOk(s, root, c)} :: c in s ==> NodeOk(s, root, c)
  }

  /** A split block whose halves are both free: what eager merging must never leave behind. */
  ghost predicate Unmerged(s: Shape, c: Cidr) {
    && c in s && s[c] == Split
    && LowerHalf(c) in s && s[LowerHalf(c)] == Free
    && UpperHalf(c) in s && s[UpperHalf(c)] == Free
  }

  ghost predicate Merged(s: Shape) {
    forall c :: !Unmerged(s, c)
  }

  /** Merged except possibly for the block that c is a half of. */
  ghost predicate MergedBut(s: Shape, c: Cidr) {
    forall d :: Unmerged(s, d) ==> IsHalf(c, d)
  }

  function Held(s: Shape): map<Cidr, Kind> {
    map c | c in s && s[c].Held() :: s[c]
  }

  function SplitAt(s: Shape, c: Cidr): Shape {
    s[c := Split][LowerHalf(c) := Free][UpperHalf(c) := Free]
  }

  function HalfTowards(c: Cidr, base: nat): Cidr {
    if base >= UpperHalf(c).base then UpperHalf(c) else LowerHalf(c)
  }

  /** Split a block down to a piece of it. */
  function Carve(s: Shape, whole: Cidr, piece: Cidr): Shape
    decreases piece.prefix - whole.prefix
  {
    if whole.prefix >= piece.prefix then s
    else Carve(SplitAt(s, whole), HalfTowards(whole, piece.base), piece)
  }

  /** Join the free block c with its buddy for as long as that is free. */
  function Merge(s: Shape, root: Cidr, c: Cidr): Shape
    decreases c.prefix
  {
    if c == root || c.prefix == 0 || Sibling(c) !in s || s[Sibling(c)] != Free then s
    else Merge(JoinAt(s, c), root, Parent(c))
  }

  function JoinAt(s: Shape, c: Cidr): Shape
    requires c.prefix > 0
  {
    (s - {c, Sibling(c)})[Parent(c) := Free]
  }

  // ---- what a tree looks like ----

  /** Below a block that is not split there is nothing. */
  lemma {:induction false} LeafHasNoParts(s: Shape, root: Cidr, c: Cidr, d: Cidr)
    requires Tree(s, root) && c in s && d in s && s[c] != Split && Within(d, c)
    ensures d == c
    decreases d.prefix
  {
    assert NodeOk(s, root, c) && NodeOk(s, root, d);
    if d != c {
      StrictlyWithin(d, c);
      if d != root { LeafHasNoParts(s, root, c, Parent(d)); }
      else { NestedOrDisjoint(d, c); }
    }
  }

  /** Two blocks of a tree that are not split share no address. */
  lemma LeavesDisjoint(s: Shape, root: Cidr, c: Cidr, d: Cidr)
    requires Tree(s, root) && c in s && d in s && s[c] != Split && s[d] != Split && c != d
    ensures Disjoint(c, d)
  {
    assert NodeOk(s, root, c) && NodeOk(s, root, d);
    if c.prefix <= d.prefix {
      NestedOrDisjoint(c, d);
      if Within(d, c) { LeafHasNoParts(s, root, c, d); }
    } else {
      NestedOrDisjoint(d, c);
      if Within(c, d) { LeafHasNoParts(s, root, d, c); }
    }
  }

  ghost predicate NothingHeldIn(s: Shape, c: Cidr) {
    forall d :: d in Held(s) ==> Disjoint(c, d)
  }

  /** In a merged tree a block of the tree with nothing held inside is one free block. */
  lemma {:induction false} EmptyBlockIsFree(s: Shape, root: Cidr, c: Cidr)
    requires Tree(s, root) && Merged(s) && c in s && NothingHeldIn(s, c)
    ensures s[c] == Free
    decreases 32 - c.prefix
  {
    assert NodeOk(s, root, c) && !Unmerged(s, c);
    assert s[c].Held() ==> c in Held(s);
    if s[c] == Split {
      HalvesAligned(c);
      EmptyBlockIsFree(s, root, LowerHalf(c));
      EmptyBlockIsFree(s, root, UpperHalf(c));
    }
  }

  /** Every aligned region inside a block of the tree is a block of the tree or inside a leaf. */
  lemma {:induction false} Locate(s: Shape, root: Cidr, c: Cidr, region: Cidr) returns (leaf: Cidr)
    requires Tree(s, root) && c in s && Aligned(region) && Within(region, c)
    ensures leaf in s && Within(region, leaf) && Within(leaf, c)
    ensures leaf == region || s[leaf] != Split
    decreases 32 - c.prefix
  {
    assert NodeOk(s, root, c);
    leaf := c;
    if s[c] == Split && c != region {
      StrictlyWithin(region, c);
      HalvesAligned(c);
      leaf := Locate(s, root, if Within(region, LowerHalf(c)) then LowerHalf(c) else UpperHalf(c), region);
    }
  }

  /** Eager merging makes search by block complete: if any aligned region with nothing held in it
      exists, a free block at least that large covers it. */
  lemma FreeBlockCoversFreeRegion(s: Shape, root: Cidr, region: Cidr) returns (leaf: Cidr)
    requires Tree(s, root) && Merged(s) && Aligned(region) && Within(region, root) && NothingHeldIn(s, region)
    ensures leaf in s && s[leaf] == Free && Within(region, leaf) && leaf.prefix <= region.prefix
  {
    leaf := Locate(s, root, root, region);
    assert NodeOk(s, root, leaf);
    assert s[leaf].Held() ==> leaf in Held(s);
    if leaf == region {
      EmptyBlockIsFree(s, root, leaf);
    } else {
      StrictlyWithin(region, leaf);
    }
  }

  lemma FreeBlockHoldsNothing(s: Shape, root: Cidr, c: Cidr)
    requires Tree(s, root) && c in s && s[c] == Free
    ensures NothingHeldIn(s, c)
  {
    forall d | d in Held(s) ensures Disjoint(c, d) { LeavesDisjoint(s, root, c, d); }
  }

  // ---- a merged tree is determined by what is held ----

  lemma {:induction false} SameBlock(s: Shape, t: Shape, root: Cidr, c: Cidr)
    requires Tree(s, root) && Tree(t, root) && Merged(s) && Merged(t) && Held(s) == Held(t) && c in s
    ensures c in t && s[c] == t[c]
    decreases c.prefix
  {
    assert NodeOk(s, root, c);
    if c != root {
      SameBlock(s, t, root, Parent(c));
      assert NodeOk(t, root, Parent(c));
      ParentAligned(c);
    }
    assert s[c].Held() <==> c in Held(s);
    assert t[c].Held() <==> c in Held(t);
    if s[c] == Free {
      FreeBlockHoldsNothing(s, root, c);
      EmptyBlockIsFree(t, root, c);
    } else if t[c] == Free {
      FreeBlockHoldsNothing(t, root, c);
      EmptyBlockIsFree(s, root, c);
    }
  }

  /** Merged trees over one range that hold the same blocks are equal, however they came about. */
  lemma Canonical(s: Shape, t: Shape, root: Cidr)
    requires Tree(s, root) && Tree(t, root) && Merged(s) && Merged(t) && Held(s) == Held(t)
    ensures s == t
  {
    forall c | c in s ensures c in t && s[c] == t[c] { SameBlock(s, t, root, c); }
    forall c | c in t ensures c in s { SameBlock(t, s, root, c); }
  }

  // ---- what the steps of the allocator do to a tree ----

  lemma SplitStep(s: Shape, root: Cidr, c: Cidr)
    requires Tree(s, root) && c in s && s[c] == Free && c.prefix < 32
    ensures Tree(SplitAt(s, c), root) && Held(SplitAt(s, c)) == Held(s)
    ensures LowerHalf(c) !in s && UpperHalf(c) !in s
  {
    var t := SplitAt(s, c);
    SplitIsFresh(s, root, c);
    SplitHeld(s, c);
    forall d | d in t ensures NodeOk(t, root, d) { SplitNode(s, root, c, d); }
  }

  lemma SplitIsFresh(s: Shape, root: Cidr, c: Cidr)
    requires Tree(s, root) && c in s && s[c] == Free && c.prefix < 32
    ensures LowerHalf(c) !in s && UpperHalf(c) !in s
  {
    assert NodeOk(s, root, c);
    HalvesAligned(c);
    assert LowerHalf(c) in s ==> NodeOk(s, root, LowerHalf(c));
    assert UpperHalf(c) in s ==> NodeOk(s, root, UpperHalf(c));
    SizeMonotone(c.prefix, c.prefix + 1);
  }

  lemma SplitHeld(s: Shape, c: Cidr)
    requires c in s && s[c] == Free && LowerHalf(c) !in s && UpperHalf(c) !in s
    ensures Held(SplitAt(s, c)) == Held(s)
  {
    assert Held(SplitAt(s, c)).Keys == Held(s).Keys;
  }

  lemma SplitNode(s: Shape, root: Cidr, c: Cidr, d: Cidr)
    requires Tree(s, root) && c in s && s[c] == Free && c.prefix < 32 && d in SplitAt(s, c)
    ensures NodeOk(SplitAt(s, c), root, d)
  {
    SplitIsFresh(s, root, c);
    if d in s {
      assert NodeOk(s, root, d);
    } else {
      assert NodeOk(s, root, c);
      HalvesAligned(c);
    }
  }

  lemma SplitStepMerged(s: Shape, root: Cidr, c: Cidr, half: Cidr)
    requires Tree(s, root) && c in s && s[c] == Free && c.prefix < 32 && MergedBut(s, c) && IsHalf(half, c)
    ensures MergedBut(SplitAt(s, c), half)
  {
    var t := SplitAt(s, c);
    SplitStep(s, root, c);
    assert NodeOk(s, root, c);
    HalvesAligned(c);
    forall d | Unmerged(t, d) ensures IsHalf(half, d) {
      if d != c {
        assert NodeOk(s, root, d);
        HalvesAligned(d);
        assert Unmerged(s, d);
      }
    }
  }

  lemma {:induction false} CarveStep(s: Shape, root: Cidr, whole: Cidr, piece: Cidr)
    requires Tree(s, root) && whole in s && s[whole] == Free && Aligned(piece) && Within(piece, whole)
    ensures Tree(Carve(s, whole, piece), root) && Held(Carve(s, whole, piece)) == Held(s)
    ensures piece in Carve(s, whole, piece) && Carve(s, whole, piece)[piece] == Free
    ensures MergedBut(s, whole) ==> MergedBut(Carve(s, whole, piece), piece)
    decreases piece.prefix - whole.prefix
  {
    assert NodeOk(s, root, whole);
    if whole == piece {
    } else {
      StrictlyWithin(piece, whole);
      SplitStep(s, root, whole);
      var half := HalfTowards(whole, piece.base);
      if MergedBut(s, whole) { SplitStepMerged(s, root, whole, half); }
      CarveStep(SplitAt(s, whole), root, half, piece);
    }
  }

  /** Handing out or quarantining a leaf, or marking it free. */
  lemma MarkStep(s: Shape, root: Cidr, c: Cidr, kind: Kind)
    requires Tree(s, root) && c in s && s[c] != Split && kind != Split
    ensures Tree(s[c := kind], root)
    ensures Held(s[c := kind]) == if kind.Held() then Held(s)[c := kind] else Held(s) - {c}
  {
    MarkHeld(s, c, kind);
    var t := s[c := kind];
    forall d | d in t ensures NodeOk(t, root, d) { MarkNode(s, root, c, kind, d); }
  }

  lemma MarkNode(s: Shape, root: Cidr, c: Cidr, kind: Kind, d: Cidr)
    requires Tree(s, root) && c in s && s[c] != Split && kind != Split && d in s
    ensures NodeOk(s[c := kind], root, d)
  {
    assert NodeOk(s, root, d);
  }

  lemma MarkHeld(s: Shape, c: Cidr, kind: Kind)
    requires c in s && s[c] != Split && kind != Split
    ensures Held(s[c := kind]) == if kind.Held() then Held(s)[c := kind] else Held(s) - {c}
  {
    var t := Held(s[c := kind]);
    if kind.Held() {
      assert t.Keys == Held(s)[c := kind].Keys;
    } else {
      assert t.Keys == (Held(s) - {c}).Keys;
    }
  }

  lemma TakeStepMerged(s: Shape, root: Cidr, c: Cidr, kind: Kind)
    requires Tree(s, root) && c in s && s[c] != Split && kind.Held() && MergedBut(s, c)
    ensures Merged(s[c := kind])
  {
    var t := s[c := kind];
    forall d ensures !Unmerged(t, d) {
      if Unmerged(t, d) { assert Unmerged(s, d); }
    }
  }

  lemma FreeStepMerged(s: Shape, root: Cidr, c: Cidr)
    requires Tree(s, root) && c in s && s[c] != Split && Merged(s)
    ensures MergedBut(s[c := Free], c)
  {
    forall d | Unmerged(s[c := Free], d) ensures IsHalf(c, d) {
      assert NodeOk(s, root, d) && !Unmerged(s, d);
    }
  }

  lemma JoinStep(s: Shape, root: Cidr, c: Cidr)
    requires Tree(s, root) && c in s && s[c] == Free && c != root && c.prefix > 0
    requires Sibling(c) in s && s[Sibling(c)] == Free
    ensures Parent(c) in s && Tree(JoinAt(s, c), root) && Held(JoinAt(s, c)) == Held(s)
    ensures MergedBut(s, c) ==> MergedBut(JoinAt(s, c), Parent(c))
  {
    var t := JoinAt(s, c);
    assert NodeOk(s, root, c);
    JoinRoot(s, root, c);
    JoinHeld(s, root, c);
    forall d | d in t ensures NodeOk(t, root, d) { JoinNode(s, root, c, d); }
    if MergedBut(s, c) { JoinStepMerged(s, root, c); }
  }

  lemma JoinRoot(s: Shape, root: Cidr, c: Cidr)
    requires Tree(s, root) && c in s && c != root && c.prefix > 0
    ensures root in JoinAt(s, c) && Parent(c) in s && s[Parent(c)] == Split && JoinAt(s, c).Keys <= s.Keys
  {
    assert NodeOk(s, root, c);
    if Sibling(c) == root {
      ParentAligned(c);
      SizeMonotone(root.prefix, c.prefix);
    }
  }

  lemma JoinHeld(s: Shape, root: Cidr, c: Cidr)
    requires c in s && s[c] == Free && c.prefix > 0 && Sibling(c) in s && s[Sibling(c)] == Free
    requires Parent(c) in s && s[Parent(c)] == Split
    ensures Held(JoinAt(s, c)) == Held(s)
  {
    assert Held(JoinAt(s, c)).Keys == Held(s).Keys;
  }

  lemma JoinNode(s: Shape, root: Cidr, c: Cidr, d: Cidr)
    requires Tree(s, root) && c in s && s[c] == Free && c != root && c.prefix > 0
    requires Sibling(c) in s && s[Sibling(c)] == Free && d in JoinAt(s, c) && d in s
    ensures NodeOk(JoinAt(s, c), root, d)
  {
    assert NodeOk(s, root, c) && NodeOk(s, root, d);
    ParentAligned(c);
    if d.prefix > 0 { ParentAligned(d); }
    if d.prefix < 32 { HalvesAligned(d); }
    HalvesAligned(Parent(c));
  }

  lemma JoinStepMerged(s: Shape, root: Cidr, c: Cidr)
    requires Tree(s, root) && c.prefix > 0 && Parent(c) in s && MergedBut(s, c) && Aligned(c)
    ensures MergedBut(JoinAt(s, c), Parent(c))
  {
    var t, p := JoinAt(s, c), Parent(c);
    ParentAligned(c);
    forall d | Unmerged(t, d) ensures IsHalf(p, d) {
      assert NodeOk(s, root, d);
      HalvesAligned(d);
      if !IsHalf(p, d) { assert Unmerged(s, d); }
    }
  }

  lemma {:induction false} MergeStep(s: Shape, root: Cidr, c: Cidr)
    requires Tree(s, root) && c in s && s[c] == Free && MergedBut(s, c)
    ensures Tree(Merge(s, root, c), root) && Held(Merge(s, root, c)) == Held(s) && Merged(Merge(s, root, c))
    decreases c.prefix
  {
    assert NodeOk(s, root, c);
    if c == root || c.prefix == 0 || Sibling(c) !in s || s[Sibling(c)] != Free {
      forall d ensures !Unmerged(s, d) {
        if Unmerged(s, d) {
          assert NodeOk(s, root, d);
          HalvesAligned(d);
          if c == root { SizeMonotone(d.prefix, c.prefix); }
        }
      }
    } else {
      JoinStep(s, root, c);
      MergeStep(JoinAt(s, c), root, Parent(c));
    }
  }
}
