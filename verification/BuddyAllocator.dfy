/** A single CIDR range managed as a buddy tree. */
module BuddyAllocators {
  import opened Cidrs
  import opened Shapes
  import opened BuddyBlocks
  import opened Addresses

  datatype AllocError =
    | ErrNoSpace | ErrBuddyUnavailable | ErrTooLarge | ErrBadPrefix | ErrOutside | ErrOverlap
    | ErrNotAllocated | ErrForeign | ErrNilBlock

  datatype Result<+T> = Ok(value: T) | Err(error: AllocError)

  /** How many binary digits x has. */
  function BitLen(x: nat): (n: nat)
  {
    if x == 0 then 0 else 1 + BitLen(x / 2)
  }

  class BuddyAllocator {
    const root: Block
    const minPrefixLen: nat
    const maxPrefixLen: nat
    var freeBlocks: FreeLevels
    var quarantined: set<Block>
    var quarantine: int

    // The blocks of the tree by position, and what each of them is.
    ghost var blocks: Blocks
    ghost var shape: Shape

    /** One free block that spans the whole range. */
    constructor (cidr: Cidr, minPrefixLen: nat, maxPrefixLen: nat)
      requires Aligned(cidr) && cidr.prefix <= maxPrefixLen <= minPrefixLen <= 32
      ensures Valid() && fresh(root) && root.Pos() == cidr && Held(shape) == map[] && blocks.Values == {root}
      ensures this.minPrefixLen == minPrefixLen && this.maxPrefixLen == maxPrefixLen && quarantine == 0
    {
      var top := new Block(cidr.base, cidr.prefix, null);
      root := top;
      this.minPrefixLen, this.maxPrefixLen := minPrefixLen, maxPrefixLen;
      freeBlocks, quarantined, quarantine := map[cidr.prefix := {top}], {}, 0;
      blocks, shape := map[cidr := top], map[cidr := Free];
      new;
      assert NodeOk(shape, cidr, cidr);
      assert BlockOk(blocks, shape, cidr, cidr) && Indexed(freeBlocks, quarantined, blocks, shape, cidr);
    }

    /** A tree over the range, or an error for limits that do not fit it or each other. */
    static method Make(cidr: Cidr, minPrefixLen: nat, maxPrefixLen: nat) returns (r: Result<BuddyAllocator>)
      requires Aligned(cidr)
      ensures r.Ok? <==> cidr.prefix <= maxPrefixLen <= minPrefixLen <= 32
      ensures r.Err? ==> r.error == ErrBadPrefix
      ensures r.Ok? ==> var a := r.value;
        && fresh(a) && fresh(a.root) && a.Valid() && a.root.Pos() == cidr && Held(a.shape) == map[]
        && a.blocks.Values == {a.root}
        && a.minPrefixLen == minPrefixLen && a.maxPrefixLen == maxPrefixLen && a.quarantine == 0
    {
      if maxPrefixLen < cidr.prefix || minPrefixLen < maxPrefixLen || minPrefixLen > 32 { return Err(ErrBadPrefix); }
      var a := new BuddyAllocator(cidr, minPrefixLen, maxPrefixLen);
      r := Ok(a);
    }

    ghost predicate Linked()
      reads this, blocks.Values
    {
      && root.Pos() in blocks && blocks[root.Pos()] == root
      && Links(blocks, shape, root.Pos())
      && Index(freeBlocks, quarantined, blocks, shape)
    }

    /** Whatever has come into the tree is new. */
    twostate predicate AddsFresh()
      reads this
    {
      forall b :: b in blocks.Values ==> b in old(blocks).Values || fresh(b)
    }

    ghost predicate Valid()
      reads this, blocks.Values
    {
      Linked() && Merged(shape) && root.prefixLen <= maxPrefixLen <= minPrefixLen <= 32
    }

    static ghost predicate LowestAt(s: Shape, c: Cidr, prefix: nat) {
      && c in s && s[c] == Free && c.prefix == prefix
      && forall d :: d in s && s[d] == Free && d.prefix == prefix ==> c.base <= d.base
    }

    ghost predicate Has(b: Block)
      reads this
    {
      b.Pos() in blocks && blocks[b.Pos()] == b && b.Pos() in shape
    }

    /** Turns a free block into two free halves. */
    method SplitBlock(b: Block) returns (l: Block, r: Block)
      requires Linked() && Has(b) && shape[b.Pos()] == Free && b.prefixLen < 32
      modifies this`freeBlocks, this`blocks, this`shape, b
      ensures Linked() && shape == SplitAt(old(shape), b.Pos())
      ensures blocks == old(blocks)[LowerHalf(b.Pos()) := l][UpperHalf(b.Pos()) := r]
      ensures LowerHalf(b.Pos()) !in old(blocks) && UpperHalf(b.Pos()) !in old(blocks)
      ensures fresh(l) && fresh(r) && l.parent == b && r.parent == b
      ensures l.Pos() == LowerHalf(b.Pos()) && r.Pos() == UpperHalf(b.Pos())
    {
      ghost var m, s, c := blocks, shape, b.Pos();
      SplitStep(s, root.Pos(), c);
      assert BlockOk(m, s, root.Pos(), c);
      l, r := b.Halve();
      assert LinksBut(m, s, root.Pos(), c) by {
        forall d | d in m && d != c ensures BlockOk(m, s, root.Pos(), d) {
          assert old(BlockOk(m, s, root.Pos(), d));
        }
      }
      IndexSplit(freeBlocks, quarantined, m, s, c, l, r);
      SplitLinks(m, s, root.Pos(), c, l, r);
      freeBlocks := AddLevel(AddLevel(RemoveLevel(freeBlocks, b), l), r);
      blocks, shape := m[LowerHalf(c) := l][UpperHalf(c) := r], SplitAt(s, c);
    }

    lemma SplitLinks(m: Blocks, s: Shape, root: Cidr, c: Cidr, l: Block, r: Block)
      requires LinksBut(m, s, root, c) && s[c] == Free && c.prefix < 32
      requires Tree(SplitAt(s, c), root) && LowerHalf(c) !in m && UpperHalf(c) !in m
      requires m[c].state == BlockSplit && m[c].left == l && m[c].right == r
      requires l.Pos() == LowerHalf(c) && r.Pos() == UpperHalf(c) && l.parent == m[c] && r.parent == m[c]
      requires l.Kind() == Free && r.Kind() == Free
      requires l.left == null && l.right == null && r.left == null && r.right == null
      ensures Links(m[LowerHalf(c) := l][UpperHalf(c) := r], SplitAt(s, c), root)
    {
      var m', s' := m[LowerHalf(c) := l][UpperHalf(c) := r], SplitAt(s, c);
      forall d | d in m' ensures BlockOk(m', s', root, d) {
        assert NodeOk(s', root, d);
        if d in m {
          assert d != c ==> BlockOk(m, s, root, d);
        } else {
          assert NodeOk(s, root, c);
          HalvesAligned(c);
        }
      }
    }

    /** Joins the two free halves of a block again. */
    method JoinHalves(p: Block, ghost half: Cidr)
      requires Linked() && Has(p) && shape[p.Pos()] == Split && half != root.Pos() && half.prefix > 0
      requires half in shape && shape[half] == Free && Sibling(half) in shape && shape[Sibling(half)] == Free
      requires Parent(half) == p.Pos()
      modifies this`freeBlocks, this`blocks, this`shape, p
      ensures Linked() && shape == JoinAt(old(shape), half)
      ensures blocks == old(blocks) - {half, Sibling(half)}
    {
      ghost var m, s := blocks, shape;
      JoinValues(half);
      assert BlockOk(m, s, root.Pos(), p.Pos());
      var l, r := p.left, p.right;
      p.Unsplit();
      assert LinksBut(m, s, root.Pos(), p.Pos()) by {
        forall d | d in m && d != p.Pos() ensures BlockOk(m, s, root.Pos(), d) {
          assert old(BlockOk(m, s, root.Pos(), d));
        }
      }
      JoinLinks(m, s, root.Pos(), half);
      freeBlocks := AddLevel(RemoveLevel(RemoveLevel(freeBlocks, l), r), p);
      blocks, shape := m - {half, Sibling(half)}, JoinAt(s, half);
    }

    lemma JoinValues(half: Cidr)
      requires Linked() && half in shape && half != root.Pos() && half.prefix > 0
      requires shape[half] == Free && Sibling(half) in shape && shape[Sibling(half)] == Free
      ensures Tree(JoinAt(shape, half), root.Pos()) && Parent(half) in shape && shape[Parent(half)] == Split
      ensures var m, p := blocks - {half, Sibling(half)}, blocks[Parent(half)];
        && p.left != null && p.right != null && root.Pos() in m
        && Index(AddLevel(RemoveLevel(RemoveLevel(freeBlocks, p.left), p.right), p), quarantined, m,
                 JoinAt(shape, half))
    {
      var m, s, c, l, u := blocks, shape, Parent(half), LowerHalf(Parent(half)), UpperHalf(Parent(half));
      JoinStep(s, root.Pos(), half);
      JoinRoot(s, root.Pos(), half);
      JoinNames(s, root.Pos(), half);
      assert BlockOk(m, s, root.Pos(), c);
      IndexJoin(freeBlocks, quarantined, m, s, c);
      assert JoinAt(s, half) == (s - {l} - {u})[c := Free];
      assert m - {l} - {u} == m - {half, Sibling(half)};
    }

    lemma JoinNames(s: Shape, root: Cidr, half: Cidr)
      requires Tree(s, root) && half in s && half != root && half.prefix > 0
      ensures IsHalf(half, Parent(half)) && IsHalf(Sibling(half), Parent(half)) && half != Sibling(half)
      ensures Parent(half).prefix < 32 && Parent(half) in s
      ensures half != Parent(half) && Sibling(half) != Parent(half)
    {
      assert NodeOk(s, root, half);
      ParentAligned(half);
    }

    lemma JoinLinks(m: Blocks, s: Shape, root: Cidr, half: Cidr)
      requires half in s && half != root && half.prefix > 0 && LinksBut(m, s, root, Parent(half))
      requires Tree(JoinAt(s, half), root) && Parent(half) in m && s[Parent(half)] == Split
      requires Sibling(half) in s && s[half] == Free && s[Sibling(half)] == Free
      requires var p := m[Parent(half)]; p.state == BlockFree && p.left == null && p.right == null
      requires (m - {half, Sibling(half)}).Keys == JoinAt(s, half).Keys
      ensures Links(m - {half, Sibling(half)}, JoinAt(s, half), root)
    {
      var m', s' := m - {half, Sibling(half)}, JoinAt(s, half);
      forall d | d in m' ensures BlockOk(m', s', root, d) {
        assert NodeOk(s', root, d);
        assert d != Parent(half) ==> BlockOk(m, s, root, d);
      }
    }

    /** Hands a free block out. */
    method MarkAllocated(b: Block, node: string)
      requires Linked() && Has(b) && shape[b.Pos()] == Free
      modifies this`freeBlocks, this`shape, b
      ensures Linked() && shape == old(shape)[b.Pos() := Allocated(node)]
    {
      ghost var s, c := shape, b.Pos();
      MarkStep(s, root.Pos(), c, Allocated(node));
      assert BlockOk(blocks, s, root.Pos(), c);
      IndexTake(freeBlocks, quarantined, blocks, s, c, Allocated(node));
      freeBlocks, shape := RemoveLevel(freeBlocks, b), s[c := Allocated(node)];
      b.state, b.nodeName := BlockAllocated, node;
      forall d | d in blocks && d != c ensures BlockOk(blocks, s, root.Pos(), d) {
        assert old(BlockOk(blocks, s, root.Pos(), d));
      }
      MarkLinks(blocks, s, root.Pos(), c, Allocated(node));
    }

    /** Marks a block that was handed out or quarantined as free, before any merging. */
    method MarkFree(b: Block)
      requires Linked() && Has(b) && shape[b.Pos()].Held()
      modifies this`freeBlocks, this`quarantined, this`shape, b
      ensures Linked() && shape == old(shape)[b.Pos() := Free] && quarantined == old(quarantined) - {b}
    {
      ghost var s, c := shape, b.Pos();
      MarkStep(s, root.Pos(), c, Free);
      assert BlockOk(blocks, s, root.Pos(), c);
      IndexFree(freeBlocks, quarantined, blocks, s, c);
      freeBlocks, quarantined, shape := AddLevel(freeBlocks, b), quarantined - {b}, s[c := Free];
      b.state, b.nodeName := BlockFree, "";
      forall d | d in blocks && d != c ensures BlockOk(blocks, s, root.Pos(), d) {
        assert old(BlockOk(blocks, s, root.Pos(), d));
      }
      MarkLinks(blocks, s, root.Pos(), c, Free);
    }

    lemma MarkLinks(m: Blocks, s: Shape, root: Cidr, c: Cidr, kind: Kind)
      requires LinksBut(m, s, root, c) && c in s && s[c] != Split && kind != Split
      requires Tree(s[c := kind], root)
      requires m[c].Kind() == kind && m[c].left == null && m[c].right == null
      ensures Links(m, s[c := kind], root)
    {
      var s' := s[c := kind];
      forall d | d in m ensures BlockOk(m, s', root, d) {
        assert NodeOk(s', root, d);
        assert d != c ==> BlockOk(m, s, root, d);
      }
    }

    // ---- searching ----

    /** The free block with the lowest address at a level. */
    method LowestFree(prefix: nat) returns (best: Block?)
      requires Linked()
      ensures best == null ==> forall c :: c in shape && shape[c] == Free ==> c.prefix != prefix
      ensures best != null ==> Has(best) && LowestAt(shape, best.Pos(), prefix)
    {
      best := null;
      var todo := Level(freeBlocks, prefix);
      while todo != {}
        invariant todo <= Level(freeBlocks, prefix)
        invariant best != null ==> best in Level(freeBlocks, prefix)
        invariant forall b :: b in Level(freeBlocks, prefix) - todo ==> best != null && best.base <= b.base
      {
        var b :| b in todo;
        todo := todo - {b};
        if best == null || b.base < best.base { best := b; }
      }
      if best != null { assert Listed(blocks, best) && Indexed(freeBlocks, quarantined, blocks, shape, best.Pos()); }
      forall c | c in shape && shape[c] == Free && c.prefix == prefix ensures best != null && best.base <= c.base {
        assert Indexed(freeBlocks, quarantined, blocks, shape, c);
      }
    }

    /** The buddy of a block of this tree is the block at the sibling position. */
    lemma BuddyIsSibling(b: Block)
      requires Linked() && Has(b)
      ensures (b.parent == null) == (b == root) == (b.Buddy() == null)
      ensures b != root ==>
        b.prefixLen > 0 && b.Buddy() != null && Has(b.Buddy()) && b.Buddy().Pos() == Sibling(b.Pos())
      ensures b != root ==>
        b.parent != null && Has(b.parent) && b.parent.Pos() == Parent(b.Pos()) && shape[b.parent.Pos()] == Split
    {
      var c, r := b.Pos(), root.Pos();
      assert BlockOk(blocks, shape, r, c) && NodeOk(shape, r, c);
      if c != r {
        assert BlockOk(blocks, shape, r, Parent(c)) && NodeOk(shape, r, Parent(c));
        ParentAligned(c);
        assert BlockOk(blocks, shape, r, Sibling(c));
      }
    }

    // ---- giving back ----

    /** Joins b with its buddy if that is free, and returns the block they became. */
    method MergeWithBuddy(b: Block) returns (merged: Block?)
      requires Linked() && Has(b) && shape[b.Pos()] == Free
      modifies this`freeBlocks, this`blocks, this`shape, blocks.Values
      ensures Linked() && SubMap(blocks, old(blocks))
      ensures merged == null ==> shape == old(shape) == Merge(old(shape), root.Pos(), b.Pos())
      ensures merged != null ==> Has(merged) && shape[merged.Pos()] == Free && merged.prefixLen < b.prefixLen
      ensures merged != null ==> Merge(shape, root.Pos(), merged.Pos()) == Merge(old(shape), root.Pos(), b.Pos())
    {
      merged := null;
      BuddyIsSibling(b);
      var buddy := b.Buddy();
      if buddy == null { return; }
      assert BlockOk(blocks, shape, root.Pos(), Sibling(b.Pos()));
      if buddy.state != BlockFree { return; }
      merged := b.parent;
      JoinHalves(merged, b.Pos());
    }

    /** Marks b free and merges it upward while its buddy is free. */
    method Release(b: Block)
      requires Valid() && Has(b) && shape[b.Pos()].Held()
      modifies this`freeBlocks, this`quarantined, this`blocks, this`shape, blocks.Values
      ensures Valid() && SubMap(blocks, old(blocks))
      ensures Held(shape) == old(Held(shape)) - {b.Pos()} && quarantined == old(quarantined) - {b}
    {
      ghost var s := shape[b.Pos() := Free];
      MarkStep(shape, root.Pos(), b.Pos(), Free);
      FreeStepMerged(shape, root.Pos(), b.Pos());
      MergeStep(s, root.Pos(), b.Pos());
      MarkFree(b);
      var cur: Block := b;
      while true
        invariant Linked() && Has(cur) && shape[cur.Pos()] == Free
        invariant Merge(shape, root.Pos(), cur.Pos()) == Merge(s, root.Pos(), b.Pos())
        invariant SubMap(blocks, old(blocks)) && quarantined == old(quarantined) - {b}
        decreases cur.prefixLen
      {
        var merged := MergeWithBuddy(cur);
        if merged == null { break; }
        cur := merged;
      }
    }

    // ---- handing out ----

    /** Splits the free block b down to its piece at base with the given prefix, always going on
        with the half that contains base. */
    method CarveTo(b: Block, base: nat, prefix: nat) returns (piece: Block)
      requires Linked() && Has(b) && shape[b.Pos()] == Free
      requires Aligned(Cidr(base, prefix)) && Within(Cidr(base, prefix), b.Pos())
      modifies this`freeBlocks, this`blocks, this`shape, blocks.Values
      ensures Linked() && Has(piece) && piece.Pos() == Cidr(base, prefix) && shape[piece.Pos()] == Free
      ensures shape == Carve(old(shape), b.Pos(), piece.Pos())
      ensures AddsFresh() && SubMap(old(blocks), blocks)
    {
      piece := b;
      ghost var target := Cidr(base, prefix);
      PieceFacts(b.Pos(), target);
      while piece.prefixLen < prefix
        invariant Linked() && Has(piece) && shape[piece.Pos()] == Free
        invariant Within(target, piece.Pos()) && piece.prefixLen <= prefix
        invariant Carve(shape, piece.Pos(), target) == Carve(old(shape), b.Pos(), target)
        invariant AddsFresh() && SubMap(old(blocks), blocks)
        decreases prefix - piece.prefixLen
      {
        piece := Descend(piece, base, prefix);
      }
      PieceFacts(piece.Pos(), target);
    }

    lemma PieceFacts(c: Cidr, target: Cidr)
      requires Linked() && c in shape && Aligned(target) && Within(target, c)
      ensures c.prefix <= target.prefix <= 32 && (c.prefix == target.prefix ==> c == target)
    {
      assert NodeOk(shape, root.Pos(), c);
      if c != target { StrictlyWithin(target, c); }
    }

    /** One split on the way down. */
    method Descend(b: Block, base: nat, prefix: nat) returns (half: Block)
      requires Linked() && Has(b) && shape[b.Pos()] == Free && b.prefixLen < prefix
      requires Aligned(Cidr(base, prefix)) && Within(Cidr(base, prefix), b.Pos())
      modifies this`freeBlocks, this`blocks, this`shape, b
      ensures Linked() && Has(half) && shape[half.Pos()] == Free && Within(Cidr(base, prefix), half.Pos())
      ensures half.Pos() == HalfTowards(b.Pos(), base) && shape == SplitAt(old(shape), b.Pos())
      ensures AddsFresh() && SubMap(old(blocks), blocks)
    {
      assert NodeOk(shape, root.Pos(), b.Pos());
      StrictlyWithin(Cidr(base, prefix), b.Pos());
      var l, r := SplitBlock(b);
      half := l;
      if base >= r.base { half := r; }
    }

    /** Hands out the piece at base of a free block. */
    method Take(b: Block, base: nat, prefix: nat, node: string) returns (piece: Block)
      requires Valid() && Has(b) && shape[b.Pos()] == Free
      requires Aligned(Cidr(base, prefix)) && Within(Cidr(base, prefix), b.Pos())
      modifies this`freeBlocks, this`blocks, this`shape, blocks.Values
      ensures Valid() && Has(piece) && piece.Pos() == Cidr(base, prefix)
      ensures Held(shape) == old(Held(shape))[Cidr(base, prefix) := Allocated(node)]
      ensures AddsFresh() && SubMap(old(blocks), blocks)
    {
      CarveStep(shape, root.Pos(), b.Pos(), Cidr(base, prefix));
      piece := CarveTo(b, base, prefix);
      TakeStepMerged(shape, root.Pos(), piece.Pos(), Allocated(node));
      MarkStep(shape, root.Pos(), piece.Pos(), Allocated(node));
      MarkAllocated(piece, node);
    }

    // ---- quarantine ----

    /** due is exactly the blocks whose quarantine has run out. */
    ghost predicate AllDue(due: set<Block>, now: int)
      reads this
    {
      && blocks.Keys == shape.Keys
      && (forall b :: b in due ==> Listed(blocks, b) && IsDue(shape[b.Pos()], now))
      && (forall c {:trigger shape[c]} :: c in shape && IsDue(shape[c], now) ==> blocks[c] in due)
    }

    lemma DueBlocks(due: set<Block>, now: int)
      requires Valid() && due == set b | b in quarantined && b.releaseAt <= now
      ensures AllDue(due, now)
    {
      forall b | b in quarantined ensures Listed(blocks, b) && shape[b.Pos()] == Quarantined(b.releaseAt) {
        assert Indexed(freeBlocks, quarantined, blocks, shape, b.Pos());
        assert BlockOk(blocks, shape, root.Pos(), b.Pos());
      }
      forall c | c in shape && IsDue(shape[c], now) ensures blocks[c] in due {
        assert Indexed(freeBlocks, quarantined, blocks, shape, c) && BlockOk(blocks, shape, root.Pos(), c);
      }
    }

    static ghost predicate SweptSoFar(before: Holdings, held: Holdings, now: int) {
      && (forall c :: c in held ==> c in before && held[c] == before[c])
      && (forall c :: c in before && !IsDue(before[c], now) ==> c in held)
    }

    /** Releases the quarantined blocks whose time has come. */
    method Sweep(now: int) returns (released: nat)
      requires Valid()
      modifies this`freeBlocks, this`quarantined, this`blocks, this`shape, blocks.Values
      ensures Valid() && Held(shape) == Swept(old(Held(shape)), now) && SubMap(blocks, old(blocks))
      ensures forall c :: c in old(Held(shape)) ==> (c in Held(shape) <==>
        !(old(Held(shape))[c].Quarantined? && old(Held(shape))[c].releaseAt <= now))
      ensures released == |old(Held(shape))| - |Held(shape)|
    {
      released := 0;
      var due := set b | b in quarantined && b.releaseAt <= now;
      DueBlocks(due, now);
      while due != {}
        invariant Valid() && SubMap(blocks, old(blocks)) && AllDue(due, now)
        invariant SweptSoFar(old(Held(shape)), Held(shape), now)
        invariant released + |Held(shape)| == |old(Held(shape))|
      {
        var b :| b in due;
        ghost var held := Held(shape);
        due := ReleaseDue(b, due, now);
        OneMoreSwept(old(Held(shape)), held, Held(shape), b.Pos(), now);
        released := released + 1;
      }
      AllSwept(old(Held(shape)), now);
    }

    static lemma OneMoreSwept(before: Holdings, held: Holdings, next: Holdings, c: Cidr, now: int)
      requires SweptSoFar(before, held, now) && c in held && IsDue(held[c], now) && next == held - {c}
      ensures SweptSoFar(before, next, now)
    {
    }

    lemma AllSwept(before: Holdings, now: int)
      requires SweptSoFar(before, Held(shape), now) && AllDue({}, now)
      ensures Held(shape) == Swept(before, now)
    {
      assert forall c :: c in Held(shape) ==> !IsDue(Held(shape)[c], now);
    }

    method ReleaseDue(b: Block, due: set<Block>, ghost now: int) returns (rest: set<Block>)
      requires Valid() && AllDue(due, now) && b in due
      modifies this`freeBlocks, this`quarantined, this`blocks, this`shape, blocks.Values
      ensures Valid() && SubMap(blocks, old(blocks))
      ensures rest == due - {b} && AllDue(rest, now)
      ensures Held(shape) == old(Held(shape)) - {b.Pos()} && b.Pos() in old(Held(shape))
      ensures |Held(shape)| == |old(Held(shape))| - 1
      ensures IsDue(old(Held(shape))[b.Pos()], now)
    {
      Release(b);
      rest := due - {b};
      assert forall c :: c in shape && shape[c].Held() ==> c in Held(shape);
      forall x | x in rest ensures Listed(blocks, x) && IsDue(shape[x.Pos()], now) {
        assert old(Listed(blocks, x)) && x.Pos() in Held(shape);
      }
      forall c | c in shape && IsDue(shape[c], now) ensures blocks[c] in rest {
        assert Indexed(freeBlocks, quarantined, blocks, shape, c);
        assert c in Held(shape) && c in old(Held(shape)) && old(shape[c]) == shape[c];
      }
    }

    // ---- allocation ----

    /** The prefix of the smallest block that holds this many addresses, if the limits allow it. */
    ghost predicate RightSize(requested: int, prefix: nat)
    {
      && maxPrefixLen <= prefix <= minPrefixLen <= 32
      && Size(prefix) >= requested
      && (prefix < minPrefixLen ==> Size(prefix + 1) < requested)
    }

    method PrefixFor(requested: int) returns (r: Result<nat>)
      requires maxPrefixLen <= minPrefixLen <= 32
      ensures r.Ok? ==> RightSize(requested, r.value)
      ensures r.Err? ==> r.error == ErrTooLarge && requested > Size(maxPrefixLen)
    {
      var n: nat := if requested < 1 then 1 else requested;
      var prefix := 32 - BitLen(n - 1);
      if minPrefixLen < prefix { prefix := minPrefixLen; }
      FitsIn(n, maxPrefixLen);
      if prefix < maxPrefixLen { return Err(ErrTooLarge); }
      FitsIn(n, prefix);
      if prefix < minPrefixLen { FitsIn(n, prefix + 1); }
      r := Ok(prefix);
    }

    static lemma FitsIn(n: nat, prefix: nat)
      requires n >= 1 && prefix <= 32
      ensures BitLen(n - 1) <= 32 - prefix <==> n <= Size(prefix)
    {
      BitLenMeans(n - 1, 32 - prefix);
    }

    static lemma {:induction false} BitLenMeans(x: nat, n: nat)
      requires n <= 32
      ensures BitLen(x) <= n <==> x < Size(32 - n)
      decreases n
    {
      if n > 0 && x > 0 { BitLenMeans(x / 2, n - 1); }
    }

    /** The first free block found going from a level up to the root. */
    method SmallestFree(prefix: int) returns (b: Block?)
      requires Valid() && prefix <= 32
      ensures b == null ==> prefix < root.prefixLen || !HasRoom(Held(shape), root.Pos(), prefix)
      ensures b != null ==>
        Has(b) && shape[b.Pos()] == Free && prefix >= 0 && BestFit(Held(shape), root.Pos(), b.Pos(), prefix)
    {
      var p := prefix;
      while p >= root.prefixLen
        invariant p <= prefix
        invariant forall c :: c in shape && shape[c] == Free && c.prefix <= prefix ==> c.prefix <= p
      {
        b := LowestFree(p);
        if b != null {
          BestFitIs(b.Pos(), prefix);
          return;
        }
        p := p - 1;
      }
      b := null;
      if prefix >= root.prefixLen {
        SearchIsComplete(shape, root.Pos(), prefix);
        forall c | c in shape ensures c.prefix >= root.prefixLen { assert NodeOk(shape, root.Pos(), c); }
      }
    }

    lemma BestFitIs(c: Cidr, prefix: nat)
      requires Valid() && LowestAt(shape, c, c.prefix) && c.prefix <= prefix
      requires forall d :: d in shape && shape[d] == Free && d.prefix <= prefix ==> d.prefix <= c.prefix
      ensures BestFit(Held(shape), root.Pos(), c, prefix)
    {
      FreeBlocksAreMaximal(shape, root.Pos(), c);
      forall d | FreeBlock(Held(shape), root.Pos(), d) && d.prefix <= prefix
        ensures d.prefix < c.prefix || (d.prefix == c.prefix && c.base <= d.base)
      {
        FreeBlocksAreMaximal(shape, root.Pos(), d);
      }
    }

    /** What handing out a /prefix means: it is refused exactly if no aligned region of that size
        is free; otherwise the lowest piece of the best-fitting free block is taken. */
    ghost predicate HandsOut(before: Holdings, fit: int, prefix: nat, node: string, r: Result<Block>)
      reads this
    {
      match r
      case Err(e) =>
        e == ErrNoSpace && Held(shape) == before && (fit < root.prefixLen || !HasRoom(before, root.Pos(), fit))
      case Ok(b) =>
        && Has(b) && b.prefixLen == prefix && fit >= 0
        && (exists f :: BestFit(before, root.Pos(), f, fit) && b.base == f.base)
        && Held(shape) == before[b.Pos() := Allocated(node)]
    }

    lemma FreePieceNotHeld(c: Cidr, piece: Cidr)
      requires Linked() && c in shape && shape[c] == Free && Within(piece, c)
      ensures piece !in Held(shape)
    {
      if piece in shape && piece != c { LeafHasNoParts(shape, root.Pos(), c, piece); }
    }

    /** Takes the lowest /prefix piece of the best-fitting free block of level `fit` or above. */
    method TakeSmallest(fit: int, prefix: nat, node: string) returns (r: Result<Block>)
      requires Valid() && fit <= prefix <= 32
      modifies this`freeBlocks, this`blocks, this`shape, blocks.Values
      ensures Valid() && HandsOut(old(Held(shape)), fit, prefix, node, r)
      ensures AddsFresh()
      ensures StillHands(old(shape), old(blocks), shape, blocks)
    {
      var b := SmallestFree(fit);
      if b == null { return Err(ErrNoSpace); }
      LowestPiece(b.Pos(), prefix);
      FreePieceNotHeld(b.Pos(), Cidr(b.base, prefix));
      var piece := Take(b, b.base, prefix, node);
      StillHandsMore(old(shape), old(blocks), shape, blocks, piece.Pos(), Allocated(node));
      assert BestFit(old(Held(shape)), root.Pos(), b.Pos(), fit);
      r := Ok(piece);
    }

    /** The smallest free block that can hold the request; a larger one is split only when no
        block of the right size is free. */
    method Allocate(requested: int, node: string, now: int) returns (r: Result<Block>)
      requires Valid()
      modifies this`freeBlocks, this`quarantined, this`blocks, this`shape, blocks.Values
      ensures Valid() && AddsFresh()
      ensures r == Err(ErrTooLarge) ==> requested > Size(maxPrefixLen) && Held(shape) == Swept(old(Held(shape)), now)
      ensures r != Err(ErrTooLarge) ==>
        exists p: nat :: RightSize(requested, p) && HandsOut(Swept(old(Held(shape)), now), p, p, node, r)
    {
      var _ := Sweep(now);
      var prefix := PrefixFor(requested);
      if prefix.Err? { return Err(prefix.error); }
      r := TakeSmallest(prefix.value, prefix.value, node);
    }

    /** A node's first block: taken from a strictly larger free block, so its buddy stays free. */
    method AllocateSpread(requested: int, node: string, now: int) returns (r: Result<Block>)
      requires Valid()
      modifies this`freeBlocks, this`quarantined, this`blocks, this`shape, blocks.Values
      ensures Valid() && AddsFresh()
      ensures r == Err(ErrTooLarge) ==> requested > Size(maxPrefixLen) && Held(shape) == Swept(old(Held(shape)), now)
      ensures r != Err(ErrTooLarge) ==> Spreads(Swept(old(Held(shape)), now), requested, node, r)
      ensures r.Ok? ==> r.value.prefixLen > 0 && FreeRegion(Held(shape), Sibling(r.value.Pos()))
    {
      var _ := Sweep(now);
      var prefix := PrefixFor(requested);
      if prefix.Err? { return Err(prefix.error); }
      ghost var before := Held(shape);
      var fit := prefix.value as int - 1;
      r := TakeSmallest(fit, prefix.value, node);
      if r.Ok? { SpreadLeavesBuddyFree(before, r.value.Pos(), fit, Allocated(node)); }
      assert HandsOut(before, fit, prefix.value, node, r);
    }

    /** The block of the right size comes out of the best fit for twice that size. */
    ghost predicate Spreads(before: Holdings, requested: int, node: string, r: Result<Block>)
      reads this
    {
      exists p: nat :: RightSize(requested, p) && HandsOut(before, p - 1, p, node, r)
    }

    lemma SpreadLeavesBuddyFree(before: Holdings, c: Cidr, fit: nat, kind: Kind)
      requires c.prefix == fit + 1 <= 32 && exists f :: BestFit(before, root.Pos(), f, fit) && c.base == f.base
      ensures FreeRegion(before[c := kind], Sibling(c))
    {
      var f :| BestFit(before, root.Pos(), f, fit) && c.base == f.base;
      LowestPiece(f, fit);
      LowestPiece(f, c.prefix);
      HalvesAligned(Cidr(f.base, fit));
      forall a | Sibling(c).Contains(a) ensures FreeAddress(before[c := kind], a) {
        assert f.Contains(a) && FreeAddress(before, a);
      }
    }

    /** The outcome of asking for a block of exactly one size. */
    ghost predicate Answered(before: Holdings, prefix: nat, node: string, now: int, r: Result<Block>)
      reads this
    {
      && (r == Err(ErrBadPrefix) <==> prefix > minPrefixLen || prefix < maxPrefixLen)
      && (r == Err(ErrBadPrefix) ==> Held(shape) == Swept(before, now))
      && (r != Err(ErrBadPrefix) ==> HandsOut(Swept(before, now), prefix, prefix, node, r))
    }

    /** Sweeping takes back nothing that is handed out. */
    lemma StillHandsSwept(s: Shape, m: Blocks, now: int)
      requires Valid() && Held(shape) == Swept(Held(s), now) && SubMap(blocks, m)
      ensures StillHands(s, m, shape, blocks)
    {
      forall c | c in s && s[c].Allocated? ensures c in shape && shape[c] == s[c] {
        assert c in Held(s) && c in Held(shape);
      }
    }

    /** Taking a free block takes back nothing that is handed out. */
    static lemma StillHandsMore(s: Shape, m: Blocks, t: Shape, n: Blocks, c: Cidr, kind: Kind)
      requires Held(t) == Held(s)[c := kind] && c !in Held(s) && SubMap(m, n) && n.Keys == t.Keys
      ensures StillHands(s, m, t, n)
    {
      forall d | d in s && s[d].Allocated? ensures d in t && t[d] == s[d] {
        assert d in Held(s) && d in Held(t);
      }
    }

    method AllocatePrefix(prefix: nat, node: string, now: int) returns (r: Result<Block>)
      requires Valid()
      modifies this`freeBlocks, this`quarantined, this`blocks, this`shape, blocks.Values
      ensures Valid() && AddsFresh()
      ensures Answered(old(Held(shape)), prefix, node, now, r)
      ensures StillHands(old(shape), old(blocks), shape, blocks)
    {
      var _ := Sweep(now);
      StillHandsSwept(old(shape), old(blocks), now);
      if prefix > minPrefixLen || prefix < maxPrefixLen { return Err(ErrBadPrefix); }
      r := TakeSmallest(prefix, prefix, node);
    }

    // ---- growing beside a block the node already has ----

    /** Whether everything under b is allocated to node. */
    method OwnedBy(b: Block, node: string) returns (owned: bool)
      requires Linked() && Has(b)
      ensures owned == FullyOwned(shape, b.Pos(), node)
      decreases 32 - b.prefixLen
    {
      assert BlockOk(blocks, shape, root.Pos(), b.Pos()) && NodeOk(shape, root.Pos(), b.Pos());
      match b.state
      case BlockAllocated => owned := b.nodeName == node;
      case BlockSplit =>
        assert BlockOk(blocks, shape, root.Pos(), LowerHalf(b.Pos()))
          && BlockOk(blocks, shape, root.Pos(), UpperHalf(b.Pos()));
        owned := OwnedBy(b.left, node);
        if owned { owned := OwnedBy(b.right, node); }
      case _ => owned := false;
    }

    /** The free buddy of a block is the region next to it with every address free. */
    lemma BuddyFree(b: Block)
      requires Valid() && Has(b) && b != root
      ensures b.prefixLen > 0 && b.Buddy() != null && Has(b.Buddy()) && b.Buddy().Pos() == Sibling(b.Pos())
      ensures b.Buddy().state == BlockFree <==> FreeRegion(Held(shape), Sibling(b.Pos()))
      ensures b.Buddy().state == BlockFree <==> shape[Sibling(b.Pos())] == Free
    {
      BuddyIsSibling(b);
      var c := Sibling(b.Pos());
      assert BlockOk(blocks, shape, root.Pos(), c);
      FreeRegionIsNothingHeld(shape, c);
      if shape[c] == Free { FreeBlockHoldsNothing(shape, root.Pos(), c); }
      if NothingHeldIn(shape, c) { EmptyBlockIsFree(shape, root.Pos(), c); }
    }

    /** Gives node the buddy of block when that buddy is free. */
    method AllocateBuddyOf(block: Block, node: string, now: int) returns (r: Result<Block>)
      requires Valid() && Has(block) && shape[block.Pos()].Allocated?
      modifies this`freeBlocks, this`quarantined, this`blocks, this`shape, blocks.Values
      ensures Valid() && AddsFresh()
      ensures var swept, c := Swept(old(Held(shape)), now), block.Pos();
        if block == root || c.prefix == 0 || !FreeRegion(swept, Sibling(c))
        then r == Err(ErrBuddyUnavailable) && Held(shape) == swept
        else r.Ok? && Has(r.value) && r.value.Pos() == Sibling(c) && Held(shape) == swept[Sibling(c) := Allocated(node)]
    {
      assert block.Pos() in Held(shape);
      var _ := Sweep(now);
      assert block.Pos() in Held(shape);
      BuddyIsSibling(block);
      var buddy := block.Buddy();
      if block != root { BuddyFree(block); }
      if buddy == null || buddy.state != BlockFree { return Err(ErrBuddyUnavailable); }
      TakeStepMerged(shape, root.Pos(), buddy.Pos(), Allocated(node));
      MarkStep(shape, root.Pos(), buddy.Pos(), Allocated(node));
      MarkAllocated(buddy, node);
      r := Ok(buddy);
    }

    /** anchor is the largest range around block that node owns completely. */
    ghost predicate LargestOwned(held: Holdings, block: Cidr, anchor: Cidr, node: string) {
      && Aligned(anchor) && Within(block, anchor)
      && (block in held && held[block] == Allocated(node) ==> OwnsAll(held, anchor, node))
      && (anchor != root.Pos() ==> anchor.prefix > 0 && !OwnsAll(held, Sibling(anchor), node))
    }

    lemma OwnedUpward(c: Cidr, node: string)
      requires Valid() && c in shape && c != root.Pos() && c.prefix > 0 && FullyOwned(shape, Sibling(c), node)
      ensures Parent(c) in shape && Within(c, Parent(c))
      ensures FullyOwned(shape, c, node) ==> FullyOwned(shape, Parent(c), node)
    {
      assert NodeOk(shape, root.Pos(), c);
      ParentAligned(c);
    }

    lemma AnchorIsLargest(block: Block, anchor: Block, node: string)
      requires Valid() && Has(block) && Has(anchor) && shape[block.Pos()].Allocated?
      requires Within(block.Pos(), anchor.Pos())
      requires (shape[block.Pos()] == Allocated(node) ==> FullyOwned(shape, anchor.Pos(), node))
      requires anchor == root || (anchor.prefixLen > 0 && !FullyOwned(shape, Sibling(anchor.Pos()), node))
      ensures LargestOwned(Held(shape), block.Pos(), anchor.Pos(), node)
    {
      assert NodeOk(shape, root.Pos(), anchor.Pos());
      FullyOwnedByAddress(shape, root.Pos(), anchor.Pos(), node);
      BuddyIsSibling(anchor);
      if anchor != root { FullyOwnedByAddress(shape, root.Pos(), Sibling(anchor.Pos()), node); }
    }

    /** Climbs from block while the buddy belongs to the node too. */
    method Climb(block: Block, node: string) returns (anchor: Block)
      requires Valid() && Has(block) && shape[block.Pos()].Allocated?
      ensures Has(anchor) && LargestOwned(Held(shape), block.Pos(), anchor.Pos(), node)
    {
      anchor := block;
      ghost var mine := shape[block.Pos()] == Allocated(node);
      assert block.Pos() in Held(shape);
      assert NodeOk(shape, root.Pos(), block.Pos());
      BuddyIsSibling(anchor);
      while anchor.parent != null
        invariant Has(anchor) && Within(block.Pos(), anchor.Pos())
        invariant mine ==> FullyOwned(shape, anchor.Pos(), node)
        invariant anchor.parent == null ==> anchor == root
        decreases anchor.prefixLen
      {
        BuddyIsSibling(anchor);
        var owned := OwnedBy(anchor.Buddy(), node);
        if !owned { break; }
        OwnedUpward(anchor.Pos(), node);
        anchor := anchor.parent;
        BuddyIsSibling(anchor);
      }
      AnchorIsLargest(block, anchor, node);
    }

    /** One split on the way towards the range that starts at base. */
    method DescendNear(b: Block, base: nat, prefix: nat) returns (half: Block)
      requires Linked() && Has(b) && shape[b.Pos()] == Free && b.prefixLen < prefix <= 32
      requires base <= b.base || base > b.Pos().Last()
      modifies this`freeBlocks, this`blocks, this`shape, b
      ensures Linked() && Has(half) && shape[half.Pos()] == Free && half.prefixLen == b.prefixLen + 1
      ensures shape == SplitAt(old(shape), b.Pos())
      ensures half.Pos() == HalfTowards(b.Pos(), NearPiece(b.Pos(), base, prefix).base)
      ensures NearPiece(half.Pos(), base, prefix) == NearPiece(b.Pos(), base, prefix)
      ensures base <= half.base || base > half.Pos().Last()
      ensures AddsFresh() && SubMap(old(blocks), blocks)
    {
      SizeMonotone(b.prefixLen + 1, prefix);
      var l, r := SplitBlock(b);
      half := l;
      if half.base < base { half := r; }
    }

    /** Splits a free block down to its piece next to the range that starts at base. */
    method CarveNear(b: Block, base: nat, prefix: nat) returns (piece: Block)
      requires Linked() && Has(b) && shape[b.Pos()] == Free && b.prefixLen <= prefix <= 32
      requires base <= b.base || base > b.Pos().Last()
      modifies this`freeBlocks, this`blocks, this`shape, blocks.Values
      ensures Linked() && Has(piece) && piece.Pos() == NearPiece(b.Pos(), base, prefix)
      ensures shape == Carve(old(shape), b.Pos(), piece.Pos())
      ensures AddsFresh() && SubMap(old(blocks), blocks)
    {
      piece := b;
      ghost var target := NearPiece(b.Pos(), base, prefix);
      while piece.prefixLen < prefix
        invariant Linked() && Has(piece) && shape[piece.Pos()] == Free && piece.prefixLen <= prefix
        invariant base <= piece.base || base > piece.Pos().Last()
        invariant NearPiece(piece.Pos(), base, prefix) == target
        invariant Carve(shape, piece.Pos(), target) == Carve(old(shape), b.Pos(), target)
        invariant AddsFresh() && SubMap(old(blocks), blocks)
        decreases prefix - piece.prefixLen
      {
        piece := DescendNear(piece, base, prefix);
      }
    }

    method TakeNear(b: Block, base: nat, prefix: nat, node: string) returns (piece: Block)
      requires Valid() && Has(b) && shape[b.Pos()] == Free && b.prefixLen <= prefix <= 32
      requires base <= b.base || base > b.Pos().Last()
      modifies this`freeBlocks, this`blocks, this`shape, blocks.Values
      ensures Valid() && Has(piece) && piece.Pos() == NearPiece(b.Pos(), base, prefix)
      ensures Held(shape) == old(Held(shape))[piece.Pos() := Allocated(node)]
      ensures AddsFresh() && SubMap(old(blocks), blocks)
    {
      assert NodeOk(shape, root.Pos(), b.Pos());
      NearPieceFits(b.Pos(), base, prefix);
      CarveStep(shape, root.Pos(), b.Pos(), NearPiece(b.Pos(), base, prefix));
      piece := CarveNear(b, base, prefix);
      TakeStepMerged(shape, root.Pos(), piece.Pos(), Allocated(node));
      MarkStep(shape, root.Pos(), piece.Pos(), Allocated(node));
      MarkAllocated(piece, node);
    }

    /** c was taken from the buddy of the range: it lies in the buddy and touches the range, and if it
        is the whole buddy, the two make up a range that the node owns completely. */
    ghost predicate GrownBeside(before: Holdings, anchor: Cidr, c: Cidr, node: string)
      reads this
    {
      && anchor.prefix > 0 && Within(c, Sibling(anchor))
      && (c.Last() + 1 == anchor.base || anchor.Last() + 1 == c.base)
      && Held(shape) == before[c := Allocated(node)]
      && (c == Sibling(anchor) && OwnsAll(before, anchor, node) ==> OwnsAll(Held(shape), Parent(anchor), node))
    }

    /** What asking for more beside a block means: the largest range around it that node owns is the anchor. It is
        refused exactly if the anchor has no free buddy or the request is too large. The new block touches the
        anchor, and has the smaller of the buddy's size and the size that the request is rounded up to. */
    ghost predicate GrowsBeside(before: Holdings, block: Cidr, requested: int, node: string, r: Result<Block>,
                                anchor: Cidr)
      reads this
    {
      && LargestOwned(before, block, anchor, node)
      && (r.Err? ==> Held(shape) == before)
      && (r == Err(ErrBuddyUnavailable) <==>
        anchor == root.Pos() || anchor.prefix == 0 || !FreeRegion(before, Sibling(anchor)))
      && (r.Err? && r != Err(ErrBuddyUnavailable) ==> r == Err(ErrTooLarge) && requested > Size(maxPrefixLen))
      && (r.Ok? ==> Has(r.value) && GrownBeside(before, anchor, r.value.Pos(), node))
      && (r.Ok? ==>
        exists p: nat :: RightSize(requested, p) && r.value.prefixLen == if p < anchor.prefix then anchor.prefix else p)
    }

    /** Gives node a block next to the largest range around block that it owns: the free buddy of
        that range, or the near piece of it when the buddy is larger than the request. */
    method AllocateFromBuddy(block: Block, requested: int, node: string, now: int)
      returns (r: Result<Block>, ghost anchor: Cidr)
      requires Valid() && Has(block) && shape[block.Pos()].Allocated?
      modifies this`freeBlocks, this`quarantined, this`blocks, this`shape, blocks.Values
      ensures Valid() && AddsFresh()
      ensures GrowsBeside(Swept(old(Held(shape)), now), block.Pos(), requested, node, r, anchor)
      ensures StillHands(old(shape), old(blocks), shape, blocks)
    {
      assert block.Pos() in Held(shape);
      var _ := Sweep(now);
      StillHandsSwept(old(shape), old(blocks), now);
      assert block.Pos() in Held(shape);
      var top := Climb(block, node);
      anchor := top.Pos();
      r := TakeBeside(top, requested, node);
    }

    method TakeBeside(top: Block, requested: int, node: string) returns (r: Result<Block>)
      requires Valid() && Has(top)
      modifies this`freeBlocks, this`blocks, this`shape, blocks.Values
      ensures Valid() && AddsFresh()
      ensures r.Err? ==> Held(shape) == old(Held(shape))
      ensures top != root ==> top.prefixLen > 0
      ensures r == Err(ErrBuddyUnavailable) <==> top == root || !FreeRegion(old(Held(shape)), Sibling(top.Pos()))
      ensures r.Err? && r != Err(ErrBuddyUnavailable) ==> r == Err(ErrTooLarge) && requested > Size(maxPrefixLen)
      ensures r.Ok? ==> Has(r.value) && GrownBeside(old(Held(shape)), top.Pos(), r.value.Pos(), node)
      ensures r.Ok? ==>
        exists p: nat :: RightSize(requested, p) && r.value.prefixLen == if p < top.prefixLen then top.prefixLen else p
      ensures StillHands(old(shape), old(blocks), shape, blocks)
    {
      BuddyIsSibling(top);
      var cur := top.Buddy();
      if cur != null { BuddyFree(top); }
      if cur == null || cur.state != BlockFree { return Err(ErrBuddyUnavailable); }
      var prefix := PrefixFor(requested);
      if prefix.Err? { return Err(prefix.error); }
      var p := if prefix.value < cur.prefixLen then cur.prefixLen else prefix.value;
      assert NodeOk(shape, root.Pos(), top.Pos());
      ParentAligned(top.Pos());
      ghost var before := Held(shape);
      NearPieceFits(cur.Pos(), top.base, p);
      FreePieceNotHeld(cur.Pos(), NearPiece(cur.Pos(), top.base, p));
      var piece := TakeNear(cur, top.base, p, node);
      NearPieceTouches(before, top.Pos(), p, node);
      StillHandsMore(old(shape), old(blocks), shape, blocks, piece.Pos(), Allocated(node));
      r := Ok(piece);
    }

    lemma NearPieceTouches(before: Holdings, anchor: Cidr, prefix: nat, node: string)
      requires Aligned(anchor) && 0 < anchor.prefix <= prefix <= 32
      requires Held(shape) == before[NearPiece(Sibling(anchor), anchor.base, prefix) := Allocated(node)]
      requires FreeRegion(before, Sibling(anchor))
      ensures GrownBeside(before, anchor, NearPiece(Sibling(anchor), anchor.base, prefix), node)
    {
      var c := NearPiece(Sibling(anchor), anchor.base, prefix);
      ParentAligned(anchor);
      NearPieceFits(Sibling(anchor), anchor.base, prefix);
      if c == Sibling(anchor) && OwnsAll(before, anchor, node) {
        forall a | Parent(anchor).Contains(a) ensures OwnsAddress(Held(shape), a, node) {
          if c.Contains(a) {
            assert c in Held(shape);
          } else {
            assert anchor.Contains(a) && OwnsAddress(before, a, node);
            var d :| d in before && before[d] == Allocated(node) && d.Contains(a);
            assert d in Held(shape);
          }
        }
      }
    }

    // ---- exact blocks ----

    /** Whether a CIDR lies in the range of this allocator. */
    predicate Contains(c: Cidr) {
      c.prefix >= root.prefixLen && root.Pos().Contains(c.base)
    }

    lemma ContainsIsWithin(c: Cidr)
      requires Aligned(c) && Aligned(root.Pos())
      ensures Contains(c) <==> Within(c, root.Pos())
    {
      if Contains(c) { NestedOrDisjoint(root.Pos(), c); }
      if Within(c, root.Pos()) && c != root.Pos() { StrictlyWithin(c, root.Pos()); }
    }

    /** Walks down towards c as far as the tree is split. */
    method Walk(c: Cidr) returns (cur: Block)
      requires Valid() && Aligned(c) && Within(c, root.Pos())
      ensures Has(cur) && Within(c, cur.Pos()) && cur.prefixLen <= c.prefix && cur.Kind() == shape[cur.Pos()]
      ensures cur.state == BlockSplit ==> cur.Pos() == c
    {
      cur := root;
      assert BlockOk(blocks, shape, root.Pos(), root.Pos());
      PieceFacts(root.Pos(), c);
      while cur.state == BlockSplit && cur.prefixLen < c.prefix
        invariant Has(cur) && Within(c, cur.Pos()) && cur.prefixLen <= c.prefix && cur.Kind() == shape[cur.Pos()]
        decreases 32 - cur.prefixLen
      {
        cur := ChildFor(cur, c);
      }
      PieceFacts(cur.Pos(), c);
    }

    method ChildFor(b: Block, c: Cidr) returns (child: Block)
      requires Valid() && Aligned(c) && Has(b) && b.state == BlockSplit && b.prefixLen < c.prefix && Within(c, b.Pos())
      ensures Has(child) && Within(c, child.Pos()) && child.prefixLen == b.prefixLen + 1 <= 32
      ensures child.Kind() == shape[child.Pos()]
    {
      ghost var p, root := b.Pos(), root.Pos();
      assert BlockOk(blocks, shape, root, p) && NodeOk(shape, root, p);
      assert BlockOk(blocks, shape, root, LowerHalf(p)) && BlockOk(blocks, shape, root, UpperHalf(p));
      StrictlyWithin(c, p);
      if c.base >= b.right.base { child := b.right; } else { child := b.left; }
    }

    /** Whether the tree can give up exactly c is a question about its addresses. */
    lemma ReservableIsFree(cur: Block, c: Cidr)
      requires Valid() && Has(cur) && Aligned(c) && Within(c, cur.Pos())
      requires (shape[cur.Pos()] == Split ==> cur.Pos() == c)
      ensures shape[cur.Pos()] == Free <==> FreeRegion(Held(shape), c)
    {
      FreeRegionIsNothingHeld(shape, c);
      assert NodeOk(shape, root.Pos(), cur.Pos());
      if shape[cur.Pos()] == Free {
        FreeBlockHoldsNothing(shape, root.Pos(), cur.Pos());
      } else if NothingHeldIn(shape, c) {
        var leaf := FreeBlockCoversFreeRegion(shape, root.Pos(), c);
        if cur.Pos() == c {
          EmptyBlockIsFree(shape, root.Pos(), c);
        } else {
          LeavesDisjoint(shape, root.Pos(), cur.Pos(), leaf);
        }
      }
    }

    /** Hands out exactly the block c. It succeeds exactly if c lies in the range and every address
        of it is free, and otherwise leaves the tree as it is. */
    method Reserve(c: Cidr, node: string) returns (r: Result<Block>)
      requires Valid() && Aligned(c)
      modifies this`freeBlocks, this`blocks, this`shape, blocks.Values
      ensures Valid() && AddsFresh()
      ensures r.Ok? <==> Within(c, root.Pos()) && FreeRegion(old(Held(shape)), c)
      ensures r.Ok? ==> Has(r.value) && r.value.Pos() == c && Held(shape) == old(Held(shape))[c := Allocated(node)]
      ensures r.Err? ==> shape == old(shape) && blocks == old(blocks)
      ensures r == Err(ErrOutside) <==> !Within(c, root.Pos())
    {
      ContainsIsWithin(c);
      if !Contains(c) { return Err(ErrOutside); }
      var cur := Walk(c);
      ReservableIsFree(cur, c);
      if cur.state != BlockFree || cur.prefixLen > c.prefix { return Err(ErrOverlap); }
      var piece := Take(cur, c.base, c.prefix, node);
      r := Ok(piece);
    }

    /** The allocated or quarantined block that is exactly c. */
    method Find(c: Cidr) returns (found: Block?)
      requires Valid() && Aligned(c)
      ensures found != null <==> c in Held(shape)
      ensures found != null ==> Has(found) && found.Pos() == c
    {
      ContainsIsWithin(c);
      if c in shape { assert NodeOk(shape, root.Pos(), c); }
      if !Contains(c) { return null; }
      var cur := Walk(c);
      if c in shape && cur.Pos() != c { LeafHasNoParts(shape, root.Pos(), cur.Pos(), c); }
      if cur.prefixLen == c.prefix && cur.base == c.base && cur.state != BlockFree && cur.state != BlockSplit {
        return cur;
      }
      return null;
    }

    // ---- giving back, as callers see it ----

    /** A block of this tree hangs below its root. */
    lemma TopIsRoot(b: Block)
      requires Linked() && Has(b)
      ensures Chained(b) && Top(b) == root
      decreases b.prefixLen
    {
      BuddyIsSibling(b);
      if b != root { TopIsRoot(b.parent); }
    }

    /** Trees over different ranges share no block. */
    static lemma TreesShareNothing(a: BuddyAllocator, b: BuddyAllocator)
      requires a.Linked() && b.Linked() && Disjoint(a.root.Pos(), b.root.Pos())
      ensures a.blocks.Values !! b.blocks.Values
    {
      forall x | x in a.blocks.Values && x in b.blocks.Values ensures false {
        var c, d :| c in a.blocks && a.blocks[c] == x && d in b.blocks && b.blocks[d] == x;
        assert BlockOk(a.blocks, a.shape, a.root.Pos(), c) && BlockOk(b.blocks, b.shape, b.root.Pos(), d);
        a.TopIsRoot(x);
        b.TopIsRoot(x);
      }
    }

    method CheckOwned(block: Block?) returns (r: Result<()>)
      requires block != null ==> Chained(block)
      ensures r == if block == null then Err(ErrNilBlock)
                   else if block.state != BlockAllocated then Err(ErrNotAllocated)
                   else if Top(block) != root then Err(ErrForeign)
                   else Ok(())
    {
      if block == null { return Err(ErrNilBlock); }
      if block.state != BlockAllocated { return Err(ErrNotAllocated); }
      var top: Block := block;
      while top.parent != null
        invariant Chained(top) && Top(top) == Top(block)
        decreases top.prefixLen
      {
        top := top.parent;
      }
      if top != root { return Err(ErrForeign); }
      r := Ok(());
    }

    /** No block that is not in the tree any more is still marked as handed out of it. */
    ghost predicate NotStale(block: Block?)
      reads this, block
    {
      block != null ==> Chained(block) && (Top(block) == root && block.state == BlockAllocated ==> Has(block))
    }

    /** Returns a block; with a quarantine configured it is held back first. */
    method Return(block: Block?, now: int) returns (r: Result<()>)
      requires Valid() && NotStale(block)
      modifies this`freeBlocks, this`quarantined, this`blocks, this`shape, blocks.Values
      ensures Valid() && SubMap(blocks, old(blocks))
      ensures r.Ok? <==> block != null && old(block.state) == BlockAllocated && Top(block) == root
      ensures r.Err? ==> shape == old(shape)
      ensures r.Ok? ==> block.Pos() in old(Held(shape))
      ensures r.Ok? && quarantine > 0 ==> Held(shape) == old(Held(shape))[block.Pos() := Quarantined(now + quarantine)]
      ensures r.Ok? && quarantine <= 0 ==> Held(shape) == old(Held(shape)) - {block.Pos()}
    {
      r := CheckOwned(block);
      if r.Err? { return; }
      assert BlockOk(blocks, shape, root.Pos(), block.Pos());
      assert block.Pos() in Held(shape);
      if quarantine > 0 {
        MarkQuarantined(block, now + quarantine);
      } else {
        Release(block);
      }
    }

    method MarkQuarantined(b: Block, releaseAt: int)
      requires Valid() && Has(b) && shape[b.Pos()].Allocated?
      modifies this`quarantined, this`shape, b
      ensures Valid() && Held(shape) == old(Held(shape))[b.Pos() := Quarantined(releaseAt)]
    {
      ghost var s, c := shape, b.Pos();
      assert BlockOk(blocks, s, root.Pos(), c);
      MarkStep(s, root.Pos(), c, Quarantined(releaseAt));
      TakeStepMerged(s, root.Pos(), c, Quarantined(releaseAt));
      IndexQuarantine(freeBlocks, quarantined, blocks, s, c, Quarantined(releaseAt));
      quarantined, shape := quarantined + {b}, s[c := Quarantined(releaseAt)];
      b.state, b.nodeName, b.releaseAt := BlockQuarantined, "", releaseAt;
      forall d | d in blocks && d != c ensures BlockOk(blocks, s, root.Pos(), d) {
        assert old(BlockOk(blocks, s, root.Pos(), d));
      }
      MarkLinks(blocks, s, root.Pos(), c, Quarantined(releaseAt));
    }

    /** Takes back an allocation that was never used, whatever the quarantine. */
    method FreeNow(block: Block?) returns (r: Result<()>)
      requires Valid() && NotStale(block)
      modifies this`freeBlocks, this`quarantined, this`blocks, this`shape, blocks.Values
      ensures Valid() && SubMap(blocks, old(blocks))
      ensures r.Ok? <==> block != null && old(block.state) == BlockAllocated && Top(block) == root
      ensures r.Err? ==> shape == old(shape)
      ensures r.Ok? ==> block.Pos() in old(Held(shape)) && Held(shape) == old(Held(shape)) - {block.Pos()}
    {
      r := CheckOwned(block);
      if r.Err? { return; }
      assert BlockOk(blocks, shape, root.Pos(), block.Pos());
      assert block.Pos() in Held(shape);
      Release(block);
    }

    // ---- consistency check and statistics ----

    static ghost predicate MergedBelow(s: Shape, c: Cidr) {
      forall d :: Unmerged(s, d) ==> !Within(d, c)
    }

    /** Nothing outside c changed from s to t, and c itself only lost blocks inside it. */
    static ghost predicate OnlyBelow(s: Shape, t: Shape, c: Cidr) {
      && c in t && t.Keys <= s.Keys
      && forall d {:trigger d in t} {:trigger d in s} :: d in s && !Within(d, c) ==> d in t && t[d] == s[d]
    }

    /** The blocks inside c were merged, with one event per join: none exactly if c was merged before. */
    static ghost predicate MergedInto(s: Shape, t: Shape, c: Cidr, events: seq<Cidr>) {
      && OnlyBelow(s, t, c) && MergedBelow(t, c)
      && (events == [] <==> MergedBelow(s, c)) && (events == [] ==> t == s)
    }

    /** Merges the free buddy pairs inside b that were left unmerged, innermost first. It needs no
        more than the links of the tree. */
    method DefragmentBelow(b: Block) returns (events: seq<Cidr>)
      requires Linked() && Has(b)
      modifies this`freeBlocks, this`blocks, this`shape, blocks.Values
      ensures Linked() && SubMap(blocks, old(blocks)) && Has(b) && Held(shape) == old(Held(shape))
      ensures MergedInto(old(shape), shape, b.Pos(), events)
      decreases 32 - b.prefixLen
    {
      ghost var s0 := shape;
      assert BlockOk(blocks, s0, root.Pos(), b.Pos());
      if b.state != BlockSplit {
        LeafIsMergedBelow(s0, root.Pos(), b.Pos());
        return [];
      }
      var l, r := b.left, b.right;
      HalvesPresent(b);
      var lower := DefragmentBelow(l);
      ghost var s1 := shape;
      var upper := DefragmentBelow(r);
      ghost var s2 := shape;
      HalvesMerged(s0, s1, s2, b.Pos(), root.Pos(), lower, upper);
      var joined := JoinIfFree(b);
      JoinedMerged(s0, s2, shape, b.Pos(), root.Pos(), lower + upper, joined);
      events := lower + upper + (if joined then [b.Pos()] else []);
    }

    lemma LeafIsMergedBelow(s: Shape, root: Cidr, c: Cidr)
      requires Tree(s, root) && c in s && s[c] != Split
      ensures MergedBelow(s, c)
    {
      forall d | Unmerged(s, d) && Within(d, c) ensures false { LeafHasNoParts(s, root, c, d); }
    }

    lemma HalvesPresent(b: Block)
      requires Linked() && Has(b) && shape[b.Pos()] == Split
      ensures b.left != null && Has(b.left) && b.left.Pos() == LowerHalf(b.Pos())
      ensures b.right != null && Has(b.right) && b.right.Pos() == UpperHalf(b.Pos())
      ensures Disjoint(LowerHalf(b.Pos()), UpperHalf(b.Pos())) && b.prefixLen < 32
      ensures b.left.Kind() == shape[LowerHalf(b.Pos())] && b.right.Kind() == shape[UpperHalf(b.Pos())]
    {
      ghost var c := b.Pos();
      assert BlockOk(blocks, shape, root.Pos(), c) && NodeOk(shape, root.Pos(), c);
      assert BlockOk(blocks, shape, root.Pos(), LowerHalf(c)) && BlockOk(blocks, shape, root.Pos(), UpperHalf(c));
    }

    /** After both halves were worked on, only c itself can be left unmerged. */
    lemma HalvesMerged(s0: Shape, s1: Shape, s2: Shape, c: Cidr, root: Cidr, lower: seq<Cidr>, upper: seq<Cidr>)
      requires Tree(s0, root) && Tree(s2, root) && c in s0 && s0[c] == Split && c.prefix < 32
      requires MergedInto(s0, s1, LowerHalf(c), lower) && MergedInto(s1, s2, UpperHalf(c), upper)
      ensures OnlyBelow(s0, s2, c) && s2[c] == s0[c]
      ensures forall d :: Unmerged(s2, d) && Within(d, c) ==> d == c
      ensures lower + upper == [] ==> s2 == s0
      ensures MergedBelow(s0, c) ==> lower + upper == []
    {
      assert NodeOk(s0, root, c);
      HalvesAligned(c);
      SizeMonotone(c.prefix, c.prefix + 1);
      assert OnlyBelow(s0, s2, c) && s2[c] == s0[c];
      forall d | Unmerged(s2, d) && Within(d, c) ensures d == c { HalvesUnmerged(s1, s2, c, root, d); }
    }

    lemma HalvesUnmerged(s1: Shape, s2: Shape, c: Cidr, root: Cidr, d: Cidr)
      requires Tree(s2, root) && Aligned(c) && c.prefix < 32 && OnlyBelow(s1, s2, UpperHalf(c))
      requires MergedBelow(s1, LowerHalf(c)) && MergedBelow(s2, UpperHalf(c)) && Unmerged(s2, d) && Within(d, c)
      ensures d == c
    {
      assert NodeOk(s2, root, d);
      assert Within(d, LowerHalf(c)) ==> !Unmerged(s1, d);
      if d != c {
        StrictlyWithin(d, c);
        HalvesAligned(d);
      }
    }

    lemma JoinedMerged(s0: Shape, s2: Shape, s3: Shape, c: Cidr, root: Cidr, halves: seq<Cidr>, joined: bool)
      requires Tree(s2, root) && Tree(s3, root) && c in s2 && s2[c] == Split && c in s3
      requires OnlyBelow(s0, s2, c) && (forall d :: Unmerged(s2, d) && Within(d, c) ==> d == c)
      requires (halves == [] ==> s2 == s0) && (MergedBelow(s0, c) ==> halves == [])
      requires joined <==> Unmerged(s2, c)
      requires s3 == if joined then JoinAt(s2, LowerHalf(c)) else s2
      ensures MergedInto(s0, s3, c, halves + if joined then [c] else [])
    {
      assert NodeOk(s2, root, c);
      HalvesAligned(c);
      if joined { LeafIsMergedBelow(s3, root, c); }
    }

    method JoinIfFree(b: Block) returns (joined: bool)
      requires Linked() && Has(b) && shape[b.Pos()] == Split
      modifies this`freeBlocks, this`blocks, this`shape, b
      ensures Linked() && SubMap(blocks, old(blocks)) && Has(b) && Held(shape) == old(Held(shape))
      ensures joined <==> Unmerged(old(shape), b.Pos())
      ensures shape == if joined then JoinAt(old(shape), LowerHalf(b.Pos())) else old(shape)
    {
      HalvesPresent(b);
      joined := b.left.state == BlockFree && b.right.state == BlockFree;
      if joined {
        assert NodeOk(shape, root.Pos(), b.Pos()) && NodeOk(shape, root.Pos(), LowerHalf(b.Pos()));
        HalvesAligned(b.Pos());
        assert LowerHalf(b.Pos()) != root.Pos() by { SizeMonotone(b.prefixLen, b.prefixLen + 1); }
        JoinStep(shape, root.Pos(), LowerHalf(b.Pos()));
        JoinHalves(b, LowerHalf(b.Pos()));
      }
    }

    /** Merging is eager, so in a tree of this allocator Defragment never finds anything. */
    method Defragment(now: int) returns (events: seq<Cidr>)
      requires Valid()
      modifies this`freeBlocks, this`quarantined, this`blocks, this`shape, blocks.Values
      ensures Valid() && events == [] && Held(shape) == Swept(old(Held(shape)), now)
    {
      var _ := Sweep(now);
      assert BlockOk(blocks, shape, root.Pos(), root.Pos());
      events := DefragmentBelow(root);
    }

    /** The numbers of a Stats are what a count of the addresses of c gives. */
    static ghost predicate Counts(s: Shape, c: Cidr, stats: Stats) {
      && stats.freeAddresses == |Census(Held(s), c, IsFree)|
      && stats.allocatedAddresses == |Census(Held(s), c, IsAllocated)|
      && stats.quarantinedAddresses == |Census(Held(s), c, IsQuarantined)|
      && LargestIs(s, c, stats.largestFree)
    }

    static ghost predicate LargestIs(s: Shape, c: Cidr, largest: nat) {
      && (forall d :: d in s && s[d] == Free && Within(d, c) ==> Size(d.prefix) <= largest)
      && (largest == 0 || exists d :: d in s && s[d] == Free && Within(d, c) && Size(d.prefix) == largest)
    }

    /** Counts the addresses below b by what they are. */
    method StatsBelow(b: Block) returns (s: Stats)
      requires Valid() && Has(b)
      ensures Counts(shape, b.Pos(), s) && s.unmergedPairs == 0
      decreases 32 - b.prefixLen
    {
      assert BlockOk(blocks, shape, root.Pos(), b.Pos());
      if b.state != BlockSplit {
        s := StatsOfLeaf(b);
        return;
      }
      HalvesPresent(b);
      assert !Unmerged(shape, b.Pos());
      var pair := if b.left.state == BlockFree && b.right.state == BlockFree then 1 else 0;
      var lower := StatsBelow(b.left);
      var upper := StatsBelow(b.right);
      s := lower.Plus(upper, pair);
      SplitStats(b.Pos(), lower, upper);
    }

    method StatsOfLeaf(b: Block) returns (s: Stats)
      requires Valid() && Has(b) && shape[b.Pos()] != Split
      ensures Counts(shape, b.Pos(), s) && s.unmergedPairs == 0
    {
      assert BlockOk(blocks, shape, root.Pos(), b.Pos());
      var size := Size(b.prefixLen);
      s := Stats(if b.state == BlockFree then size else 0, if b.state == BlockAllocated then size else 0,
                 if b.state == BlockQuarantined then size else 0, 0, if b.state == BlockFree then size else 0);
      LeafStats(b.Pos(), s);
    }

    lemma LeafStats(c: Cidr, s: Stats)
      requires Valid() && c in shape && shape[c] != Split
      requires var what, size := ClassOf(shape[c]), Size(c.prefix);
        s == Stats(if what == IsFree then size else 0, if what == IsAllocated then size else 0,
                   if what == IsQuarantined then size else 0, 0, if what == IsFree then size else 0)
      ensures Counts(shape, c, s)
    {
      CensusOfLeaf(shape, root.Pos(), c, IsFree);
      CensusOfLeaf(shape, root.Pos(), c, IsAllocated);
      CensusOfLeaf(shape, root.Pos(), c, IsQuarantined);
      forall d | d in shape && Within(d, c) ensures d == c { LeafHasNoParts(shape, root.Pos(), c, d); }
    }

    lemma SplitStats(c: Cidr, lower: Stats, upper: Stats)
      requires Valid() && c in shape && shape[c] == Split
      requires Counts(shape, LowerHalf(c), lower) && Counts(shape, UpperHalf(c), upper)
      ensures Counts(shape, c, lower.Plus(upper, 0))
    {
      assert NodeOk(shape, root.Pos(), c);
      CensusOfHalves(Held(shape), c, IsFree);
      CensusOfHalves(Held(shape), c, IsAllocated);
      CensusOfHalves(Held(shape), c, IsQuarantined);
      LargestOfHalves(shape, root.Pos(), c, lower.largestFree, upper.largestFree);
    }

    static lemma LargestOfHalves(s: Shape, root: Cidr, c: Cidr, lower: nat, upper: nat)
      requires Tree(s, root) && c in s && s[c] == Split
      requires LargestIs(s, LowerHalf(c), lower) && LargestIs(s, UpperHalf(c), upper)
      ensures LargestIs(s, c, if lower < upper then upper else lower)
    {
      var largest := if lower < upper then upper else lower;
      assert NodeOk(s, root, c);
      forall d | d in s && s[d] == Free && Within(d, c) ensures Size(d.prefix) <= largest {
        assert NodeOk(s, root, d);
        StrictlyWithin(d, c);
      }
    }
  }

  datatype Stats = Stats(freeAddresses: nat, allocatedAddresses: nat, quarantinedAddresses: nat,
                         unmergedPairs: nat, largestFree: nat)
  {
    function Plus(other: Stats, pairs: nat): Stats {
      Stats(freeAddresses + other.freeAddresses,
            allocatedAddresses + other.allocatedAddresses,
            quarantinedAddresses + other.quarantinedAddresses,
            unmergedPairs + other.unmergedPairs + pairs,
            if largestFree < other.largestFree then other.largestFree else largestFree)
    }
  }
}
