/** Several buddy allocators, one per discontiguous CIDR range, filled in the order they were added. */
module Pools {
  import opened Cidrs
  import opened Shapes
  import opened Addresses
  import opened BuddyBlocks
  import opened BuddyAllocators
  import opened Units
  import opened Demand
  import opened Filling

  class Pool {
    var allocators: seq<BuddyAllocator>
    var quarantine: int
    var minPrefix: nat
    var maxPrefix: nat

    // The ranges and their blocks.
    ghost var repr: set<object>

    /** Range i is in order and its objects belong to the pool. */
    ghost predicate Good(i: nat)
      requires i < |allocators| && allocators[i] in repr
      reads this, repr
    {
      (forall b: Block :: b in allocators[i].blocks.Values ==> b in repr) && allocators[i].Valid()
    }

    ghost predicate Apart(i: nat, j: nat)
      requires i < |allocators| && j < |allocators|
      reads this`allocators
    {
      allocators[i] != allocators[j] && Disjoint(allocators[i].root.Pos(), allocators[j].root.Pos())
    }

    /** Whatever has come into repr is new. */
    twostate predicate AddsFresh()
      reads this
    {
      forall o :: o in repr ==> o in old(repr) || fresh(o)
    }

    ghost predicate Valid()
      reads this, repr
    {
      && this !in repr
      && (forall i :: 0 <= i < |allocators| ==> allocators[i] in repr)
      && (forall i: nat {:trigger Good(i)} :: i < |allocators| ==> Good(i))
      && (forall i: nat, j: nat {:trigger Apart(i, j)} ::
        (i < |allocators| && j < |allocators| && i != j) ==> Apart(i, j))
    }

    static ghost predicate WithLimits(a: BuddyAllocator, minPrefix: nat, maxPrefix: nat) {
      && a.minPrefixLen == minPrefix
      && a.maxPrefixLen == Limit(a.root.Pos(), maxPrefix)
    }

    /** Every range was added with the limits the pool sizes demand with. */
    ghost predicate Uniform()
      reads this`allocators, this`minPrefix, this`maxPrefix
    {
      && maxPrefix <= minPrefix <= 32
      && forall i :: 0 <= i < |allocators| ==> WithLimits(allocators[i], minPrefix, maxPrefix)
    }

    static ghost function BlocksOf(a: BuddyAllocator): (all: set<object>)
      reads a
      ensures forall b: Block :: b in a.blocks.Values ==> b in all
      ensures forall x :: x in all ==> x is Block && x as Block in a.blocks.Values
    {
      set b: Block | b in a.blocks.Values :: b as object
    }

    /** Asks one range for a block of exactly this size. */
    method AskOne(i: nat, a: BuddyAllocator, prefix: nat, node: string, now: int) returns (r: Result<Block>)
      requires Valid() && i < |allocators| && a == allocators[i]
      modifies this`repr, a, a.blocks.Values
      ensures Valid() && repr >= old(repr) && AddsFresh()
      ensures a.Answered(old(Held(a.shape)), prefix, node, now, r)
      ensures StillHands(old(a.shape), old(a.blocks), a.shape, a.blocks)
    {
      OthersApart(i);
      r := a.AllocatePrefix(prefix, node, now);
      forall j: nat | j < |allocators| && j != i ensures Good(j) {
        assert old(Good(j));
      }
      Adopt(i, a);
    }

    lemma OthersApart(i: nat)
      requires Valid() && i < |allocators|
      ensures Good(i)
      ensures forall j: nat {:trigger Good(j)} :: j < |allocators| && j != i ==>
        allocators[j] != allocators[i] && allocators[j].blocks.Values !! allocators[i].blocks.Values
    {
      assert Good(i);
      forall j: nat | j < |allocators| && j != i
        ensures allocators[j] != allocators[i] && allocators[j].blocks.Values !! allocators[i].blocks.Values
      {
        assert Good(j) && Apart(j, i);
        BuddyAllocator.TreesShareNothing(allocators[j], allocators[i]);
      }
    }

    /** The pool as a value: what each range holds once the quarantines that have run out are over. */
    ghost function State(now: int): PoolState
      reads this`allocators, allocators
    {
      var all := allocators;
      PoolState(seq(|all|, i requires 0 <= i < |all| => all[i].root.Pos()),
                seq(|all|, i requires 0 <= i < |all| reads all => Swept(Held(all[i].shape), now)))
    }

    lemma StateOk(now: int)
      requires Valid()
      ensures State(now).Ok()
      ensures Uniform() ==> RootsHold(State(now), minPrefix)
    {
      var s := State(now);
      forall i | 0 <= i < |allocators| ensures Aligned(s.roots[i]) && (Uniform() ==> s.roots[i].prefix <= minPrefix) {
        assert Good(i);
      }
      forall i, j | 0 <= i < j < |allocators| ensures Disjoint(s.roots[i], s.roots[j]) {
        assert Apart(i, j);
      }
    }

    /** Gives or refuses a block of one size out of range i, as a step of the pool's value. */
    static ghost predicate Gives(s: PoolState, t: PoolState, i: nat, prefix: nat, node: string, r: Result<Block>)
      requires i < |s.roots| == |s.held|
    {
      match r
      case Ok(b) => b.prefixLen == prefix && s.FreeIn(i, b.Pos())
        && t == s.With(i, s.held[i][b.Pos() := Allocated(node)])
      case Err(_) => t == s && forall c :: s.FreeIn(i, c) ==> c.prefix != prefix
    }

    method AllocateIn(i: nat, prefix: nat, node: string, now: int) returns (r: Result<Block>)
      requires Valid() && Uniform() && i < |allocators| && maxPrefix <= prefix <= minPrefix
      modifies this`repr, allocators[i], allocators[i].blocks.Values
      ensures Valid() && repr >= old(repr) && AddsFresh()
      ensures Gives(old(State(now)), State(now), i, prefix, node, r)
      ensures r.Ok? ==> GrantedBy(i, r.value, node)
      ensures StillHands(old(allocators[i].shape), old(allocators[i].blocks), allocators[i].shape, allocators[i].blocks)
    {
      var a := allocators[i];
      assert Good(i);
      r := AskOne(i, a, prefix, node, now);
      assert Good(i);
      AnsweredMeans(a, old(Held(a.shape)), prefix, node, now, r);
      assert State(now).held == old(State(now)).held[i := Swept(Held(a.shape), now)] by {
        forall j: nat | j < |allocators| && j != i
          ensures allocators[j].shape == old(allocators[j].shape)
        {
          assert Apart(j, i);
        }
      }
    }

    static lemma AnsweredMeans(a: BuddyAllocator, before: Holdings, prefix: nat, node: string, now: int,
                               r: Result<Block>)
      requires a.Valid() && a.Answered(before, prefix, node, now, r) && prefix <= 32
      requires a.maxPrefixLen == a.root.prefixLen || a.maxPrefixLen <= prefix
      requires prefix <= a.minPrefixLen
      ensures match r
        case Ok(b) =>
          && Aligned(b.Pos()) && Within(b.Pos(), a.root.Pos()) && FreeRegion(Swept(before, now), b.Pos())
          && b.prefixLen == prefix
          && Swept(Held(a.shape), now) == Swept(before, now)[b.Pos() := Allocated(node)]
          && a.Has(b) && a.shape[b.Pos()] == Allocated(node)
        case Err(_) =>
          && Swept(Held(a.shape), now) == Swept(before, now)
          && forall c ::
            (Aligned(c) && Within(c, a.root.Pos()) && FreeRegion(Swept(before, now), c)) ==> c.prefix != prefix
    {
      var swept := Swept(before, now);
      match r {
        case Ok(b) =>
          var f :| BestFit(swept, a.root.Pos(), f, prefix) && b.base == f.base;
          LowestPiece(f, prefix);
          assert FreeRegion(swept, b.Pos());
          assert b.Pos() in Held(a.shape);
        case Err(e) =>
          forall c | Aligned(c) && Within(c, a.root.Pos()) ensures c.prefix >= a.root.prefixLen {
            assert NodeOk(a.shape, a.root.Pos(), a.root.Pos());
            if c != a.root.Pos() { StrictlyWithin(c, a.root.Pos()); }
          }
      }
    }

    // ---- demand ----

    /** b was handed out to node by one of the ranges and is in its tree. */
    ghost predicate Granted(b: Block, node: string)
      reads this`allocators, allocators
    {
      exists i: nat :: i < |allocators| && GrantedBy(i, b, node)
    }

    ghost predicate GrantedBy(i: nat, b: Block, node: string)
      requires i < |allocators|
      reads this`allocators, allocators[i]
    {
      GrantedTo(allocators[i], b, node)
    }

    ghost predicate AllGranted(bs: set<Block>, node: string)
      reads this`allocators, allocators
    {
      forall b {:trigger Granted(b, node)} :: b in bs ==> Granted(b, node)
    }

    /** The first range that had a free block of this size gave b. */
    static ghost predicate GaveOne(s: PoolState, t: PoolState, prefix: nat, node: string, b: Block)
      requires |s.roots| == |s.held|
    {
      && b.prefixLen == prefix
      && exists i: nat ::
        && s.FreeIn(i, b.Pos()) && NoneBefore(s, i, prefix)
        && t == s.With(i, s.held[i][b.Pos() := Allocated(node)])
    }

    /** None of the first n ranges has a free block of this size. */
    static ghost predicate NoneBefore(s: PoolState, n: nat, prefix: nat)
      requires |s.roots| == |s.held|
    {
      forall i: nat, c :: i < n && s.FreeIn(i, c) ==> c.prefix != prefix
    }

    /** Asks range i, and knows which blocks stay handed out. */
    method AllocateKeeping(i: nat, prefix: nat, node: string, now: int, ghost keep: set<Block>)
      returns (r: Result<Block>)
      requires Valid() && Uniform() && i < |allocators| && maxPrefix <= prefix <= minPrefix && AllGranted(keep, node)
      requires NoneBefore(State(now), i, prefix)
      modifies this`repr, repr
      ensures Valid() && AddsFresh()
      ensures r.Ok? ==> GaveOne(old(State(now)), State(now), prefix, node, r.value)
      ensures r.Err? ==> State(now) == old(State(now)) && NoneBefore(State(now), i + 1, prefix)
      ensures AllGranted(keep, node) && (r.Ok? ==> Granted(r.value, node))
    {
      assert Good(i);
      r := AllocateIn(i, prefix, node, now);
      forall b | b in keep ensures Granted(b, node) {
        assert old(Granted(b, node));
        var j: nat :| j < |allocators| && old(GrantedBy(j, b, node));
        if j != i { assert Apart(j, i); }
        assert GrantedBy(j, b, node);
      }
    }

    /** The first range that has a block of this size gives it. */
    method AllocateExact(prefix: nat, node: string, now: int, ghost keep: set<Block>) returns (r: Result<Block>)
      requires Valid() && Uniform() && maxPrefix <= prefix <= minPrefix && AllGranted(keep, node)
      modifies this`repr, repr
      ensures Valid() && AddsFresh()
      ensures r.Ok? ==> GaveOne(old(State(now)), State(now), prefix, node, r.value)
      ensures r.Err? ==> State(now) == old(State(now)) && NoneBefore(State(now), |allocators|, prefix)
      ensures AllGranted(keep, node) && (r.Ok? ==> Granted(r.value, node))
    {
      ghost var s := State(now);
      r := Err(ErrNoSpace);
      for i := 0 to |allocators|
        invariant Valid() && AddsFresh() && AllGranted(keep, node)
        invariant State(now) == s && NoneBefore(s, i, prefix) && r.Err?
      {
        r := AllocateKeeping(i, prefix, node, now, keep);
        if r.Ok? { break; }
      }
    }

    // ---- one block size, or two of the next ----

    /** A block of this size, or else two of the next smaller one. When the first of these fails, what
        it had already taken is dropped, as the program has it, or reported, as it should be. */
    method AllocatePrefixOrSplit(prefix: nat, node: string, now: int, repaired: bool, ghost keep: set<Block>)
      returns (got: seq<Block>, ok: bool, ghost lost: set<Cidr>)
      requires Valid() && Uniform() && maxPrefix <= prefix <= minPrefix && AllGranted(keep, node)
      modifies this`repr, repr
      ensures Valid() && AddsFresh()
      ensures Filled(old(State(now)), State(now), prefix, minPrefix, node, Positions(got), ok, lost, repaired)
      ensures AllGranted(keep + Members(got), node) && (ok ==> lost == {})
      decreases minPrefix - prefix
    {
      ghost var s := State(now);
      StateOk(now);
      lost := {};
      var r := AllocateExact(prefix, node, now, keep);
      if r.Ok? {
        got, ok := [r.value], true;
        GaveOneFills(s, State(now), prefix, minPrefix, node, r.value, repaired);
      } else if prefix >= minPrefix {
        got, ok := [], false;
        FilledNothing(s, minPrefix, node, repaired);
      } else {
        got, ok, lost := SplitInTwo(prefix, node, now, repaired, keep);
      }
    }

    static lemma GaveOneFills(s: PoolState, t: PoolState, prefix: nat, minPrefix: nat, node: string, b: Block,
                              repaired: bool)
      requires RootsHold(s, minPrefix) && prefix <= minPrefix && GaveOne(s, t, prefix, node, b)
      ensures Filled(s, t, prefix, minPrefix, node, Positions([b]), true, {}, repaired)
    {
      var i: nat :| s.FreeIn(i, b.Pos()) && NoneBefore(s, i, prefix)
        && t == s.With(i, s.held[i][b.Pos() := Allocated(node)]);
      FilledExactly(s, t, i, b.Pos(), minPrefix, node, repaired);
      assert Positions([b]) == [b.Pos()];
    }

    /** The two blocks of the next smaller size. */
    method SplitInTwo(prefix: nat, node: string, now: int, repaired: bool, ghost keep: set<Block>)
      returns (got: seq<Block>, ok: bool, ghost lost: set<Cidr>)
      requires Valid() && Uniform() && maxPrefix <= prefix < minPrefix && AllGranted(keep, node)
      modifies this`repr, repr
      ensures Valid() && AddsFresh()
      ensures Filled(old(State(now)), State(now), prefix, minPrefix, node, Positions(got), ok, lost, repaired)
      ensures AllGranted(keep + Members(got), node) && (ok ==> lost == {})
      decreases minPrefix - prefix, 1
    {
      ghost var s := State(now);
      StateOk(now);
      var first;
      first, ok, lost := AllocatePrefixOrSplit(prefix + 1, node, now, repaired, keep);
      ghost var t := State(now);
      if ok {
        ghost var second;
        got, ok, lost, second := SecondOfTwo(prefix, node, now, repaired, keep, first);
        BothFill(s, t, State(now), prefix, minPrefix, node, first, second, ok, lost, repaired);
      } else if repaired {
        got := first;
        FilledFirstKept(s, t, prefix, minPrefix, node, Positions(first), lost);
      } else {
        got := [];
        lost := DropFirst(s, t, prefix, minPrefix, node, first, lost, keep);
      }
    }

    /** The first of two blocks failed: what it got hold of is lost. */
    static lemma DropFirst(s: PoolState, t: PoolState, prefix: nat, minPrefix: nat, node: string, first: seq<Block>,
                           lost: set<Cidr>,
                           keep: set<Block>) returns (all: set<Cidr>)
      requires RootsHold(s, minPrefix) && prefix < minPrefix
      requires Filled(s, t, prefix + 1, minPrefix, node, Positions(first), false, lost, false)
      ensures Filled(s, t, prefix, minPrefix, node, Positions([]), false, all, false) && keep + Members([]) == keep
    {
      all := lost + SetOf(Positions(first));
      FilledFirstFailed(s, t, prefix, minPrefix, node, Positions(first), lost, Positions([]), all);
    }

    /** The second of the two blocks, appended to the first. */
    method SecondOfTwo(prefix: nat, node: string, now: int, repaired: bool, ghost keep: set<Block>, first: seq<Block>)
      returns (got: seq<Block>, ok: bool, ghost lost: set<Cidr>, ghost second: seq<Block>)
      requires Valid() && Uniform() && maxPrefix <= prefix < minPrefix && AllGranted(keep + Members(first), node)
      modifies this`repr, repr
      ensures Valid() && AddsFresh() && got == first + second
      ensures Filled(old(State(now)), State(now), prefix + 1, minPrefix, node, Positions(second), ok, lost, repaired)
      ensures AllGranted(keep + Members(got), node) && (ok ==> lost == {})
      decreases minPrefix - prefix, 0
    {
      var more;
      more, ok, lost := AllocatePrefixOrSplit(prefix + 1, node, now, repaired, keep + Members(first));
      GrantedBoth(keep, first, more, node);
      got, second := first + more, more;
    }

    lemma GrantedBoth(keep: set<Block>, first: seq<Block>, second: seq<Block>, node: string)
      requires AllGranted(keep + Members(first) + Members(second), node)
      ensures AllGranted(keep + Members(first + second), node)
    {
      MembersOfBoth(keep, first, second);
    }

    static lemma BothFill(s: PoolState, t: PoolState, u: PoolState, prefix: nat, minPrefix: nat, node: string,
                          first: seq<Block>, second: seq<Block>, ok: bool, lost: set<Cidr>, repaired: bool)
      requires prefix < minPrefix && Filled(s, t, prefix + 1, minPrefix, node, Positions(first), true, {}, repaired)
      requires Filled(t, u, prefix + 1, minPrefix, node, Positions(second), ok, lost, repaired)
      ensures Filled(s, u, prefix, minPrefix, node, Positions(first + second), ok, lost, repaired)
    {
      PositionsOfBoth(first, second);
      FilledBoth(s, t, u, prefix, minPrefix, node, Positions(first), Positions(second), Positions(first + second),
                 ok, lost, repaired);
    }

    static lemma PositionsOfBoth(first: seq<Block>, second: seq<Block>)
      ensures Positions(first + second) == Positions(first) + Positions(second)
    {
    }

    static lemma MembersOfBoth(keep: set<Block>, first: seq<Block>, second: seq<Block>)
      ensures keep + Members(first + second) == keep + Members(first) + Members(second)
    {
    }

    // ---- the range a block belongs to ----

    /** The index of the range that contains c. */
    method OwnerOf(c: Cidr) returns (owner: int)
      requires Valid() && Aligned(c)
      ensures -1 <= owner < |allocators|
      ensures owner >= 0 ==> Within(c, allocators[owner].root.Pos())
      ensures owner < 0 ==> forall i :: 0 <= i < |allocators| ==> !Within(c, allocators[i].root.Pos())
    {
      owner := -1;
      for i := 0 to |allocators|
        invariant owner == -1
        invariant forall j :: 0 <= j < i ==> !Within(c, allocators[j].root.Pos())
      {
        assert Good(i);
        RootAligned(allocators[i]);
        allocators[i].ContainsIsWithin(c);
        if allocators[i].Contains(c) { return i; }
      }
    }

    static lemma RootAligned(a: BuddyAllocator)
      requires a.Valid()
      ensures Aligned(a.root.Pos())
    {
    }

    lemma OnlyOwner(c: Cidr, i: nat, j: nat)
      requires Valid() && i < |allocators| && j < |allocators|
      requires Within(c, allocators[i].root.Pos()) && Within(c, allocators[j].root.Pos())
      ensures i == j
    {
      assert i != j ==> Apart(i, j);
    }

    /** Takes back an allocation that was never handed out. */
    method FreeNowIn(b: Block, node: string, now: int, ghost keep: set<Block>)
      requires Valid() && Granted(b, node) && AllGranted(keep, node) && forall x :: x in keep ==> x.Pos() != b.Pos()
      modifies this`repr, repr
      ensures Valid() && AddsFresh() && AllGranted(keep, node)
      ensures Released(old(State(now)), State(now), b.Pos())
    {
      var i := GrantingRange(b, node);
      var a := allocators[i];
      assert Good(i);
      ReleaseFrom(i, a, b);
      forall x | x in keep ensures Granted(x, node) {
        assert old(Granted(x, node));
        var j: nat :| j < |allocators| && old(GrantedBy(j, x, node));
        if j != i { assert Apart(j, i); }
        assert GrantedBy(j, x, node);
      }
      assert State(now).held == old(State(now)).held[i := old(State(now)).held[i] - {b.Pos()}] by {
        assert Swept(Held(a.shape), now) == Swept(old(Held(a.shape)), now) - {b.Pos()};
        forall j: nat | j < |allocators| && j != i
          ensures allocators[j].shape == old(allocators[j].shape)
        {
          assert Apart(j, i);
        }
      }
    }

    /** The one range that c lies in does not hold it any more. */
    static ghost predicate Released(s: PoolState, t: PoolState, c: Cidr) {
      && |s.roots| == |s.held|
      && exists i: nat :: i < |s.roots| && Within(c, s.roots[i]) && t == s.With(i, s.held[i] - {c})
    }

    method GrantingRange(b: Block, node: string) returns (i: nat)
      requires Valid() && Granted(b, node)
      ensures i < |allocators| && GrantedBy(i, b, node) && Within(b.Pos(), allocators[i].root.Pos())
    {
      ghost var k: nat :| k < |allocators| && GrantedBy(k, b, node);
      assert Good(k);
      InTree(allocators[k], b);
      var owner := OwnerOf(b.Pos());
      assert owner >= 0;
      OnlyOwner(b.Pos(), k, owner);
      i := owner;
    }

    static lemma InTree(a: BuddyAllocator, b: Block)
      requires a.Valid() && a.Has(b)
      ensures Aligned(b.Pos()) && Within(b.Pos(), a.root.Pos())
    {
      assert NodeOk(a.shape, a.root.Pos(), b.Pos());
    }

    method ReleaseFrom(i: nat, a: BuddyAllocator, b: Block)
      requires Valid() && i < |allocators| && a == allocators[i] && a.Has(b) && a.shape[b.Pos()].Allocated?
      modifies a, a.blocks.Values
      ensures Valid() && b.Pos() in old(Held(a.shape)) && Held(a.shape) == old(Held(a.shape)) - {b.Pos()}
      ensures forall c {:trigger old(a.shape)[c]} {:trigger a.shape[c]} ::
        (c in old(a.shape) && old(a.shape)[c].Allocated? && c != b.Pos() && c in old(a.blocks)) ==>
        c in a.shape && a.shape[c] == old(a.shape)[c] && c in a.blocks && a.blocks[c] == old(a.blocks)[c]
    {
      OthersApart(i);
      a.TopIsRoot(b);
      assert BlockOk(a.blocks, a.shape, a.root.Pos(), b.Pos());
      var r := a.FreeNow(b);
      forall j: nat | j < |allocators| ensures Good(j) {
        assert old(Good(j));
      }
      forall c | c in old(a.shape) && old(a.shape)[c].Allocated? && c != b.Pos()
        ensures c in a.shape && a.shape[c] == old(a.shape)[c]
      {
        assert c in old(Held(a.shape)) && c in Held(a.shape);
      }
    }

    // ---- growing beside a block of the node ----

    /** A block that was handed out is held in one of the ranges. */
    lemma GrantedIsHeld(b: Block, node: string, now: int)
      requires Valid() && Granted(b, node)
      ensures HeldIn(State(now), b.Pos())
    {
      var i: nat :| i < |allocators| && GrantedBy(i, b, node);
      assert Good(i);
      InTree(allocators[i], b);
      assert b.Pos() in Held(allocators[i].shape) && b.Pos() in State(now).held[i];
    }

    /** c is a free block beside a range around `block` that the node owns: the buddy of that range, or the near
        piece of it of the size that the request is rounded up to. */
    static ghost predicate Beside(s: PoolState, i: nat, block: Cidr, anchor: Cidr, c: Cidr, p: nat, node: string)
      requires |s.roots| == |s.held|
    {
      && s.FreeIn(i, c) && Aligned(anchor) && Within(block, anchor) && anchor.prefix > 0
      && OwnsAll(s.held[i], anchor, node)
      && Within(c, Sibling(anchor)) && (c.Last() + 1 == anchor.base || anchor.Last() + 1 == c.base)
      && c.prefix == if p < anchor.prefix then anchor.prefix else p
    }

    /** What range i gives beside a block of the node, as a step of the pool's value. */
    static ghost predicate GaveBeside(s: PoolState, t: PoolState, i: nat, block: Cidr, requested: int, maxPrefix: nat,
                                      anchor: Cidr, p: nat, node: string, r: Result<Block>)
      requires i < |s.roots| == |s.held|
    {
      match r
      case Ok(b) => Beside(s, i, block, anchor, b.Pos(), p, node)
        && t == s.With(i, s.held[i][b.Pos() := Allocated(node)])
      case Err(e) =>
        && t == s && Anchored(s.roots[i], s.held[i], block, anchor, node)
        && Refused(s.roots[i], s.held[i], anchor, requested, maxPrefix, e)
    }

    /** anchor is the largest part of the range around the block that the node owns. */
    static ghost predicate Anchored(root: Cidr, held: Holdings, block: Cidr, anchor: Cidr, node: string) {
      && Aligned(anchor) && Within(block, anchor) && OwnsAll(held, anchor, node)
      && (anchor != root ==> anchor.prefix > 0 && !OwnsAll(held, Sibling(anchor), node))
    }

    /** There is no buddy or it is not free, or else the request is larger than any block of the range may be. */
    static ghost predicate Refused(root: Cidr, held: Holdings, anchor: Cidr, requested: int, maxPrefix: nat,
                                   e: AllocError) {
      && (e == ErrBuddyUnavailable <==> NoBuddy(root, held, anchor))
      && (e != ErrBuddyUnavailable ==> e == ErrTooLarge && requested > Size(Limit(root, maxPrefix)))
    }

    static ghost predicate NoBuddy(root: Cidr, held: Holdings, anchor: Cidr) {
      anchor == root || anchor.prefix == 0 || !FreeRegion(held, Sibling(anchor))
    }

    /** The prefix of the largest block that a range gives. */
    static function Limit(root: Cidr, maxPrefix: nat): nat {
      if maxPrefix < root.prefix then root.prefix else maxPrefix
    }

    method GrowOne(i: nat, a: BuddyAllocator, b: Block, requested: int, node: string, now: int, ghost s: PoolState)
      returns (r: Result<Block>, ghost anchor: Cidr, ghost p: nat)
      requires Valid() && Uniform() && i < |allocators| && a == allocators[i] && GrantedTo(a, b, node)
      requires s == State(now)
      modifies this`repr, a, a.blocks.Values
      ensures Valid() && repr >= old(repr) && AddsFresh()
      ensures GaveBeside(s, s.With(i, Swept(Held(a.shape), now)), i, b.Pos(), requested, maxPrefix, anchor, p, node, r)
      ensures r.Ok? ==> Fits(minPrefix, requested, p)
      ensures StillHands(old(a.shape), old(a.blocks), a.shape, a.blocks)
    {
      assert Good(i) && b.Pos() in Held(a.shape);
      r, anchor := AskBeside(i, a, b, requested, node, now);
      assert Good(i);
      p := BesideMeans(a, s, i, old(Held(a.shape)), b.Pos(), requested, maxPrefix, node, now, r, anchor);
      GaveBesideIn(s, i, b.Pos(), requested, maxPrefix, anchor, p, node, r, Swept(Held(a.shape), now));
    }

    method GrowIn(i: nat, b: Block, requested: int, node: string, now: int)
      returns (r: Result<Block>, ghost anchor: Cidr, ghost p: nat)
      requires Valid() && Uniform() && i < |allocators| && GrantedBy(i, b, node)
      modifies this`repr, allocators[i], allocators[i].blocks.Values
      ensures Valid() && repr >= old(repr) && AddsFresh()
      ensures GaveBeside(old(State(now)), State(now), i, b.Pos(), requested, maxPrefix, anchor, p, node, r)
      ensures r.Ok? ==> Fits(minPrefix, requested, p)
      ensures StillHands(old(allocators[i].shape), old(allocators[i].blocks), allocators[i].shape, allocators[i].blocks)
    {
      var a := allocators[i];
      r, anchor, p := GrowOne(i, a, b, requested, node, now, State(now));
      assert State(now).held == old(State(now)).held[i := Swept(Held(a.shape), now)] by {
        forall j: nat | j < |allocators| && j != i
          ensures allocators[j].shape == old(allocators[j].shape)
        {
          assert Apart(j, i);
        }
      }
    }

    /** Gives the node a block beside one that it has. */
    method AllocateFromBuddy(b: Block, requested: int, node: string, now: int, ghost keep: set<Block>)
      returns (r: Result<Block>, ghost i: nat, ghost anchor: Cidr, ghost p: nat)
      requires Valid() && Uniform() && Granted(b, node) && AllGranted(keep, node)
      modifies this`repr, repr
      ensures Valid() && AddsFresh() && AllGranted(keep, node)
      ensures i < |allocators|
      ensures GaveBeside(old(State(now)), State(now), i, b.Pos(), requested, maxPrefix, anchor, p, node, r)
      ensures r.Ok? ==> Fits(minPrefix, requested, p)
    {
      var owner := GrantingRange(b, node);
      i := owner;
      assert Good(i);
      r, anchor, p := GrowIn(owner, b, requested, node, now);
      forall x | x in keep ensures Granted(x, node) {
        assert old(Granted(x, node));
        var j: nat :| j < |allocators| && old(GrantedBy(j, x, node));
        if j != i { assert Apart(j, i); }
        assert GrantedBy(j, x, node);
      }
    }

    /** p is the prefix of the smallest block for a request, unless that is less than a minimum block. */
    static ghost predicate Fits(minPrefix: nat, requested: int, p: nat) {
      p <= minPrefix && Size(p) >= requested && (p < minPrefix ==> Size(p + 1) < requested)
    }

    method AskBeside(i: nat, a: BuddyAllocator, b: Block, requested: int, node: string, now: int)
      returns (r: Result<Block>, ghost anchor: Cidr)
      requires Valid() && i < |allocators| && a == allocators[i] && a.Has(b) && a.shape[b.Pos()].Allocated?
      modifies this`repr, a, a.blocks.Values
      ensures Valid() && repr >= old(repr) && AddsFresh()
      ensures StillHands(old(a.shape), old(a.blocks), a.shape, a.blocks)
      ensures a.GrowsBeside(Swept(old(Held(a.shape)), now), b.Pos(), requested, node, r, anchor)
    {
      assert Good(i);
      r, anchor := Forward(i, a, b, requested, node, now);
      Adopt(i, a);
    }

    /** Takes over the blocks of a range. */
    ghost method Adopt(i: nat, a: BuddyAllocator)
      requires this !in repr && i < |allocators| && a == allocators[i] && a.Valid()
      requires forall j :: 0 <= j < |allocators| ==> allocators[j] in repr
      requires forall j: nat {:trigger Good(j)} :: j < |allocators| && j != i ==> Good(j)
      requires forall j: nat, k: nat {:trigger Apart(j, k)} :: j < |allocators| && k < |allocators| && j != k ==>
        Apart(j, k)
      modifies this`repr
      ensures Valid() && repr == old(repr) + BlocksOf(a)
    {
      repr := repr + BlocksOf(a);
      forall j: nat | j < |allocators| ensures Good(j) {
        if j != i { assert old(Good(j)); }
      }
    }

    /** The others do not share a block with the range that is asked. */
    method Forward(i: nat, a: BuddyAllocator, b: Block, requested: int, node: string, now: int)
      returns (r: Result<Block>, ghost anchor: Cidr)
      requires Valid() && i < |allocators| && a == allocators[i] && a.Has(b) && a.shape[b.Pos()].Allocated?
      modifies a, a.blocks.Values
      ensures a.Valid() && fresh(a.blocks.Values - old(a.blocks.Values))
      ensures forall j: nat {:trigger Good(j)} :: j < |allocators| && j != i ==> Good(j)
      ensures StillHands(old(a.shape), old(a.blocks), a.shape, a.blocks)
      ensures a.GrowsBeside(Swept(old(Held(a.shape)), now), b.Pos(), requested, node, r, anchor)
    {
      OthersApart(i);
      r, anchor := a.AllocateFromBuddy(b, requested, node, now);
      forall j: nat | j < |allocators| && j != i ensures Good(j) {
        assert old(Good(j));
      }
    }

    static lemma BesideMeans(a: BuddyAllocator, s: PoolState, i: nat, before: Holdings, block: Cidr, requested: int,
                             maxPrefix: nat, node: string, now: int, r: Result<Block>, anchor: Cidr) returns (p: nat)
      requires a.maxPrefixLen == Limit(a.root.Pos(), maxPrefix)
      requires a.Valid() && a.GrowsBeside(Swept(before, now), block, requested, node, r, anchor)
      requires block in before && before[block] == Allocated(node)
      requires i < |s.roots| == |s.held| && s.roots[i] == a.root.Pos() && s.held[i] == Swept(before, now)
      ensures r.Err? ==> Swept(Held(a.shape), now) == Swept(before, now)
      ensures r.Err? ==>
        && Anchored(s.roots[i], s.held[i], block, anchor, node)
        && Refused(s.roots[i], s.held[i], anchor, requested, maxPrefix, r.error)
      ensures r.Ok? ==> Fits(a.minPrefixLen, requested, p) && Beside(s, i, block, anchor, r.value.Pos(), p, node)
      ensures r.Ok? ==> Swept(Held(a.shape), now) == Swept(before, now)[r.value.Pos() := Allocated(node)]
    {
      p := 0;
      if r.Ok? {
        p :| a.RightSize(requested, p) && r.value.prefixLen == if p < anchor.prefix then anchor.prefix else p;
        InTree(a, r.value);
        PartIsFree(s.held[i], Sibling(anchor), r.value.Pos());
        SweptWithOne(before, r.value.Pos(), node, now);
      }
    }

    /** What a range gives is what the pool gives. */
    static lemma GaveBesideIn(s: PoolState, i: nat, block: Cidr, requested: int, maxPrefix: nat, anchor: Cidr, p: nat,
                              node: string, r: Result<Block>, after: Holdings)
      requires i < |s.roots| == |s.held|
      requires r.Err? ==> after == s.held[i]
      requires r.Err? ==>
        && Anchored(s.roots[i], s.held[i], block, anchor, node)
        && Refused(s.roots[i], s.held[i], anchor, requested, maxPrefix, r.error)
      requires r.Ok? ==> Beside(s, i, block, anchor, r.value.Pos(), p, node)
      requires r.Ok? ==> after == s.held[i][r.value.Pos() := Allocated(node)]
      ensures GaveBeside(s, s.With(i, after), i, block, requested, maxPrefix, anchor, p, node, r)
    {
      assert s.held[i := s.held[i]] == s.held;
    }

    static lemma SweptWithOne(before: Holdings, c: Cidr, node: string, now: int)
      ensures Swept(Swept(before, now)[c := Allocated(node)], now) == Swept(before, now)[c := Allocated(node)]
    {
    }

    static ghost predicate GrantedTo(a: BuddyAllocator, b: Block, node: string)
      reads a
    {
      a.Has(b) && a.shape[b.Pos()] == Allocated(node)
    }

    static lemma PartIsFree(held: Holdings, c: Cidr, part: Cidr)
      requires FreeRegion(held, c) && Within(part, c)
      ensures FreeRegion(held, part)
    {
      forall x | part.Contains(x) ensures FreeAddress(held, x) { assert c.Contains(x); }
    }

    // ---- a whole demand ----

    /** Enough blocks for a demand. If it cannot be met, what was taken is given back, and then the pool is as it
        was: exactly if nothing was lost in the program, and always if the fall-back is repaired. */
    method AllocateDemand(requested: int, node: string, now: int, repaired: bool)
      returns (r: Result<seq<Block>>, ghost given: seq<Cidr>, ghost pieces: seq<nat>, ghost lost: set<Cidr>)
      requires Valid() && Uniform()
      modifies this`repr, repr
      ensures Valid() && AddsFresh()
      ensures LargestFirst(pieces, minPrefix, maxPrefix)
      ensures TotalUnits(pieces, minPrefix) == UnitsNeeded(requested, minPrefix)
      ensures Demanded(old(State(now)), State(now), requested, pieces, minPrefix, node, r.Ok?, given, lost, repaired)
      ensures r.Ok? ==> given == Positions(r.value)
      ensures r.Err? ==>
        (State(now) == old(State(now)) <==>
          repaired || Lost(pieces, minPrefix, FreeCount(old(State(now)), minPrefix)) == 0)
      ensures forall c :: c in lost ==> c.prefix <= minPrefix
    {
      ghost var s := State(now);
      var plan := SplitDemand(requested, minPrefix, maxPrefix);
      pieces := plan;
      StateOk(now);
      ServedNone(s, pieces, minPrefix, node);
      var got: seq<Block>, ok;
      got, ok, lost := AllocatePieces(plan, node, now, repaired, s);
      if ok {
        r, given, lost := Ok(got), Positions(got), {};
        DemandMet(s, State(now), requested, pieces, minPrefix, node, given, repaired);
      } else {
        GiveBack(got, node, now, requested, pieces, repaired, s, lost);
        r, given := Err(ErrNoSpace), [];
      }
    }

    /** Gives back what was taken for a demand that cannot be met. */
    method GiveBack(got: seq<Block>, node: string, now: int, ghost requested: int, ghost pieces: seq<nat>,
                    ghost repaired: bool,
                    ghost s: PoolState, ghost lost: set<Cidr>)
      requires Valid() && Uniform() && AllGranted(Members(got), node) && RootsHold(s, minPrefix)
      requires LargestFirst(pieces, minPrefix, maxPrefix)
      requires TotalUnits(pieces, minPrefix) == UnitsNeeded(requested, minPrefix)
      requires Stopped(s, State(now), pieces, minPrefix, node, Positions(got), lost, repaired)
      modifies this`repr, repr
      ensures Valid() && AddsFresh()
      ensures Demanded(s, State(now), requested, pieces, minPrefix, node, false, [], lost, repaired)
      ensures State(now) == s <==> repaired || Lost(pieces, minPrefix, FreeCount(s, minPrefix)) == 0
      ensures forall c :: c in lost ==> c.prefix <= minPrefix
    {
      FreeAll(got, node, now, s, lost);
      DemandRefused(s, State(now), requested, pieces, minPrefix, node, lost, repaired);
      RollsBack(s, State(now), requested, pieces, minPrefix, node, lost, repaired);
    }

    /** Serves the pieces one after the other until one fails. */
    method AllocatePieces(plan: seq<nat>, node: string, now: int, repaired: bool, ghost s: PoolState)
      returns (got: seq<Block>, ok: bool, ghost lost: set<Cidr>)
      requires Valid() && Uniform() && LargestFirst(plan, minPrefix, maxPrefix)
      requires s == State(now) && Served(s, s, plan, 0, minPrefix, node, [])
      modifies this`repr, repr
      ensures Valid() && AddsFresh() && AllGranted(Members(got), node)
      ensures ok ==> Served(s, State(now), plan, |plan|, minPrefix, node, Positions(got))
      ensures !ok ==> Stopped(s, State(now), plan, minPrefix, node, Positions(got), lost, repaired)
    {
      got, ok, lost := [], true, {};
      assert Positions(got) == [];
      for j := 0 to |plan|
        invariant Valid() && AddsFresh() && AllGranted(Members(got), node) && ok
        invariant Served(s, State(now), plan, j, minPrefix, node, Positions(got))
      {
        got, ok, lost := AllocatePiece(plan, j, node, now, repaired, got, s);
        if !ok { break; }
      }
    }

    /** A piece failed: what was taken so far, and which of it was lost. */
    static ghost predicate Stopped(s: PoolState, t: PoolState, plan: seq<nat>, minPrefix: nat, node: string,
                                   got: seq<Cidr>, lost: set<Cidr>,
                                   repaired: bool)
      requires forall i :: 0 <= i < |plan| ==> plan[i] <= minPrefix
    {
      && Took(s, t, SetOf(got) + lost, node) && Fitting(got, lost, minPrefix)
      && TotalUnits(plan, minPrefix) > FreeCount(s, minPrefix)
      && (lost == {} <==> repaired || Lost(plan, minPrefix, FreeCount(s, minPrefix)) == 0)
    }

    /** Adds the blocks for piece j. */
    method AllocatePiece(plan: seq<nat>, j: nat, node: string, now: int, repaired: bool, before: seq<Block>,
                         ghost s: PoolState)
      returns (got: seq<Block>, ok: bool, ghost lost: set<Cidr>)
      requires Valid() && Uniform() && LargestFirst(plan, minPrefix, maxPrefix) && j < |plan|
      requires AllGranted(Members(before), node)
      requires Served(s, State(now), plan, j, minPrefix, node, Positions(before))
      modifies this`repr, repr
      ensures Valid() && AddsFresh() && AllGranted(Members(got), node)
      ensures ok ==> Served(s, State(now), plan, j + 1, minPrefix, node, Positions(got))
      ensures !ok ==> Stopped(s, State(now), plan, minPrefix, node, Positions(got), lost, repaired)
    {
      ghost var t := State(now);
      var more;
      more, ok, lost := AllocatePrefixOrSplit(plan[j], node, now, repaired, Members(before));
      got := before + more;
      PositionsOfBoth(before, more);
      MembersOfBoth({}, before, more);
      assert Members(got) == Members(before) + Members(more);
      if ok {
        assert lost == {};
        ServedOneMore(s, t, State(now), plan, j, minPrefix, node, Positions(before), Positions(more), Positions(got),
                      repaired);
      } else {
        ServedNoMore(s, t, State(now), plan, j, minPrefix, node, Positions(before), Positions(more), Positions(got),
                     lost, repaired);
      }
    }

    /** Gives back everything that a failed demand had got hold of. */
    method FreeAll(got: seq<Block>, node: string, now: int, ghost s: PoolState, ghost lost: set<Cidr>)
      requires Valid() && AllGranted(Members(got), node) && Fitting(Positions(got), lost, minPrefix)
      requires Took(s, State(now), SetOf(Positions(got)) + lost, node)
      modifies this`repr, repr
      ensures Valid() && AddsFresh() && Took(s, State(now), lost, node)
    {
      for i := 0 to |got|
        invariant Valid() && AddsFresh() && AllGranted(Members(got[i..]), node)
        invariant Took(s, State(now), SetOf(Positions(got[i..])) + lost, node)
      {
        ghost var t := State(now);
        FirstOfRest(got, i, lost, minPrefix);
        FreeNowIn(got[i], node, now, Members(got[i + 1..]));
        GaveBackOne(s, t, State(now), SetOf(Positions(got[i..])) + lost, node, got[i].Pos());
      }
      assert SetOf(Positions(got[|got|..])) + lost == lost;
    }

    static lemma FirstOfRest(got: seq<Block>, i: nat, lost: set<Cidr>, minPrefix: nat)
      requires i < |got| && Fitting(Positions(got), lost, minPrefix)
      ensures got[i] in Members(got[i..]) && Members(got[i + 1..]) <= Members(got[i..])
      ensures forall x :: x in Members(got[i + 1..]) ==> x.Pos() != got[i].Pos()
      ensures SetOf(Positions(got[i..])) + lost - {got[i].Pos()} == SetOf(Positions(got[i + 1..])) + lost
      ensures got[i].Pos() in SetOf(Positions(got[i..]))
    {
      var c, rest := got[i].Pos(), got[i + 1..];
      assert Positions(got)[i] == c;
      assert Positions(got[i..]) == [c] + Positions(rest);
      forall x | x in rest ensures x.Pos() != c {
        var j: nat :| j < |rest| && rest[j] == x;
        assert Differ(Positions(got), i, i + 1 + j);
      }
      assert SetOf(Positions(got[i..])) == {c} + SetOf(Positions(rest));
    }

    static lemma GaveBackOne(s: PoolState, t: PoolState, u: PoolState, blocks: set<Cidr>, node: string, c: Cidr)
      requires Took(s, t, blocks, node) && c in blocks && Released(t, u, c)
      ensures Took(s, u, blocks - {c}, node)
    {
      var i: nat :| i < |t.roots| && Within(c, t.roots[i]) && u == t.With(i, t.held[i] - {c});
      GaveBack(s, t, blocks, node, i, c);
    }

    // ---- setting up and rebuilding ----

    constructor ()
      ensures Valid() && allocators == [] && fresh(repr)
    {
      allocators, quarantine, minPrefix, maxPrefix, repr := [], 0, 0, 0, {};
    }

    /** The pool as it is, quarantined blocks included. */
    ghost function Raw(): PoolState
      reads this`allocators, allocators
    {
      var all := allocators;
      PoolState(seq(|all|, i requires 0 <= i < |all| => all[i].root.Pos()),
                seq(|all|, i requires 0 <= i < |all| reads all => Held(all[i].shape)))
    }

    method OverlapsSome(c: Cidr) returns (overlaps: bool)
      requires Valid() && Aligned(c)
      ensures overlaps <==> !ApartFromAll(c)
    {
      for i := 0 to |allocators|
        invariant forall j :: 0 <= j < i ==> Disjoint(allocators[j].root.Pos(), c)
      {
        assert Good(i);
        OverlapMeansContains(allocators[i], c);
        if allocators[i].root.Pos().Contains(c.base) || c.Contains(allocators[i].root.base) { return true; }
      }
      overlaps := false;
    }

    ghost predicate ApartFromAll(c: Cidr)
      reads this`allocators
    {
      forall j :: 0 <= j < |allocators| ==> Disjoint(allocators[j].root.Pos(), c)
    }

    /** Adds an empty range. It is refused if it overlaps a range of the pool, or if it or the limits
        do not leave room for one minimum block. */
    method AddCIDR(c: Cidr, minPrefixLen: nat, maxPrefixLen: nat) returns (r: Result<()>)
      requires Valid() && Aligned(c)
      modifies this
      ensures Valid() && AddsFresh()
      ensures r.Ok? <==> old(ApartFromAll(c)) && c.prefix <= minPrefixLen <= 32 && maxPrefixLen <= minPrefixLen
      ensures r.Err? ==> allocators == old(allocators) && minPrefix == old(minPrefix) && maxPrefix == old(maxPrefix)
      ensures r.Ok? ==> |allocators| == |old(allocators)| + 1 && allocators[..|old(allocators)|] == old(allocators)
      ensures r.Ok? ==> var a := allocators[|old(allocators)|];
        && fresh(a) && a.root.Pos() == c && Held(a.shape) == map[] && WithLimits(a, minPrefixLen, maxPrefixLen)
        && a.quarantine == quarantine
      ensures r.Ok? ==> minPrefix == (if old(allocators) == [] then minPrefixLen else old(minPrefix))
      ensures r.Ok? ==> maxPrefix == (if old(allocators) == [] then maxPrefixLen else old(maxPrefix))
    {
      var made := NewRange(c, minPrefixLen, maxPrefixLen);
      if made.Err? { return Err(made.error); }
      Append(made.value);
      if |allocators| == 1 { minPrefix, maxPrefix := minPrefixLen, maxPrefixLen; }
      r := Ok(());
    }

    /** An empty tree for the range, with the limits clamped to it. */
    method NewRange(c: Cidr, minPrefixLen: nat, maxPrefixLen: nat) returns (r: Result<BuddyAllocator>)
      requires Valid() && Aligned(c)
      ensures Valid()
      ensures r.Ok? <==> ApartFromAll(c) && c.prefix <= minPrefixLen <= 32 && maxPrefixLen <= minPrefixLen
      ensures r.Ok? ==> var a := r.value;
        && fresh(a) && fresh(a.root) && a.Valid() && a.root.Pos() == c && a.blocks.Values == {a.root}
        && Held(a.shape) == map[] && WithLimits(a, minPrefixLen, maxPrefixLen) && a.quarantine == quarantine
    {
      r := BuddyAllocator.Make(c, minPrefixLen, if maxPrefixLen < c.prefix then c.prefix else maxPrefixLen);
      if r.Err? { return; }
      var overlaps := OverlapsSome(c);
      if overlaps { return Err(ErrOverlap); }
      r.value.quarantine := quarantine;
    }

    method Append(a: BuddyAllocator)
      requires Valid() && a.Valid() && a !in repr && a.blocks.Values == {a.root} && ApartFromAll(a.root.Pos())
      modifies this`allocators, this`repr
      ensures Valid() && repr == old(repr) + {a, a.root} && allocators == old(allocators) + [a]
    {
      allocators := allocators + [a];
      repr := repr + {a, a.root};
      forall j: nat | j < |allocators| ensures Good(j) {
        if j < |allocators| - 1 { assert old(Good(j)); }
      }
      forall j: nat, k: nat | j < |allocators| && k < |allocators| && j != k ensures Apart(j, k) {
        if j < |allocators| - 1 && k < |allocators| - 1 { assert old(Apart(j, k)); }
      }
    }

    static lemma OverlapMeansContains(a: BuddyAllocator, c: Cidr)
      requires a.Valid() && Aligned(c)
      ensures Disjoint(a.root.Pos(), c) <==> !(a.root.Pos().Contains(c.base) || c.Contains(a.root.base))
    {
    }

    /** Hands out exactly c in the range it lies in: possible exactly if every address of it is free. */
    method Reserve(c: Cidr, node: string) returns (r: Result<Block>)
      requires Valid() && Aligned(c)
      modifies this`repr, repr
      ensures Valid() && AddsFresh()
      ensures r.Ok? <==> InSome(old(Raw()), c)
      ensures r.Ok? ==> exists i: nat ::
        old(Raw()).FreeIn(i, c) && Raw() == old(Raw()).With(i, old(Raw()).held[i][c := Allocated(node)])
      ensures r.Err? ==> Raw() == old(Raw())
    {
      var i := OwnerOf(c);
      if i < 0 { return Err(ErrOutside); }
      assert Good(i);
      r := ReserveIn(i, allocators[i], c, node);
      forall j: nat | j < |allocators| && j != i
        ensures allocators[j].shape == old(allocators[j].shape)
      {
        assert Apart(j, i);
      }
      OnlyRange(c, i);
      if r.Ok? {
        assert old(Raw()).FreeIn(i, c);
        assert Raw().held == old(Raw()).held[i := Held(allocators[i].shape)];
      } else {
        assert Raw().held == old(Raw()).held;
      }
    }

    lemma OnlyRange(c: Cidr, i: nat)
      requires Valid() && i < |allocators| && Within(c, allocators[i].root.Pos())
      ensures forall j :: 0 <= j < |allocators| && Within(c, allocators[j].root.Pos()) ==> j == i
    {
      forall j: nat | j < |allocators| && Within(c, allocators[j].root.Pos()) ensures j == i { OnlyOwner(c, i, j); }
    }

    method ReserveIn(i: nat, a: BuddyAllocator, c: Cidr, node: string) returns (r: Result<Block>)
      requires Valid() && i < |allocators| && a == allocators[i] && Aligned(c) && Within(c, a.root.Pos())
      modifies this`repr, a, a.blocks.Values
      ensures Valid() && repr >= old(repr) && AddsFresh()
      ensures r.Ok? <==> FreeRegion(old(Held(a.shape)), c)
      ensures Held(a.shape) == if r.Ok? then old(Held(a.shape))[c := Allocated(node)] else old(Held(a.shape))
    {
      OthersApart(i);
      r := a.Reserve(c, node);
      forall j: nat | j < |allocators| && j != i ensures Good(j) {
        assert old(Good(j));
      }
      Adopt(i, a);
    }
  }

  // ---- a demand that loses a block ----

  const SMALL := Cidr(0, 28)

  lemma OneUnitFree(s: PoolState)
    requires s == PoolState([SMALL], [map[]])
    ensures RootsHold(s, 28) && FreeCount(s, 28) == 1
  {
    assert Size(28) == 16 && Multiple(0, 16) && Aligned(SMALL);
    forall r ensures r in s.FreeUnits(28) <==> r == SMALL {
      FreeUnitsAre(s, 28, r);
      UnitsAreParts(SMALL, 28, r);
      if r == SMALL { assert s.FreeIn(0, r); }
    }
    assert s.FreeUnits(28) == {SMALL};
  }

  lemma OneUnitLost(pieces: seq<nat>)
    requires LargestFirst(pieces, 28, 26) && TotalUnits(pieces, 28) == UnitsNeeded(64, 28)
    ensures UnitsNeeded(64, 28) == 4 && Lost(pieces, 28, 1) != 0
  {
    assert Size(28) == 16;
    OneBigPiece(pieces);
    assert Pow2(2) == 4 && Pow2(1) == 2;
  }

  /** The program as it is can lose a block: of a pool with one /28, 64 addresses are asked for. That is refused,
      and yet the pool is not as it was. */
  method LoseABlock(node: string, now: int) returns (pool: Pool, r: Result<seq<Block>>, ghost before: PoolState)
    ensures pool.Valid() && r.Err? && before == PoolState([SMALL], [map[]]) && pool.State(now) != before
  {
    assert Size(28) == 16 && Multiple(0, 16) && Aligned(SMALL);
    pool := new Pool();
    var _ := pool.AddCIDR(SMALL, 28, 26);
    before := pool.State(now);
    assert before == PoolState([SMALL], [map[]]);
    OneUnitFree(before);
    ghost var given, pieces, lost;
    r, given, pieces, lost := pool.AllocateDemand(64, node, now, false);
    OneUnitLost(pieces);
  }

  function Positions(blocks: seq<Block>): seq<Cidr> {
    seq(|blocks|, i requires 0 <= i < |blocks| => blocks[i].Pos())
  }

  function Members(blocks: seq<Block>): set<Block> {
    set b | b in blocks
  }
}
