/** Growing a node out of the pool, piece by piece. */
module Growth {
  import opened Cidrs
  import opened Aggregation
  import opened Sizing
  import opened Shapes
  import opened Addresses
  import opened BuddyBlocks
  import opened BuddyAllocators
  import opened Units
  import opened Demand
  import opened Filling
  import opened Pools

  // ---- the size of a piece ----

  /** The largest power of two within what is missing. */
  function PieceOf(need: nat): nat
    requires need > 0
  {
    Pow2(BitLen(need) - 1)
  }

  lemma {:induction false} PieceIsLargest(need: nat)
    requires need > 0
    ensures PieceOf(need) <= need < 2 * PieceOf(need)
  {
    if need > 1 {
      PieceIsLargest(need / 2);
      assert BitLen(need) == 1 + BitLen(need / 2);
      assert Pow2(BitLen(need) - 1) == 2 * Pow2(BitLen(need / 2) - 1);
    }
  }

  lemma PieceIsMost(need: nat, e: nat)
    requires need > 0 && Pow2(e) <= need
    ensures Pow2(e) <= PieceOf(need)
  {
    PieceIsLargest(need);
    assert Pow2(BitLen(need)) == 2 * PieceOf(need);
    Pow2Strict(e, BitLen(need));
    Pow2Monotone(e, BitLen(need) - 1);
  }

  lemma Pow2Strict(i: nat, j: nat)
    requires Pow2(i) < Pow2(j)
    ensures i < j
  {
    if j <= i { Pow2Monotone(j, i); }
  }

  lemma {:induction false} SizeIsPow2(prefix: nat)
    requires prefix <= 32
    ensures Size(prefix) == Pow2(32 - prefix)
    decreases 32 - prefix
  {
    if prefix < 32 { SizeIsPow2(prefix + 1); }
  }

  /** A block that a request for a piece is rounded up to is the piece. */
  lemma PieceFits(need: nat, minPrefix: nat, p: nat)
    requires minPrefix <= 32 && need >= Size(minPrefix) && Pool.Fits(minPrefix, PieceOf(need), p)
    ensures Size(p) <= PieceOf(need)
  {
    if p < minPrefix {
      LargerThanMin(need, p);
    } else {
      SizeIsPow2(p);
      PieceIsMost(need, 32 - minPrefix);
    }
  }

  lemma LargerThanMin(need: nat, p: nat)
    requires need > 0 && p < 32 && Size(p + 1) < PieceOf(need)
    ensures Size(p) <= PieceOf(need)
  {
    SizeIsPow2(p);
    SizeIsPow2(p + 1);
    Pow2Strict(31 - p, BitLen(need) - 1);
    Pow2Monotone(32 - p, BitLen(need) - 1);
  }

  // ---- what the pool gives ----

  /** New blocks, of at least a minimum block each and at most the need in all. */
  ghost predicate Fair(held: set<Cidr>, need: nat, minPrefix: nat, given: set<Cidr>) {
    && given != {} && AllAligned(given) && AllApart(given) && ApartFrom(held, given)
    && (forall c :: c in given ==> c.prefix <= minPrefix) && SumSizes(given) <= need
  }

  /** The blocks of the node are held in the pool. */
  ghost predicate InPool(s: PoolState, held: set<Cidr>, minPrefix: nat)
    requires |s.roots| == |s.held|
  {
    forall c :: c in held ==> HeldIn(s, c) && c.prefix <= minPrefix
  }

  lemma SumSizesOfOne(c: Cidr)
    ensures SumSizes({c}) == Size(c.prefix)
  {
    var d :| d in {c} && SumSizes({c}) == Size(d.prefix) + SumSizes({c} - {d});
    assert {c} - {d} == {};
  }

  /** A block beside a block of the node is no larger than the piece that was asked for, and no smaller than a
      minimum block. */
  lemma BesideIsFair(s: PoolState, held: set<Cidr>, need: nat, minPrefix: nat, i: nat, block: Cidr, anchor: Cidr,
                     c: Cidr, p: nat, node: string)
    requires RootsHold(s, minPrefix) && InPool(s, held, minPrefix) && block in held && need >= Size(minPrefix)
    requires Pool.Beside(s, i, block, anchor, c, p, node) && Pool.Fits(minPrefix, PieceOf(need), p)
    ensures Fair(held, need, minPrefix, {c})
  {
    PieceIsLargest(need);
    PieceFits(need, minPrefix, p);
    SizeMonotone(p, c.prefix);
    if block != anchor { StrictlyWithin(block, anchor); }
    SumSizesOfOne(c);
    forall d | d in held ensures Disjoint(d, c) { FreeIsApart(s, i, c, d); }
  }

  lemma {:induction false} SumSizesWithout(s: set<Cidr>, c: Cidr)
    requires c in s
    ensures SumSizes(s) == Size(c.prefix) + SumSizes(s - {c})
    decreases |s|
  {
    var d :| d in s && SumSizes(s) == Size(d.prefix) + SumSizes(s - {d});
    if d != c {
      SumSizesWithout(s - {d}, c);
      SumSizesWithout(s - {c}, d);
      assert s - {d} - {c} == s - {c} - {d};
    }
  }

  /** The sizes of distinct blocks add up to their minimum blocks. */
  lemma {:induction false} SumOfUnits(given: seq<Cidr>, minPrefix: nat)
    requires Fitting(given, {}, minPrefix) && minPrefix <= 32
    ensures SumSizes(SetOf(given)) == UnitsIn(given, minPrefix) * Size(minPrefix)
    decreases |given|
  {
    if given != [] {
      var front, c := given[..|given| - 1], given[|given| - 1];
      FrontFits(given, minPrefix);
      SumOfUnits(front, minPrefix);
      SumSizesWithout(SetOf(given), c);
      OneMoreSize(given, minPrefix);
    }
  }

  lemma OneMoreSize(given: seq<Cidr>, minPrefix: nat)
    requires given != [] && minPrefix <= 32 && forall i :: 0 <= i < |given| ==> given[i].prefix <= minPrefix
    ensures var front, c := given[..|given| - 1], given[|given| - 1];
      UnitsIn(given, minPrefix) * Size(minPrefix) == UnitsIn(front, minPrefix) * Size(minPrefix) + Size(c.prefix)
  {
    var front, c := given[..|given| - 1], given[|given| - 1];
    UnitsOfLast(given, minPrefix);
    SizeInUnits(c.prefix, minPrefix);
    Distribute(UnitsIn(front, minPrefix), Pow2(minPrefix - c.prefix), Size(minPrefix));
  }

  lemma FrontFits(given: seq<Cidr>, minPrefix: nat)
    requires Fitting(given, {}, minPrefix) && given != []
    ensures var front, c := given[..|given| - 1], given[|given| - 1];
      Fitting(front, {}, minPrefix) && SetOf(given) - {c} == SetOf(front) && c in SetOf(given) && c.prefix <= minPrefix
  {
    var front, n := given[..|given| - 1], |given| - 1;
    forall i: nat, j: nat | i < j < n ensures Differ(front, i, j) { assert Differ(given, i, j); }
    forall i | 0 <= i < n ensures given[i] != given[n] { assert Differ(given, i, n); }
    assert given == front + [given[n]];
  }

  lemma UnitsOfLast(given: seq<Cidr>, minPrefix: nat)
    requires given != [] && forall i :: 0 <= i < |given| ==> given[i].prefix <= minPrefix
    ensures var front, c := given[..|given| - 1], given[|given| - 1];
      UnitsIn(given, minPrefix) == UnitsIn(front, minPrefix) + Pow2(minPrefix - c.prefix)
  {
    Append(Prefixes(given[..|given| - 1]), given[|given| - 1].prefix, minPrefix);
    assert Prefixes(given) == Prefixes(given[..|given| - 1]) + [given[|given| - 1].prefix];
  }

  lemma {:induction false} SizeInUnits(prefix: nat, minPrefix: nat)
    requires prefix <= minPrefix <= 32
    ensures Size(prefix) == Pow2(minPrefix - prefix) * Size(minPrefix)
    decreases minPrefix - prefix
  {
    if prefix < minPrefix {
      SizeInUnits(prefix + 1, minPrefix);
      Distribute(Pow2(minPrefix - prefix - 1), Pow2(minPrefix - prefix - 1), Size(minPrefix));
    }
  }

  lemma Distribute(a: nat, b: nat, n: nat)
    ensures (a + b) * n == a * n + b * n
  {
  }

  /** A demand of whole minimum blocks is met exactly. */
  lemma DemandIsFair(s: PoolState, t: PoolState, held: set<Cidr>, blocks: nat, need: nat, pieces: seq<nat>,
                     minPrefix: nat, node: string,
                     given: seq<Cidr>)
    requires RootsHold(s, minPrefix) && InPool(s, held, minPrefix) && need == blocks * Size(minPrefix) > 0
    requires forall i :: 0 <= i < |pieces| ==> pieces[i] <= minPrefix
    requires Demanded(s, t, need, pieces, minPrefix, node, true, given, {}, false)
    ensures Fair(held, need, minPrefix, SetOf(given))
  {
    WholeUnits(blocks, minPrefix);
    SumOfUnits(given, minPrefix);
    assert UnitsIn([], minPrefix) == 0 by { assert Prefixes([]) == []; }
    assert given != [] && given[0] in SetOf(given);
    forall c | c in SetOf(given)
      ensures Aligned(c) && c.prefix <= minPrefix && forall d :: d in held ==> Disjoint(d, c)
    {
      assert InSome(s, c);
      var i: nat :| s.FreeIn(i, c);
      forall d | d in held ensures Disjoint(d, c) { FreeIsApart(s, i, c, d); }
    }
  }

  lemma WholeUnits(blocks: nat, minPrefix: nat)
    requires blocks * Size(minPrefix) > 0
    ensures UnitsNeeded(blocks * Size(minPrefix), minPrefix) == blocks
  {
    var n := Size(minPrefix);
    UnitsCover(blocks * n, minPrefix);
    var units := UnitsNeeded(blocks * n, minPrefix);
    if units > blocks { TimesMore(blocks, units - 1, n); }
    if units < blocks {
      TimesMore(units, blocks, n); Distribute(units, blocks - units, n); TimesMore(1, blocks - units, n);
    }
  }

  // ---- under the cap ----

  /** The ranges that joining saves when blocks are added. */
  ghost function Saved(held: set<Cidr>, added: set<Cidr>): int
    requires AllAligned(held) && AllAligned(added)
  {
    |Fused(held)| + |added| - |Fused(held + added)|
  }

  /** The added blocks, the last step's apart: that step kept to the need of its moment. */
  ghost predicate Grown(owned: set<Cidr>, held: set<Cidr>, before: set<Cidr>, last: set<Cidr>, cap: int) {
    && AllAligned(held) && AllApart(held) && AllAligned(before) && AllAligned(last)
    && owned <= before && held == before + last
    && (if last == {} then held == owned else Capacity(held) <= cap + BLOCK_OVERHEAD * Saved(before, last))
  }

  lemma GrownStep(owned: set<Cidr>, held: set<Cidr>, before: set<Cidr>, last: set<Cidr>, cap: int, need: nat,
                  minPrefix: nat, given: set<Cidr>)
    requires Grown(owned, held, before, last, cap) && Fair(held, need, minPrefix, given) && minPrefix <= 30
    requires Usable(need) <= cap - Capacity(held)
    ensures Grown(owned, held + given, held, given, cap) && held + given != owned
  {
    forall c | c in given ensures Size(c.prefix) > BLOCK_OVERHEAD { SizeMonotone(c.prefix, 30); assert Size(30) == 4; }
    GrowStaysUnderCap(held, given, cap, need);
    BothApart(held, given);
    var c :| c in given;
    assert c in held ==> Disjoint(c, c);
  }

  // ---- the steps ----

  /** The largest of some blocks; of equal ones any. */
  method Largest(blocks: set<Block>) returns (b: Block)
    requires blocks != {}
    ensures b in blocks && forall c :: c in blocks ==> b.prefixLen <= c.prefixLen
  {
    b :| b in blocks;
    var todo := blocks - {b};
    while todo != {}
      invariant todo <= blocks && b in blocks && forall c :: c in blocks && c !in todo ==> b.prefixLen <= c.prefixLen
    {
      var c :| c in todo;
      todo := todo - {c};
      if c.prefixLen < b.prefixLen { b := c; }
    }
  }

  function PosSet(blocks: set<Block>): set<Cidr> {
    set b | b in blocks :: b.Pos()
  }

  /** The pool, its blocks and what the node has. */
  ghost predicate Ready(pool: Pool, active: set<Block>, held: set<Cidr>, node: string, now: int)
    reads pool, pool.repr
  {
    pool.Valid() && InPool(pool.State(now), held, pool.minPrefix) && Extends(pool, active, held, node)
  }

  /** The pool can be asked for more beside the blocks that the node had at first. */
  ghost predicate Extends(pool: Pool, active: set<Block>, held: set<Cidr>, node: string)
    requires pool.Valid()
    reads pool, pool.repr
  {
    && pool.Uniform() && pool.minPrefix <= 30 && pool.AllGranted(active, node)
    && PosSet(active) <= held
  }

  lemma IsReady(pool: Pool, active: set<Block>, node: string, now: int)
    requires pool.Valid() && pool.Uniform() && pool.minPrefix <= 30 && pool.AllGranted(active, node)
    requires forall b :: b in active ==> b.prefixLen <= pool.minPrefix
    ensures Ready(pool, active, PosSet(active), node, now)
  {
    forall c | c in PosSet(active) ensures HeldIn(pool.State(now), c) && c.prefix <= pool.minPrefix {
      var b :| b in active && b.Pos() == c;
      assert pool.Granted(b, node);
      pool.GrantedIsHeld(b, node, now);
    }
  }

  /** A piece beside one of the node's blocks, the largest first; nothing if none of them has a free buddy. */
  method GrowBeside(pool: Pool, active: set<Block>, need: nat, node: string, now: int, ghost held: set<Cidr>,
                    ghost s: PoolState)
    returns (given: set<Cidr>)
    requires Ready(pool, active, held, node, now) && need >= Size(pool.minPrefix) && s == pool.State(now)
    modifies pool`repr, pool.repr
    ensures pool.AddsFresh() && pool.minPrefix == old(pool.minPrefix)
    ensures Ready(pool, active, held + given, node, now)
    ensures given != {} ==> Fair(held, need, pool.minPrefix, given)
    ensures given == {} ==> pool.State(now) == s
    ensures given == {} ==> AllAlone(s, active, need, pool.maxPrefix, node)
    ensures given != {} ==> NextToLargest(given, s, active, need, pool.maxPrefix, node)
  {
    var todo := active;
    given := {};
    assert held + {} == held;
    while todo != {}
      invariant todo <= active && Ready(pool, active, held, node, now) && given == {}
      invariant pool.AddsFresh() && pool.State(now) == s && pool.maxPrefix == old(pool.maxPrefix)
      invariant AllAlone(s, active - todo, need, pool.maxPrefix, node)
    {
      var b := Largest(todo);
      given := TakeBeside(pool, active, b, need, node, now, held, s);
      if given != {} {
        IsNextToLargest(given, s, active, todo, b, need, pool.maxPrefix, node);
        return;
      }
      OneMoreAlone(s, active, todo, b, need, pool.maxPrefix, node);
      todo := todo - {b};
    }
    assert active - {} == active;
  }

  /** No buddy of what the node owns around the block is free, or the piece is larger than the range gives. */
  ghost predicate Alone(s: PoolState, block: Cidr, need: nat, maxPrefix: nat, node: string)
    requires |s.roots| == |s.held| && need > 0
  {
    exists i: nat, anchor :: i < |s.roots| && Pool.Anchored(s.roots[i], s.held[i], block, anchor, node)
      && (Pool.NoBuddy(s.roots[i], s.held[i], anchor) || PieceOf(need) > Size(Pool.Limit(s.roots[i], maxPrefix)))
  }

  lemma IsNextToLargest(given: set<Cidr>, s: PoolState, active: set<Block>, todo: set<Block>, b: Block, need: nat,
                        maxPrefix: nat, node: string)
    requires |s.roots| == |s.held| && need > 0 && b in todo && todo <= active && NextTo(given, b.Pos(), s, node)
    requires AllAlone(s, active - todo, need, maxPrefix, node)
    requires forall c :: c in todo ==> b.prefixLen <= c.prefixLen
    ensures NextToLargest(given, s, active, need, maxPrefix, node)
  {
    assert LargerThan(active, b) <= active - todo;
  }

  lemma OneMoreAlone(s: PoolState, active: set<Block>, todo: set<Block>, b: Block, need: nat, maxPrefix: nat,
                     node: string)
    requires |s.roots| == |s.held| && need > 0 && AllAlone(s, active - todo, need, maxPrefix, node)
    requires Alone(s, b.Pos(), need, maxPrefix, node)
    ensures AllAlone(s, active - (todo - {b}), need, maxPrefix, node)
  {
  }

  function LargerThan(blocks: set<Block>, b: Block): set<Block> {
    set c | c in blocks && c.prefixLen < b.prefixLen
  }

  ghost predicate AllAlone(s: PoolState, blocks: set<Block>, need: nat, maxPrefix: nat, node: string)
    requires |s.roots| == |s.held| && need > 0
  {
    forall b :: b in blocks ==> Alone(s, b.Pos(), need, maxPrefix, node)
  }

  /** The new block lies beside one of the blocks, and nothing can be had beside a larger one. */
  ghost predicate NextToLargest(given: set<Cidr>, s: PoolState, blocks: set<Block>, need: nat, maxPrefix: nat,
                                node: string)
    requires |s.roots| == |s.held| && need > 0
  {
    exists b :: b in blocks && NextTo(given, b.Pos(), s, node)
      && AllAlone(s, LargerThan(blocks, b), need, maxPrefix, node)
  }

  /** One block beside what the node owns around the block. */
  ghost predicate NextTo(given: set<Cidr>, block: Cidr, s: PoolState, node: string)
    requires |s.roots| == |s.held|
  {
    exists i: nat, anchor, c, p :: i < |s.roots| && given == {c} && Pool.Beside(s, i, block, anchor, c, p, node)
  }

  method TakeBeside(pool: Pool, active: set<Block>, b: Block, need: nat, node: string, now: int, ghost held: set<Cidr>,
                    ghost s: PoolState)
    returns (given: set<Cidr>)
    requires Ready(pool, active, held, node, now) && need >= Size(pool.minPrefix) && b in active
    requires s == pool.State(now)
    modifies pool`repr, pool.repr
    ensures pool.AddsFresh() && Ready(pool, active, held + given, node, now)
    ensures given != {} ==> Fair(held, need, pool.minPrefix, given)
    ensures given == {} ==> pool.State(now) == s && Alone(s, b.Pos(), need, pool.maxPrefix, node)
    ensures given != {} ==> NextTo(given, b.Pos(), s, node)
  {
    pool.StateOk(now);
    assert b.Pos() in PosSet(active) && pool.Granted(b, node);
    ghost var i, anchor, p;
    var r;
    r, i, anchor, p := pool.AllocateFromBuddy(b, PieceOf(need), node, now, active);
    if r.Err? {
      given := {};
      assert held + {} == held;
      return;
    }
    given := {r.value.Pos()};
    BesideIsFair(s, held, need, pool.minPrefix, i, b.Pos(), anchor, r.value.Pos(), p, node);
    TakenIsHeld(s, i, r.value.Pos(), node);
  }

  /** As few blocks as possible from anywhere in the pool; nothing exactly if there is not that much space. */
  method GrowElsewhere(pool: Pool, active: set<Block>, need: nat, node: string, now: int, ghost blocks: nat,
                       ghost held: set<Cidr>)
    returns (given: set<Cidr>)
    requires Ready(pool, active, held, node, now) && need == blocks * Size(pool.minPrefix) > 0
    modifies pool`repr, pool.repr
    ensures pool.AddsFresh() && pool.Valid() && InPool(pool.State(now), held + given, pool.minPrefix)
    ensures given == {} <==> FreeCount(old(pool.State(now)), pool.minPrefix) < blocks
    ensures given == {} ==> FreeCount(pool.State(now), pool.minPrefix) < blocks
    ensures given != {} ==> Fair(held, need, pool.minPrefix, given)
  {
    ghost var s := pool.State(now);
    pool.StateOk(now);
    WholeUnits(blocks, pool.minPrefix);
    ghost var got, pieces, lost;
    var r;
    r, got, pieces, lost := pool.AllocateDemand(need, node, now, false);
    if r.Err? {
      TookIsHeld(s, pool.State(now), lost, node);
      TookFewer(s, pool.State(now), lost, node, pool.minPrefix);
      return {};
    }
    given := set c | c in Positions(r.value);
    assert given == SetOf(got);
    DemandIsFair(s, pool.State(now), held, blocks, need, pieces, pool.minPrefix, node, got);
    TookIsHeld(s, pool.State(now), given, node);
  }

  /** One step: beside what the node has, or else from anywhere. */
  method GrowOnce(pool: Pool, active: set<Block>, need: nat, node: string, now: int, ghost blocks: nat,
                  ghost held: set<Cidr>, ghost s: PoolState)
    returns (given: set<Cidr>, elsewhere: bool)
    requires Ready(pool, active, held, node, now) && need == blocks * Size(pool.minPrefix) > 0
    requires s == pool.State(now)
    modifies pool`repr, pool.repr
    ensures pool.AddsFresh() && pool.Valid()
    ensures InPool(pool.State(now), if given == {} then held else held + given, pool.minPrefix)
    ensures given != {} ==> Fair(held, need, pool.minPrefix, given)
    ensures !elsewhere ==> given != {} && Ready(pool, active, held + given, node, now)
    ensures given == {} ==> FreeCount(pool.State(now), pool.minPrefix) < blocks
    ensures elsewhere ==> AllAlone(s, active, need, pool.maxPrefix, node)
    ensures !elsewhere ==> NextToLargest(given, s, active, need, pool.maxPrefix, node)
  {
    TimesMore(1, blocks, Size(pool.minPrefix));
    elsewhere := false;
    given := GrowBeside(pool, active, need, node, now, held, s);
    if given == {} {
      assert held + {} == held;
      elsewhere := true;
      given := GrowElsewhere(pool, active, need, node, now, blocks, held);
    }
  }

  // ---- growing ----

  /** Why a grow ended: the need is met, the cap leaves no room for a minimum block, blocks from elsewhere were
      added, the pool has not enough left, or eight steps were made. */
  datatype Outcome = Met | AtCap | Elsewhere | OutOfSpace | EightSteps

  function Cap(spec: PoolSpec, allocatable: nat): nat {
    allocatable * spec.capacityCap / 100
  }

  /** What is needed now: whole minimum blocks, nothing exactly if not one fits under the cap. */
  method NeedNow(spec: PoolSpec, demand: nat, ghost required: nat, cap: nat, have: nat)
    returns (need: nat, ghost blocks: nat)
    requires spec.Ok() && required == Required(spec, demand)
    ensures need == blocks * Size(spec.minBlockSize)
    ensures need == 0 <==> Usable(Size(spec.minBlockSize)) > cap - have
    ensures need > 0 ==> Usable(need) <= cap - have
    ensures need > 0 ==> need - Size(spec.minBlockSize) < Max(required - have, 1) + BLOCK_OVERHEAD
  {
    SizeMonotone(spec.minBlockSize, 30);
    assert Size(30) == 4;
    need, blocks := GrowthNeed(spec, have, demand, cap - have, Size(spec.minBlockSize));
  }

  /** The last step starts from less than is required, unless it is the first; and it adds no more than is missing,
      in whole minimum blocks, and what one more range takes. */
  ghost predicate Needed(minPrefix: nat, required: nat, owned: set<Cidr>, before: set<Cidr>, last: set<Cidr>)
    requires AllAligned(before) && minPrefix <= 32
  {
    && (before != owned ==> Capacity(before) < required)
    && (last != {} ==> Due(minPrefix, required, before, SumSizes(last)))
  }

  /** How a grow stands: what the node had at first, before the last step and now, the outcome so far, and how many
      steps have added blocks. */
  datatype Progress = Progress(owned: set<Cidr>, before: set<Cidr>, last: set<Cidr>, held: set<Cidr>, outcome: Outcome,
                               steps: nat)
  {
    ghost predicate Ok(minPrefix: nat, required: nat, cap: nat)
      requires minPrefix <= 32
    {
      && Grown(owned, held, before, last, cap) && Needed(minPrefix, required, owned, before, last)
      && (outcome == AtCap ==> Usable(Size(minPrefix)) > cap - Capacity(held))
    }

    /** After a step the node has more than at first, unless it was at the cap from the start or reached it, or the
        pool had not enough. At the cap from the start it has nothing more. */
    predicate Moved(full: bool) {
      && (outcome == EightSteps || outcome == Met || outcome == Elsewhere ==> held != owned)
      && (full ==> outcome == AtCap && held == owned)
    }

    /** A step is made only from the blocks that the node had at first, or from less than it requires. */
    ghost predicate Wanting(required: nat)
      requires AllAligned(held)
    {
      held != owned ==> Capacity(held) < required
    }
  }

  /** No more is missing than this. */
  ghost predicate Due(minPrefix: nat, required: nat, held: set<Cidr>, need: nat)
    requires AllAligned(held) && minPrefix <= 32
  {
    need - Size(minPrefix) < Max(required - Capacity(held), 1) + BLOCK_OVERHEAD
  }

  /** The node with what a step has given it. */
  lemma Add(spec: PoolSpec, required: nat, cap: nat, p: Progress, need: nat, given: set<Cidr>, q: Progress)
    requires spec.Ok() && p.Ok(spec.minBlockSize, required, cap) && Fair(p.held, need, spec.minBlockSize, given)
    requires Usable(need) <= cap - Capacity(p.held) && Due(spec.minBlockSize, required, p.held, need)
    requires p.Wanting(required)
    requires q == Progress(p.owned, p.held, given, p.held + given, q.outcome, p.steps + 1)
    requires (q.outcome == Elsewhere || q.outcome == EightSteps)
    ensures q.Ok(spec.minBlockSize, required, cap) && q.held != q.owned
  {
    GrownStep(p.owned, p.held, p.before, p.last, cap, need, spec.minBlockSize, given);
  }

  /** The pool has not even, in whole minimum blocks, what the node is short of and a new range takes. */
  ghost predicate Exhausted(s: PoolState, minPrefix: nat, required: nat, held: set<Cidr>)
    requires minPrefix <= 32 && AllAligned(held) && |s.roots| == |s.held|
  {
    FreeCount(s, minPrefix) * Size(minPrefix) < Max(required - Capacity(held), 1) + BLOCK_OVERHEAD
  }

  lemma TooFew(s: PoolState, minPrefix: nat, required: nat, held: set<Cidr>, need: nat, blocks: nat)
    requires minPrefix <= 32 && AllAligned(held) && |s.roots| == |s.held| && FreeCount(s, minPrefix) < blocks
    requires need == blocks * Size(minPrefix) > 0 && Due(minPrefix, required, held, need)
    ensures Exhausted(s, minPrefix, required, held)
  {
    TimesMore(1, blocks, Size(minPrefix));
    OneLess(blocks, Size(minPrefix));
    TimesMore(FreeCount(s, minPrefix), blocks - 1, Size(minPrefix));
  }

  /** How the pool and the node stand: the pool holds the blocks of the node and, as the outcome is, can go on or
      has not enough. */
  ghost predicate Stands(pool: Pool, minPrefix: nat, required: nat, cap: nat, q: Progress, node: string, now: int,
                         active: set<Block>)
    requires minPrefix <= 32
    reads pool, pool.repr
  {
    && q.Ok(minPrefix, required, cap) && pool.Valid() && InPool(pool.State(now), q.held, minPrefix)
    && (q.outcome == EightSteps ==> Ready(pool, active, q.held, node, now) && pool.minPrefix == minPrefix)
    && (q.outcome == OutOfSpace ==> Exhausted(pool.State(now), minPrefix, required, q.held))
    && (q.outcome == Met ==> Capacity(q.held) >= required)
  }

  /** What may be asked of the pool: so many minimum blocks, within the cap. */
  ghost predicate Asked(minPrefix: nat, required: nat, cap: nat, held: set<Cidr>, need: nat, blocks: nat)
    requires minPrefix <= 32 && AllAligned(held)
  {
    need == blocks * Size(minPrefix) > 0 && Usable(need) <= cap - Capacity(held) && Due(minPrefix, required, held, need)
  }

  /** The last step took what it could get beside a block of the node, and went elsewhere only if there was
      nothing. */
  ghost predicate Chose(q: Progress, s: PoolState, active: set<Block>, need: nat, maxPrefix: nat, node: string)
    requires |s.roots| == |s.held| && need > 0
  {
    if q.outcome == Elsewhere then AllAlone(s, active, need, maxPrefix, node)
    else NextToLargest(q.last, s, active, need, maxPrefix, node)
  }

  /** If one step was made, it chose so in the pool as it was. */
  ghost predicate OneChoice(q: Progress, s: PoolState, active: set<Block>, maxPrefix: nat, node: string)
    requires |s.roots| == |s.held|
  {
    q.last != {} && q.before == q.owned ==> exists need: nat :: need > 0 && Chose(q, s, active, need, maxPrefix, node)
  }

  lemma ChoseOnce(q: Progress, s: PoolState, active: set<Block>, need: nat, maxPrefix: nat, node: string)
    requires |s.roots| == |s.held| && need > 0 && (q.last != {} ==> Chose(q, s, active, need, maxPrefix, node))
    ensures OneChoice(q, s, active, maxPrefix, node)
  {
  }

  lemma StillOneChoice(p: Progress, q: Progress, s: PoolState, active: set<Block>, maxPrefix: nat, node: string)
    requires |s.roots| == |s.held| && OneChoice(p, s, active, maxPrefix, node) && p.outcome != Elsewhere
    requires q.before != q.owned || (q == p.(outcome := q.outcome) && q.outcome != Elsewhere)
    ensures OneChoice(q, s, active, maxPrefix, node)
  {
    if q.last != {} && q.before == q.owned {
      var need: nat :| need > 0 && Chose(p, s, active, need, maxPrefix, node);
      assert Chose(q, s, active, need, maxPrefix, node);
    }
  }

  /** The node gets what it needs now, unless the pool has not enough. */
  method TakeStep(pool: Pool, spec: PoolSpec, ghost required: nat, cap: nat, p: Progress, need: nat, node: string,
                  now: int, active: set<Block>, ghost blocks: nat, ghost s: PoolState, ghost maxPrefix: nat)
    returns (q: Progress)
    requires maxPrefix == pool.maxPrefix
    requires spec.Ok() && Ready(pool, active, p.held, node, now) && pool.minPrefix == spec.minBlockSize
    requires p.Ok(spec.minBlockSize, required, cap) && p.Wanting(required) && p.outcome == EightSteps
    requires Asked(spec.minBlockSize, required, cap, p.held, need, blocks) && s == pool.State(now)
    modifies pool`repr, pool.repr
    ensures pool.AddsFresh() && q.owned == p.owned
    ensures Stands(pool, spec.minBlockSize, required, cap, q, node, now, active)
    ensures q.Moved(false) && q.outcome != Met && q.outcome != AtCap
    ensures q.outcome != OutOfSpace ==> q.before == p.held && q.steps == p.steps + 1
    ensures q.outcome == OutOfSpace ==>
      q == p.(outcome := OutOfSpace) && AllAlone(s, active, need, maxPrefix, node)
    ensures q.outcome != OutOfSpace ==> Chose(q, s, active, need, maxPrefix, node)
    ensures p.last == {} ==> OneChoice(q, s, active, maxPrefix, node)
  {
    var given, elsewhere := GrowOnce(pool, active, need, node, now, blocks, p.held, s);
    if given == {} {
      q := p.(outcome := OutOfSpace);
      TooFew(pool.State(now), spec.minBlockSize, required, p.held, need, blocks);
    } else {
      q := Progress(p.owned, p.held, given, p.held + given, if elsewhere then Elsewhere else EightSteps, p.steps + 1);
      Add(spec, required, cap, p, need, given, q);
      ChoseOnce(q, s, active, need, maxPrefix, node);
    }
  }

  /** A step that is not made. */
  lemma StandsStill(pool: Pool, minPrefix: nat, required: nat, cap: nat, p: Progress, q: Progress, node: string,
                    now: int, active: set<Block>)
    requires Ready(pool, active, p.held, node, now) && pool.minPrefix == minPrefix <= 32
    requires p.Ok(minPrefix, required, cap)
    requires q == p.(outcome := q.outcome) && (q.outcome == AtCap || q.outcome == Met)
    requires q.outcome == AtCap ==> Usable(Size(minPrefix)) > cap - Capacity(p.held)
    requires q.outcome == Met ==> Capacity(p.held) >= required
    ensures Stands(pool, minPrefix, required, cap, q, node, now, active)
  {
  }

  /** No step has been made. */
  lemma StandsAtFirst(pool: Pool, minPrefix: nat, required: nat, cap: nat, p: Progress, node: string, now: int,
                      active: set<Block>)
    requires Ready(pool, active, p.held, node, now) && pool.minPrefix == minPrefix <= 32
    requires AllAligned(p.held) && AllApart(p.held) && p == Progress(p.held, p.held, {}, p.held, EightSteps, 0)
    ensures Stands(pool, minPrefix, required, cap, p, node, now, active)
  {
    assert p.held + {} == p.held;
  }

  /** What the node has, whether that will do, and what it needs otherwise. This does not change the pool. */
  method Missing(ghost pool: Pool, spec: PoolSpec, demand: nat, required: nat, cap: nat, held: set<Cidr>, first: bool,
                 capacity: nat, ghost node: string, ghost now: int, ghost active: set<Block>, ghost s: PoolState)
    returns (enough: bool, need: nat, ghost blocks: nat)
    requires s == pool.State(now)
    requires spec.Ok() && required == Required(spec, demand) && AllAligned(held) && AllApart(held)
    requires Ready(pool, active, held, node, now) && (first ==> capacity == Capacity(held))
    ensures Ready(pool, active, held, node, now) && s == pool.State(now)
    ensures enough <==> !first && Capacity(held) >= required
    ensures !enough ==> (need == 0 <==> Usable(Size(spec.minBlockSize)) > cap - Capacity(held))
    ensures !enough && need > 0 ==> Asked(spec.minBlockSize, required, cap, held, need, blocks)
  {
    enough, need, blocks := MissingTo(spec, demand, required, cap, held, first, capacity);
  }

  method MissingTo(spec: PoolSpec, demand: nat, required: nat, cap: nat, held: set<Cidr>, first: bool, capacity: nat)
    returns (enough: bool, need: nat, ghost blocks: nat)
    requires spec.Ok() && required == Required(spec, demand) && AllAligned(held) && AllApart(held)
    requires first ==> capacity == Capacity(held)
    ensures enough <==> !first && Capacity(held) >= required
    ensures !enough ==> (need == 0 <==> Usable(Size(spec.minBlockSize)) > cap - Capacity(held))
    ensures !enough && need > 0 ==> Asked(spec.minBlockSize, required, cap, held, need, blocks)
  {
    var have := capacity;
    if !first { have := CapacityHeld(held); }
    enough := !first && have >= required;
    if enough { need, blocks := 0, 0; } else { need, blocks := NeedNow(spec, demand, required, cap, have); }
  }

  /** Ends the grow if the node has enough after an earlier step or is at the cap. */
  method Judge(ghost pool: Pool, spec: PoolSpec, demand: nat, required: nat, cap: nat, p: Progress, first: bool,
               capacity: nat, ghost node: string, ghost now: int, ghost active: set<Block>, ghost s: PoolState)
    returns (q: Progress, need: nat, ghost blocks: nat)
    requires s == pool.State(now)
    requires spec.Ok() && Ready(pool, active, p.held, node, now) && pool.minPrefix == spec.minBlockSize
    requires p.outcome == EightSteps && p.Ok(spec.minBlockSize, required, cap)
    requires required == Required(spec, demand) && (first <==> p.held == p.owned)
    requires first ==> capacity == Capacity(p.held)
    ensures s == pool.State(now)
    ensures q == p.(outcome := q.outcome) && (q.outcome == EightSteps || q.outcome == Met || q.outcome == AtCap)
    ensures q.outcome != EightSteps ==> Stands(pool, spec.minBlockSize, required, cap, q, node, now, active)
    ensures q.outcome != EightSteps ==> q.Moved(first && Usable(Size(spec.minBlockSize)) > cap - capacity)
    ensures q.outcome == EightSteps ==> Ready(pool, active, p.held, node, now) && p.Wanting(required)
    ensures q.outcome == EightSteps ==> Asked(spec.minBlockSize, required, cap, p.held, need, blocks)
    ensures q.outcome == EightSteps ==> !(first && Usable(Size(spec.minBlockSize)) > cap - capacity)
  {
    var enough;
    enough, need, blocks := Missing(pool, spec, demand, required, cap, p.held, first, capacity, node, now, active,
                                    s);
    q := p;
    if enough || need == 0 {
      q := p.(outcome := if enough then Met else AtCap);
      StandsStill(pool, spec.minBlockSize, required, cap, p, q, node, now, active);
    }
  }

  /** One step, unless the grow ends before. */
  method GrowStep(pool: Pool, spec: PoolSpec, demand: nat, required: nat, cap: nat, p: Progress, first: bool,
                  capacity: nat, node: string, now: int, active: set<Block>, ghost s: PoolState, ghost maxPrefix: nat)
    returns (q: Progress)
    requires s == pool.State(now) && maxPrefix == pool.maxPrefix
    requires spec.Ok() && Ready(pool, active, p.held, node, now) && pool.minPrefix == spec.minBlockSize
    requires p.outcome == EightSteps && p.Ok(spec.minBlockSize, required, cap)
    requires required == Required(spec, demand) && (first <==> p.held == p.owned)
    requires first ==> capacity == Capacity(p.held)
    modifies pool`repr, pool.repr
    ensures pool.AddsFresh() && Stands(pool, spec.minBlockSize, required, cap, q, node, now, active)
    ensures Stepped(p, q, first, first && Usable(Size(spec.minBlockSize)) > cap - capacity, s, active, maxPrefix, node)
  {
    ghost var full := first && Usable(Size(spec.minBlockSize)) > cap - capacity;
    var need;
    ghost var blocks;
    q, need, blocks := Judge(pool, spec, demand, required, cap, p, first, capacity, node, now, active, s);
    if q.outcome != EightSteps {
      NotStepped(p, q, first, full, s, active, maxPrefix, node);
      return;
    }
    q := TakeStep(pool, spec, required, cap, p, need, node, now, active, blocks, s, maxPrefix);
    IsStepped(p, q, first, s, active, maxPrefix, node);
  }

  /** What a step makes of the progress so far. */
  ghost predicate Stepped(p: Progress, q: Progress, first: bool, full: bool, s: PoolState, active: set<Block>,
                          maxPrefix: nat, node: string)
    requires |s.roots| == |s.held|
  {
    && q.owned == p.owned && q.Moved(full)
    && (p.last == {} ==> OneChoice(q, s, active, maxPrefix, node))
    && (!first ==> q.before != q.owned || (q == p.(outcome := q.outcome) && q.outcome != Elsewhere))
    && q.steps == p.steps + if q.outcome == EightSteps || q.outcome == Elsewhere then 1 else 0
  }

  lemma NotStepped(p: Progress, q: Progress, first: bool, full: bool, s: PoolState, active: set<Block>, maxPrefix: nat,
                   node: string)
    requires |s.roots| == |s.held| && q.Moved(full)
    requires q == p.(outcome := q.outcome) && (q.outcome == Met || q.outcome == AtCap)
    ensures Stepped(p, q, first, full, s, active, maxPrefix, node)
  {
  }

  lemma IsStepped(p: Progress, q: Progress, first: bool, s: PoolState, active: set<Block>, maxPrefix: nat, node: string)
    requires |s.roots| == |s.held| && q.owned == p.owned && q.Moved(false) && (first <==> p.held == p.owned)
    requires q.outcome != Met && q.outcome != AtCap
    requires q.outcome != OutOfSpace ==> q.before == p.held && q.steps == p.steps + 1
    requires q.outcome == OutOfSpace ==> q == p.(outcome := OutOfSpace)
    requires p.last == {} ==> OneChoice(q, s, active, maxPrefix, node)
    ensures Stepped(p, q, first, false, s, active, maxPrefix, node)
  {
  }

  /** Adds what the node is short of. At the cap it gets nothing; and whatever it gets, the last step takes it
      over the cap by at most the overhead of the ranges that joining saves, and adds no more than was missing, in
      whole minimum blocks and with a range more. Everything it has is then held in the pool. */
  method GrowNode(pool: Pool, spec: PoolSpec, allocatable: nat, demand: nat, node: string, now: int, active: set<Block>,
                  capacity: nat)
    returns (p: Progress)
    requires spec.Ok() && pool.Valid() && pool.Uniform() && pool.minPrefix == spec.minBlockSize
    requires pool.AllGranted(active, node) && forall b :: b in active ==> b.prefixLen <= spec.minBlockSize
    requires AllAligned(PosSet(active)) && AllApart(PosSet(active)) && capacity == Capacity(PosSet(active))
    modifies pool`repr, pool.repr
    ensures pool.AddsFresh() && p.owned == PosSet(active)
    ensures var cap := allocatable * spec.capacityCap / 100;
      && Stands(pool, spec.minBlockSize, Required(spec, demand), cap, p, node, now, active)
      && p.Moved(Usable(Size(spec.minBlockSize)) > cap - capacity)
    ensures p.outcome == EightSteps ==> Capacity(p.held) < Required(spec, demand) && p.steps == 8
    ensures p.steps <= 8
    ensures OneChoice(p, old(pool.State(now)), active, pool.maxPrefix, node)
  {
    ghost var s := pool.State(now);
    var cap := Cap(spec, allocatable);
    ghost var full := Usable(Size(spec.minBlockSize)) > cap - capacity;
    var required := Begin(pool, spec, demand, node, now, active);
    var q := GrowSteps(pool, spec, demand, required, cap, node, now, active, capacity, s, pool.maxPrefix);
    p := Conclude(pool, spec.minBlockSize, required, cap, q, full, node, now, active);
    if q.outcome != p.outcome { StillOneChoice(q, p, s, active, pool.maxPrefix, node); }
  }

  method Begin(ghost pool: Pool, spec: PoolSpec, demand: nat, ghost node: string, ghost now: int,
               ghost active: set<Block>)
    returns (required: nat)
    requires spec.Ok() && pool.Valid() && pool.Uniform() && pool.minPrefix <= 30
    requires pool.AllGranted(active, node) && forall b :: b in active ==> b.prefixLen <= pool.minPrefix
    ensures required == Required(spec, demand) && Ready(pool, active, PosSet(active), node, now)
    ensures pool.repr == old(pool.repr)
  {
    required := RequiredCapacity(spec, demand);
    IsReady(pool, active, node, now);
  }

  /** At most eight steps. */
  method GrowSteps(pool: Pool, spec: PoolSpec, demand: nat, required: nat, cap: nat, node: string, now: int,
                   active: set<Block>, capacity: nat, ghost s: PoolState, ghost maxPrefix: nat)
    returns (p: Progress)
    requires s == pool.State(now) && maxPrefix == pool.maxPrefix
    requires spec.Ok() && Ready(pool, active, PosSet(active), node, now) && pool.minPrefix == spec.minBlockSize
    requires AllAligned(PosSet(active)) && AllApart(PosSet(active)) && capacity == Capacity(PosSet(active))
    requires required == Required(spec, demand)
    modifies pool`repr, pool.repr
    ensures pool.AddsFresh() && p.owned == PosSet(active)
    ensures Stands(pool, spec.minBlockSize, required, cap, p, node, now, active)
    ensures p.Moved(Usable(Size(spec.minBlockSize)) > cap - capacity)
    ensures OneChoice(p, s, active, maxPrefix, node)
    ensures p.steps <= 8 && (p.outcome == EightSteps ==> p.steps == 8)
  {
    ghost var full := Usable(Size(spec.minBlockSize)) > cap - capacity;
    var steps := 0;
    p := Progress(PosSet(active), PosSet(active), {}, PosSet(active), EightSteps, 0);
    StandsAtFirst(pool, spec.minBlockSize, required, cap, p, node, now, active);
    while steps < 8 && p.outcome == EightSteps
      invariant pool.AddsFresh() && p.owned == PosSet(active)
      invariant Stands(pool, spec.minBlockSize, required, cap, p, node, now, active)
      invariant steps == 0 ==> p.held == p.owned && p.last == {} && p.outcome == EightSteps && pool.State(now) == s
      invariant OneChoice(p, s, active, maxPrefix, node)
      invariant p.steps <= steps <= 8 && (p.outcome == EightSteps ==> p.steps == steps)
      invariant steps > 0 ==> p.Moved(full)
    {
      ghost var was := p;
      p := GrowStep(pool, spec, demand, required, cap, p, steps == 0, capacity, node, now, active, pool.State(now),
                    maxPrefix);
      if steps > 0 { StillOneChoice(was, p, s, active, maxPrefix, node); }
      steps := steps + 1;
    }
  }

  /** After the last step the node may have enough. The pool stays as it is. */
  method Conclude(ghost pool: Pool, ghost minPrefix: nat, required: nat, ghost cap: nat, p: Progress, ghost full: bool,
                  ghost node: string, ghost now: int, ghost active: set<Block>)
    returns (q: Progress)
    requires minPrefix <= 32 && Stands(pool, minPrefix, required, cap, p, node, now, active) && p.Moved(full)
    ensures Stands(pool, minPrefix, required, cap, q, node, now, active) && q.Moved(full) && q.owned == p.owned
    ensures pool.repr == old(pool.repr) && (q.outcome == EightSteps ==> Capacity(q.held) < required)
    ensures q == p.(outcome := q.outcome) && (q.outcome == p.outcome || (p.outcome == EightSteps && q.outcome == Met))
  {
    q := p;
    if p.outcome == EightSteps {
      var have := CapacityHeld(p.held);
      if have >= required { q := p.(outcome := Met); }
    }
  }

  method CapacityHeld(held: set<Cidr>) returns (n: nat)
    requires AllAligned(held) && AllApart(held)
    ensures n == Capacity(held)
  {
    var cidrs := Sort(held);
    n := CapacityOf(cidrs);
  }
}
