/** What the planner decides, said of the objects, the leases and the pods themselves: which decision is taken, which
    blocks are drained and in which order, and which half is given back. */
module PlannerRules {
  import opened Options
  import opened Cidrs
  import opened NodeBlocks
  import opened Aggregation
  import opened Sizing
  import opened Planner

  // ---- numbers ----

  /** The addresses that the blocks give. */
  ghost function Given(blocks: set<Block>): nat
    requires WellFormed(blocks)
  {
    ServedApart(blocks);
    Capacity(ServedOf(blocks))
  }

  /** Addresses enough for the demand: the floor stays free, and without the last address that is in use the blocks are
      below the threshold. */
  predicate Enough(spec: PoolSpec, capacity: nat, demand: nat) {
    capacity >= demand + spec.triggerFloor && capacity * spec.expandThreshold > 100 * (demand - 1)
  }

  /** A pod failed for want of an address more than the grace time after every change to the node's blocks. */
  predicate Failed(owned: set<Block>, info: Input) {
    match info.failure
    case None => false
    case Some(t) =>
      && (forall b :: b in owned ==> t - b.nb.since >= 5)
      && (info.lastChange.None? || t - info.lastChange.value >= 5)
  }

  // ---- which decision ----

  function InService(owned: set<Block>): set<Block> {
    set b | b in owned && b.nb.phase == Active && !b.nb.drain
  }

  function Leaving(owned: set<Block>): set<Block> {
    set b | b in owned && b.nb.drain && b.nb.phase != Pending && b.nb.phase != Quarantined
  }

  /** The blocks of which a half is asked for, and those of which it is reported ready. */
  function Halving(owned: set<Block>): set<Block> {
    set b | b in InService(owned) && b.nb.release != None
  }

  function HalfReady(owned: set<Block>): set<Block> {
    set b | b in Halving(owned) && b.nb.ready == b.nb.release
  }

  /** A block that is to come into service, or to come back into it. */
  predicate Coming(b: Block) {
    b.nb.phase == Pending || (b.nb.phase == Draining && !b.nb.drain)
  }

  /** The node needs more: its blocks in service do not suffice for its leases and the pods that wait, or for its pods,
      or a pod has failed. */
  ghost predicate Short(spec: PoolSpec, owned: set<Block>, info: Input)
    requires WellFormed(owned)
  {
    var capacity, used := Given(InService(owned)), SumUsed(InService(owned));
    !Enough(spec, capacity, used + info.waiting) || !Enough(spec, capacity, info.pods) || Failed(owned, info)
  }

  lemma ShortIsWants(spec: PoolSpec, owned: set<Block>, info: Input)
    requires spec.Ok() && WellFormed(owned)
    ensures Short(spec, owned, info) <==> Wants(spec, owned, info)
  {
    assert InService(owned) == ActiveOf(owned);
    var capacity, used := Given(InService(owned)), SumUsed(InService(owned)) + info.waiting;
    NeedsGrowthIs(spec, capacity, Max(used, info.pods));
    Both(spec, capacity, used, info.pods);
  }

  lemma Both(spec: PoolSpec, capacity: nat, demand: nat, other: nat)
    ensures Enough(spec, capacity, Max(demand, other))
      <==> Enough(spec, capacity, demand) && Enough(spec, capacity, other)
  {
  }

  /** Changes under way come first, then halves that are ready. A node that is short keeps what it was giving back, or
      takes back the draining block with the most leases, and grows only if there is nothing to take back. One
      that is not short gives something back if nothing has changed for the cooldown. */
  lemma DecisionIs(spec: PoolSpec, owned: set<Block>, info: Input, now: int)
    requires spec.Ok() && WellFormed(owned)
    ensures var d := Decide(spec, owned, info, now);
      if owned == {} then d == Initial
      else if exists b :: b in owned && Coming(b) then d == Wait
      else if HalfReady(owned) != {} then d == Splits(Names(HalfReady(owned)))
      else if Short(spec, owned, info) then
        if Halving(owned) != {} then d == Unrelease(Names(Halving(owned)))
        else if Leaving(owned) != {} then exists b :: MostUsed(Leaving(owned), b) && d == Undrain(b.name)
        else d == Grow
      else if spec.disableShrink || Halving(owned) != {} || exists b :: b in owned && now - b.nb.since < spec.cooldown
      then d == Nothing
      else var demand := Max(SumUsed(InService(owned)) + SumUsed(Leaving(owned)), info.pods);
        d == Shrink(spec, info.allocatable, demand, InService(owned), StartingBlock(owned), now)
  {
    ShortIsWants(spec, owned, info);
    InProgressIs(owned);
    GrowDecisionIs(owned);
    CalmDecisionIs(spec, owned, info, now);
  }

  lemma InProgressIs(owned: set<Block>)
    ensures InProgress(owned) ==
      if exists b :: b in owned && Coming(b) then Some(Wait)
      else if HalfReady(owned) != {} then Some(Splits(Names(HalfReady(owned)))) else None
  {
    SameSets(owned);
    assert forall b :: b in owned ==> (IsInFlight(b) <==> Coming(b));
  }

  lemma CalmDecisionIs(spec: PoolSpec, owned: set<Block>, info: Input, now: int)
    requires spec.Ok() && WellFormed(owned)
    ensures CalmDecision(spec, owned, info, now) ==
      if spec.disableShrink || Halving(owned) != {} || exists b :: b in owned && now - b.nb.since < spec.cooldown
      then Nothing
      else
        var demand := Max(SumUsed(InService(owned)) + SumUsed(Leaving(owned)), info.pods);
        Shrink(spec, info.allocatable, demand, InService(owned), StartingBlock(owned), now)
  {
    SameSets(owned);
    var demand := Max(SumUsed(InService(owned)) + SumUsed(Leaving(owned)), info.pods);
    CalmWith(spec, owned, info, now, InService(owned), demand);
  }

  lemma CalmWith(spec: PoolSpec, owned: set<Block>, info: Input, now: int, active: set<Block>, demand: nat)
    requires spec.Ok() && WellFormed(owned) && active == ActiveOf(owned) && demand == ShrinkDemand(owned, info)
    ensures CalmDecision(spec, owned, info, now) ==
      if spec.disableShrink || Halving(owned) != {} || exists b :: b in owned && now - b.nb.since < spec.cooldown
      then Nothing
      else Shrink(spec, info.allocatable, demand, active, StartingBlock(owned), now)
  {
    AtRest(spec, owned, now);
  }

  lemma AtRest(spec: PoolSpec, owned: set<Block>, now: int)
    ensures (forall b :: b in owned ==> !IsReleasing(b)) <==> Halving(owned) == {}
    ensures (forall b :: b in owned ==> Old(spec, b, now))
      <==> !exists b :: b in owned && now - b.nb.since < spec.cooldown
  {
    if b :| b in owned && IsReleasing(b) { assert b in Halving(owned); }
    if b :| b in Halving(owned) { assert IsReleasing(b); }
    if b :| b in owned && !Old(spec, b, now) { assert now - b.nb.since < spec.cooldown; }
  }

  lemma SameSets(owned: set<Block>)
    ensures InService(owned) == ActiveOf(owned) && Leaving(owned) == DrainingOf(owned)
    ensures Halving(owned) == (set b | b in owned && IsReleasing(b))
    ensures HalfReady(owned) == (set b | b in owned && IsSplitReady(b))
  {
  }

  lemma GrowDecisionIs(owned: set<Block>)
    ensures var d := GrowDecision(owned);
      if Halving(owned) != {} then d == Unrelease(Names(Halving(owned)))
      else if Leaving(owned) != {} then exists b :: MostUsed(Leaving(owned), b) && d == Undrain(b.name)
      else d == Grow
  {
    SameSets(owned);
    if Leaving(owned) != {} { var b := SomeMostUsed(DrainingOf(owned)); }
  }

  // ---- what is spared ----

  /** What is left is the initial capacity at least, in use by no more than the shrink threshold, and enough. */
  ghost predicate Suffices(spec: PoolSpec, allocatable: nat, demand: nat, capacity: nat)
    requires spec.Ok()
  {
    && capacity >= Usable(InitialBlockSize(spec, allocatable))
    && 100 * demand <= spec.shrinkThreshold * capacity && Enough(spec, capacity, demand)
  }

  /** A block in service that is not the starting block and has not changed for the cooldown, and that the node can do
      without. */
  ghost predicate Dispensable(spec: PoolSpec, allocatable: nat, demand: nat, active: set<Block>, first: Option<Cidr>,
                              now: int, b: Block)
    requires spec.Ok() && WellFormed(active)
  {
    && b in active && first != Some(b.name) && b.nb.since + spec.cooldown <= now
    && Suffices(spec, allocatable, demand, Given(active - {b}))
  }

  lemma DrainableIs(spec: PoolSpec, allocatable: nat, demand: nat, active: set<Block>, first: Option<Cidr>, now: int,
                    b: Block)
    requires spec.Ok() && WellFormed(active)
    ensures b in Drainable(spec, allocatable, demand, active, first, now)
      <==> Dispensable(spec, allocatable, demand, active, first, now, b)
  {
    NeedsGrowthIs(spec, Given(active - {b}), demand);
  }

  /** b is drained next: nothing that the node can do without has less use, nothing with equal use is smaller, and
      of these b is the lowest. */
  ghost predicate Next(spec: PoolSpec, allocatable: nat, demand: nat, active: set<Block>, first: Option<Cidr>, now: int,
                       b: Block)
    requires spec.Ok() && WellFormed(active)
  {
    && |active| >= 2 && Dispensable(spec, allocatable, demand, active, first, now, b)
    && forall c :: Dispensable(spec, allocatable, demand, active, first, now, c) ==> LessUsed(b, c)
  }

  predicate LessUsed(b: Block, c: Block) {
    var m, n := Size(b.nb.cidr.prefix), Size(c.nb.cidr.prefix);
    b.used < c.used || (b.used == c.used && (m < n || (m == n && b.nb.cidr.base <= c.nb.cidr.base)))
  }

  lemma CandidateIs(spec: PoolSpec, allocatable: nat, demand: nat, active: set<Block>, first: Option<Cidr>, now: int)
    requires spec.Ok() && WellFormed(active) && |active| >= 2
    ensures var b := FirstToDrain(Drainable(spec, allocatable, demand, active, first, now));
      if b.Some? then Next(spec, allocatable, demand, active, first, now, b.value)
      else forall c :: !Dispensable(spec, allocatable, demand, active, first, now, c)
  {
    var candidates := Drainable(spec, allocatable, demand, active, first, now);
    forall c ensures c in candidates <==> Dispensable(spec, allocatable, demand, active, first, now, c) {
      DrainableIs(spec, allocatable, demand, active, first, now, c);
    }
    FirstIsLeast(active, candidates);
  }

  lemma FirstIsLeast(active: set<Block>, candidates: set<Block>)
    requires WellFormed(active) && candidates <= active
    ensures var b := FirstToDrain(candidates);
      if b.Some? then b.value in candidates && forall c :: c in candidates ==> LessUsed(b.value, c)
      else candidates == {}
  {
    var b := FirstToDrain(candidates);
    if b.Some? {
      forall c | c in candidates ensures LessUsed(b.value, c) {
        assert Aligned(b.value.nb.cidr) && Aligned(c.nb.cidr);
        SizeOrder(b.value.nb.cidr.prefix, c.nb.cidr.prefix);
        SizeOrder(c.nb.cidr.prefix, b.value.nb.cidr.prefix);
      }
    } else if candidates != {} {
      var least := SomeFirst(candidates);
    }
  }

  lemma {:induction false} SomeFirst(s: set<Block>) returns (b: Block)
    requires s != {}
    ensures b in s && forall c :: c in s ==> DrainsBefore(b, c)
    decreases |s|
  {
    b :| b in s;
    if s != {b} {
      var a := b;
      var c := SomeFirst(s - {b});
      if DrainsBefore(c, b) { b := c; }
      forall d | d in s ensures DrainsBefore(b, d) { assert d == a || d in s - {a}; }
    }
  }

  /** The drains of a pass, in an order in which each was the next: and then the node can do without no more. */
  lemma {:induction false} DrainsInOrder(spec: PoolSpec, allocatable: nat, demand: nat, active: set<Block>,
                                         first: Option<Cidr>, now: int) returns (order: seq<Block>)
    requires spec.Ok() && WellFormed(active)
    ensures Drains(spec, allocatable, demand, active, first, now) == set b | b in order
    ensures Drains(spec, allocatable, demand, active, first, now) == {} <==> order == []
    ensures InOrder(spec, allocatable, demand, active, first, now, order)
    decreases |active|
  {
    order := [];
    if |active| >= 2 {
      var b := FirstToDrain(Drainable(spec, allocatable, demand, active, first, now));
      CandidateIs(spec, allocatable, demand, active, first, now);
      if b.Some? {
        var rest := DrainsInOrder(spec, allocatable, demand, active - {b.value}, first, now);
        order := OneFirst(spec, allocatable, demand, active, first, now, b.value, rest);
      }
    }
  }

  lemma OneFirst(spec: PoolSpec, allocatable: nat, demand: nat, active: set<Block>, first: Option<Cidr>, now: int,
                 b: Block, rest: seq<Block>) returns (order: seq<Block>)
    requires spec.Ok() && WellFormed(active) && Next(spec, allocatable, demand, active, first, now, b)
    requires InOrder(spec, allocatable, demand, active - {b}, first, now, rest)
    ensures InOrder(spec, allocatable, demand, active, first, now, order)
    ensures (set c | c in order) == {b} + set c | c in rest
  {
    order := [b] + rest;
    assert order[0] == b && order[1..] == rest;
  }

  ghost predicate InOrder(spec: PoolSpec, allocatable: nat, demand: nat, active: set<Block>, first: Option<Cidr>,
                          now: int, order: seq<Block>)
    requires spec.Ok() && WellFormed(active)
    decreases |order|
  {
    if order == [] then
      |active| < 2 || forall b :: !Dispensable(spec, allocatable, demand, active, first, now, b)
    else
      && Next(spec, allocatable, demand, active, first, now, order[0])
      && InOrder(spec, allocatable, demand, active - {order[0]}, first, now, order[1..])
  }

  // ---- halves ----

  /** The halves in which the agent has counted no lease, the upper one first. */
  ghost predicate EmptyIs(b: Block, half: Cidr, keep: Cidr) {
    && b.halves.Some? && IsHalf(half, b.nb.cidr) && IsHalf(keep, b.nb.cidr) && half != keep
    && (if half.base > keep.base then b.halves.value.1 == 0 else b.halves.value.0 == 0 && b.halves.value.1 != 0)
  }

  lemma EmptyHalfIs(b: Block)
    requires Aligned(b.nb.cidr)
    ensures match EmptyHalf(b)
      case Some(p) => EmptyIs(b, p.0, p.1)
      case None => forall half, keep :: !EmptyIs(b, half, keep)
  {
    if b.nb.cidr.prefix < 32 {
      HalvesDiffer(b.nb.cidr);
      HalvesAligned(b.nb.cidr);
    }
  }

  /** A grown block larger than a minimum block, with an empty half that is not asked for yet, that has not changed for
      the cooldown and of which the node can do without that half. */
  ghost predicate Divisible(spec: PoolSpec, allocatable: nat, demand: nat, active: set<Block>, first: Option<Cidr>,
                            now: int, b: Block)
    requires spec.Ok() && WellFormed(active)
  {
    && b in active && first != Some(b.name) && b.nb.release == None && b.nb.since + spec.cooldown <= now
    && Size(b.nb.cidr.prefix) > Size(spec.minBlockSize)
    && exists half, keep :: EmptyIs(b, half, keep) && LeavesEnough(spec, allocatable, demand, active, b, keep)
  }

  ghost predicate LeavesEnough(spec: PoolSpec, allocatable: nat, demand: nat, active: set<Block>, b: Block, keep: Cidr)
    requires spec.Ok()
  {
    var kept := Kept(active, b, keep);
    AllAligned(kept) && Suffices(spec, allocatable, demand, Capacity(kept))
  }

  lemma SplittableIs(spec: PoolSpec, allocatable: nat, demand: nat, active: set<Block>, first: Option<Cidr>, now: int,
                     b: Block)
    requires spec.Ok() && WellFormed(active)
    ensures b in Splittable(spec, allocatable, demand, active, first, now)
      <==> Divisible(spec, allocatable, demand, active, first, now, b)
  {
    if b in active {
      EmptyHalfIs(b);
      SizeOrder(b.nb.cidr.prefix, spec.minBlockSize);
      if EmptyHalf(b).Some? {
        KeptIsServed(active, b);
        NeedsGrowthIs(spec, Capacity(Kept(active, b, EmptyHalf(b).value.1)), demand);
        OneEmpty(b);
      }
    }
  }

  lemma OneEmpty(b: Block)
    requires Aligned(b.nb.cidr)
    ensures forall half, keep :: EmptyIs(b, half, keep) ==> EmptyHalf(b) == Some((half, keep))
  {
    if b.nb.cidr.prefix < 32 {
      HalvesDiffer(b.nb.cidr);
      HalvesAligned(b.nb.cidr);
    }
  }

  lemma SizeOrder(p: nat, q: nat)
    requires p <= 32 && q <= 32
    ensures Size(p) > Size(q) <==> p < q
  {
    if p < q { SizeMonotone(p + 1, q); } else { SizeMonotone(q, p); }
  }

  /** Of the halves that can be given back, that of a largest block is, and of these of the lowest. */
  lemma SplitIsLargest(spec: PoolSpec, allocatable: nat, demand: nat, active: set<Block>, first: Option<Cidr>, now: int)
    requires spec.Ok() && WellFormed(active)
    ensures var b := FirstToSplit(Splittable(spec, allocatable, demand, active, first, now));
      if b.Some? then
        && Divisible(spec, allocatable, demand, active, first, now, b.value)
        && forall c :: Divisible(spec, allocatable, demand, active, first, now, c) ==> Larger(b.value, c)
      else forall c :: !Divisible(spec, allocatable, demand, active, first, now, c)
  {
    var candidates := Splittable(spec, allocatable, demand, active, first, now);
    forall c ensures c in candidates <==> Divisible(spec, allocatable, demand, active, first, now, c) {
      SplittableIs(spec, allocatable, demand, active, first, now, c);
    }
    LargestIsFirst(active, candidates);
  }

  predicate Larger(b: Block, c: Block) {
    var m, n := Size(b.nb.cidr.prefix), Size(c.nb.cidr.prefix);
    m > n || (m == n && b.nb.cidr.base <= c.nb.cidr.base)
  }

  lemma LargestIsFirst(active: set<Block>, candidates: set<Block>)
    requires WellFormed(active) && candidates <= active
    ensures var b := FirstToSplit(candidates);
      if b.Some? then b.value in candidates && forall c :: c in candidates ==> Larger(b.value, c)
      else candidates == {}
  {
    var b := FirstToSplit(candidates);
    if b.Some? {
      forall c | c in candidates ensures Larger(b.value, c) {
        assert Aligned(b.value.nb.cidr) && Aligned(c.nb.cidr);
        SizeOrder(b.value.nb.cidr.prefix, c.nb.cidr.prefix);
        SizeOrder(c.nb.cidr.prefix, b.value.nb.cidr.prefix);
      }
    } else if candidates != {} {
      var largest := SomeLargest(candidates);
    }
  }

  lemma {:induction false} SomeLargest(s: set<Block>) returns (b: Block)
    requires s != {}
    ensures b in s && forall c :: c in s ==> SplitsBefore(b, c)
    decreases |s|
  {
    b :| b in s;
    if s != {b} {
      var a := b;
      var c := SomeLargest(s - {b});
      if SplitsBefore(c, b) { b := c; }
      forall d | d in s ensures SplitsBefore(b, d) { assert d == a || d in s - {a}; }
    }
  }

  // ---- the starting block ----

  ghost predicate IsOldest(owned: set<Block>, b: Block) {
    && b.nb.phase != Quarantined && !b.nb.drain
    && forall c :: c in owned ==> !c.initial && (c.nb.phase == Quarantined || c.nb.drain || Older(b, c))
  }

  /** The starting block is the one marked as such, or else the oldest that the node still uses. */
  lemma StartingBlockIs(owned: set<Block>)
    ensures match StartingBlock(owned)
      case Some(n) => exists b :: b in owned && b.name == n && (b.initial || IsOldest(owned, b))
      case None => forall c :: c in owned ==> !c.initial && (c.nb.phase == Quarantined || c.nb.drain)
  {
    var used := set c | c in owned && InUse(c);
    if StartingBlock(owned).None? {
      if c :| c in owned && c.initial { assert IsStarting(owned, c); }
      if used != {} {
        var b := SomeOldest(used);
        forall c | c in owned && InUse(c) ensures Older(b, c) { assert c in used; }
        assert IsStarting(owned, b);
      }
      forall c | c in owned ensures c.nb.phase == Quarantined || c.nb.drain { assert c !in used; }
    }
  }

  predicate Older(b: Block, c: Block) {
    b.created < c.created || (b.created == c.created && b.nb.cidr.base <= c.nb.cidr.base)
  }

  lemma {:induction false} SomeOldest(s: set<Block>) returns (b: Block)
    requires s != {}
    ensures b in s && forall c :: c in s ==> Older(b, c)
    decreases |s|
  {
    b :| b in s;
    if s != {b} {
      var a := b;
      var c := SomeOldest(s - {b});
      if Older(c, b) { b := c; }
      forall d | d in s ensures Older(b, d) { assert d == a || d in s - {a}; }
    }
  }
}
