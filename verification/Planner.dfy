/** What the planner decides about the blocks of one node: when it grows, when it shrinks, and that the two
    do not chase each other. */
module Planner {
  import opened Options
  import opened Cidrs
  import opened NodeBlocks
  import opened Aggregation
  import opened Sizing

  /** A NodeBlock with the usage that its agent reports, in whole and per half. */
  datatype Block = Block(name: Cidr, nb: NodeBlock, used: nat, halves: Option<(nat, nat)>, initial: bool, created: int)

  /** Besides the blocks: pods without an address, pods that have or need one, how many the node may run, its
      latest failure for want of addresses, and when its blocks last changed. */
  datatype Input = Input(waiting: nat, pods: nat, allocatable: nat, failure: Option<int>, lastChange: Option<int>)

  // How long after a change a failure is still blamed on the state before it.
  const STARVE_GRACE := 5

  datatype Decision =
    | Initial | Wait | Splits(names: set<Cidr>) | Unrelease(names: set<Cidr>) | Undrain(name: Cidr) | Grow
    | Drain(names: set<Cidr>) | ReleaseHalf(name: Cidr, half: Cidr) | Nothing

  /** What the NodeBlock protocol guarantees of a node's blocks. */
  ghost predicate WellFormed(owned: set<Block>) {
    && (forall b {:trigger Aligned(b.nb.cidr)} :: b in owned ==> Aligned(b.nb.cidr))
    && (forall b, c {:trigger Apart(b, c)} :: b in owned && c in owned && b != c ==> Apart(b, c))
  }

  ghost predicate Apart(b: Block, c: Block) {
    b.name != c.name && Disjoint(b.nb.cidr, c.nb.cidr)
  }

  lemma NamedOnce(owned: set<Block>, b: Block, c: Block)
    requires WellFormed(owned) && b in owned && c in owned && b.name == c.name
    ensures b == c
  {
    assert b != c ==> Apart(b, c);
  }

  // ---- sorting the blocks ----

  predicate IsActive(b: Block) { b.nb.phase == Active && !b.nb.drain }
  predicate IsDraining(b: Block) { b.nb.drain && (b.nb.phase == Active || b.nb.phase == Draining) }
  predicate IsInFlight(b: Block) { b.nb.phase == Pending || (b.nb.phase == Draining && !b.nb.drain) }
  predicate IsReleasing(b: Block) { IsActive(b) && b.nb.release.Some? }
  predicate IsSplitReady(b: Block) { IsReleasing(b) && b.nb.ready == b.nb.release }

  function ActiveOf(owned: set<Block>): set<Block> { set b | b in owned && IsActive(b) }
  function DrainingOf(owned: set<Block>): set<Block> { set b | b in owned && IsDraining(b) }
  function Names(s: set<Block>): set<Cidr> { set b | b in s :: b.name }
  function ServedOf(s: set<Block>): set<Cidr> { set b | b in s :: Served(b.nb) }

  ghost function SumUsed(s: set<Block>): nat
    decreases |s|
  {
    if s == {} then 0 else var b :| b in s; b.used + SumUsed(s - {b})
  }

  lemma {:induction false} UsedWithout(s: set<Block>, b: Block)
    requires b in s
    ensures SumUsed(s) == b.used + SumUsed(s - {b})
    decreases |s|
  {
    var c :| c in s && SumUsed(s) == c.used + SumUsed(s - {c});
    if c != b {
      UsedWithout(s - {c}, b);
      UsedWithout(s - {b}, c);
      assert s - {c} - {b} == s - {b} - {c};
    }
  }

  lemma {:induction false} UsedMonotone(s: set<Block>, t: set<Block>)
    requires s <= t
    ensures SumUsed(s) <= SumUsed(t)
    decreases |t|
  {
    if t - s == {} {
      assert s == t;
    } else {
      var b :| b in t - s;
      UsedWithout(t, b);
      UsedMonotone(s, t - {b});
    }
  }

  lemma ServedInside(b: Block)
    requires Aligned(b.nb.cidr)
    ensures Aligned(Served(b.nb)) && Within(Served(b.nb), b.nb.cidr)
  {
    if b.nb.release.Some? && OtherHalf(b.nb.cidr, b.nb.release.value).Some? { HalvesAligned(b.nb.cidr); }
  }

  lemma ServedApart(s: set<Block>)
    requires WellFormed(s)
    ensures AllAligned(ServedOf(s)) && AllApart(ServedOf(s))
  {
    forall c | c in ServedOf(s) ensures Aligned(c) {
      var b :| b in s && c == Served(b.nb);
      ServedInside(b);
    }
    forall c, d | c in ServedOf(s) && d in ServedOf(s) && c != d ensures Disjoint(c, d) {
      var b, e :| b in s && e in s && c == Served(b.nb) && d == Served(e.nb);
      ServedInside(b);
      ServedInside(e);
      assert Apart(b, e);
    }
  }

  // ---- growing ----

  ghost function CapacityOfBlocks(s: set<Block>): nat
    requires WellFormed(s)
  {
    ServedApart(s);
    Capacity(ServedOf(s))
  }

  /** A failure newer than every change to the node's blocks. */
  predicate Starved(failure: Option<int>, owned: set<Block>, lastChange: Option<int>) {
    && failure.Some?
    && (lastChange.Some? ==> failure.value >= lastChange.value + STARVE_GRACE)
    && forall b :: b in owned ==> failure.value >= b.nb.since + STARVE_GRACE
  }

  ghost function DemandOf(owned: set<Block>, info: Input): nat {
    Max(SumUsed(ActiveOf(owned)) + info.waiting, info.pods)
  }

  // ---- shrinking ----

  /** What the node keeps if it gives something back: its initial capacity, use under the shrink threshold,
      and no reason to grow. */
  ghost predicate Spare(spec: PoolSpec, allocatable: nat, demand: nat, rest: set<Cidr>)
    requires spec.Ok() && AllAligned(rest)
  {
    && Capacity(rest) >= Usable(InitialBlockSize(spec, allocatable))
    && demand * 100 <= spec.shrinkThreshold * Capacity(rest)
    && !NeedsGrowth(spec, Capacity(rest), demand)
  }

  predicate Old(spec: PoolSpec, b: Block, now: int) {
    now - b.nb.since >= spec.cooldown
  }

  /** The block that is never drained or split: the initial one, or else the oldest in use. Creation times
      that are equal go by name, here by the address in it. */
  predicate IsStarting(owned: set<Block>, b: Block) {
    b in owned &&
    if exists c :: c in owned && c.initial then b.initial
    else InUse(b) && forall c :: c in owned && InUse(c) ==>
      b.created < c.created || (b.created == c.created && b.nb.cidr.base <= c.nb.cidr.base)
  }

  predicate InUse(b: Block) { b.nb.phase != Quarantined && !b.nb.drain }

  ghost function StartingBlock(owned: set<Block>): Option<Cidr> {
    if b :| IsStarting(owned, b) then Some(b.name) else None
  }

  ghost predicate CanDrain(spec: PoolSpec, allocatable: nat, demand: nat, active: set<Block>, first: Option<Cidr>,
                           now: int, b: Block)
    requires spec.Ok() && WellFormed(active)
  {
    && b in active && Some(b.name) != first && Old(spec, b, now)
    && (ServedApart(active - {b}); Spare(spec, allocatable, demand, ServedOf(active - {b})))
  }

  /** The emptiest block goes first, then the smallest, then the lowest. */
  predicate DrainsBefore(b: Block, c: Block) {
    b.used < c.used || (b.used == c.used && (b.nb.cidr.prefix > c.nb.cidr.prefix
      || (b.nb.cidr.prefix == c.nb.cidr.prefix && b.nb.cidr.base <= c.nb.cidr.base)))
  }

  ghost function Drainable(spec: PoolSpec, allocatable: nat, demand: nat, active: set<Block>, first: Option<Cidr>,
                           now: int): set<Block>
    requires spec.Ok() && WellFormed(active)
  {
    set b | b in active && CanDrain(spec, allocatable, demand, active, first, now, b)
  }

  ghost function FirstToDrain(candidates: set<Block>): (b: Option<Block>)
    ensures b.Some? ==> b.value in candidates && forall c :: c in candidates ==> DrainsBefore(b.value, c)
  {
    if b :| b in candidates && forall c :: c in candidates ==> DrainsBefore(b, c) then Some(b) else None
  }

  /** Draining one block after the other for as long as one can be spared. */
  ghost function Drains(spec: PoolSpec, allocatable: nat, demand: nat, active: set<Block>, first: Option<Cidr>,
                        now: int): set<Block>
    requires spec.Ok() && WellFormed(active)
    decreases |active|
  {
    if |active| < 2 then {} else
      var b := FirstToDrain(Drainable(spec, allocatable, demand, active, first, now));
      if b.None? then {} else {b.value} + Drains(spec, allocatable, demand, active - {b.value}, first, now)
  }

  /** The empty half of a block and the half it keeps: the upper one if both are empty. */
  function EmptyHalf(b: Block): Option<(Cidr, Cidr)> {
    if b.halves.None? || b.nb.cidr.prefix >= 32 then None
    else if b.halves.value.1 == 0 then Some((UpperHalf(b.nb.cidr), LowerHalf(b.nb.cidr)))
    else if b.halves.value.0 == 0 then Some((LowerHalf(b.nb.cidr), UpperHalf(b.nb.cidr)))
    else None
  }

  /** What the node serves if a block keeps only one half. */
  function Kept(active: set<Block>, b: Block, keep: Cidr): set<Cidr> {
    {keep} + ServedOf(active - {b})
  }

  lemma KeptIsServed(active: set<Block>, b: Block)
    requires WellFormed(active) && b in active && EmptyHalf(b).Some?
    ensures var c := Released(b, EmptyHalf(b).value.0);
      WellFormed(active - {b} + {c}) && ServedOf(active - {b} + {c}) == Kept(active, b, EmptyHalf(b).value.1)
    ensures AllAligned(Kept(active, b, EmptyHalf(b).value.1))
  {
    var c := Released(b, EmptyHalf(b).value.0);
    HalvesDiffer(b.nb.cidr);
    assert Served(c.nb) == EmptyHalf(b).value.1;
    ReplaceOne(active, b, c);
    ServedApart(active - {b} + {c});
  }

  lemma ReplaceOne(s: set<Block>, b: Block, c: Block)
    requires WellFormed(s) && b in s && c.name == b.name && c.nb.cidr == b.nb.cidr
    ensures WellFormed(s - {b} + {c})
  {
    forall d | d in s - {b} ensures Apart(d, c) && Apart(c, d) { assert Apart(d, b) && Apart(b, d); }
  }

  function Released(b: Block, half: Cidr): Block {
    b.(nb := b.nb.(release := Some(half)))
  }

  ghost predicate CanSplit(spec: PoolSpec, allocatable: nat, demand: nat, active: set<Block>, first: Option<Cidr>,
                           now: int, b: Block)
    requires spec.Ok() && WellFormed(active)
  {
    && b in active && Some(b.name) != first && b.nb.release.None? && b.nb.cidr.prefix < spec.minBlockSize
    && Old(spec, b, now) && EmptyHalf(b).Some?
    && (KeptIsServed(active, b); Spare(spec, allocatable, demand, Kept(active, b, EmptyHalf(b).value.1)))
  }

  /** The largest half goes first, then the lowest. */
  predicate SplitsBefore(b: Block, c: Block) {
    b.nb.cidr.prefix < c.nb.cidr.prefix || (b.nb.cidr.prefix == c.nb.cidr.prefix && b.nb.cidr.base <= c.nb.cidr.base)
  }

  ghost function Splittable(spec: PoolSpec, allocatable: nat, demand: nat, active: set<Block>, first: Option<Cidr>,
                            now: int): set<Block>
    requires spec.Ok() && WellFormed(active)
  {
    set b | b in active && CanSplit(spec, allocatable, demand, active, first, now, b)
  }

  ghost function FirstToSplit(candidates: set<Block>): (b: Option<Block>)
    ensures b.Some? ==> b.value in candidates && forall c :: c in candidates ==> SplitsBefore(b.value, c)
  {
    if b :| b in candidates && forall c :: c in candidates ==> SplitsBefore(b, c) then Some(b) else None
  }

  ghost function SplitDecision(candidates: set<Block>): Decision
    requires forall b :: b in candidates ==> EmptyHalf(b).Some?
  {
    var b := FirstToSplit(candidates);
    if b.None? then Nothing else ReleaseHalf(b.value.name, EmptyHalf(b.value).value.0)
  }

  /** Whole blocks if any can be spared, or else half of one. */
  ghost function Shrink(spec: PoolSpec, allocatable: nat, demand: nat, active: set<Block>, first: Option<Cidr>,
                        now: int): (d: Decision)
    requires spec.Ok() && WellFormed(active)
    ensures d.Drain? || d.ReleaseHalf? || d.Nothing?
  {
    var drains := Drains(spec, allocatable, demand, active, first, now);
    if drains != {} then Drain(Names(drains))
    else SplitDecision(Splittable(spec, allocatable, demand, active, first, now))
  }

  // ---- the decision ----

  ghost predicate MostUsed(s: set<Block>, b: Block) {
    b in s && forall c :: c in s ==> c.used <= b.used
  }

  lemma {:induction false} SomeMostUsed(s: set<Block>) returns (b: Block)
    requires s != {}
    ensures MostUsed(s, b)
    decreases |s|
  {
    b :| b in s;
    if s != {b} {
      var c := SomeMostUsed(s - {b});
      if c.used > b.used { b := c; }
    }
  }

  ghost function GrowDecision(owned: set<Block>): (d: Decision)
    ensures d.Unrelease? || d.Undrain? || d.Grow?
  {
    var releasing := set b | b in owned && IsReleasing(b);
    if releasing != {} then Unrelease(Names(releasing))
    else if b :| MostUsed(DrainingOf(owned), b) then Undrain(b.name)
    else Grow
  }

  ghost function ShrinkDemand(owned: set<Block>, info: Input): nat {
    Max(SumUsed(ActiveOf(owned)) + SumUsed(DrainingOf(owned)), info.pods)
  }

  /** Whether the node is due for a grow. */
  ghost predicate Wants(spec: PoolSpec, owned: set<Block>, info: Input)
    requires spec.Ok() && WellFormed(owned)
  {
    NeedsGrowth(spec, CapacityOfBlocks(ActiveOf(owned)), DemandOf(owned, info))
      || Starved(info.failure, owned, info.lastChange)
  }

  /** What happens to a node that needs no more space: one release at a time, and none before the cooldown
      has passed since the last change. */
  ghost function CalmDecision(spec: PoolSpec, owned: set<Block>, info: Input, now: int): (d: Decision)
    requires spec.Ok() && WellFormed(owned)
    ensures d.Drain? || d.ReleaseHalf? || d.Nothing?
  {
    if !spec.disableShrink && (forall b :: b in owned ==> !IsReleasing(b))
      && (forall b :: b in owned ==> Old(spec, b, now))
    then Shrink(spec, info.allocatable, ShrinkDemand(owned, info), ActiveOf(owned), StartingBlock(owned), now)
    else Nothing
  }

  /** One change at a time: a change in flight, or a release that is ready to be completed, comes first. */
  ghost function InProgress(owned: set<Block>): (d: Option<Decision>)
    ensures d.Some? ==> d.value.Wait? || d.value.Splits?
  {
    var splits := set b | b in owned && IsSplitReady(b);
    if exists b :: b in owned && IsInFlight(b) then Some(Wait)
    else if splits != {} then Some(Splits(Names(splits)))
    else None
  }

  ghost function Decide(spec: PoolSpec, owned: set<Block>, info: Input, now: int): Decision
    requires spec.Ok() && WellFormed(owned)
  {
    if owned == {} then Initial
    else if InProgress(owned).Some? then InProgress(owned).value
    else if Wants(spec, owned, info) then GrowDecision(owned)
    else CalmDecision(spec, owned, info, now)
  }

  // ---- a shrink is never undone by the next pass ----

  /** What draining d leaves of the active blocks: one at least, the starting block, and spare enough. */
  ghost predicate Spared(spec: PoolSpec, allocatable: nat, demand: nat, active: set<Block>, first: Option<Cidr>,
                         now: int, d: set<Block>)
    requires spec.Ok() && WellFormed(active)
  {
    && d <= active && (active != {} ==> d != active)
    && (forall b :: b in d ==> Some(b.name) != first && Old(spec, b, now))
    && (ServedApart(active - d); d != {} ==> Spare(spec, allocatable, demand, ServedOf(active - d)))
  }

  /** Draining ends; it spares the starting block and leaves the node its initial capacity, its use under
      the threshold, and no reason to grow. */
  lemma {:induction false} DrainsSpare(spec: PoolSpec, allocatable: nat, demand: nat, active: set<Block>,
                                       first: Option<Cidr>, now: int)
    requires spec.Ok() && WellFormed(active)
    ensures Spared(spec, allocatable, demand, active, first, now, Drains(spec, allocatable, demand, active, first, now))
    decreases |active|
  {
    var b := FirstToDrain(Drainable(spec, allocatable, demand, active, first, now));
    if |active| >= 2 && b.Some? {
      DrainsSpare(spec, allocatable, demand, active - {b.value}, first, now);
      OneMoreSpared(spec, allocatable, demand, active, first, now, b.value,
                    Drains(spec, allocatable, demand, active - {b.value}, first, now));
    }
  }

  lemma OneMoreSpared(spec: PoolSpec, allocatable: nat, demand: nat, active: set<Block>, first: Option<Cidr>, now: int,
                      b: Block, e: set<Block>)
    requires spec.Ok() && WellFormed(active) && |active| >= 2
    requires CanDrain(spec, allocatable, demand, active, first, now, b)
    requires Spared(spec, allocatable, demand, active - {b}, first, now, e)
    ensures Spared(spec, allocatable, demand, active, first, now, {b} + e)
  {
    var rest := active - {b};
    assert active - ({b} + e) == rest - e;
    assert |rest| == |active| - 1;
    assert rest != {};
    if e == {} { assert rest - e == rest; }
  }

  /** The specs after a shrink. */
  function AfterShrink(b: Block, d: Decision): Block {
    match d
    case Drain(names) => if b.name in names then b.(nb := b.nb.(drain := true)) else b
    case ReleaseHalf(name, half) => if b.name == name then Released(b, half) else b
    case _ => b
  }

  function AllAfterShrink(owned: set<Block>, d: Decision): set<Block> {
    set b | b in owned :: AfterShrink(b, d)
  }

  lemma AfterShrinkWellFormed(owned: set<Block>, d: Decision)
    requires WellFormed(owned)
    ensures WellFormed(AllAfterShrink(owned, d))
  {
    var after := AllAfterShrink(owned, d);
    forall b, c | b in after && c in after && b != c ensures Apart(b, c) {
      var x, y :| x in owned && y in owned && b == AfterShrink(x, d) && c == AfterShrink(y, d);
      assert Apart(x, y);
    }
  }

  /** The active blocks after a drain are the others. */
  lemma ActiveAfterDrain(owned: set<Block>, drains: set<Block>)
    requires WellFormed(owned) && drains <= ActiveOf(owned)
    ensures ActiveOf(AllAfterShrink(owned, Drain(Names(drains)))) == ActiveOf(owned) - drains
  {
    var d := Drain(Names(drains));
    forall b | b in owned ensures b.name in Names(drains) <==> b in drains {
      if b.name in Names(drains) {
        var c :| c in drains && c.name == b.name;
        NamedOnce(owned, b, c);
      }
    }
    forall b ensures b in ActiveOf(AllAfterShrink(owned, d)) <==> b in ActiveOf(owned) - drains {
      if b in ActiveOf(owned) - drains { assert AfterShrink(b, d) == b; }
    }
  }

  lemma ActiveAfterRelease(owned: set<Block>, b: Block, half: Cidr)
    requires WellFormed(owned) && b in ActiveOf(owned)
    ensures ActiveOf(AllAfterShrink(owned, ReleaseHalf(b.name, half))) == ActiveOf(owned) - {b} + {Released(b, half)}
  {
    var d := ReleaseHalf(b.name, half);
    var after := ActiveOf(AllAfterShrink(owned, d));
    assert AfterShrink(b, d) == Released(b, half);
    forall c | c in after ensures c in ActiveOf(owned) - {b} + {Released(b, half)} {
      var x :| x in owned && AfterShrink(x, d) == c;
      if x.name == b.name { NamedOnce(owned, x, b); }
    }
    forall c | c in ActiveOf(owned) - {b} ensures c in after {
      assert Apart(c, b);
      assert AfterShrink(c, d) == c;
    }
  }

  /** What the node serves after a shrink is spare enough for the demand that the shrink was judged by. */
  ghost predicate LeavesSpare(spec: PoolSpec, owned: set<Block>, info: Input, rest: set<Block>)
    requires spec.Ok()
  {
    && WellFormed(rest) && AllAligned(ServedOf(rest))
    && Spare(spec, info.allocatable, ShrinkDemand(owned, info), ServedOf(rest))
    && SumUsed(rest) <= SumUsed(ActiveOf(owned))
  }

  lemma DrainLeavesSpare(spec: PoolSpec, owned: set<Block>, info: Input, now: int)
    requires spec.Ok() && WellFormed(owned)
    ensures
      var active, demand := ActiveOf(owned), ShrinkDemand(owned, info);
      var drains := Drains(spec, info.allocatable, demand, active, StartingBlock(owned), now);
      drains != {} ==> LeavesSpare(spec, owned, info, ActiveOf(AllAfterShrink(owned, Drain(Names(drains)))))
  {
    var active := ActiveOf(owned);
    var drains := Drains(spec, info.allocatable, ShrinkDemand(owned, info), active, StartingBlock(owned), now);
    DrainsSpare(spec, info.allocatable, ShrinkDemand(owned, info), active, StartingBlock(owned), now);
    ActiveAfterDrain(owned, drains);
    UsedMonotone(active - drains, active);
    ServedApart(active - drains);
  }

  lemma ReleaseLeavesSpare(spec: PoolSpec, owned: set<Block>, info: Input, now: int, b: Block)
    requires spec.Ok() && WellFormed(owned)
    ensures
      var splittable := Splittable(spec, info.allocatable, ShrinkDemand(owned, info), ActiveOf(owned),
                                   StartingBlock(owned), now);
      b in splittable ==>
        var d := ReleaseHalf(b.name, EmptyHalf(b).value.0);
        EmptyHalf(b).Some? && LeavesSpare(spec, owned, info, ActiveOf(AllAfterShrink(owned, d)))
  {
    var active := ActiveOf(owned);
    if b in Splittable(spec, info.allocatable, ShrinkDemand(owned, info), active, StartingBlock(owned), now) {
      var half := EmptyHalf(b).value.0;
      KeptIsServed(active, b);
      ActiveAfterRelease(owned, b, half);
      UsedAfterRelease(active, b, half);
    }
  }

  lemma ShrinkLeavesSpare(spec: PoolSpec, owned: set<Block>, info: Input, now: int)
    requires spec.Ok() && WellFormed(owned)
    ensures
      var d := Shrink(spec, info.allocatable, ShrinkDemand(owned, info), ActiveOf(owned), StartingBlock(owned), now);
      !d.Nothing? ==> LeavesSpare(spec, owned, info, ActiveOf(AllAfterShrink(owned, d)))
  {
    var active, first, demand := ActiveOf(owned), StartingBlock(owned), ShrinkDemand(owned, info);
    DrainLeavesSpare(spec, owned, info, now);
    var b := FirstToSplit(Splittable(spec, info.allocatable, demand, active, first, now));
    if b.Some? { ReleaseLeavesSpare(spec, owned, info, now, b.value); }
  }

  lemma UsedAfterRelease(active: set<Block>, b: Block, half: Cidr)
    requires WellFormed(active) && b in active
    ensures SumUsed(active - {b} + {Released(b, half)}) == SumUsed(active)
  {
    var c, rest := Released(b, half), active - {b};
    if c in rest { NamedOnce(active, b, c); }
    assert rest + {c} - {c} == rest;
    UsedWithout(active, b);
    UsedWithout(rest + {c}, c);
  }

  /** The same leases and pods, no pod waits, and there is no newer failure. */
  predicate Unchanged(info: Input, next: Input) {
    && next.waiting == 0 && next.pods == info.pods && next.failure == info.failure
    && (info.lastChange.Some? ==> next.lastChange.Some? && next.lastChange.value >= info.lastChange.value)
  }

  /** Hysteresis: after a drain or a release, as long as leases and pods stay the same, no pod waits and there
      is no newer failure, no pass asks for more space or takes the decision back. */
  lemma ShrinkIsNotUndone(spec: PoolSpec, owned: set<Block>, info: Input, now: int, next: Input, later: int)
    requires spec.Ok() && WellFormed(owned) && Unchanged(info, next)
    ensures WellFormed(AllAfterShrink(owned, Decide(spec, owned, info, now)))
    ensures var d := Decide(spec, owned, info, now);
      var e := Decide(spec, AllAfterShrink(owned, d), next, later);
      d.Drain? || d.ReleaseHalf? ==> !e.Initial? && !e.Grow? && !e.Undrain? && !e.Unrelease?
  {
    var d := Decide(spec, owned, info, now);
    AfterShrinkWellFormed(owned, d);
    if d.Drain? || d.ReleaseHalf? {
      ShrinkDecided(spec, owned, info, now);
      ShrinkLeavesSpare(spec, owned, info, now);
      NoWish(spec, owned, d, info, next);
      var b :| b in owned;
      assert AfterShrink(b, d) in AllAfterShrink(owned, d);
      WithoutWish(spec, AllAfterShrink(owned, d), next, later);
    }
  }

  lemma ShrinkDecided(spec: PoolSpec, owned: set<Block>, info: Input, now: int)
    requires spec.Ok() && WellFormed(owned)
    ensures var d := Decide(spec, owned, info, now);
      d.Drain? || d.ReleaseHalf? ==>
        owned != {} && !Wants(spec, owned, info)
        && d == Shrink(spec, info.allocatable, ShrinkDemand(owned, info), ActiveOf(owned), StartingBlock(owned), now)
  {
  }

  lemma WithoutWish(spec: PoolSpec, owned: set<Block>, info: Input, now: int)
    requires spec.Ok() && WellFormed(owned)
    ensures var e := Decide(spec, owned, info, now);
      owned != {} && !Wants(spec, owned, info) ==> !e.Initial? && !e.Grow? && !e.Undrain? && !e.Unrelease?
  {
  }

  lemma NoWish(spec: PoolSpec, owned: set<Block>, d: Decision, info: Input, next: Input)
    requires spec.Ok() && WellFormed(owned) && !Wants(spec, owned, info) && WellFormed(AllAfterShrink(owned, d))
    requires Unchanged(info, next)
    requires LeavesSpare(spec, owned, info, ActiveOf(AllAfterShrink(owned, d)))
    ensures !Wants(spec, AllAfterShrink(owned, d), next)
  {
    var after := AllAfterShrink(owned, d);
    var capacity := Capacity(ServedOf(ActiveOf(after)));
    NotStarvedAfter(owned, d, info, next);
    NeedsGrowthMonotone(spec, capacity, ShrinkDemand(owned, info), capacity, DemandOf(after, next));
  }

  lemma NotStarvedAfter(owned: set<Block>, d: Decision, info: Input, next: Input)
    requires !Starved(info.failure, owned, info.lastChange) && Unchanged(info, next)
    ensures !Starved(next.failure, AllAfterShrink(owned, d), next.lastChange)
  {
    if info.failure.Some? && exists b :: b in owned && info.failure.value < b.nb.since + STARVE_GRACE {
      var b :| b in owned && info.failure.value < b.nb.since + STARVE_GRACE;
      assert AfterShrink(b, d) in AllAfterShrink(owned, d);
    }
  }

  // ---- sleeping until the next timer ----

  /** The decision is the same at two instants if every block is old enough at both or at neither. */
  lemma SameDecision(spec: PoolSpec, owned: set<Block>, info: Input, now: int, t: int)
    requires spec.Ok() && WellFormed(owned)
    requires forall b :: b in owned ==> (Old(spec, b, now) <==> Old(spec, b, t))
    ensures Decide(spec, owned, info, t) == Decide(spec, owned, info, now)
  {
    if forall b :: b in owned ==> Old(spec, b, now) {
      assert forall b :: b in owned ==> Old(spec, b, t);
      SameShrink(spec, info.allocatable, ShrinkDemand(owned, info), ActiveOf(owned), StartingBlock(owned), now, t);
    }
  }

  lemma SameShrink(spec: PoolSpec, allocatable: nat, demand: nat, active: set<Block>, first: Option<Cidr>, now: int,
                   t: int)
    requires spec.Ok() && WellFormed(active)
    requires forall b :: b in active ==> (Old(spec, b, now) <==> Old(spec, b, t))
    ensures Shrink(spec, allocatable, demand, active, first, now) == Shrink(spec, allocatable, demand, active, first, t)
  {
    SameDrains(spec, allocatable, demand, active, first, now, t);
    assert Splittable(spec, allocatable, demand, active, first, now)
      == Splittable(spec, allocatable, demand, active, first, t);
  }

  lemma {:induction false} SameDrains(spec: PoolSpec, allocatable: nat, demand: nat, active: set<Block>,
                                      first: Option<Cidr>, now: int, t: int)
    requires spec.Ok() && WellFormed(active)
    requires forall b :: b in active ==> (Old(spec, b, now) <==> Old(spec, b, t))
    ensures Drains(spec, allocatable, demand, active, first, now) == Drains(spec, allocatable, demand, active, first, t)
    decreases |active|
  {
    var candidates := Drainable(spec, allocatable, demand, active, first, now);
    assert candidates == Drainable(spec, allocatable, demand, active, first, t);
    var b := FirstToDrain(candidates);
    if |active| >= 2 && b.Some? { SameDrains(spec, allocatable, demand, active - {b.value}, first, now, t); }
  }
}
