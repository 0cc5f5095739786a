/** What the planner, with the numbers that it has by default, decides about the two blocks of ProtocolRuns, as they
    are there and at the times there, for as many pods as say here: to ask for the half of the second block, to keep
    that half, to have it split off, and to drain the block. How the node came by its blocks, and the withdrawal of a
    block whose node is gone, are not decided here. That whatever the planner decides can be planned in the
    protocol is the subject of PlannerSteps. */
module PlannerRuns {
  import opened Options
  import opened Cidrs
  import opened NodeBlocks
  import opened Aggregation
  import opened Sizing
  import opened Planner
  import opened ProtocolRuns

  const DEFAULTS := PoolSpec(28, 22, 80, 8, 120, 25, 50, 300, QUARANTINE, false)
  const PODS := 40

  /** The blocks of the node as the planner sees them: no address is leased. */
  function FirstSeen(): Block { Block(FIRST, ProtocolRuns.First(), 0, Some((0, 0)), true, 0) }

  function Seen(b: NodeBlock): Block { Block(WHOLE, b, 0, Some((0, 0)), false, 1) }

  function Owned(b: NodeBlock): set<Block> { {FirstSeen(), Seen(b)} }

  /** As many pods have an address or need one. */
  function Pods(pods: nat): Input { Input(0, pods, PODS, None, None) }

  lemma OwnedWellFormed(b: NodeBlock)
    requires b.cidr == WHOLE
    ensures WellFormed(Owned(b))
  {
    Addresses();
    assert forall x, y :: x in Owned(b) && y in Owned(b) && x != y ==> Apart(x, y);
  }

  // ---- capacities ----

  lemma OneRange(c: Cidr)
    requires Aligned(c)
    ensures AllAligned({c}) && Capacity({c}) == Usable(Size(c.prefix))
  {
    assert Reduced({c}) by { forall p | Pair({c}, p) ensures false { ParentAligned(p); } }
    SumWithout({c}, c);
    assert {c} - {c} == {};
  }

  lemma TwoApart(c: Cidr, d: Cidr)
    requires Aligned(c) && Aligned(d) && c != d && (c.prefix > 0 ==> Sibling(c) != d)
    requires (d.prefix > 0 ==> Sibling(d) != c)
    ensures AllAligned({c, d}) && Capacity({c, d}) == Usable(Size(c.prefix)) + Usable(Size(d.prefix))
  {
    assert Reduced({c, d}) by { forall p | Pair({c, d}, p) ensures false { ParentAligned(p); } }
    SumWithout({c, d}, c);
    OneRange(d);
    assert {c, d} - {c} == {d};
  }

  lemma Capacities()
    ensures AllAligned({FIRST}) && AllAligned({FIRST, WHOLE}) && AllAligned({FIRST, LOWER})
    ensures Capacity({FIRST}) == 13 && Capacity({FIRST, WHOLE}) == 42 && Capacity({FIRST, LOWER}) == 26
    ensures InitialBlockSize(DEFAULTS, PODS) == 16
  {
    Addresses();
    assert Size(27) == 32 && Size(26) == 64 && Multiple(64, 32);
    OneRange(FIRST);
    TwoApart(FIRST, WHOLE);
    TwoApart(FIRST, LOWER);
    assert Doubled(16, 16) == 16 && Doubled(8, 16) == 16 && Doubled(4, 16) == 16 && Doubled(2, 16) == 16;
  }

  /** The blocks in use, what they serve, and that the first one is the starting block. */
  lemma Facts(b: NodeBlock)
    requires b.cidr == WHOLE && b.phase == Active && !b.drain
    ensures WellFormed(Owned(b)) && ActiveOf(Owned(b)) == Owned(b) && DrainingOf(Owned(b)) == {}
    ensures ServedOf(Owned(b)) == {FIRST, Served(b)} && SumUsed(Owned(b)) == 0 && SumUsed({}) == 0
    ensures StartingBlock(Owned(b)) == Some(FIRST)
  {
    OwnedWellFormed(b);
    assert ServedOf(Owned(b)) == {FIRST, Served(b)} by {
      assert Served(FirstSeen().nb) == FIRST && Served(Seen(b).nb) == Served(b);
    }
    UsedWithout(Owned(b), FirstSeen());
    assert Owned(b) - {FirstSeen()} == {Seen(b)};
    UsedWithout({Seen(b)}, Seen(b));
    assert {Seen(b)} - {Seen(b)} == {};
    assert FirstSeen() in Owned(b) && FirstSeen().initial && IsStarting(Owned(b), FirstSeen());
  }

  // ---- the decisions ----

  /** Whether the second block can be drained is a question of what the first one holds. */
  lemma RestIsFirst(b: NodeBlock, demand: nat, now: int)
    requires (b == Grown() || b == Grown().(ready := Some(UPPER))) && now >= 300 && WellFormed(Owned(b))
    ensures Drainable(DEFAULTS, PODS, demand, Owned(b), Some(FIRST), now) == if demand <= 5 then {Seen(b)} else {}
  {
    Capacities();
    var active := Owned(b);
    ServedApart(active - {Seen(b)});
    assert active - {Seen(b)} == {FirstSeen()} && ServedOf({FirstSeen()}) == {FIRST};
    NeedsGrowthIs(DEFAULTS, 13, demand);
    assert Spare(DEFAULTS, PODS, demand, {FIRST}) <==> demand <= 5;
    assert CanDrain(DEFAULTS, PODS, demand, active, Some(FIRST), now, Seen(b)) <==> demand <= 5;
  }

  /** What the planner does for a node with nothing in progress that needs no more space. */
  lemma CalmIs(spec: PoolSpec, owned: set<Block>, info: Input, now: int)
    requires spec.Ok() && WellFormed(owned) && owned != {} && !spec.disableShrink && !Wants(spec, owned, info)
    requires forall b :: b in owned ==> !IsInFlight(b) && !IsReleasing(b) && Old(spec, b, now)
    ensures Decide(spec, owned, info, now)
      == Shrink(spec, info.allocatable, ShrinkDemand(owned, info), ActiveOf(owned), StartingBlock(owned), now)
  {
    assert (set b | b in owned && IsSplitReady(b)) == {};
  }

  lemma EnoughSpace(b: NodeBlock, pods: nat)
    requires (b == Grown() || b == Grown().(ready := Some(UPPER))) && WellFormed(Owned(b)) && pods <= 10
    ensures !Wants(DEFAULTS, Owned(b), Pods(pods)) && ShrinkDemand(Owned(b), Pods(pods)) == pods
  {
    Facts(b);
    Capacities();
    NeedsGrowthIs(DEFAULTS, 42, pods);
  }

  lemma Calm(b: NodeBlock, pods: nat, now: int)
    requires (b == Grown() || b == Grown().(ready := Some(UPPER))) && now >= 300 && WellFormed(Owned(b)) && pods <= 10
    ensures Decide(DEFAULTS, Owned(b), Pods(pods), now) == Shrink(DEFAULTS, PODS, pods, Owned(b), Some(FIRST), now)
  {
    Facts(b);
    EnoughSpace(b, pods);
    AtRest(b, now);
    CalmIs(DEFAULTS, Owned(b), Pods(pods), now);
  }

  lemma AtRest(b: NodeBlock, now: int)
    requires (b == Grown() || b == Grown().(ready := Some(UPPER))) && now >= 300
    ensures FirstSeen() in Owned(b)
    ensures forall x :: x in Owned(b) ==> !IsInFlight(x) && !IsReleasing(x) && Old(DEFAULTS, x, now)
  {
  }

  /** Without a block to drain, half of one is given back. */
  lemma HalfInstead(spec: PoolSpec, demand: nat, active: set<Block>, first: Option<Cidr>, now: int, b: Block)
    requires spec.Ok() && WellFormed(active) && Drainable(spec, PODS, demand, active, first, now) == {}
    requires Splittable(spec, PODS, demand, active, first, now) == {b} && EmptyHalf(b).Some?
    ensures Shrink(spec, PODS, demand, active, first, now) == ReleaseHalf(b.name, EmptyHalf(b).value.0)
  {
    NoDrains(spec, demand, active, first, now);
    assert FirstToSplit({b}) == Some(b) by { assert b in {b} && SplitsBefore(b, b); }
  }

  lemma NoDrains(spec: PoolSpec, demand: nat, active: set<Block>, first: Option<Cidr>, now: int)
    requires spec.Ok() && WellFormed(active) && Drainable(spec, PODS, demand, active, first, now) == {}
    ensures Drains(spec, PODS, demand, active, first, now) == {}
  {
    assert FirstToDrain({}).None?;
  }

  /** Of two blocks the one that can be spared is drained. */
  lemma OneDrained(spec: PoolSpec, demand: nat, active: set<Block>, first: Option<Cidr>, now: int, b: Block)
    requires spec.Ok() && WellFormed(active) && |active| == 2
    requires Drainable(spec, PODS, demand, active, first, now) == {b}
    ensures Shrink(spec, PODS, demand, active, first, now) == Drain({b.name})
  {
    assert b in Drainable(spec, PODS, demand, active, first, now);
    assert FirstToDrain({b}) == Some(b) by { assert b in {b} && DrainsBefore(b, b); }
    assert |active - {b}| == 1;
    assert Drains(spec, PODS, demand, active, first, now) == {b};
    assert Names({b}) == {b.name};
  }

  /** Ten pods: the first block alone would be too full, but half of the other can be spared. */
  lemma AsksForHalf(b: NodeBlock, now: int)
    requires b == Grown() || b == Grown().(ready := Some(UPPER))
    requires now >= 300
    ensures WellFormed(Owned(b)) && Decide(DEFAULTS, Owned(b), Pods(10), now) == ReleaseHalf(WHOLE, UPPER)
  {
    OwnedWellFormed(b);
    Calm(b, 10, now);
    RestIsFirst(b, 10, now);
    OnlySecondSplits(b, now);
    HalfInstead(DEFAULTS, 10, Owned(b), Some(FIRST), now, Seen(b));
  }

  lemma OnlySecondSplits(b: NodeBlock, now: int)
    requires (b == Grown() || b == Grown().(ready := Some(UPPER))) && now >= 300 && WellFormed(Owned(b))
    ensures Splittable(DEFAULTS, PODS, 10, Owned(b), Some(FIRST), now) == {Seen(b)}
    ensures EmptyHalf(Seen(b)) == Some((UPPER, LOWER))
  {
    HalfIsSpare(b, now);
    assert Seen(b) in Owned(b);
  }

  lemma HalfIsSpare(b: NodeBlock, now: int)
    requires (b == Grown() || b == Grown().(ready := Some(UPPER))) && now >= 300 && WellFormed(Owned(b))
    ensures CanSplit(DEFAULTS, PODS, 10, Owned(b), Some(FIRST), now, Seen(b))
    ensures EmptyHalf(Seen(b)) == Some((UPPER, LOWER))
  {
    Capacities();
    Addresses();
    KeptIsServed(Owned(b), Seen(b));
    assert Owned(b) - {Seen(b)} == {FirstSeen()} && ServedOf({FirstSeen()}) == {FIRST};
    assert Kept(Owned(b), Seen(b), LOWER) == {FIRST, LOWER};
  }

  /** Nineteen pods: the half is wanted back. */
  lemma KeepsHalf(now: int)
    ensures var b := Grown().(release := Some(UPPER));
      WellFormed(Owned(b)) && Decide(DEFAULTS, Owned(b), Pods(19), now) == Unrelease({WHOLE})
  {
    var b := Grown().(release := Some(UPPER));
    Facts(b);
    Capacities();
    Addresses();
    assert Served(b) == LOWER;
    var releasing := set x | x in Owned(b) && IsReleasing(x);
    assert releasing == {Seen(b)} by { assert Seen(b) in Owned(b) && IsReleasing(Seen(b)); }
    assert Names(releasing) == {WHOLE} by { assert Seen(b) in releasing && Seen(b).name == WHOLE; }
  }

  /** Once the half is asked for and reported ready, it is split off at once. */
  lemma SplitsHalf(pods: nat, now: int)
    ensures var b := Grown().(release := Some(UPPER), ready := Some(UPPER));
      WellFormed(Owned(b)) && Decide(DEFAULTS, Owned(b), Pods(pods), now) == Splits({WHOLE})
  {
    var b := Grown().(release := Some(UPPER), ready := Some(UPPER));
    Facts(b);
    var ready := set x | x in Owned(b) && IsSplitReady(x);
    assert ready == {Seen(b)} by { assert Seen(b) in Owned(b) && IsSplitReady(Seen(b)); }
    assert Names(ready) == {WHOLE} by { assert Seen(b) in ready && Seen(b).name == WHOLE; }
  }

  /** Three pods: the whole second block can be spared. */
  lemma DrainsWhole(now: int)
    requires now >= 300
    ensures WellFormed(Owned(Grown())) && Decide(DEFAULTS, Owned(Grown()), Pods(3), now) == Drain({WHOLE})
  {
    var b := Grown();
    OwnedWellFormed(b);
    Calm(b, 3, now);
    RestIsFirst(b, 3, now);
    assert |Owned(b)| == 2;
    OneDrained(DEFAULTS, 3, Owned(b), Some(FIRST), now, Seen(b));
  }
}
