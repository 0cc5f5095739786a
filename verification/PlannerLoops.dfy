/** The planner's loops: choosing what to drain or split, and when to look again. */
module PlannerLoops {
  import opened Options
  import opened Cidrs
  import opened NodeBlocks
  import opened Aggregation
  import opened Sizing
  import opened Planner
  import opened PlannerRules

  // ---- capacity ----

  /** How many pod addresses the blocks give, a half that is being given back left out. */
  method BlocksCapacity(blocks: set<Block>) returns (n: nat)
    requires WellFormed(blocks)
    ensures AllAligned(ServedOf(blocks)) && n == Capacity(ServedOf(blocks))
  {
    var cidrs := ServedList(blocks);
    ServedApart(blocks);
    n := CapacityOf(cidrs);
  }

  method ServedList(blocks: set<Block>) returns (cidrs: seq<Cidr>)
    ensures SetOf(cidrs) == ServedOf(blocks)
  {
    cidrs := [];
    var todo := blocks;
    assert ServedOf(blocks - todo) == {};
    while todo != {}
      invariant todo <= blocks && SetOf(cidrs) == ServedOf(blocks - todo)
    {
      var b :| b in todo;
      assert blocks - (todo - {b}) == blocks - todo + {b};
      assert ServedOf(blocks - todo + {b}) == ServedOf(blocks - todo) + {Served(b.nb)};
      assert SetOf(cidrs + [Served(b.nb)]) == SetOf(cidrs) + {Served(b.nb)};
      cidrs := cidrs + [Served(b.nb)];
      todo := todo - {b};
    }
    assert blocks - {} == blocks;
  }

  /** Whether a node can make do with what it keeps. */
  method CanSpare(spec: PoolSpec, allocatable: nat, demand: nat, capacity: nat) returns (ok: bool)
    requires spec.Ok()
    ensures ok <==> (capacity >= Usable(InitialBlockSize(spec, allocatable))
      && demand * 100 <= spec.shrinkThreshold * capacity && !NeedsGrowth(spec, capacity, demand))
  {
    var initial := NextPow2(Max((allocatable * spec.initialPercent + 99) / 100, MIN_INITIAL_ADDRESSES));
    ok := !(capacity < Usable(initial) || demand * 100 > spec.shrinkThreshold * capacity
      || NeedsGrowth(spec, capacity, demand));
  }

  // ---- draining ----

  lemma DrainOrder(blocks: set<Block>, b: Block, c: Block)
    requires WellFormed(blocks) && b in blocks && c in blocks && DrainsBefore(b, c) && DrainsBefore(c, b)
    ensures b == c
  {
    assert b != c ==> Apart(b, c);
  }

  lemma FirstToDrainIs(blocks: set<Block>, candidates: set<Block>, b: Block)
    requires WellFormed(blocks) && candidates <= blocks && b in candidates
    requires forall c :: c in candidates ==> DrainsBefore(b, c)
    ensures FirstToDrain(candidates) == Some(b)
  {
    var c := FirstToDrain(candidates).value;
    DrainOrder(blocks, b, c);
  }

  method EmptiestBlock(blocks: set<Block>) returns (b: Block)
    requires blocks != {}
    ensures b in blocks && forall c :: c in blocks ==> DrainsBefore(b, c)
  {
    b :| b in blocks;
    var todo := blocks;
    while todo != {}
      invariant todo <= blocks && b in blocks
      invariant forall c :: c in blocks && c !in todo ==> DrainsBefore(b, c)
    {
      var c :| c in todo;
      todo := todo - {c};
      if !DrainsBefore(b, c) { b := c; }
    }
  }

  /** The emptiest block that the node can spare, if it has more than one. */
  method ShrinkCandidate(spec: PoolSpec, allocatable: nat, demand: nat, active: set<Block>, first: Option<Cidr>,
                         now: int)
    returns (r: Option<Block>)
    requires spec.Ok() && WellFormed(active)
    ensures r == Candidate(spec, allocatable, demand, active, first, now)
    ensures match r
      case Some(b) => Next(spec, allocatable, demand, active, first, now, b)
      case None => |active| < 2 || forall b :: !Dispensable(spec, allocatable, demand, active, first, now, b)
  {
    if |active| < 2 { return None; }
    CandidateIs(spec, allocatable, demand, active, first, now);
    ghost var candidates := Drainable(spec, allocatable, demand, active, first, now);
    var todo := active;
    while todo != {}
      invariant todo <= active && candidates <= todo
      invariant forall b, c :: b in active - todo && c in todo ==> DrainsBefore(b, c)
    {
      var b := EmptiestBlock(todo);
      var ok := MayDrain(spec, allocatable, demand, active, first, now, b);
      if ok {
        FirstToDrainIs(active, candidates, b);
        return Some(b);
      }
      todo := todo - {b};
    }
    r := None;
  }

  ghost function Candidate(spec: PoolSpec, allocatable: nat, demand: nat, active: set<Block>, first: Option<Cidr>,
                           now: int): (r: Option<Block>)
    requires spec.Ok() && WellFormed(active)
    ensures r.Some? ==> r.value in active
  {
    if |active| < 2 then None else FirstToDrain(Drainable(spec, allocatable, demand, active, first, now))
  }

  lemma DrainStep(spec: PoolSpec, allocatable: nat, demand: nat, active: set<Block>, first: Option<Cidr>, now: int)
    requires spec.Ok() && WellFormed(active)
    ensures var c := Candidate(spec, allocatable, demand, active, first, now);
      Drains(spec, allocatable, demand, active, first, now)
      == if c.None? then {} else {c.value} + Drains(spec, allocatable, demand, active - {c.value}, first, now)
  {
  }

  method MayDrain(spec: PoolSpec, allocatable: nat, demand: nat, active: set<Block>, first: Option<Cidr>, now: int,
                  b: Block) returns (ok: bool)
    requires spec.Ok() && WellFormed(active) && b in active
    ensures ok <==> b in Drainable(spec, allocatable, demand, active, first, now)
  {
    if Some(b.name) == first || !Old(spec, b, now) { return false; }
    var rest := BlocksCapacity(active - {b});
    ok := CanSpare(spec, allocatable, demand, rest);
  }

  // ---- splitting ----

  lemma FirstToSplitIs(blocks: set<Block>, candidates: set<Block>, b: Block)
    requires WellFormed(blocks) && candidates <= blocks && b in candidates
    requires forall c :: c in candidates ==> SplitsBefore(b, c)
    ensures FirstToSplit(candidates) == Some(b)
  {
    var c := FirstToSplit(candidates).value;
    assert b != c ==> Apart(b, c);
  }

  method LargestBlock(blocks: set<Block>) returns (b: Block)
    requires blocks != {}
    ensures b in blocks && forall c :: c in blocks ==> SplitsBefore(b, c)
  {
    b :| b in blocks;
    var todo := blocks;
    while todo != {}
      invariant todo <= blocks && b in blocks
      invariant forall c :: c in blocks && c !in todo ==> SplitsBefore(b, c)
    {
      var c :| c in todo;
      todo := todo - {c};
      if !SplitsBefore(b, c) { b := c; }
    }
  }

  /** The largest grown block with an empty half that the node can spare. */
  method SplitCandidate(spec: PoolSpec, allocatable: nat, demand: nat, active: set<Block>, first: Option<Cidr>,
                        now: int)
    returns (r: Option<Block>)
    requires spec.Ok() && WellFormed(active)
    ensures r == FirstToSplit(Splittable(spec, allocatable, demand, active, first, now))
    ensures match r
      case Some(b) => Divisible(spec, allocatable, demand, active, first, now, b) && forall c ::
        Divisible(spec, allocatable, demand, active, first, now, c) ==> Larger(b, c)
      case None => forall b :: !Divisible(spec, allocatable, demand, active, first, now, b)
  {
    SplitIsLargest(spec, allocatable, demand, active, first, now);
    ghost var candidates := Splittable(spec, allocatable, demand, active, first, now);
    var todo := active;
    while todo != {}
      invariant todo <= active && candidates <= todo
      invariant forall b, c :: b in active - todo && c in todo ==> SplitsBefore(b, c)
    {
      var b := LargestBlock(todo);
      var ok := MaySplit(spec, allocatable, demand, active, first, now, b);
      if ok {
        FirstToSplitIs(active, candidates, b);
        return Some(b);
      }
      todo := todo - {b};
    }
    r := None;
  }

  method MaySplit(spec: PoolSpec, allocatable: nat, demand: nat, active: set<Block>, first: Option<Cidr>, now: int,
                  b: Block) returns (ok: bool)
    requires spec.Ok() && WellFormed(active) && b in active
    ensures ok <==> b in Splittable(spec, allocatable, demand, active, first, now)
  {
    if Some(b.name) == first || b.nb.release.Some? || b.nb.cidr.prefix >= spec.minBlockSize || !Old(spec, b, now) {
      return false;
    }
    if EmptyHalf(b).None? { return false; }
    var keep := EmptyHalf(b).value.1;
    var others := ServedList(active - {b});
    KeptIsServed(active, b);
    assert SetOf([keep] + others) == Kept(active, b, keep);
    KeptApart(active, b);
    var rest := CapacityOf([keep] + others);
    ok := CanSpare(spec, allocatable, demand, rest);
  }

  lemma KeptApart(active: set<Block>, b: Block)
    requires WellFormed(active) && b in active && EmptyHalf(b).Some?
    ensures AllAligned(Kept(active, b, EmptyHalf(b).value.1)) && AllApart(Kept(active, b, EmptyHalf(b).value.1))
  {
    KeptIsServed(active, b);
    ServedApart(active - {b} + {Released(b, EmptyHalf(b).value.0)});
  }

  // ---- one shrink ----

  /** Drains one block after the other for as long as one can be spared. */
  method DrainBlocks(spec: PoolSpec, allocatable: nat, demand: nat, active: set<Block>, first: Option<Cidr>, now: int)
    returns (drains: set<Block>)
    requires spec.Ok() && WellFormed(active)
    ensures drains == Drains(spec, allocatable, demand, active, first, now)
  {
    drains := {};
    var rest := active;
    var c := ShrinkCandidate(spec, allocatable, demand, rest, first, now);
    while c.Some?
      invariant WellFormed(rest) && c == Candidate(spec, allocatable, demand, rest, first, now)
      invariant drains + Drains(spec, allocatable, demand, rest, first, now)
        == Drains(spec, allocatable, demand, active, first, now)
      decreases |rest|
    {
      DrainStep(spec, allocatable, demand, rest, first, now);
      Regroup(drains, c.value, Drains(spec, allocatable, demand, rest - {c.value}, first, now));
      drains, rest := drains + {c.value}, rest - {c.value};
      c := ShrinkCandidate(spec, allocatable, demand, rest, first, now);
    }
    DrainStep(spec, allocatable, demand, rest, first, now);
  }

  lemma Regroup(s: set<Block>, b: Block, t: set<Block>)
    ensures s + {b} + t == s + ({b} + t)
  {
  }

  /** Drains every block that can be spared, or else gives back one empty half. */
  method ShrinkNode(spec: PoolSpec, allocatable: nat, demand: nat, active: set<Block>, first: Option<Cidr>, now: int)
    returns (d: Decision)
    requires spec.Ok() && WellFormed(active)
    ensures d == Shrink(spec, allocatable, demand, active, first, now)
    ensures GivesBack(spec, allocatable, demand, active, first, now, d)
  {
    ghost var order := DrainsInOrder(spec, allocatable, demand, active, first, now);
    var drains := DrainBlocks(spec, allocatable, demand, active, first, now);
    if drains != {} {
      assert order != [] && Names(drains) == set b | b in order :: b.name;
      return Drain(Names(drains));
    }
    var b := SplitCandidate(spec, allocatable, demand, active, first, now);
    d := if b.None? then Nothing else ReleaseHalf(b.value.name, EmptyHalf(b.value).value.0);
    if b.Some? {
      EmptyHalfIs(b.value);
      assert EmptyIs(b.value, d.half, EmptyHalf(b.value).value.1);
    }
  }

  /** Whole blocks one after the other until the node can do without no more, each the next in its turn; only if there
      is none, an empty half of a largest block that the node can do without. */
  ghost predicate GivesBack(spec: PoolSpec, allocatable: nat, demand: nat, active: set<Block>, first: Option<Cidr>,
                            now: int, d: Decision)
    requires spec.Ok() && WellFormed(active)
  {
    if d.Drain? then exists order: seq<Block> ::
      order != [] && InOrder(spec, allocatable, demand, active, first, now, order)
        && d.names == set b | b in order :: b.name
    else
      && InOrder(spec, allocatable, demand, active, first, now, [])
      && if d.ReleaseHalf? then exists b: Block, keep ::
           b.name == d.name && Divisible(spec, allocatable, demand, active, first, now, b) && EmptyIs(b, d.half, keep)
             && forall c :: Divisible(spec, allocatable, demand, active, first, now, c) ==> Larger(b, c)
         else d == Nothing && forall b :: !Divisible(spec, allocatable, demand, active, first, now, b)
  }

  // ---- the next timer ----

  /** The blocks of one node. */
  function OwnedBy(blocks: set<Block>, node: string): set<Block> {
    set b | b in blocks && b.nb.node == node
  }

  /** A node with more than one active block may give one back. */
  predicate MayShrink(blocks: set<Block>, node: string) {
    |ActiveOf(OwnedBy(blocks, node))| >= 2
  }

  /** The instants at which a timer of this block runs out. */
  predicate Ends(spec: PoolSpec, blocks: set<Block>, b: Block, at: int) {
    || (b.nb.phase == Quarantined && at == b.nb.since + spec.quarantine)
    || (!spec.disableShrink && MayShrink(blocks, b.nb.node) && at == b.nb.since + spec.cooldown)
  }

  method Consider(best: nat, at: int, now: int) returns (next: nat)
    ensures next == if at > now && (best == 0 || at - now < best) then at - now else best
  {
    next := best;
    if at - now > 0 && (best == 0 || at - now < best) { next := at - now; }
  }

  /** No timer that still runs ends before the wait is over. */
  ghost predicate Waits(spec: PoolSpec, blocks: set<Block>, done: set<Block>, now: int, wait: nat) {
    && (forall b, at {:trigger Ends(spec, blocks, b, at)} ::
      (b in done && Ends(spec, blocks, b, at) && at > now) ==> 0 < wait <= at - now)
    && (wait > 0 ==> SomeEnds(spec, blocks, done, now + wait))
  }

  ghost predicate SomeEnds(spec: PoolSpec, blocks: set<Block>, done: set<Block>, at: int) {
    exists b :: b in done && Ends(spec, blocks, b, at)
  }

  /** How long until the earliest timer in the pool runs out, or 0 if none is running. The cooldown since the
      latest change of a node is that of one of its blocks. */
  method NextTimer(spec: PoolSpec, blocks: set<Block>, now: int) returns (wait: nat)
    requires spec.Ok()
    ensures Waits(spec, blocks, blocks, now, wait)
  {
    wait := 0;
    var todo := blocks;
    while todo != {}
      invariant todo <= blocks && Waits(spec, blocks, blocks - todo, now, wait)
    {
      var b :| b in todo;
      ghost var done, before := blocks - todo, wait;
      todo := todo - {b};
      assert blocks - todo == done + {b};
      wait := TimersOf(spec, blocks, b, now, wait, done);
    }
    assert blocks - {} == blocks;
  }

  method TimersOf(spec: PoolSpec, blocks: set<Block>, b: Block, now: int, wait: nat, ghost done: set<Block>)
    returns (next: nat)
    requires spec.Ok() && Waits(spec, blocks, done, now, wait)
    ensures Waits(spec, blocks, done + {b}, now, next)
  {
    next := wait;
    if b.nb.phase == Quarantined { next := Consider(next, b.nb.since + spec.quarantine, now); }
    if !spec.disableShrink && MayShrink(blocks, b.nb.node) { next := Consider(next, b.nb.since + spec.cooldown, now); }
    assert b.nb.phase == Quarantined ==> Ends(spec, blocks, b, b.nb.since + spec.quarantine);
    assert !spec.disableShrink && MayShrink(blocks, b.nb.node) ==> Ends(spec, blocks, b, b.nb.since + spec.cooldown);
    if next == wait {
      assert wait > 0 ==> SomeEnds(spec, blocks, done + {b}, now + wait);
    } else {
      assert b in done + {b} && Ends(spec, blocks, b, now + next);
    }
  }

  /** A quarantined block goes back to the pool when its quarantine is over. */
  predicate Deletes(spec: PoolSpec, b: Block, now: int) {
    b.nb.phase == Quarantined && now - b.nb.since >= spec.quarantine
  }

  /** Nothing is missed by sleeping: until the timer runs out, or forever if there is none, the planner decides
      the same for every node and deletes the same blocks, provided that a node's only active block is its
      starting block. */
  lemma NeverOversleeps(spec: PoolSpec, blocks: set<Block>, node: string, info: Input, now: int, wait: nat, t: int)
    requires spec.Ok() && Waits(spec, blocks, blocks, now, wait) && now <= t && (wait > 0 ==> t < now + wait)
    requires WellFormed(OwnedBy(blocks, node))
    requires |ActiveOf(OwnedBy(blocks, node))| == 1 ==>
      forall b :: b in ActiveOf(OwnedBy(blocks, node)) ==> Some(b.name) == StartingBlock(OwnedBy(blocks, node))
    ensures Decide(spec, OwnedBy(blocks, node), info, t) == Decide(spec, OwnedBy(blocks, node), info, now)
    ensures forall b :: b in blocks ==> (Deletes(spec, b, t) <==> Deletes(spec, b, now))
  {
    var owned := OwnedBy(blocks, node);
    forall b | b in blocks ensures Deletes(spec, b, t) <==> Deletes(spec, b, now) {
      assert b.nb.phase == Quarantined ==> Ends(spec, blocks, b, b.nb.since + spec.quarantine);
    }
    if spec.disableShrink || |ActiveOf(owned)| < 2 {
      NothingToShrink(spec, owned, info, now);
      NothingToShrink(spec, owned, info, t);
    } else {
      forall b | b in owned ensures Old(spec, b, now) <==> Old(spec, b, t) {
        assert Ends(spec, blocks, b, b.nb.since + spec.cooldown);
      }
      SameDecision(spec, owned, info, now, t);
    }
  }

  lemma NothingToShrink(spec: PoolSpec, owned: set<Block>, info: Input, now: int)
    requires spec.Ok() && WellFormed(owned) && (spec.disableShrink || |ActiveOf(owned)| < 2)
    requires |ActiveOf(owned)| == 1 ==> forall b :: b in ActiveOf(owned) ==> Some(b.name) == StartingBlock(owned)
    ensures CalmDecision(spec, owned, info, now) == Nothing
  {
    if !spec.disableShrink {
      var candidates :=
        Splittable(spec, info.allocatable, ShrinkDemand(owned, info), ActiveOf(owned), StartingBlock(owned), now);
      assert candidates == {} by {
        if ActiveOf(owned) != {} { assert |ActiveOf(owned)| == 1; }
      }
    }
  }
}
