/** How much address space a node needs. */
module Sizing {
  import opened Cidrs
  import opened Aggregation

  // What host-local reserves in every range: the network address, the gateway and the broadcast address.
  const BLOCK_OVERHEAD := 3
  const MIN_INITIAL_ADDRESSES := 16

  /** The numbers of an IPPool, in the ranges that its schema allows. */
  datatype PoolSpec = PoolSpec(minBlockSize: nat, maxBlockSize: nat, expandThreshold: nat, triggerFloor: nat,
                               capacityCap: nat, initialPercent: nat, shrinkThreshold: nat, cooldown: nat,
                               quarantine: nat, disableShrink: bool)
  {
    predicate Ok() {
      && 24 <= minBlockSize <= 30 && 16 <= maxBlockSize <= 26
      && 50 <= expandThreshold <= 95 && capacityCap >= 100 && 1 <= initialPercent <= 100 && 1 <= shrinkThreshold <= 90
    }
  }

  function Max(a: int, b: int): (m: int)
    ensures m == a || m == b
    ensures m >= a && m >= b
  {
    if a < b then b else a
  }

  function Usable(size: nat): nat {
    if size <= BLOCK_OVERHEAD then 0 else size - BLOCK_OVERHEAD
  }

  // ---- when to grow ----

  /** Free addresses fell below the floor or the free share that the pool asks for. */
  predicate NeedsGrowth(spec: PoolSpec, capacity: nat, used: nat)
    requires spec.Ok()
  {
    capacity - used < Max(spec.triggerFloor, capacity * (100 - spec.expandThreshold) / 100)
  }

  /** Without the rounding: enough free addresses, and used - 1 below the threshold share of the capacity. */
  lemma NeedsGrowthIs(spec: PoolSpec, capacity: nat, used: nat)
    requires spec.Ok()
    ensures !NeedsGrowth(spec, capacity, used) <==>
      capacity >= used + spec.triggerFloor && capacity * spec.expandThreshold > 100 * (used - 1)
  {
    var free := capacity * (100 - spec.expandThreshold);
    assert free == 100 * capacity - capacity * spec.expandThreshold;
    assert free / 100 <= capacity - used <==> free <= 100 * (capacity - used) + 99;
  }

  /** More capacity or less use never starts a grow. */
  lemma NeedsGrowthMonotone(spec: PoolSpec, capacity: nat, used: nat, more: nat, less: nat)
    requires spec.Ok() && !NeedsGrowth(spec, capacity, used) && capacity <= more && less <= used
    ensures !NeedsGrowth(spec, more, less)
  {
    NeedsGrowthIs(spec, capacity, used);
    NeedsGrowthIs(spec, more, less);
    TimesMore(capacity, more, spec.expandThreshold);
  }

  lemma TimesMore(a: nat, b: nat, k: nat)
    requires a <= b
    ensures a * k <= b * k
  {
    assert b * k == a * k + (b - a) * k;
    assert (b - a) * k >= 0;
  }

  /** The first capacity at which no grow is due. The search starts at the floor, and its limit is never in
      the way; the result has a closed form. */
  method RequiredCapacity(spec: PoolSpec, demand: nat) returns (c: nat)
    requires spec.Ok()
    ensures forall other: nat :: NeedsGrowth(spec, other, demand) <==> other < c
    ensures c == Required(spec, demand)
  {
    c := demand + spec.triggerFloor;
    var limit := 2 * demand + spec.triggerFloor + 8;
    LimitSuffices(spec, demand);
    RequiredIsFirst(spec, demand);
    while c < limit && NeedsGrowth(spec, c, demand)
      invariant demand + spec.triggerFloor <= c <= Required(spec, demand)
    {
      c := c + 1;
    }
  }

  function Required(spec: PoolSpec, demand: nat): nat
    requires spec.Ok()
  {
    if demand == 0 then spec.triggerFloor
    else Max(demand + spec.triggerFloor, 100 * (demand - 1) / spec.expandThreshold + 1)
  }

  lemma LimitSuffices(spec: PoolSpec, demand: nat)
    requires spec.Ok()
    ensures Required(spec, demand) < 2 * demand + spec.triggerFloor + 8
  {
    if demand > 0 {
      var q, e := 100 * (demand - 1) / spec.expandThreshold, spec.expandThreshold;
      assert q * e <= 100 * (demand - 1);
      if q > 2 * (demand - 1) {
        TimesMore(2 * (demand - 1) + 1, q, e);
        TimesMore(50, e, 2 * (demand - 1) + 1);
      }
    }
  }

  lemma RequiredIsFirst(spec: PoolSpec, demand: nat)
    requires spec.Ok()
    ensures forall c: nat :: NeedsGrowth(spec, c, demand) <==> c < Required(spec, demand)
  {
    forall c: nat ensures NeedsGrowth(spec, c, demand) <==> c < Required(spec, demand) {
      NeedsGrowthIs(spec, c, demand);
      if demand > 0 { FirstAbove(c, spec.expandThreshold, 100 * (demand - 1)); }
    }
  }

  lemma FirstAbove(c: nat, e: nat, n: nat)
    requires e > 0
    ensures c * e > n <==> c >= n / e + 1
  {
    var q := n / e;
    assert q * e <= n < q * e + e;
    if c >= q + 1 {
      TimesMore(q + 1, c, e);
      assert (q + 1) * e == q * e + e;
    } else {
      TimesMore(c, q, e);
    }
  }

  /** The addresses to add to a node: whole minimum blocks for what it is short of and the overhead of a new
      range, cut back to what fits under its cap. Nothing if not even a minimum block fits. */
  method GrowthNeed(spec: PoolSpec, capacity: nat, demand: nat, headroom: int, minBlock: nat)
    returns (need: nat, ghost blocks: nat)
    requires spec.Ok() && minBlock > BLOCK_OVERHEAD
    ensures need == blocks * minBlock
    ensures need == 0 <==> Usable(minBlock) > headroom
    ensures need > 0 ==> Usable(need) <= headroom
    ensures capacity + Usable(need) >= Required(spec, demand) || Usable(need + minBlock) > headroom
    ensures need > 0 ==> need - minBlock < Max(Required(spec, demand) - capacity, 1) + BLOCK_OVERHEAD
  {
    var required := RequiredCapacity(spec, demand);
    var short := Max(required - capacity, 1);
    var k := (short + BLOCK_OVERHEAD + minBlock - 1) / minBlock;
    RoundUp(short + BLOCK_OVERHEAD, minBlock);
    need, blocks := k * minBlock, k;
    while need >= minBlock && Usable(need) > headroom
      invariant need == blocks * minBlock <= k * minBlock
      invariant need == k * minBlock || Usable(need + minBlock) > headroom
    {
      OneLess(blocks, minBlock);
      need, blocks := need - minBlock, blocks - 1;
    }
    if need < minBlock {
      if blocks > 0 { TimesMore(1, blocks, minBlock); }
      need := 0;
    }
  }

  lemma OneLess(k: nat, n: nat)
    requires n > 0 && k * n >= n
    ensures k > 0 && (k - 1) * n == k * n - n
  {
    assert k == 0 ==> k * n == 0;
  }

  lemma RoundUp(x: nat, n: nat)
    requires n > 0 && x > 0
    ensures var k := (x + n - 1) / n; k >= 1 && x <= k * n < x + n
  {
    var k, r := (x + n - 1) / n, (x + n - 1) % n;
    assert x + n - 1 == k * n + r;
    assert k == 0 ==> k * n == 0;
  }

  function Doubled(p: nat, n: int): nat
    requires p >= 1
    decreases n - p
  {
    if p >= n then p else Doubled(2 * p, n)
  }

  method NextPow2(n: int) returns (p: nat)
    ensures p == Doubled(1, n) >= n
    ensures exists k: nat :: p == Pow2(k)
    ensures forall f: nat :: Pow2(f) >= n ==> Pow2(f) >= p
  {
    p := 1;
    while p < n
      invariant p >= 1 && Doubled(p, n) == Doubled(1, n)
      decreases n - p
    {
      p := 2 * p;
    }
    ghost var k := DoubledIsLeast(0, n);
  }

  /** Doubling ends at the smallest power of two that is at least n. */
  lemma {:induction false} DoubledIsLeast(e: nat, n: int) returns (k: nat)
    requires e > 0 ==> Pow2(e - 1) < n
    ensures Doubled(Pow2(e), n) == Pow2(k) >= n
    ensures forall f: nat :: Pow2(f) >= n ==> Pow2(f) >= Pow2(k)
    decreases n - Pow2(e)
  {
    if Pow2(e) >= n {
      k := e;
      forall f: nat | Pow2(f) >= n ensures Pow2(f) >= Pow2(k) {
        if f >= e { Pow2Monotone(e, f); } else { Pow2Monotone(f, e - 1); }
      }
    } else {
      k := DoubledIsLeast(e + 1, n);
    }
  }

  /** The address count of a new node's first block. */
  function InitialBlockSize(spec: PoolSpec, pods: nat): nat {
    Doubled(1, Max((pods * spec.initialPercent + 99) / 100, MIN_INITIAL_ADDRESSES))
  }

  /** The smallest power of two that is at least the minimum and the share of the pods that the pool gives at first. */
  lemma InitialBlockSizeIs(spec: PoolSpec, pods: nat) returns (k: nat)
    ensures InitialBlockSize(spec, pods) == Pow2(k)
    ensures forall f: nat :: Pow2(f) >= Pow2(k) <==> Pow2(f) >= 16 && 100 * Pow2(f) >= pods * spec.initialPercent
  {
    var share := pods * spec.initialPercent;
    var want := Max((share + 99) / 100, MIN_INITIAL_ADDRESSES);
    k := DoubledIsLeast(0, want);
    assert Pow2(0) == 1;
    forall f: nat ensures Pow2(f) >= Pow2(k) <==> Pow2(f) >= 16 && 100 * Pow2(f) >= share {
      assert Pow2(f) >= (share + 99) / 100 <==> 100 * Pow2(f) >= share;
    }
  }

  // ---- what a set of blocks holds ----

  ghost function SumUsable(s: set<Cidr>): nat
    decreases |s|
  {
    if s == {} then 0 else var c :| c in s; Usable(Size(c.prefix)) + SumUsable(s - {c})
  }

  lemma {:induction false} SumWithout(s: set<Cidr>, c: Cidr)
    requires c in s
    ensures SumUsable(s) == Usable(Size(c.prefix)) + SumUsable(s - {c})
    decreases |s|
  {
    var d :| d in s && SumUsable(s) == Usable(Size(d.prefix)) + SumUsable(s - {d});
    if d != c {
      SumWithout(s - {d}, c);
      SumWithout(s - {c}, d);
      assert s - {d} - {c} == s - {c} - {d};
    }
  }

  lemma {:induction false} SumOfBoth(s: set<Cidr>, t: set<Cidr>)
    requires s !! t
    ensures SumUsable(s + t) == SumUsable(s) + SumUsable(t)
    decreases |s|
  {
    if s == {} {
      assert s + t == t;
    } else {
      var c :| c in s;
      SumWithout(s, c);
      SumWithout(s + t, c);
      SumOfBoth(s - {c}, t);
      assert s + t - {c} == (s - {c}) + t;
    }
  }

  /** Joining a pair gains at most the overhead of one range, and loses nothing. */
  lemma JoinGains(s: set<Cidr>, p: Cidr)
    requires AllAligned(s) && AllApart(s) && Pair(s, p)
    ensures SumUsable(s) <= SumUsable(Joined(s, p)) <= SumUsable(s) + BLOCK_OVERHEAD
    ensures |Joined(s, p)| == |s| - 1
  {
    ParentIsNew(s, p);
    SumReplaced(s, p, Sibling(p), Parent(p));
  }

  lemma ParentIsNew(s: set<Cidr>, p: Cidr)
    requires AllAligned(s) && AllApart(s) && Pair(s, p)
    ensures Parent(p) !in s && p != Sibling(p) && Sibling(p).prefix == p.prefix
    ensures Size(Parent(p).prefix) == 2 * Size(p.prefix)
  {
    ParentAligned(p);
    assert Parent(p) in s ==> Disjoint(Parent(p), p);
  }

  lemma SumReplaced(s: set<Cidr>, p: Cidr, q: Cidr, c: Cidr)
    requires p in s && q in s && p != q && c !in s
    ensures var t := s - {p, q} + {c};
      SumUsable(t) == SumUsable(s) - Usable(Size(p.prefix)) - Usable(Size(q.prefix)) + Usable(Size(c.prefix))
        && |t| == |s| - 1
  {
    var rest := s - {p, q};
    SumWithoutTwo(s, p, q);
    assert rest + {c} - {c} == rest;
    SumWithout(rest + {c}, c);
  }

  lemma SumWithoutTwo(s: set<Cidr>, p: Cidr, q: Cidr)
    requires p in s && q in s && p != q
    ensures SumUsable(s) == Usable(Size(p.prefix)) + Usable(Size(q.prefix)) + SumUsable(s - {p, q})
    ensures |s - {p, q}| == |s| - 2
  {
    SumWithout(s, p);
    SumWithout(s - {p}, q);
    assert s - {p} - {q} == s - {p, q};
  }

  ghost function SomePair(s: set<Cidr>): (p: Cidr)
    requires !Reduced(s)
    ensures Pair(s, p)
  {
    var p :| Pair(s, p);
    p
  }

  /** The fewest prefixes for a set of blocks. */
  ghost function Fused(s: set<Cidr>): (t: set<Cidr>)
    requires AllAligned(s)
    ensures AllAligned(t) && Reduced(t) && SameCover(t, s) && (AllApart(s) ==> AllApart(t))
    decreases |s|
  {
    if Reduced(s) then s else
      var p := SomePair(s);
      JoinKeepsCover(s, p);
      Fused(Joined(s, p))
  }

  /** How many pod addresses a set of blocks gives. */
  ghost function Capacity(s: set<Cidr>): nat
    requires AllAligned(s)
  {
    SumUsable(Fused(s))
  }

  lemma {:induction false} FusingGains(s: set<Cidr>)
    requires AllAligned(s) && AllApart(s)
    ensures |Fused(s)| <= |s|
    ensures SumUsable(s) <= Capacity(s) <= SumUsable(s) + BLOCK_OVERHEAD * (|s| - |Fused(s)|)
    decreases |s|
  {
    if !Reduced(s) {
      var p := SomePair(s);
      JoinKeepsCover(s, p);
      JoinGains(s, p);
      FusingGains(Joined(s, p));
    }
  }

  /** However the blocks are joined, the capacity is the same. */
  lemma FusedIsUnique(s: set<Cidr>, t: set<Cidr>)
    requires AllAligned(s) && AllApart(s) && AllAligned(t) && AllApart(t) && SameCover(s, t)
    ensures Fused(s) == Fused(t)
  {
    ReducedIsUnique(Fused(s), Fused(t));
  }

  lemma CoverOfBoth(s: set<Cidr>, t: set<Cidr>, a: nat)
    ensures Covers(s + t, a) <==> Covers(s, a) || Covers(t, a)
  {
    if Covers(s, a) { var c :| c in s && c.Contains(a); assert c in s + t; }
    if Covers(t, a) { var c :| c in t && c.Contains(a); assert c in s + t; }
  }

  ghost predicate ApartFrom(s: set<Cidr>, t: set<Cidr>) {
    forall c, d :: c in s && d in t ==> Disjoint(c, d)
  }

  lemma NoShared(s: set<Cidr>, t: set<Cidr>, a: nat)
    requires ApartFrom(s, t)
    ensures !Covers(s, a) || !Covers(t, a)
  {
  }

  lemma FusedApart(s: set<Cidr>, t: set<Cidr>)
    requires AllAligned(s) && AllApart(s) && AllAligned(t) && AllApart(t) && ApartFrom(s, t)
    ensures AllAligned(Fused(s) + Fused(t)) && AllApart(Fused(s) + Fused(t)) && Fused(s) !! Fused(t)
  {
    forall c, d | c in Fused(s) && d in Fused(t) ensures Disjoint(c, d) && Disjoint(d, c) {
      var a := if c.base < d.base then d.base else c.base;
      NoShared(s, t, a);
      assert c.Contains(a) ==> Covers(Fused(s), a);
      assert d.Contains(a) ==> Covers(Fused(t), a);
    }
    forall c | c in Fused(s) ensures c !in Fused(t) { assert !Disjoint(c, c); }
  }

  lemma CoversBoth(s: set<Cidr>, t: set<Cidr>)
    requires AllAligned(s) && AllAligned(t)
    ensures SameCover(Fused(s) + Fused(t), s + t)
  {
    forall a: nat ensures Covers(Fused(s) + Fused(t), a) <==> Covers(s + t, a) {
      CoverOfBoth(s, t, a);
      CoverOfBoth(Fused(s), Fused(t), a);
    }
  }

  /** Two disjoint sets of blocks together hold what both hold, and at most the overhead more for every
      range that joining them saves. */
  lemma CapacityOfBoth(s: set<Cidr>, t: set<Cidr>)
    requires AllAligned(s) && AllApart(s) && AllAligned(t) && AllApart(t) && ApartFrom(s, t)
    ensures AllAligned(s + t) && |Fused(s + t)| <= |Fused(s)| + |Fused(t)|
    ensures Capacity(s) + Capacity(t) <= Capacity(s + t)
    ensures Capacity(s + t) <= Capacity(s) + Capacity(t) + BLOCK_OVERHEAD * (|Fused(s)| + |Fused(t)| - |Fused(s + t)|)
  {
    var u := Fused(s) + Fused(t);
    FusedApart(s, t);
    CoversBoth(s, t);
    BothApart(s, t);
    FusedIsUnique(u, s + t);
    FusingGains(u);
    SumOfBoth(Fused(s), Fused(t));
    assert |u| == |Fused(s)| + |Fused(t)|;
  }

  lemma BothApart(s: set<Cidr>, t: set<Cidr>)
    requires AllAligned(s) && AllApart(s) && AllAligned(t) && AllApart(t) && ApartFrom(s, t)
    ensures AllAligned(s + t) && AllApart(s + t)
  {
    forall c, d | c in s && d in t ensures Disjoint(c, d) && Disjoint(d, c) {}
  }

  /** A grow that stays within the need, whatever blocks make it up, exceeds the capacity cap by at most the
      overhead of the ranges that it saves. */
  lemma GrowStaysUnderCap(owned: set<Cidr>, added: set<Cidr>, cap: int, need: nat)
    requires AllAligned(owned) && AllApart(owned) && AllAligned(added) && AllApart(added) && ApartFrom(owned, added)
    requires added != {} && SumSizes(added) <= need && Usable(need) <= cap - Capacity(owned)
    requires forall c :: c in added ==> Size(c.prefix) > BLOCK_OVERHEAD
    ensures AllAligned(owned + added)
    ensures Capacity(owned + added) <= cap + BLOCK_OVERHEAD * (|Fused(owned)| + |added| - |Fused(owned + added)|)
  {
    CapacityOfBoth(owned, added);
    FusingGains(added);
    UsableAtMost(added);
  }

  ghost function SumSizes(s: set<Cidr>): nat
    decreases |s|
  {
    if s == {} then 0 else var c :| c in s; Size(c.prefix) + SumSizes(s - {c})
  }

  lemma {:induction false} UsableAtMost(s: set<Cidr>)
    requires s != {} && forall c :: c in s ==> Size(c.prefix) > BLOCK_OVERHEAD
    ensures SumUsable(s) + BLOCK_OVERHEAD <= SumSizes(s)
    decreases |s|
  {
    var c :| c in s && SumSizes(s) == Size(c.prefix) + SumSizes(s - {c});
    SumWithout(s, c);
    if s - {c} != {} { UsableAtMost(s - {c}); }
  }

  // ---- counting it up ----

  ghost function SumOfList(cs: seq<Cidr>): nat {
    if cs == [] then 0 else SumOfList(cs[..|cs| - 1]) + Usable(Size(cs[|cs| - 1].prefix))
  }

  lemma {:induction false} SumOfListIs(cs: seq<Cidr>)
    requires Sorted(cs)
    ensures SumOfList(cs) == SumUsable(SetOf(cs))
  {
    if cs != [] {
      var rest, c := cs[..|cs| - 1], cs[|cs| - 1];
      assert cs == rest + [c];
      SumOfListIs(rest);
      assert c !in rest;
      assert SetOf(cs) == SetOf(rest) + {c} && SetOf(rest) + {c} - {c} == SetOf(rest);
      SumWithout(SetOf(cs), c);
    }
  }

  /** How many pod addresses a list of blocks gives. */
  method CapacityOf(cidrs: seq<Cidr>) returns (total: nat)
    requires AllAligned(SetOf(cidrs))
    ensures exists fused, joins :: Merges(SetOf(cidrs), fused, joins) && Reduced(fused) && total == SumUsable(fused)
    ensures AllApart(SetOf(cidrs)) ==> total == Capacity(SetOf(cidrs))
  {
    var agg, joins := Aggregate(cidrs);
    total := 0;
    for i := 0 to |agg|
      invariant total == SumOfList(agg[..i])
    {
      assert agg[..i + 1][..i] == agg[..i];
      total := total + Usable(Size(agg[i].prefix));
    }
    assert agg[..|agg|] == agg;
    SumOfListIs(agg);
    assert Merges(SetOf(cidrs), SetOf(agg), joins) && Reduced(SetOf(agg));
    if AllApart(SetOf(cidrs)) { ReducedIsUnique(SetOf(agg), Fused(SetOf(cidrs))); }
  }
}
