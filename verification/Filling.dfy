/** What an allocation that falls back to smaller blocks does to the value of a pool. */
module Filling {
  import opened Cidrs
  import opened Shapes
  import opened Addresses
  import opened Units
  import opened Demand

  function Prefixes(blocks: seq<Cidr>): seq<nat> {
    seq(|blocks|, i requires 0 <= i < |blocks| => blocks[i].prefix)
  }

  /** The address space that the blocks make up, in minimum blocks. */
  function UnitsIn(blocks: seq<Cidr>, minPrefix: nat): nat
    requires forall i :: 0 <= i < |blocks| ==> blocks[i].prefix <= minPrefix
  {
    TotalUnits(Prefixes(blocks), minPrefix)
  }

  ghost predicate Differ(got: seq<Cidr>, i: nat, j: nat)
    requires i < |got| && j < |got|
  {
    got[i] != got[j]
  }

  /** Distinct blocks of at least the minimum size, apart from those that were lost. */
  ghost predicate Fitting(got: seq<Cidr>, lost: set<Cidr>, minPrefix: nat) {
    && (forall i :: 0 <= i < |got| ==> got[i].prefix <= minPrefix && got[i] !in lost)
    && (forall i: nat, j: nat {:trigger Differ(got, i, j)} :: i < j < |got| ==> Differ(got, i, j))
    && (forall c :: c in lost ==> c.prefix <= minPrefix)
  }

  /** Asking for 2^k minimum blocks when `free` of them are there leaves `left` and gives `total`. */
  ghost predicate Tally(k: nat, free: nat, left: nat, total: nat, ok: bool, lost: set<Cidr>, repaired: bool) {
    && (ok <==> Pow2(k) <= free)
    && (ok ==> lost == {} && left == free - Pow2(k) && total == Pow2(k))
    && (!ok ==> left == 0 && (lost == {} <==> repaired || Leak(k, free) == 0))
  }

  ghost function FreeCount(s: PoolState, prefix: nat): nat
    requires |s.roots| == |s.held|
  {
    |s.FreeUnits(prefix)|
  }

  /** Asking for a block of 2^k minimum blocks succeeds exactly if that many are free anywhere in the
      pool, with blocks of that total. Otherwise it takes all that is left, of which it reports what
      it does not lose: everything, if a first half that fails reports what it has got hold of. */
  ghost predicate Filled(s: PoolState, t: PoolState, prefix: nat, minPrefix: nat, node: string,
                         got: seq<Cidr>, ok: bool, lost: set<Cidr>, repaired: bool)
    requires prefix <= minPrefix
  {
    && |s.roots| == |s.held| && |t.roots| == |t.held|
    && Took(s, t, SetOf(got) + lost, node) && Fitting(got, lost, minPrefix)
    && Tally(minPrefix - prefix, FreeCount(s, minPrefix), FreeCount(t, minPrefix), UnitsIn(got, minPrefix),
             ok, lost, repaired)
  }

  lemma FilledExactly(s: PoolState, t: PoolState, i: nat, c: Cidr, minPrefix: nat, node: string, repaired: bool)
    requires RootsHold(s, minPrefix) && c.prefix <= minPrefix && s.FreeIn(i, c)
    requires t == s.With(i, s.held[i][c := Allocated(node)])
    ensures Filled(s, t, c.prefix, minPrefix, node, [c], true, {}, repaired)
  {
    TookOne(s, i, c, node);
    TakeUnits(s, i, c, Allocated(node), minPrefix);
    SetOfOne(c);
    UnitsInOne(c, minPrefix);
  }

  lemma SetOfOne(c: Cidr)
    ensures SetOf([c]) + {} == {c}
  {
  }

  lemma UnitsInOne(c: Cidr, minPrefix: nat)
    requires c.prefix <= minPrefix
    ensures UnitsIn([c], minPrefix) == Pow2(minPrefix - c.prefix)
  {
    Append([], c.prefix, minPrefix);
    assert Prefixes([c]) == [] + [c.prefix];
  }

  lemma FilledNothing(s: PoolState, minPrefix: nat, node: string, repaired: bool)
    requires RootsHold(s, minPrefix) && forall i: nat, c :: i < |s.roots| && s.FreeIn(i, c) ==> c.prefix != minPrefix
    ensures Filled(s, s, minPrefix, minPrefix, node, [], false, {}, repaired)
  {
    TookNothing(s, node);
    assert SetOf([]) + {} == {};
    forall r ensures r !in s.FreeUnits(minPrefix) { FreeUnitsAre(s, minPrefix, r); }
    assert s.FreeUnits(minPrefix) == {};
  }

  lemma FilledFirstFailed(s: PoolState, t: PoolState, prefix: nat, minPrefix: nat, node: string,
                          first: seq<Cidr>, lost: set<Cidr>, got: seq<Cidr>, all: set<Cidr>)
    requires RootsHold(s, minPrefix) && prefix < minPrefix
    requires Filled(s, t, prefix + 1, minPrefix, node, first, false, lost, false)
    requires got == [] && all == lost + SetOf(first)
    ensures Filled(s, t, prefix, minPrefix, node, got, false, all, false)
  {
    assert SetOf(got) + all == SetOf(first) + lost;
    TookSomething(s, t, SetOf(first) + lost, node, minPrefix);
  }

  /** The same if the first half reports what it has got hold of. */
  lemma FilledFirstKept(s: PoolState, t: PoolState, prefix: nat, minPrefix: nat, node: string, first: seq<Cidr>,
                        lost: set<Cidr>)
    requires prefix < minPrefix && Filled(s, t, prefix + 1, minPrefix, node, first, false, lost, true)
    ensures Filled(s, t, prefix, minPrefix, node, first, false, lost, true)
  {
  }

  lemma FilledBoth(s: PoolState, t: PoolState, u: PoolState, prefix: nat, minPrefix: nat, node: string,
                   first: seq<Cidr>, second: seq<Cidr>, got: seq<Cidr>, ok: bool, lost: set<Cidr>, repaired: bool)
    requires prefix < minPrefix && got == first + second
    requires Filled(s, t, prefix + 1, minPrefix, node, first, true, {}, repaired)
    requires Filled(t, u, prefix + 1, minPrefix, node, second, ok, lost, repaired)
    ensures Filled(s, u, prefix, minPrefix, node, got, ok, lost, repaired)
  {
    TookBoth(s, t, u, first, second, lost, node);
    ApartBoth(s, t, u, first, second, lost, node);
    FittingBoth(first, second, lost, minPrefix);
    FilledUnits(s, t, u, prefix, minPrefix, node, first, second, ok, lost, repaired);
  }

  lemma FilledUnits(s: PoolState, t: PoolState, u: PoolState, prefix: nat, minPrefix: nat, node: string,
                    first: seq<Cidr>, second: seq<Cidr>, ok: bool, lost: set<Cidr>, repaired: bool)
    requires prefix < minPrefix && |s.roots| == |s.held| && |t.roots| == |t.held| && |u.roots| == |u.held|
    requires Fitting(first, {}, minPrefix) && Fitting(second, lost, minPrefix)
    requires Fitting(first + second, lost, minPrefix)
    requires Tally(minPrefix - prefix - 1, FreeCount(s, minPrefix), FreeCount(t, minPrefix),
                   UnitsIn(first, minPrefix), true, {}, repaired)
    requires Tally(minPrefix - prefix - 1, FreeCount(t, minPrefix), FreeCount(u, minPrefix),
                   UnitsIn(second, minPrefix), ok, lost, repaired)
    ensures Tally(minPrefix - prefix, FreeCount(s, minPrefix), FreeCount(u, minPrefix),
                  UnitsIn(first + second, minPrefix), ok, lost, repaired)
  {
    UnitsInBoth(first, second, minPrefix);
    TallyBoth(minPrefix - prefix - 1, FreeCount(s, minPrefix), FreeCount(t, minPrefix), FreeCount(u, minPrefix),
              UnitsIn(first, minPrefix), UnitsIn(second, minPrefix), ok, lost, repaired);
  }

  lemma TallyBoth(k: nat, free: nat, left: nat, rest: nat, total1: nat, total2: nat, ok: bool, lost: set<Cidr>,
                  repaired: bool)
    requires Tally(k, free, left, total1, true, {}, repaired) && Tally(k, left, rest, total2, ok, lost, repaired)
    ensures Tally(k + 1, free, rest, total1 + total2, ok, lost, repaired)
  {
  }

  lemma TookBoth(s: PoolState, t: PoolState, u: PoolState, first: seq<Cidr>, second: seq<Cidr>, lost: set<Cidr>,
                 node: string)
    requires Took(s, t, SetOf(first) + {}, node) && Took(t, u, SetOf(second) + lost, node)
    ensures Took(s, u, SetOf(first + second) + lost, node)
  {
    assert SetOf(first) + {} == SetOf(first);
    TookMore(s, t, u, SetOf(first), SetOf(second) + lost, node);
    assert SetOf(first + second) + lost == SetOf(first) + (SetOf(second) + lost);
  }

  lemma ApartBoth(s: PoolState, t: PoolState, u: PoolState, first: seq<Cidr>, second: seq<Cidr>, lost: set<Cidr>,
                  node: string)
    requires Took(s, t, SetOf(first) + {}, node) && Took(t, u, SetOf(second) + lost, node)
    ensures SetOf(first) !! SetOf(second) + lost
  {
    assert SetOf(first) + {} == SetOf(first);
    TookMore(s, t, u, SetOf(first), SetOf(second) + lost, node);
  }

  lemma UnitsInBoth(first: seq<Cidr>, second: seq<Cidr>, minPrefix: nat)
    requires forall i :: 0 <= i < |first| ==> first[i].prefix <= minPrefix
    requires forall i :: 0 <= i < |second| ==> second[i].prefix <= minPrefix
    ensures UnitsIn(first + second, minPrefix) == UnitsIn(first, minPrefix) + UnitsIn(second, minPrefix)
  {
    TotalOfBoth(Prefixes(first), Prefixes(second), minPrefix);
    assert Prefixes(first + second) == Prefixes(first) + Prefixes(second);
  }

  lemma FittingBoth(first: seq<Cidr>, second: seq<Cidr>, lost: set<Cidr>, minPrefix: nat)
    requires Fitting(first, {}, minPrefix) && Fitting(second, lost, minPrefix) && SetOf(first) !! SetOf(second) + lost
    ensures Fitting(first + second, lost, minPrefix)
  {
    forall i | 0 <= i < |first| ensures first[i] !in lost && first[i] !in second {
      assert first[i] in SetOf(first) && first[i] !in SetOf(second) + lost;
    }
    var got, n := first + second, |first|;
    forall i: nat, j: nat | i < j < |got| ensures Differ(got, i, j) {
      assert j < n ==> Differ(first, i, j);
      assert i >= n ==> Differ(second, i - n, j - n);
      assert i < n <= j ==> first[i] !in second && got[j] == second[j - n];
    }
  }

  // ---- a whole demand, piece by piece ----

  /** The first j pieces of the demand were served with these blocks. */
  ghost predicate Served(s: PoolState, t: PoolState, pieces: seq<nat>, j: nat, minPrefix: nat, node: string,
                         got: seq<Cidr>)
    requires j <= |pieces| && forall i :: 0 <= i < |pieces| ==> pieces[i] <= minPrefix
  {
    && |s.roots| == |s.held| && |t.roots| == |t.held|
    && Took(s, t, SetOf(got), node) && Fitting(got, {}, minPrefix)
    && TotalUnits(pieces[..j], minPrefix) <= FreeCount(s, minPrefix)
    && UnitsIn(got, minPrefix) == TotalUnits(pieces[..j], minPrefix)
    && FreeCount(t, minPrefix) == FreeCount(s, minPrefix) - TotalUnits(pieces[..j], minPrefix)
    && Lost(pieces, minPrefix, FreeCount(s, minPrefix)) == Lost(pieces[j..], minPrefix, FreeCount(t, minPrefix))
  }

  lemma ServedNone(s: PoolState, pieces: seq<nat>, minPrefix: nat, node: string)
    requires s.Ok() && forall i :: 0 <= i < |pieces| ==> pieces[i] <= minPrefix
    ensures Served(s, s, pieces, 0, minPrefix, node, [])
  {
    TookNothing(s, node);
    assert SetOf([]) == {} && pieces[0..] == pieces && Prefixes([]) == [];
  }

  lemma ServedOneMore(s: PoolState, t: PoolState, u: PoolState, pieces: seq<nat>, j: nat, minPrefix: nat, node: string,
                      first: seq<Cidr>, second: seq<Cidr>, got: seq<Cidr>, repaired: bool)
    requires j < |pieces| && forall i :: 0 <= i < |pieces| ==> pieces[i] <= minPrefix
    requires Served(s, t, pieces, j, minPrefix, node, first)
    requires Filled(t, u, pieces[j], minPrefix, node, second, true, {}, repaired)
    requires got == first + second
    ensures Served(s, u, pieces, j + 1, minPrefix, node, got)
  {
    assert SetOf(first) + {} == SetOf(first) && SetOf(got) + {} == SetOf(got);
    TookBoth(s, t, u, first, second, {}, node);
    ApartBoth(s, t, u, first, second, {}, node);
    FittingBoth(first, second, {}, minPrefix);
    UnitsInBoth(first, second, minPrefix);
    TotalOfFirst(pieces, minPrefix, j);
    LostNext(pieces, j, minPrefix, FreeCount(t, minPrefix));
  }

  lemma LostNext(pieces: seq<nat>, j: nat, minPrefix: nat, free: nat)
    requires j < |pieces| && forall i :: 0 <= i < |pieces| ==> pieces[i] <= minPrefix
    ensures Pow2(minPrefix - pieces[j]) <= free ==>
      Lost(pieces[j..], minPrefix, free) == Lost(pieces[j + 1..], minPrefix, free - Pow2(minPrefix - pieces[j]))
    ensures Pow2(minPrefix - pieces[j]) > free ==>
      Lost(pieces[j..], minPrefix, free) == Leak(minPrefix - pieces[j], free)
  {
    assert pieces[j..][1..] == pieces[j + 1..];
  }

  /** When a piece fails, everything that was taken is what was reported and what was lost. */
  lemma ServedNoMore(s: PoolState, t: PoolState, u: PoolState, pieces: seq<nat>, j: nat, minPrefix: nat, node: string,
                     first: seq<Cidr>, second: seq<Cidr>, got: seq<Cidr>, lost: set<Cidr>, repaired: bool)
    requires j < |pieces| && forall i :: 0 <= i < |pieces| ==> pieces[i] <= minPrefix
    requires Served(s, t, pieces, j, minPrefix, node, first)
    requires Filled(t, u, pieces[j], minPrefix, node, second, false, lost, repaired)
    requires got == first + second
    ensures Took(s, u, SetOf(got) + lost, node) && Fitting(got, lost, minPrefix)
    ensures TotalUnits(pieces, minPrefix) > FreeCount(s, minPrefix)
    ensures lost == {} <==> repaired || Lost(pieces, minPrefix, FreeCount(s, minPrefix)) == 0
  {
    assert SetOf(first) + {} == SetOf(first);
    TookBoth(s, t, u, first, second, lost, node);
    ApartBoth(s, t, u, first, second, lost, node);
    FittingBoth(first, second, lost, minPrefix);
    TotalOfFirst(pieces, minPrefix, j);
    LostNext(pieces, j, minPrefix, FreeCount(t, minPrefix));
  }

  /** The outcome of a demand. It is met exactly if the pool has that much space in minimum blocks,
      however it is fragmented, and then with distinct free blocks of exactly that total. Otherwise
      everything is given back except what was lost. */
  ghost predicate Demanded(s: PoolState, t: PoolState, requested: int, pieces: seq<nat>, minPrefix: nat, node: string,
                           ok: bool, got: seq<Cidr>, lost: set<Cidr>, repaired: bool)
    requires forall i :: 0 <= i < |pieces| ==> pieces[i] <= minPrefix
  {
    && |s.roots| == |s.held|
    && (ok <==> UnitsNeeded(requested, minPrefix) <= FreeCount(s, minPrefix))
    && (ok ==> Took(s, t, SetOf(got), node) && Fitting(got, {}, minPrefix))
    && (ok ==> UnitsIn(got, minPrefix) == UnitsNeeded(requested, minPrefix))
    && (!ok ==> Took(s, t, lost, node))
    && (!ok ==> (lost == {} <==> repaired || Lost(pieces, minPrefix, FreeCount(s, minPrefix)) == 0))
  }

  lemma DemandMet(s: PoolState, t: PoolState, requested: int, pieces: seq<nat>, minPrefix: nat, node: string,
                  got: seq<Cidr>,
                  repaired: bool)
    requires (forall i :: 0 <= i < |pieces| ==> pieces[i] <= minPrefix)
    requires TotalUnits(pieces, minPrefix) == UnitsNeeded(requested, minPrefix)
    requires Served(s, t, pieces, |pieces|, minPrefix, node, got)
    ensures Demanded(s, t, requested, pieces, minPrefix, node, true, got, {}, repaired)
  {
    assert pieces[..|pieces|] == pieces;
  }

  lemma DemandRefused(s: PoolState, t: PoolState, requested: int, pieces: seq<nat>, minPrefix: nat, node: string,
                      lost: set<Cidr>,
                      repaired: bool)
    requires (forall i :: 0 <= i < |pieces| ==> pieces[i] <= minPrefix)
    requires TotalUnits(pieces, minPrefix) == UnitsNeeded(requested, minPrefix)
    requires Took(s, t, lost, node) && TotalUnits(pieces, minPrefix) > FreeCount(s, minPrefix)
    requires lost == {} <==> repaired || Lost(pieces, minPrefix, FreeCount(s, minPrefix)) == 0
    ensures Demanded(s, t, requested, pieces, minPrefix, node, false, [], lost, repaired)
  {
  }

  /** A failed demand leaves the pool as it was exactly if nothing is lost: always, if a first half that fails reports
      what it has got hold of. */
  lemma RollsBack(s: PoolState, t: PoolState, requested: int, pieces: seq<nat>, minPrefix: nat, node: string,
                  lost: set<Cidr>,
                      repaired: bool)
    requires RootsHold(s, minPrefix) && (forall i :: 0 <= i < |pieces| ==> pieces[i] <= minPrefix)
    requires Demanded(s, t, requested, pieces, minPrefix, node, false, [], lost, repaired)
    requires (forall c :: c in lost ==> c.prefix <= minPrefix)
    ensures t == s <==> repaired || Lost(pieces, minPrefix, FreeCount(s, minPrefix)) == 0
  {
    TookSomething(s, t, lost, node, minPrefix);
  }

}
