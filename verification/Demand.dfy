/** Splitting a demand into blocks, and what a failed allocation of one block size leaves behind. */
module Demand {
  import opened Cidrs
  import opened Units

  /** How many minimum blocks a demand is rounded up to. */
  function UnitsNeeded(requested: int, minPrefix: nat): (units: nat)
    ensures units >= 1
  {
    var units := (requested + Size(minPrefix) - 1) / Size(minPrefix);
    if units < 1 then 1 else units
  }

  /** It covers the demand, with less than one minimum block of waste. */
  lemma UnitsCover(requested: int, minPrefix: nat)
    ensures var units := UnitsNeeded(requested, minPrefix);
      requested <= units * Size(minPrefix) && (units > 1 ==> (units - 1) * Size(minPrefix) < requested)
  {
    Rounded(requested, Size(minPrefix));
  }

  lemma Rounded(x: int, n: nat)
    requires n > 0
    ensures var q := (x + n - 1) / n;
      x <= q * n && (q - 1) * n < x && (q < 1 ==> x <= 0)
  {
    var q, r := (x + n - 1) / n, (x + n - 1) % n;
    assert x + n - 1 == q * n + r;
    RoundedUp(x, n, q, r);
    if q < 1 { NotPositive(q, n); }
  }

  lemma RoundedUp(x: int, n: nat, q: int, r: int)
    requires x + n - 1 == q * n + r && 0 <= r < n
    ensures x <= q * n && (q - 1) * n < x
  {
    assert (q - 1) * n == q * n - n;
  }

  lemma NotPositive(q: int, n: nat)
    requires q <= 0
    ensures q * n <= 0
  {
  }

  /** x & bit != 0, for a power of two. */
  predicate HasBit(x: nat, bit: nat) {
    if bit <= 1 then x % 2 == 1 else HasBit(x / 2, bit / 2)
  }

  /** x modulo 2^n. */
  function LowBits(x: nat, n: nat): nat {
    if n == 0 then 0 else 2 * LowBits(x / 2, n - 1) + x % 2
  }

  lemma {:induction false} NextBit(x: nat, j: nat)
    ensures LowBits(x, j + 1) == LowBits(x, j) + if HasBit(x, Pow2(j)) then Pow2(j) else 0
  {
    if j > 0 { NextBit(x / 2, j - 1); }
  }

  lemma {:induction false} AllBits(x: nat, n: nat)
    requires x < Pow2(n)
    ensures LowBits(x, n) == x
  {
    if n > 0 { AllBits(x / 2, n - 1); }
  }

  /** How many minimum blocks these block sizes make up. */
  function TotalUnits(prefixes: seq<nat>, minPrefix: nat): nat
    requires forall i :: 0 <= i < |prefixes| ==> prefixes[i] <= minPrefix
  {
    if prefixes == [] then 0
    else TotalUnits(prefixes[..|prefixes| - 1], minPrefix) + Pow2(minPrefix - prefixes[|prefixes| - 1])
  }

  /** Largest first, and no size below the largest twice: the binary representation of the demand. */
  ghost predicate LargestFirst(prefixes: seq<nat>, minPrefix: nat, maxPrefix: nat) {
    && (forall i :: 0 <= i < |prefixes| ==> maxPrefix <= prefixes[i] <= minPrefix)
    && (forall i, j :: 0 <= i < j < |prefixes| ==> prefixes[i] < prefixes[j] || prefixes[i] == prefixes[j] == maxPrefix)
  }

  /** The prefix lengths, largest block first, that cover a demand with less than one minimum
      block of waste. */
  method SplitDemand(requested: int, minPrefix: nat, maxPrefix: nat) returns (out: seq<nat>)
    requires maxPrefix <= minPrefix <= 32
    ensures LargestFirst(out, minPrefix, maxPrefix)
    ensures TotalUnits(out, minPrefix) == UnitsNeeded(requested, minPrefix)
  {
    var units: nat := UnitsNeeded(requested, minPrefix);
    var maxUnits := Pow2(minPrefix - maxPrefix);
    out := [];
    while units >= maxUnits
      invariant forall i :: 0 <= i < |out| ==> out[i] == maxPrefix
      invariant TotalUnits(out, minPrefix) + units == UnitsNeeded(requested, minPrefix)
    {
      Append(out, maxPrefix, minPrefix);
      out, units := out + [maxPrefix], units - maxUnits;
    }
    out := AppendBits(out, units, maxUnits, minPrefix, maxPrefix);
  }

  /** The block sizes for the bits of what is less than a maximum block. */
  method AppendBits(prefixes: seq<nat>, units: nat, maxUnits: nat, minPrefix: nat, maxPrefix: nat)
    returns (out: seq<nat>)
    requires maxPrefix <= minPrefix && units < maxUnits == Pow2(minPrefix - maxPrefix)
    requires forall i :: 0 <= i < |prefixes| ==> prefixes[i] == maxPrefix
    ensures LargestFirst(out, minPrefix, maxPrefix)
    ensures TotalUnits(out, minPrefix) == TotalUnits(prefixes, minPrefix) + units
  {
    AllBits(units, minPrefix - maxPrefix);
    out := prefixes;
    var bit := maxUnits / 2;
    ghost var j: nat := minPrefix - maxPrefix;
    while bit >= 1
      invariant j <= minPrefix - maxPrefix && bit == (if j == 0 then 0 else Pow2(j - 1))
      invariant Partial(out, minPrefix, maxPrefix, j)
      invariant TotalUnits(out, minPrefix) + LowBits(units, j) == TotalUnits(prefixes, minPrefix) + units
      decreases bit
    {
      j := j - 1;
      out := AppendBit(out, units, bit, minPrefix, maxPrefix, j);
      bit := bit / 2;
    }
  }

  ghost predicate Partial(out: seq<nat>, minPrefix: nat, maxPrefix: nat, j: nat) {
    && LargestFirst(out, minPrefix, maxPrefix)
    && forall i :: 0 <= i < |out| ==> out[i] == maxPrefix || out[i] <= minPrefix - j
  }

  /** Appends the block size for one bit of the demand. */
  method AppendBit(prefixes: seq<nat>, units: nat, bit: nat, minPrefix: nat, maxPrefix: nat, ghost j: nat)
    returns (out: seq<nat>)
    requires bit == Pow2(j) && j < minPrefix - maxPrefix && Partial(prefixes, minPrefix, maxPrefix, j + 1)
    ensures Partial(out, minPrefix, maxPrefix, j)
    ensures TotalUnits(out, minPrefix) + LowBits(units, j) == TotalUnits(prefixes, minPrefix) + LowBits(units, j + 1)
  {
    NextBit(units, j);
    out := prefixes;
    if HasBit(units, bit) {
      var level := Log2(bit, j);
      Append(prefixes, minPrefix - level, minPrefix);
      out := prefixes + [minPrefix - level];
    }
  }

  lemma Append(prefixes: seq<nat>, p: nat, minPrefix: nat)
    requires p <= minPrefix && forall i :: 0 <= i < |prefixes| ==> prefixes[i] <= minPrefix
    ensures TotalUnits(prefixes + [p], minPrefix) == TotalUnits(prefixes, minPrefix) + Pow2(minPrefix - p)
  {
    assert (prefixes + [p])[..|prefixes|] == prefixes;
  }

  lemma {:induction false} TotalOfBoth(first: seq<nat>, second: seq<nat>, minPrefix: nat)
    requires forall i :: 0 <= i < |first| ==> first[i] <= minPrefix
    requires forall i :: 0 <= i < |second| ==> second[i] <= minPrefix
    ensures TotalUnits(first + second, minPrefix) == TotalUnits(first, minPrefix) + TotalUnits(second, minPrefix)
    decreases |second|
  {
    if second == [] {
      assert first + second == first;
    } else {
      var front, last := second[..|second| - 1], second[|second| - 1];
      TotalOfBoth(first, front, minPrefix);
      Append(first + front, last, minPrefix);
      assert first + second == (first + front) + [last];
    }
  }

  method Log2(bit: nat, ghost j: nat) returns (level: nat)
    requires bit == Pow2(j)
    ensures level == j
  {
    level := 0;
    var v := bit;
    while v > 1
      invariant level <= j && v == Pow2(j - level)
      decreases v
    {
      v, level := v / 2, level + 1;
    }
  }

  // ---- what a failed allocation leaves behind ----

  /** The minimum blocks that are allocated but not reported when a block of 2^k of them is asked
      for and only `free` are there: the partial result of a failed first half is dropped. */
  function Leak(k: nat, free: nat): nat
    requires free < Pow2(k)
  {
    if k == 0 then 0
    else if free < Pow2(k - 1) then free
    else Leak(k - 1, free - Pow2(k - 1))
  }

  /** What is lost when the pieces of a demand are asked for one after the other. */
  function Lost(prefixes: seq<nat>, minPrefix: nat, free: nat): nat
    requires forall i :: 0 <= i < |prefixes| ==> prefixes[i] <= minPrefix
  {
    if prefixes == [] then 0
    else
      var k := minPrefix - prefixes[0];
      if Pow2(k) <= free then Lost(prefixes[1..], minPrefix, free - Pow2(k)) else Leak(k, free)
  }

  /** The pieces of a demand fit one after the other exactly if they fit together. */
  lemma {:induction false} TotalOfFirst(prefixes: seq<nat>, minPrefix: nat, j: nat)
    requires (forall i :: 0 <= i < |prefixes| ==> prefixes[i] <= minPrefix) && j < |prefixes|
    ensures TotalUnits(prefixes[..j + 1], minPrefix) == TotalUnits(prefixes[..j], minPrefix)
      + Pow2(minPrefix - prefixes[j])
    ensures TotalUnits(prefixes[..j + 1], minPrefix) <= TotalUnits(prefixes, minPrefix)
    decreases |prefixes|
  {
    assert prefixes[..j + 1] == prefixes[..j] + [prefixes[j]];
    Append(prefixes[..j], prefixes[j], minPrefix);
    if j + 1 < |prefixes| {
      var front := prefixes[..|prefixes| - 1];
      TotalOfFirst(front, minPrefix, j);
      assert front[..j + 1] == prefixes[..j + 1];
    } else {
      assert prefixes[..j + 1] == prefixes;
    }
  }

  /** Nothing is lost exactly if the free space is 2^k - 2^i minimum blocks for some i. */
  lemma {:induction false} LeakFree(k: nat, free: nat)
    requires free < Pow2(k)
    ensures Leak(k, free) == 0 <==> exists i :: 0 <= i <= k && free == Pow2(k) - Pow2(i)
  {
    if k > 0 {
      if free < Pow2(k - 1) {
        if free == 0 { assert free == Pow2(k) - Pow2(k); }
        if i :| 0 <= i <= k && free == Pow2(k) - Pow2(i) && free != 0 { Pow2Monotone(i, k - 1); }
      } else {
        LeakFree(k - 1, free - Pow2(k - 1));
        if i :| 0 <= i <= k - 1 && free - Pow2(k - 1) == Pow2(k - 1) - Pow2(i) { assert free == Pow2(k) - Pow2(i); }
        if i :| 0 <= i <= k && free == Pow2(k) - Pow2(i) { assert i <= k - 1; }
      }
    } else {
      assert free == Pow2(0) - Pow2(0);
    }
  }

  /** The free space falls short of what the pieces up to j make up by 2^i minimum blocks, no more than piece j has. */
  ghost predicate ShortBy(pieces: seq<nat>, minPrefix: nat, free: nat, j: nat, i: nat)
    requires forall k :: 0 <= k < |pieces| ==> pieces[k] <= minPrefix
  {
    j < |pieces| && i <= minPrefix - pieces[j] && free + Pow2(i) == TotalUnits(pieces[..j + 1], minPrefix)
  }

  lemma {:induction false} TotalFromFront(pieces: seq<nat>, minPrefix: nat, j: nat)
    requires (forall k :: 0 <= k < |pieces| ==> pieces[k] <= minPrefix) && 0 < j <= |pieces|
    ensures TotalUnits(pieces[..j], minPrefix) == Pow2(minPrefix - pieces[0])
      + TotalUnits(pieces[1..][..j - 1], minPrefix)
  {
    TotalOfBoth([pieces[0]], pieces[1..][..j - 1], minPrefix);
    Append([], pieces[0], minPrefix);
    assert [] + [pieces[0]] == [pieces[0]] && pieces[..j] == [pieces[0]] + pieces[1..][..j - 1];
  }

  /** If the first piece can be served, the shortfall is one of the rest. */
  lemma ShortLater(pieces: seq<nat>, minPrefix: nat, free: nat, j: nat, i: nat)
    requires pieces != [] && (forall k :: 0 <= k < |pieces| ==> pieces[k] <= minPrefix)
    requires Pow2(minPrefix - pieces[0]) <= free
    ensures ShortBy(pieces, minPrefix, free, j, i) <==>
      j > 0 && ShortBy(pieces[1..], minPrefix, free - Pow2(minPrefix - pieces[0]), j - 1, i)
  {
    if j < |pieces| { TotalFromFront(pieces, minPrefix, j + 1); }
  }

  /** A failed demand of several pieces loses nothing exactly if the free space falls short of the first pieces, up to
      one of them, by a power of two that is no larger than that piece. */
  lemma {:induction false} LossFree(pieces: seq<nat>, minPrefix: nat, free: nat)
    requires (forall k :: 0 <= k < |pieces| ==> pieces[k] <= minPrefix) && free < TotalUnits(pieces, minPrefix)
    ensures Lost(pieces, minPrefix, free) == 0 <==> exists j: nat, i: nat :: ShortBy(pieces, minPrefix, free, j, i)
    decreases |pieces|, 1
  {
    if Pow2(minPrefix - pieces[0]) <= free {
      LossFreeLater(pieces, minPrefix, free);
    } else {
      LossFreeAtOnce(pieces, minPrefix, free);
    }
  }

  lemma {:induction false} LossFreeLater(pieces: seq<nat>, minPrefix: nat, free: nat)
    requires (forall k :: 0 <= k < |pieces| ==> pieces[k] <= minPrefix) && free < TotalUnits(pieces, minPrefix)
    requires Pow2(minPrefix - pieces[0]) <= free
    ensures Lost(pieces, minPrefix, free) == 0 <==> exists j: nat, i: nat :: ShortBy(pieces, minPrefix, free, j, i)
    decreases |pieces|, 0
  {
    var rest, more := pieces[1..], free - Pow2(minPrefix - pieces[0]);
    TotalFromFront(pieces, minPrefix, |pieces|);
    assert pieces[..|pieces|] == pieces && rest[..|rest|] == rest;
    LossFree(rest, minPrefix, more);
    if j: nat, i: nat :| ShortBy(pieces, minPrefix, free, j, i) { ShortLater(pieces, minPrefix, free, j, i); }
    if j: nat, i: nat :| ShortBy(rest, minPrefix, more, j, i) { ShortLater(pieces, minPrefix, free, j + 1, i); }
  }

  lemma LossFreeAtOnce(pieces: seq<nat>, minPrefix: nat, free: nat)
    requires (forall k :: 0 <= k < |pieces| ==> pieces[k] <= minPrefix) && free < TotalUnits(pieces, minPrefix)
    requires Pow2(minPrefix - pieces[0]) > free
    ensures Lost(pieces, minPrefix, free) == 0 <==> exists j: nat, i: nat :: ShortBy(pieces, minPrefix, free, j, i)
  {
    var k := minPrefix - pieces[0];
    LeakFree(k, free);
    TotalFromFront(pieces, minPrefix, 1);
    if i: nat :| i <= k && free == Pow2(k) - Pow2(i) { assert ShortBy(pieces, minPrefix, free, 0, i); }
    if j: nat, i: nat :| ShortBy(pieces, minPrefix, free, j, i) { FirstFallsShort(pieces, minPrefix, free, j, i); }
  }

  lemma FirstFallsShort(pieces: seq<nat>, minPrefix: nat, free: nat, j: nat, i: nat)
    requires (forall k :: 0 <= k < |pieces| ==> pieces[k] <= minPrefix) && ShortBy(pieces, minPrefix, free, j, i)
    requires free < Pow2(minPrefix - pieces[0])
    ensures j == 0 && free == Pow2(minPrefix - pieces[0]) - Pow2(i)
  {
    TotalFromFront(pieces, minPrefix, j + 1);
    Pow2Monotone(i, minPrefix - pieces[j]);
    if j > 0 {
      TotalFromFront(pieces, minPrefix, j);
      TotalOfFirst(pieces, minPrefix, j);
    }
  }

  /** Without a piece of the largest size there are at most three minimum blocks. */
  lemma SmallPieces(pieces: seq<nat>)
    requires LargestFirst(pieces, 28, 26) && pieces != [] && pieces[0] > 26
    ensures TotalUnits(pieces, 28) <= 3
  {
    assert |pieces| > 1 ==> pieces[0] == 27 && pieces[1] == 28;
    assert |pieces| <= 2;
    TotalFromFront(pieces, 28, |pieces|);
    if |pieces| == 2 { TotalFromFront(pieces[1..], 28, 1); }
    assert pieces[..|pieces|] == pieces;
  }

  /** 64 addresses in /28 minimum blocks are one piece. */
  lemma OneBigPiece(pieces: seq<nat>)
    requires LargestFirst(pieces, 28, 26) && TotalUnits(pieces, 28) == 4
    ensures pieces == [26]
  {
    if pieces[0] > 26 { SmallPieces(pieces); }
    TotalFromFront(pieces, 28, 1);
    if |pieces| > 1 { TotalOfFirst(pieces, 28, 1); }
  }
}
