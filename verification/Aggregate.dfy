/** Joining CIDRs that are buddies, over and over, into the fewest prefixes for the same addresses. Which
    pair is joined first is up to the iteration order of a map, so nothing here may depend on it. */
module Aggregation {
  import opened Cidrs

  ghost predicate AllAligned(s: set<Cidr>) {
    forall c :: c in s ==> Aligned(c)
  }

  ghost predicate AllApart(s: set<Cidr>) {
    forall c, d :: c in s && d in s && c != d ==> Disjoint(c, d)
  }

  ghost predicate SameCover(s: set<Cidr>, t: set<Cidr>) {
    forall a: nat :: Covers(s, a) <==> Covers(t, a)
  }

  ghost predicate CoversAll(s: set<Cidr>, c: Cidr) {
    forall a: nat :: c.Contains(a) ==> Covers(s, a)
  }

  predicate Pair(s: set<Cidr>, p: Cidr) {
    p in s && p.prefix > 0 && Sibling(p) in s
  }

  ghost predicate Reduced(s: set<Cidr>) {
    forall p :: !Pair(s, p)
  }

  function Joined(s: set<Cidr>, p: Cidr): set<Cidr>
    requires p.prefix > 0
  {
    s - {p, Sibling(p)} + {Parent(p)}
  }

  /** t comes from s by joining pairs, in some order. */
  ghost predicate Merges(s: set<Cidr>, t: set<Cidr>, n: nat)
    decreases n
  {
    if n == 0 then t == s else exists p :: Pair(s, p) && Merges(Joined(s, p), t, n - 1)
  }

  /** The largest aligned blocks in the cover of s. */
  ghost predicate Maximal(s: set<Cidr>, c: Cidr) {
    Aligned(c) && CoversAll(s, c) && (c.prefix == 0 || !CoversAll(s, Parent(c)))
  }

  // ---- one join ----

  lemma ParentIsBoth(p: Cidr, a: nat)
    requires Aligned(p) && p.prefix > 0
    ensures Parent(p).Contains(a) <==> p.Contains(a) || Sibling(p).Contains(a)
  {
    ParentAligned(p);
  }

  lemma JoinKeepsCover(s: set<Cidr>, p: Cidr)
    requires AllAligned(s) && Pair(s, p)
    ensures AllAligned(Joined(s, p)) && SameCover(Joined(s, p), s) && |Joined(s, p)| < |s|
    ensures AllApart(s) ==> AllApart(Joined(s, p))
  {
    ParentAligned(p);
    forall a: nat ensures Covers(Joined(s, p), a) <==> Covers(s, a) { JoinKeepsAddress(s, p, a); }
    assert |s - {p, Sibling(p)}| == |s| - 2;
    if AllApart(s) { JoinKeepsApart(s, p); }
  }

  lemma JoinKeepsAddress(s: set<Cidr>, p: Cidr, a: nat)
    requires AllAligned(s) && Pair(s, p)
    ensures Covers(Joined(s, p), a) <==> Covers(s, a)
  {
    var t := Joined(s, p);
    ParentIsBoth(p, a);
    if Covers(s, a) {
      var c :| c in s && c.Contains(a);
      assert c in t || Parent(p).Contains(a);
      assert Parent(p) in t;
    }
    if Covers(t, a) {
      var c :| c in t && c.Contains(a);
      assert c in s || c == Parent(p);
    }
  }

  lemma JoinKeepsApart(s: set<Cidr>, p: Cidr)
    requires AllAligned(s) && Pair(s, p) && AllApart(s)
    ensures AllApart(Joined(s, p))
  {
    ParentAligned(p);
    forall c | c in s && c != p && c != Sibling(p) && c != Parent(p)
      ensures Disjoint(c, Parent(p)) && Disjoint(Parent(p), c)
    {
      ParentIsBoth(p, c.base);
      if c.prefix <= Parent(p).prefix { NestedOrDisjoint(c, Parent(p)); } else { NestedOrDisjoint(Parent(p), c); }
    }
  }

  // ---- what no join can improve ----

  /** Without a pair of buddies, whatever is covered is covered by one prefix. */
  lemma {:induction false} OneCovers(s: set<Cidr>, c: Cidr) returns (d: Cidr)
    requires AllAligned(s) && Reduced(s) && Aligned(c) && CoversAll(s, c)
    ensures d in s && Within(c, d)
    decreases 32 - c.prefix
  {
    if c.prefix == 32 {
      assert c.Contains(c.base) && Covers(s, c.base);
      d :| d in s && d.Contains(c.base);
    } else {
      HalvesAligned(c);
      forall a: nat | LowerHalf(c).Contains(a) || UpperHalf(c).Contains(a)
        ensures Covers(s, a)
      {
        assert c.Contains(a);
      }
      d := OneCovers(s, LowerHalf(c));
      var e := OneCovers(s, UpperHalf(c));
      BiggerOrHalf(c, LowerHalf(c), d);
      BiggerOrHalf(c, UpperHalf(c), e);
      assert !Pair(s, LowerHalf(c));
      if !Within(c, d) { d := e; }
    }
  }

  lemma BiggerOrHalf(c: Cidr, half: Cidr, d: Cidr)
    requires Aligned(c) && Aligned(d) && IsHalf(half, c) && Within(half, d)
    ensures Within(c, d) || d == half
  {
    HalvesAligned(c);
    if d.prefix <= c.prefix {
      NestedOrDisjoint(d, c);
    } else {
      NestedOrDisjoint(half, d);
      SizeMonotone(half.prefix, d.prefix);
    }
  }

  /** A disjoint set without buddies is the set of the maximal blocks of its cover. */
  lemma ReducedIsMaximal(s: set<Cidr>, c: Cidr)
    requires AllAligned(s) && Reduced(s) && AllApart(s)
    ensures c in s <==> Maximal(s, c)
  {
    if c in s {
      if c.prefix > 0 && CoversAll(s, Parent(c)) {
        ParentAligned(c);
        var d := OneCovers(s, Parent(c));
        StrictlyInside(c, d);
      }
      assert CoversAll(s, c);
    }
    if Maximal(s, c) {
      var d := OneCovers(s, c);
      if d != c { ParentCovered(s, c, d); }
    }
  }

  lemma ParentCovered(s: set<Cidr>, c: Cidr, d: Cidr)
    requires AllAligned(s) && Aligned(c) && d in s && Within(c, d) && d != c
    ensures c.prefix > 0 && CoversAll(s, Parent(c))
  {
    StrictlyWithin(c, d);
    forall a: nat | Parent(c).Contains(a) ensures Covers(s, a) { assert d.Contains(a); }
  }

  lemma StrictlyInside(c: Cidr, d: Cidr)
    requires Aligned(c) && c.prefix > 0 && Aligned(d) && Within(Parent(c), d)
    ensures d != c && !Disjoint(c, d)
  {
    ParentAligned(c);
  }

  /** Disjoint sets with the same addresses and no buddies are equal: the order of the joins cannot matter. */
  lemma ReducedIsUnique(s: set<Cidr>, t: set<Cidr>)
    requires AllAligned(s) && Reduced(s) && AllApart(s) && AllAligned(t) && Reduced(t) && AllApart(t) && SameCover(s, t)
    ensures s == t
  {
    forall c ensures c in s <==> c in t {
      ReducedIsMaximal(s, c);
      ReducedIsMaximal(t, c);
      assert CoversAll(s, c) <==> CoversAll(t, c);
      if c.prefix > 0 { assert CoversAll(s, Parent(c)) <==> CoversAll(t, Parent(c)); }
    }
  }

  /** No set of prefixes with the same addresses is smaller. */
  lemma ReducedIsSmallest(s: set<Cidr>, t: set<Cidr>)
    requires AllAligned(s) && Reduced(s) && AllApart(s) && AllAligned(t) && SameCover(s, t)
    ensures |s| <= |t|
  {
    forall c | c in s ensures exists e :: e in t && Within(e, c) {
      assert c.Contains(c.base) && Covers(s, c.base) && Covers(t, c.base);
      var e :| e in t && e.Contains(c.base);
      forall a: nat | e.Contains(a) ensures Covers(s, a) { assert Covers(t, a); }
      var d := OneCovers(s, e);
      assert d == c || Disjoint(d, c);
    }
    PieceInEach(s, t);
  }

  lemma {:induction false} PieceInEach(s: set<Cidr>, t: set<Cidr>)
    requires AllApart(s) && forall c :: c in s ==> exists e :: e in t && Within(e, c)
    ensures |s| <= |t|
    decreases |s|
  {
    if s != {} {
      var c :| c in s;
      var e :| e in t && Within(e, c);
      forall d | d in s - {c} ensures exists f :: f in t - {e} && Within(f, d) {
        var f :| f in t && Within(f, d);
        assert Disjoint(c, d);
        assert f in t - {e};
      }
      PieceInEach(s - {c}, t - {e});
    }
  }

  // ---- the loop ----

  predicate Before(c: Cidr, d: Cidr) {
    c.base < d.base || (c.base == d.base && c.prefix < d.prefix)
  }

  ghost predicate Sorted(cs: seq<Cidr>) {
    forall i, j :: 0 <= i < j < |cs| ==> Before(cs[i], cs[j])
  }

  lemma {:induction false} MergeOneMore(s: set<Cidr>, t: set<Cidr>, n: nat, p: Cidr)
    requires Merges(s, t, n) && Pair(t, p)
    ensures Merges(s, Joined(t, p), n + 1)
    decreases n
  {
    if n == 0 {
      assert Merges(Joined(s, p), Joined(t, p), 0);
    } else {
      var q :| Pair(s, q) && Merges(Joined(s, q), t, n - 1);
      MergeOneMore(Joined(s, q), t, n - 1, p);
    }
  }

  /** Some pair, if there is one. */
  method FindPair(s: set<Cidr>) returns (found: bool, p: Cidr)
    ensures found ==> Pair(s, p)
    ensures !found ==> Reduced(s)
  {
    found, p := false, Cidr(0, 0);
    var todo := s;
    while todo != {}
      invariant todo <= s && !found
      invariant forall c :: c in s - todo ==> !Pair(s, c)
    {
      p :| p in todo;
      if p.prefix > 0 && Sibling(p) in s { return true, p; }
      todo := todo - {p};
    }
  }

  method Sort(s: set<Cidr>) returns (sorted: seq<Cidr>)
    ensures Sorted(sorted) && SetOf(sorted) == s
  {
    sorted := [];
    var todo := s;
    while todo != {}
      invariant Sorted(sorted) && todo <= s && SetOf(sorted) == s - todo
      invariant forall c, d :: c in sorted && d in todo ==> Before(c, d)
    {
      var c := First(todo);
      assert SetOf(sorted + [c]) == SetOf(sorted) + {c};
      sorted := sorted + [c];
      todo := todo - {c};
    }
  }

  method First(s: set<Cidr>) returns (c: Cidr)
    requires s != {}
    ensures c in s && forall d :: d in s && d != c ==> Before(c, d)
  {
    c :| c in s;
    var todo := s - {c};
    while todo != {}
      invariant todo <= s - {c} && c in s
      invariant forall d :: d in s && d !in todo && d != c ==> Before(c, d)
    {
      var d :| d in todo;
      todo := todo - {d};
      if Before(d, c) { c := d; }
    }
  }

  /** Joins pairs until there is none. */
  method JoinAll(start: set<Cidr>) returns (s: set<Cidr>, ghost joins: nat)
    requires AllAligned(start)
    ensures Merges(start, s, joins) && Reduced(s) && AllAligned(s) && SameCover(s, start)
    ensures AllApart(start) ==> AllApart(s)
  {
    s, joins := start, 0;
    var found, p := FindPair(s);
    while found
      invariant AllAligned(s) && SameCover(s, start) && Merges(start, s, joins)
      invariant AllApart(start) ==> AllApart(s)
      invariant if found then Pair(s, p) else Reduced(s)
      decreases |s|
    {
      JoinKeepsCover(s, p);
      MergeOneMore(start, s, joins, p);
      s, joins := Joined(s, p), joins + 1;
      found, p := FindPair(s);
    }
  }

  /** The fewest prefixes for the addresses of start. */
  ghost predicate Fewest(start: set<Cidr>, s: set<Cidr>) {
    && AllApart(s)
    && (forall c :: c in s <==> Maximal(start, c))
    && (forall t :: AllAligned(t) && SameCover(t, start) ==> |s| <= |t|)
  }

  /** The joined prefixes in order. They cover exactly the addresses of the input, and no two of them are
      buddies. If the input is disjoint they are the fewest prefixes that do, whatever the order of the joins. */
  method Aggregate(cidrs: seq<Cidr>) returns (res: seq<Cidr>, ghost joins: nat)
    requires AllAligned(SetOf(cidrs))
    ensures Merges(SetOf(cidrs), SetOf(res), joins) && Reduced(SetOf(res)) && Sorted(res)
    ensures AllAligned(SetOf(res)) && SameCover(SetOf(res), SetOf(cidrs))
    ensures AllApart(SetOf(cidrs)) ==> Fewest(SetOf(cidrs), SetOf(res))
  {
    var s;
    s, joins := JoinAll(SetOf(cidrs));
    res := Sort(s);
    if AllApart(SetOf(cidrs)) { ReducedIsFewest(SetOf(cidrs), s); }
  }

  lemma ReducedIsFewest(start: set<Cidr>, s: set<Cidr>)
    requires AllAligned(s) && Reduced(s) && AllApart(s) && SameCover(s, start)
    ensures Fewest(start, s)
  {
    forall c ensures c in s <==> Maximal(start, c) {
      ReducedIsMaximal(s, c);
      assert CoversAll(s, c) <==> CoversAll(start, c);
      if c.prefix > 0 { assert CoversAll(s, Parent(c)) <==> CoversAll(start, Parent(c)); }
    }
    forall t | AllAligned(t) && SameCover(t, start) ensures |s| <= |t| { ReducedIsSmallest(s, t); }
  }

  /** A sorted list is determined by its members: for disjoint input the result is a function of its addresses. */
  lemma {:induction false} SortedIsUnique(cs: seq<Cidr>, ds: seq<Cidr>)
    requires Sorted(cs) && Sorted(ds) && SetOf(cs) == SetOf(ds)
    ensures cs == ds
    decreases |cs|
  {
    SomeMember(cs);
    SomeMember(ds);
    if cs != [] {
      assert cs[0] in SetOf(cs) && cs[0] in SetOf(ds);
      assert ds[0] in SetOf(cs);
      var i :| 0 <= i < |ds| && ds[i] == cs[0];
      var j :| 0 <= j < |cs| && cs[j] == ds[0];
      assert cs[0] == ds[0];
      forall c ensures c in SetOf(cs[1..]) <==> c in SetOf(ds[1..]) {
        RestMembers(cs, c);
        RestMembers(ds, c);
      }
      SortedIsUnique(cs[1..], ds[1..]);
      assert cs == [cs[0]] + cs[1..] && ds == [ds[0]] + ds[1..];
    }
  }

  lemma SomeMember(cs: seq<Cidr>)
    ensures cs != [] ==> SetOf(cs) != {}
  {
    if cs != [] { assert cs[0] in SetOf(cs); }
  }

  lemma RestMembers(cs: seq<Cidr>, c: Cidr)
    requires Sorted(cs) && cs != []
    ensures c in SetOf(cs[1..]) <==> c in SetOf(cs) && c != cs[0]
  {
    assert cs == [cs[0]] + cs[1..];
  }

  // ---- nested input ----

  lemma SmallPrefixes()
    ensures Size(32) == 1 && Size(31) == 2 && Size(30) == 4
    ensures Sibling(Cidr(0, 32)) == Cidr(1, 32) && Parent(Cidr(0, 32)) == Cidr(0, 31)
    ensures Sibling(Cidr(0, 31)) == Cidr(2, 31) && Parent(Cidr(0, 31)) == Cidr(0, 30)
    ensures Aligned(Cidr(0, 31)) && Aligned(Cidr(0, 32)) && Aligned(Cidr(1, 32)) && Aligned(Cidr(2, 31))
  {
    assert Multiple(0, 2) && Multiple(0, 4) && Multiple(2, 2) && Multiple(1, 1) && Multiple(0, 1);
  }

  const NESTED := {Cidr(0, 31), Cidr(0, 32), Cidr(1, 32), Cidr(2, 31)}

  lemma SmallFirst()
    ensures Merges(NESTED, {Cidr(0, 30)}, 2)
  {
    SmallPrefixes();
    var t, u := {Cidr(0, 31), Cidr(2, 31)}, {Cidr(0, 30)};
    assert Pair(NESTED, Cidr(0, 32)) && Joined(NESTED, Cidr(0, 32)) == t;
    assert Pair(t, Cidr(0, 31)) && Joined(t, Cidr(0, 31)) == u;
    assert Merges(u, u, 0);
    assert Merges(t, u, 1);
  }

  lemma LargeFirst()
    ensures Merges(NESTED, {Cidr(0, 30), Cidr(0, 31)}, 2)
  {
    SmallPrefixes();
    var t, u := {Cidr(0, 30), Cidr(0, 32), Cidr(1, 32)}, {Cidr(0, 30), Cidr(0, 31)};
    assert Pair(NESTED, Cidr(0, 31)) && Joined(NESTED, Cidr(0, 31)) == t;
    assert Pair(t, Cidr(0, 32)) && Joined(t, Cidr(0, 32)) == u;
    assert Merges(u, u, 0);
    assert Merges(t, u, 1);
  }

  /** With nested input the order of the joins shows: the same four prefixes end as one or as two. */
  lemma NestedOrderMatters()
    ensures AllAligned(NESTED) && !AllApart(NESTED)
    ensures Merges(NESTED, {Cidr(0, 30)}, 2) && Reduced({Cidr(0, 30)})
    ensures Merges(NESTED, {Cidr(0, 30), Cidr(0, 31)}, 2) && Reduced({Cidr(0, 30), Cidr(0, 31)})
  {
    NestedIsNested();
    SmallFirst();
    LargeFirst();
    BothReduced();
  }

  lemma NestedIsNested()
    ensures AllAligned(NESTED) && !AllApart(NESTED)
  {
    SmallPrefixes();
    assert Cidr(0, 31) in NESTED && Cidr(0, 32) in NESTED && !Disjoint(Cidr(0, 31), Cidr(0, 32));
  }

  lemma BothReduced()
    ensures Reduced({Cidr(0, 30)}) && Reduced({Cidr(0, 30), Cidr(0, 31)})
  {
    SmallPrefixes();
    assert Sibling(Cidr(0, 30)).prefix == 30 && Sibling(Cidr(0, 30)) != Cidr(0, 30);
  }
}
