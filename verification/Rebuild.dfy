/** Rebuilding the pool from the NodeBlocks: the controller keeps no other record of what is
    taken. The order in which the blocks are reserved does not matter, and neither does how the
    cluster came to hold them. */
module Rebuild {
  import opened Cidrs
  import opened Shapes
  import opened Addresses
  import opened BuddyBlocks
  import opened BuddyAllocators
  import opened Units
  import opened Pools

  /** What a NodeBlock says: this block belongs to this node. */
  datatype Claim = Claim(cidr: Cidr, node: string)

  /** A claim is entered in the range that has all of its addresses free; otherwise nothing happens. */
  ghost function Place(s: PoolState, c: Claim): PoolState
    requires |s.roots| == |s.held|
  {
    PoolState(s.roots, seq(|s.held|, i requires 0 <= i < |s.held| =>
      if s.FreeIn(i, c.cidr) then s.held[i][c.cidr := Allocated(c.node)] else s.held[i]))
  }

  ghost function PlaceAll(s: PoolState, claims: seq<Claim>): (t: PoolState)
    requires |s.roots| == |s.held|
    ensures |t.roots| == |t.held| && t.roots == s.roots
    decreases |claims|
  {
    if claims == [] then s else PlaceAll(Place(s, claims[0]), claims[1..])
  }

  /** The claims that have no place when their turn comes. */
  ghost function Homeless(s: PoolState, claims: seq<Claim>): seq<Claim>
    requires |s.roots| == |s.held|
    decreases |claims|
  {
    if claims == [] then []
    else (if InSome(s, claims[0].cidr) then [] else [claims[0]]) + Homeless(Place(s, claims[0]), claims[1..])
  }

  ghost predicate Compatible(s: PoolState, claims: seq<Claim>)
    requires |s.roots| == |s.held|
  {
    && (forall i :: 0 <= i < |claims| ==> InSome(s, claims[i].cidr))
    && (forall i, j :: 0 <= i < j < |claims| ==> Disjoint(claims[i].cidr, claims[j].cidr))
  }

  /** Every claim in at once, whatever their order. */
  ghost function Entered(s: PoolState, claims: seq<Claim>): PoolState
    requires |s.roots| == |s.held|
  {
    PoolState(s.roots, seq(|s.held|, i requires 0 <= i < |s.held| => s.held[i] + Owners(s.roots[i], claims)))
  }

  ghost function Owners(root: Cidr, claims: seq<Claim>): Holdings {
    map c | c in Claimed(claims) && Within(c, root) :: Allocated(OwnerOf(claims, c))
  }

  ghost function Claimed(claims: seq<Claim>): set<Cidr> {
    set c | c in claims :: c.cidr
  }

  /** The node that claims c, first come first served. */
  function OwnerOf(claims: seq<Claim>, c: Cidr): string {
    if claims == [] then "" else if claims[0].cidr == c then claims[0].node else OwnerOf(claims[1..], c)
  }

  // ---- the order of the claims ----

  lemma PlaceFree(s: PoolState, c: Claim, d: Cidr)
    requires s.Ok() && InSome(s, c.cidr)
    ensures Place(s, c).Ok()
    ensures InSome(Place(s, c), d) <==> InSome(s, d) && Disjoint(c.cidr, d)
  {
    var t := Place(s, c);
    var i: nat :| s.FreeIn(i, c.cidr);
    if InSome(t, d) {
      var j: nat :| t.FreeIn(j, d);
      assert s.FreeIn(j, d) by {
        forall a | d.Contains(a) ensures FreeAddress(s.held[j], a) { assert FreeAddress(t.held[j], a); }
      }
      if j != i { OneRange(s, i, j, c.cidr, d); }
      else {
        var a := if c.cidr.base < d.base then d.base else c.cidr.base;
        assert c.cidr in t.held[j] && (d.Contains(a) ==> FreeAddress(t.held[j], a));
      }
    }
    if InSome(s, d) && Disjoint(c.cidr, d) {
      var j: nat :| s.FreeIn(j, d);
      assert t.held[j].Keys <= s.held[j].Keys + {c.cidr};
      assert t.FreeIn(j, d) by {
        forall a | d.Contains(a) ensures FreeAddress(t.held[j], a) { assert FreeAddress(s.held[j], a); }
      }
    }
  }

  lemma PlaceNowhere(s: PoolState, c: Claim)
    requires s.Ok() && !InSome(s, c.cidr)
    ensures Place(s, c) == s
  {
    assert Place(s, c).held == s.held;
  }

  /** Nothing is left out exactly if the claims are disjoint and each fits into the free space. */
  lemma {:induction false} AllFit(s: PoolState, claims: seq<Claim>)
    requires s.Ok()
    ensures Homeless(s, claims) == [] <==> Compatible(s, claims)
    decreases |claims|
  {
    if claims != [] {
      var c, rest := claims[0], claims[1..];
      if InSome(s, c.cidr) {
        PlaceFree(s, c, c.cidr);
        AllFit(Place(s, c), rest);
        forall i: nat | i < |rest|
          ensures InSome(Place(s, c), rest[i].cidr) <==>
            InSome(s, claims[i + 1].cidr) && Disjoint(c.cidr, claims[i + 1].cidr)
        {
          PlaceFree(s, c, rest[i].cidr);
        }
        if Compatible(Place(s, c), rest) { CompatibleFirst(s, claims); }
        if Compatible(s, claims) {
          forall i: nat | i < |rest| ensures InSome(Place(s, c), rest[i].cidr) { assert rest[i] == claims[i + 1]; }
        }
      } else {
        assert Homeless(s, claims)[0] == c;
      }
    }
  }

  lemma CompatibleFirst(s: PoolState, claims: seq<Claim>)
    requires s.Ok() && claims != [] && InSome(s, claims[0].cidr)
    requires Compatible(Place(s, claims[0]), claims[1..])
    ensures Compatible(s, claims)
  {
    var rest := claims[1..];
    forall i | 0 < i < |claims| ensures InSome(s, claims[i].cidr) && Disjoint(claims[0].cidr, claims[i].cidr) {
      assert InSome(Place(s, claims[0]), rest[i - 1].cidr);
      PlaceFree(s, claims[0], rest[i - 1].cidr);
    }
    forall i, j | 0 < i < j < |claims| ensures Disjoint(claims[i].cidr, claims[j].cidr) {
      assert Disjoint(rest[i - 1].cidr, rest[j - 1].cidr);
    }
  }

  lemma {:induction false} PlacedIsEntered(s: PoolState, claims: seq<Claim>)
    requires s.Ok() && Compatible(s, claims)
    ensures PlaceAll(s, claims) == Entered(s, claims)
    decreases |claims|
  {
    if claims == [] {
      forall i: nat | i < |s.held| ensures s.held[i] + Owners(s.roots[i], claims) == s.held[i] {
        assert Owners(s.roots[i], claims) == map[];
      }
      assert Entered(s, claims).held == s.held;
    } else {
      var c, rest, t := claims[0], claims[1..], Place(s, claims[0]);
      assert InSome(s, c.cidr);
      PlaceFree(s, c, c.cidr);
      forall i: nat | i < |rest| ensures InSome(t, rest[i].cidr) {
        assert rest[i] == claims[i + 1];
        PlaceFree(s, c, rest[i].cidr);
      }
      PlacedIsEntered(t, rest);
      forall i: nat | i < |s.held| ensures Entered(t, rest).held[i] == Entered(s, claims).held[i] {
        EnteredFirst(s, claims, i);
      }
    }
  }

  lemma EnteredFirst(s: PoolState, claims: seq<Claim>, i: nat)
    requires s.Ok() && claims != [] && Compatible(s, claims) && i < |s.held|
    ensures Place(s, claims[0]).held[i] + Owners(s.roots[i], claims[1..]) == s.held[i] + Owners(s.roots[i], claims)
  {
    var c, root, h := claims[0], s.roots[i], s.held[i];
    forall j | 1 <= j < |claims| ensures claims[j].cidr != c.cidr { assert Disjoint(claims[0].cidr, claims[j].cidr); }
    OwnersFirst(root, claims);
    assert InSome(s, c.cidr);
    if Within(c.cidr, root) {
      NotHeld(s, c.cidr, i);
      PutFirst(h, Owners(root, claims[1..]), c.cidr, Allocated(c.node));
    } else {
      assert !s.FreeIn(i, c.cidr);
    }
  }

  lemma PutFirst(h: Holdings, more: Holdings, c: Cidr, kind: Kind)
    requires c !in more
    ensures h[c := kind] + more == h + more[c := kind]
  {
  }

  lemma OwnersFirst(root: Cidr, claims: seq<Claim>)
    requires claims != [] && forall j :: 1 <= j < |claims| ==> claims[j].cidr != claims[0].cidr
    ensures claims[0].cidr !in Owners(root, claims[1..])
    ensures Owners(root, claims) == if Within(claims[0].cidr, root)
      then Owners(root, claims[1..])[claims[0].cidr := Allocated(claims[0].node)] else Owners(root, claims[1..])
  {
    var c, rest := claims[0], claims[1..];
    assert claims == [c] + rest;
    assert Claimed(claims) == Claimed(rest) + {c.cidr};
    assert c.cidr !in Claimed(rest);
    forall d | d in Claimed(rest) ensures OwnerOf(claims, d) == OwnerOf(rest, d) {}
  }

  /** Two lists of the same claims, in whatever order. */
  ghost predicate Permutation(claims: seq<Claim>, others: seq<Claim>) {
    multiset(claims) == multiset(others)
  }

  lemma {:induction false} OwnerIs(claims: seq<Claim>, c: Claim)
    requires c in claims
    requires forall d :: d in claims && d.cidr == c.cidr ==> d == c
    ensures OwnerOf(claims, c.cidr) == c.node
  {
    if claims[0].cidr == c.cidr {
      assert claims[0] in claims;
    } else {
      OwnerIs(claims[1..], c);
    }
  }

  lemma OneClaimEach(s: PoolState, claims: seq<Claim>, c: Claim, d: Claim)
    requires s.Ok() && Compatible(s, claims) && c in claims && d in claims && d.cidr == c.cidr
    ensures d == c
  {
    var i: nat, j: nat :| i < |claims| && j < |claims| && claims[i] == c && claims[j] == d;
    ClaimsApart(s, claims, i, j);
  }

  lemma ClaimsApart(s: PoolState, claims: seq<Claim>, i: nat, j: nat)
    requires s.Ok() && Compatible(s, claims) && i < |claims| && j < |claims|
    ensures claims[i].cidr == claims[j].cidr ==> i == j
  {
    assert i < j ==> Disjoint(claims[i].cidr, claims[j].cidr);
    assert j < i ==> Disjoint(claims[j].cidr, claims[i].cidr);
  }

  lemma OwnersAnyOrder(s: PoolState, claims: seq<Claim>, others: seq<Claim>, c: Cidr)
    requires s.Ok() && Compatible(s, claims) && Permutation(claims, others)
    ensures c in Claimed(claims) <==> c in Claimed(others)
    ensures c in Claimed(claims) ==> OwnerOf(claims, c) == OwnerOf(others, c)
  {
    forall d ensures d in claims <==> d in others {
      assert d in multiset(claims) <==> d in multiset(others);
    }
    if c in Claimed(claims) {
      var d :| d in claims && d.cidr == c;
      forall e | e in claims && e.cidr == c ensures e == d { OneClaimEach(s, claims, d, e); }
      OwnerIs(claims, d);
      OwnerIs(others, d);
    }
  }

  lemma SameOwners(s: PoolState, claims: seq<Claim>, others: seq<Claim>, root: Cidr)
    requires s.Ok() && Compatible(s, claims) && Permutation(claims, others)
    ensures Owners(root, others) == Owners(root, claims)
  {
    forall c ensures (c in Claimed(claims) <==> c in Claimed(others))
      && (c in Claimed(claims) ==> OwnerOf(claims, c) == OwnerOf(others, c))
    {
      OwnersAnyOrder(s, claims, others, c);
    }
  }

  /** Disjoint claims have the same outcome in every order: all are placed, and what the pool then
      holds is the same. */
  lemma OrderDoesNotMatter(s: PoolState, claims: seq<Claim>, others: seq<Claim>)
    requires s.Ok() && Compatible(s, claims) && Permutation(claims, others)
    ensures PlaceAll(s, others) == PlaceAll(s, claims) && Homeless(s, others) == []
  {
    CompatibleAnyOrder(s, claims, others);
    AllFit(s, others);
    PlacedIsEntered(s, claims);
    PlacedIsEntered(s, others);
    forall i: nat | i < |s.held| ensures Owners(s.roots[i], others) == Owners(s.roots[i], claims) {
      SameOwners(s, claims, others, s.roots[i]);
    }
    assert Entered(s, others).held == Entered(s, claims).held;
  }

  lemma CompatibleAnyOrder(s: PoolState, claims: seq<Claim>, others: seq<Claim>)
    requires s.Ok() && Compatible(s, claims) && Permutation(claims, others)
    ensures Compatible(s, others)
  {
    forall i | 0 <= i < |others| ensures InSome(s, others[i].cidr) {
      assert others[i] in multiset(others) && others[i] in multiset(claims);
    }
    forall i, j | 0 <= i < j < |others| ensures Disjoint(others[i].cidr, others[j].cidr) {
      ApartInAnyOrder(s, claims, others, i, j);
    }
  }

  lemma ApartInAnyOrder(s: PoolState, claims: seq<Claim>, others: seq<Claim>, i: nat, j: nat)
    requires s.Ok() && Compatible(s, claims) && Permutation(claims, others) && i < j < |others|
    ensures Disjoint(others[i].cidr, others[j].cidr)
  {
    var c, d := others[i], others[j];
    assert c in multiset(others) && c in multiset(claims) && d in multiset(others) && d in multiset(claims);
    OnceEach(s, claims, c);
    if c == d { Twice(others, i, j); }
    var k, l :| 0 <= k < |claims| && 0 <= l < |claims| && claims[k] == c && claims[l] == d;
    assert k < l ==> Disjoint(claims[k].cidr, claims[l].cidr);
    assert l < k ==> Disjoint(claims[l].cidr, claims[k].cidr);
  }

  lemma Twice(claims: seq<Claim>, i: nat, j: nat)
    requires i < j < |claims| && claims[i] == claims[j]
    ensures multiset(claims)[claims[i]] >= 2
  {
    var l, r := claims[..j], claims[j..];
    assert claims == l + r && l[i] == claims[i] && r[0] == claims[j];
    assert claims[i] in l && claims[i] in r;
    assert multiset(l)[claims[i]] >= 1 && multiset(r)[claims[i]] >= 1;
  }

  lemma OnceEach(s: PoolState, claims: seq<Claim>, c: Claim)
    requires s.Ok() && Compatible(s, claims) && c in claims
    ensures multiset(claims)[c] == 1
  {
    var i: nat :| i < |claims| && claims[i] == c;
    forall j: nat | j < |claims| && j != i ensures claims[j] != c { ClaimsApart(s, claims, i, j); }
    Once(claims, i);
  }

  lemma Once(claims: seq<Claim>, i: nat)
    requires i < |claims| && forall j :: 0 <= j < |claims| && j != i ==> claims[j] != claims[i]
    ensures multiset(claims)[claims[i]] == 1
  {
    var l, c, r := claims[..i], claims[i], claims[i + 1..];
    assert claims == l + [c] + r;
    assert c !in l && c !in r;
    assert multiset(claims) == multiset(l) + multiset{c} + multiset(r);
  }

  /** What the rebuilt pool has free is apart from every claim, and nothing else has been lost: a block that is
      handed out afterwards meets no NodeBlock. */
  lemma {:induction false} NewBlocksAreApart(s: PoolState, claims: seq<Claim>, c: Cidr)
    requires s.Ok() && Compatible(s, claims)
    ensures InSome(PlaceAll(s, claims), c) <==> InSome(s, c) && forall i :: 0 <= i < |claims| ==>
      Disjoint(claims[i].cidr, c)
    decreases |claims|
  {
    if claims != [] {
      var first, rest, t := claims[0], claims[1..], Place(s, claims[0]);
      assert InSome(s, first.cidr);
      forall i: nat | i < |rest| ensures InSome(t, rest[i].cidr) {
        assert rest[i] == claims[i + 1];
        PlaceFree(s, first, rest[i].cidr);
      }
      PlaceFree(s, first, c);
      NewBlocksAreApart(t, rest, c);
      assert forall i :: 0 < i < |claims| ==> claims[i] == rest[i - 1];
    }
  }

  // ---- the same trees ----

  /** Two pools over the same ranges that hold the same blocks have the same trees, however they
      were filled. */
  lemma SameTrees(p: Pool, q: Pool)
    requires p.Valid() && q.Valid() && p.Raw() == q.Raw()
    ensures |p.allocators| == |q.allocators|
    ensures forall i :: 0 <= i < |p.allocators| ==> p.allocators[i].shape == q.allocators[i].shape
  {
    assert |p.Raw().held| == |q.Raw().held|;
    forall i: nat | i < |p.allocators| ensures p.allocators[i].shape == q.allocators[i].shape {
      assert p.Good(i) && q.Good(i);
      var a, b := p.allocators[i], q.allocators[i];
      assert p.Raw().held[i] == q.Raw().held[i] && p.Raw().roots[i] == q.Raw().roots[i];
      Canonical(a.shape, b.shape, a.root.Pos());
    }
  }

  /** Rebuilding from the same disjoint claims in another order gives the same trees. */
  lemma RebuildIsCanonical(p: Pool, q: Pool, s: PoolState, claims: seq<Claim>, others: seq<Claim>)
    requires p.Valid() && q.Valid() && s.Ok() && Compatible(s, claims) && Permutation(claims, others)
    requires p.Raw() == PlaceAll(s, claims) && q.Raw() == PlaceAll(s, others)
    ensures |p.allocators| == |q.allocators|
    ensures forall i :: 0 <= i < |p.allocators| ==> p.allocators[i].shape == q.allocators[i].shape
  {
    OrderDoesNotMatter(s, claims, others);
    SameTrees(p, q);
  }

  // ---- building ----

  /** The CIDRs that get a range of their own: those that can hold a minimum block and overlap no
      earlier one. */
  function Accepted(cidrs: seq<Cidr>, minPrefix: nat, maxPrefix: nat): (accepted: seq<Cidr>)
  {
    if cidrs == [] then [] else
      var before, c := Accepted(cidrs[..|cidrs| - 1], minPrefix, maxPrefix), cidrs[|cidrs| - 1];
      if c.prefix <= minPrefix <= 32 && maxPrefix <= minPrefix && (forall d :: d in before ==> Disjoint(d, c))
      then before + [c] else before
  }

  ghost function Empty(roots: seq<Cidr>): PoolState {
    PoolState(roots, seq(|roots|, i requires 0 <= i < |roots| => map[]))
  }

  /** A pool with the given ranges, less everything that the NodeBlocks claim. */
  method BuildPool(cidrs: seq<Cidr>, minPrefix: nat, maxPrefix: nat, claims: seq<Claim>)
    returns (pool: Pool, problems: nat)
    requires forall i :: 0 <= i < |cidrs| ==> Aligned(cidrs[i])
    requires forall i :: 0 <= i < |claims| ==> Aligned(claims[i].cidr)
    ensures fresh(pool) && fresh(pool.repr) && pool.Valid()
    ensures pool.Raw() == PlaceAll(Empty(Accepted(cidrs, minPrefix, maxPrefix)), claims)
    ensures problems == |cidrs| - |Accepted(cidrs, minPrefix, maxPrefix)|
      + |Homeless(Empty(Accepted(cidrs, minPrefix, maxPrefix)), claims)|
  {
    pool := new Pool();
    problems := AddRanges(pool, cidrs, minPrefix, maxPrefix);
    ghost var s := Empty(Accepted(cidrs, minPrefix, maxPrefix));
    var homeless := ReserveAll(pool, claims);
    problems := problems + homeless;
  }

  method AddRanges(pool: Pool, cidrs: seq<Cidr>, minPrefix: nat, maxPrefix: nat) returns (problems: nat)
    requires pool.Valid() && pool.allocators == []
    requires forall i :: 0 <= i < |cidrs| ==> Aligned(cidrs[i])
    modifies pool
    ensures pool.Valid() && pool.AddsFresh()
    ensures pool.Raw() == Empty(Accepted(cidrs, minPrefix, maxPrefix)) && pool.Raw().Ok()
    ensures problems == |cidrs| - |Accepted(cidrs, minPrefix, maxPrefix)|
  {
    problems := 0;
    assert pool.Raw() == Empty([]);
    for i := 0 to |cidrs|
      invariant pool.Valid() && pool.AddsFresh()
      invariant pool.Raw() == Empty(Accepted(cidrs[..i], minPrefix, maxPrefix))
      invariant problems == i - |Accepted(cidrs[..i], minPrefix, maxPrefix)|
    {
      assert cidrs[..i + 1][..i] == cidrs[..i];
      var problem := AddRange(pool, cidrs[i], minPrefix, maxPrefix, Accepted(cidrs[..i], minPrefix, maxPrefix));
      problems := problems + problem;
    }
    assert cidrs[..|cidrs|] == cidrs;
    RawOk(pool);
  }

  lemma RawOk(pool: Pool)
    requires pool.Valid()
    ensures pool.Raw().Ok()
  {
    var s := pool.Raw();
    forall i: nat | i < |s.roots| ensures Aligned(s.roots[i]) { assert pool.Good(i); }
    forall i: nat, j: nat | i < j < |s.roots| ensures Disjoint(s.roots[i], s.roots[j]) { assert pool.Apart(i, j); }
  }

  /** The next range. The count is 1 if it is refused. */
  method AddRange(pool: Pool, c: Cidr, minPrefix: nat, maxPrefix: nat, ghost before: seq<Cidr>) returns (problem: nat)
    requires pool.Valid() && Aligned(c) && pool.Raw() == Empty(before)
    modifies pool
    ensures pool.Valid() && pool.AddsFresh()
    ensures var fits := c.prefix <= minPrefix <= 32 && maxPrefix <= minPrefix && forall d :: d in before ==>
      Disjoint(d, c);
      problem == (if fits then 0 else 1) && pool.Raw() == Empty(if fits then before + [c] else before)
  {
    ghost var n := |pool.allocators|;
    assert pool.Raw().roots == before;
    assert pool.ApartFromAll(c) <==> forall d :: d in before ==> Disjoint(d, c) by {
      assert forall j :: 0 <= j < n ==> pool.allocators[j].root.Pos() == before[j];
    }
    forall j | 0 <= j < n ensures Held(pool.allocators[j].shape) == map[] {
      assert pool.Raw().held[j] == Empty(before).held[j];
    }
    var r := pool.AddCIDR(c, minPrefix, maxPrefix);
    problem := if r.Ok? then 0 else 1;
    if r.Ok? {
      assert forall j :: 0 <= j < n ==> pool.allocators[j] == pool.allocators[..n][j] == old(pool.allocators)[j];
      assert pool.Raw().roots == before + [c];
    } else {
      assert pool.Raw().roots == before;
    }
    assert pool.Raw().held == Empty(pool.Raw().roots).held;
  }

  method ReserveAll(pool: Pool, claims: seq<Claim>) returns (homeless: nat)
    requires pool.Valid() && forall i :: 0 <= i < |claims| ==> Aligned(claims[i].cidr)
    modifies pool`repr, pool.repr
    ensures pool.Valid() && pool.AddsFresh()
    ensures pool.Raw() == PlaceAll(old(pool.Raw()), claims) && homeless == |Homeless(old(pool.Raw()), claims)|
  {
    ghost var s := pool.Raw();
    homeless := 0;
    for i := 0 to |claims|
      invariant pool.Valid() && pool.AddsFresh()
      invariant PlaceAll(pool.Raw(), claims[i..]) == PlaceAll(s, claims)
      invariant homeless + |Homeless(pool.Raw(), claims[i..])| == |Homeless(s, claims)|
    {
      ghost var t := pool.Raw();
      RawOk(pool);
      var r := pool.Reserve(claims[i].cidr, claims[i].node);
      assert claims[i..][0] == claims[i] && claims[i..][1..] == claims[i + 1..];
      PlacedOne(t, pool.Raw(), claims[i], r.Ok?);
      if r.Err? { homeless := homeless + 1; }
    }
    assert claims[|claims|..] == [];
  }

  lemma PlacedOne(s: PoolState, t: PoolState, c: Claim, ok: bool)
    requires s.Ok() && ok == InSome(s, c.cidr)
    requires ok ==> exists i: nat :: s.FreeIn(i, c.cidr) && t == s.With(i, s.held[i][c.cidr := Allocated(c.node)])
    requires !ok ==> t == s
    ensures t == Place(s, c)
  {
    if ok {
      var i: nat :| s.FreeIn(i, c.cidr) && t == s.With(i, s.held[i][c.cidr := Allocated(c.node)]);
      forall j: nat | j < |s.held| ensures Place(s, c).held[j] == t.held[j] {
        if j != i && s.FreeIn(j, c.cidr) { OneRange(s, i, j, c.cidr, c.cidr); }
      }
    } else {
      PlaceNowhere(s, c);
    }
  }
}
