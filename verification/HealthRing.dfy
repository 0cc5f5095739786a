/** The rotating probe ring: who probes whom in which round. */
module HealthRing {

  /** The offsets that n nodes rotate through. */
  method RingOffsets(n: nat) returns (offsets: seq<nat>)
    ensures |offsets| == n / 2 && forall i :: 0 <= i < |offsets| ==> offsets[i] == i + 1
  {
    offsets := [];
    for r := 1 to n / 2 + 1
      invariant |offsets| == r - 1 && forall i :: 0 <= i < |offsets| ==> offsets[i] == i + 1
    {
      offsets := offsets + [r];
    }
  }

  /** The offset of a round. Rounds are numbered by the clock. */
  function Offset(n: nat, round: nat): (r: nat)
    requires n >= 2
    ensures 1 <= r <= n / 2
  {
    round % (n / 2) + 1
  }

  /** The place on a ring of n that is r places after i. */
  function Ahead(n: nat, i: nat, r: nat): (j: nat)
    requires i < n && r < n
    ensures j < n && (j == i + r || j == i + r - n)
  {
    if i + r < n then i + r else i + r - n
  }

  /** How far ahead j is of i. */
  function Distance(n: nat, i: nat, j: nat): (d: nat)
    requires i < n && j < n
    ensures d < n && Ahead(n, i, d) == j
  {
    if i <= j then j - i else j + n - i
  }

  method IndexOf<T(==)>(s: seq<T>, x: T) returns (index: int)
    ensures index < 0 ==> x !in s
    ensures index >= 0 ==> index < |s| && s[index] == x
  {
    for i := 0 to |s|
      invariant x !in s[..i]
    {
      if s[i] == x { return i; }
    }
    index := -1;
  }

  datatype Target<+T> = Nobody | Probe(node: T)

  /** Whom a node probes in a round. */
  method RingTarget<T(==)>(nodes: seq<T>, self: T, round: nat) returns (target: Target<T>)
    requires forall i, j :: 0 <= i < j < |nodes| ==> nodes[i] != nodes[j]
    ensures target == Nobody <==> self !in nodes || |nodes| < 2
    ensures forall i :: 0 <= i < |nodes| && nodes[i] == self && |nodes| >= 2 ==>
      target == Probe(nodes[Ahead(|nodes|, i, Offset(|nodes|, round))]) && target.node != self
  {
    var offsets := RingOffsets(|nodes|);
    var index := IndexOf(nodes, self);
    if |offsets| == 0 || index < 0 { return Nobody; }
    var offset := offsets[round % |offsets|];
    ModWrap(index + offset, |nodes|);
    target := Probe(nodes[(index + offset) % |nodes|]);
  }

  lemma ModWrap(x: nat, n: nat)
    requires n > 0 && x < 2 * n
    ensures x % n == if x < n then x else x - n
  {
    if x >= n { ModUnique(x, n, 1, x - n); } else { ModUnique(x, n, 0, x); }
  }

  lemma ModUnique(x: nat, n: nat, q: nat, t: nat)
    requires n > 0 && x == q * n + t && t < n
    ensures x % n == t
  {
    SameQuotient(x / n, q, x % n, t, n);
  }

  lemma SameQuotient(p: nat, q: nat, s: nat, t: nat, n: nat)
    requires p * n + s == q * n + t && s < n && t < n
    ensures p == q && s == t
  {
    if p < q { MoreQuotient(p, q, n); }
    if q < p { MoreQuotient(q, p, n); }
  }

  lemma MoreQuotient(p: nat, q: nat, n: nat)
    requires p < q
    ensures q * n >= p * n + n
  {
    var k: nat := q - p - 1;
    assert q * n == (p + 1 + k) * n == p * n + n + k * n;
    assert k * n >= 0;
  }

  /** In any m consecutive numbers each remainder modulo m comes up exactly once. */
  lemma OncePerWindow(start: nat, m: nat, t: nat) returns (x: nat)
    requires t < m
    ensures start <= x < start + m && x % m == t
    ensures forall y :: start <= y < start + m && y % m == t ==> y == x
  {
    var q, s := start / m, start % m;
    if t >= s {
      x := start + (t - s);
      ModUnique(x, m, q, t);
    } else {
      x := start + (t - s) + m;
      assert (q + 1) * m == q * m + m;
      ModUnique(x, m, q + 1, t);
    }
    forall y | start <= y < start + m && y % m == t ensures y == x { SameRemainder(x, y, m); }
  }

  lemma SameRemainder(x: nat, y: nat, m: nat)
    requires m > 0 && x % m == y % m && x < y + m && y < x + m
    ensures x == y
  {
    var p, q := x / m, y / m;
    assert x == p * m + x % m && y == q * m + y % m;
    if p < q { MoreQuotient(p, q, m); }
    if q < p { MoreQuotient(q, p, m); }
  }

  /** Node i probes node j in this round. */
  predicate Probes(n: nat, i: nat, j: nat, round: nat)
    requires n >= 2 && i < n && j < n
  {
    Ahead(n, i, Offset(n, round)) == j
  }

  /** One round costs one probe per node, and reaches every node once. */
  lemma RoundIsFair(n: nat, j: nat, round: nat) returns (i: nat)
    requires n >= 2 && j < n
    ensures i < n && i != j && Probes(n, i, j, round)
    ensures forall k: nat :: k < n && Probes(n, k, j, round) ==> k == i
  {
    var r := Offset(n, round);
    i := if j >= r then j - r else j + n - r;
  }

  lemma ProbesIsDistance(n: nat, i: nat, j: nat, round: nat)
    requires n >= 2 && i < n && j < n && i != j
    ensures Probes(n, i, j, round) <==> round % (n / 2) == Distance(n, i, j) - 1
  {
  }

  /** One sweep, of n/2 consecutive rounds from any round on, pairs every two nodes: exactly once if one is
      nearer on one side of the ring, and in the same round both ways if they are opposite. */
  lemma SweepPairsAll(n: nat, i: nat, j: nat, start: nat) returns (round: nat)
    requires n >= 2 && i < n && j < n && i != j
    ensures start <= round < start + n / 2
    ensures Probes(n, i, j, round) || Probes(n, j, i, round)
    ensures (Probes(n, i, j, round) && Probes(n, j, i, round)) <==> 2 * Distance(n, i, j) == n
    ensures forall k :: start <= k < start + n / 2 && (Probes(n, i, j, k) || Probes(n, j, i, k)) ==> k == round
  {
    var d := Distance(n, i, j);
    var near := if 2 * d <= n then d else n - d;
    assert Distance(n, j, i) == n - d;
    round := OncePerWindow(start, n / 2, near - 1);
    forall k | start <= k < start + n / 2
      ensures Probes(n, i, j, k) <==> (k % (n / 2) == d - 1)
      ensures Probes(n, j, i, k) <==> (k % (n / 2) == n - d - 1)
    {
      ProbesIsDistance(n, i, j, k);
      ProbesIsDistance(n, j, i, k);
    }
  }
}
