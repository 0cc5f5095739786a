/** What a set of probe results proves about nodes and links, and how that compares with what is
    really broken. */
module Triangulation {
  import opened HealthRing

  // Of a node's name only the order matters.
  type Name = int

  /** One directed probe result. */
  datatype Edge = Edge(from: Name, dest: Name, ok: bool) {
    predicate Touches(node: Name) { from == node || dest == node }
  }

  datatype Verdict = Verdict(brokenNodes: seq<Name>, brokenLinks: seq<(Name, Name)>, ambiguous: bool)

  function Min(a: int, b: int): int { if a < b then a else b }
  function Max(a: int, b: int): int { if a < b then b else a }

  predicate AllFailed(edges: seq<Edge>) {
    forall e :: e in edges ==> !e.ok
  }

  predicate OtherWorks(edges: seq<Edge>, node: Name) {
    exists e :: e in edges && e.ok && !e.Touches(node)
  }

  predicate SeenWorking(edges: seq<Edge>, node: Name) {
    exists e :: e in edges && e.ok && e.Touches(node)
  }

  /** Every probe into the node failed, and out of it too unless it is silent, while others work. */
  ghost predicate Proven(edges: seq<Edge>, silent: set<Name>, node: Name) {
    && HasInto(edges, node) && (forall e :: e in edges && e.dest == node ==> !e.ok)
    && (node in silent || (HasFrom(edges, node) && forall e :: e in edges && e.from == node ==> !e.ok))
    && OtherWorks(edges, node)
  }

  predicate HasInto(edges: seq<Edge>, node: Name) {
    exists e :: e in edges && e.dest == node
  }

  predicate HasFrom(edges: seq<Edge>, node: Name) {
    exists e :: e in edges && e.from == node
  }

  /** A failure that no broken node accounts for. */
  predicate Unexplained(e: Edge, broken: seq<Name>) {
    !e.ok && e.from !in broken && e.dest !in broken
  }

  predicate BothSeen(edges: seq<Edge>, e: Edge) {
    SeenWorking(edges, e.from) && SeenWorking(edges, e.dest)
  }

  ghost predicate IsVerdict(nodes: seq<Name>, edges: seq<Edge>, silent: set<Name>, v: Verdict) {
    && (forall n :: n in v.brokenNodes <==> n in nodes && Proven(edges, silent, n))
    && (v.ambiguous <==> exists e :: e in edges && Unexplained(e, v.brokenNodes) && !BothSeen(edges, e))
    && (forall l :: l in v.brokenLinks <==> LinkFails(edges, v.brokenNodes, l))
    && (forall i, j :: 0 <= i < j < |v.brokenLinks| ==> v.brokenLinks[i] != v.brokenLinks[j])
  }

  ghost predicate LinkFails(edges: seq<Edge>, broken: seq<Name>, l: (Name, Name)) {
    exists e :: e in edges && Unexplained(e, broken) && BothSeen(edges, e)
      && l == (Min(e.from, e.dest), Max(e.from, e.dest))
  }

  method Touching(edges: seq<Edge>, node: Name) returns (into: seq<Edge>, out: seq<Edge>)
    ensures forall e :: e in into <==> e in edges && e.dest == node
    ensures forall e :: e in out <==> e in edges && e.from == node
  {
    into, out := [], [];
    for i := 0 to |edges|
      invariant forall e :: e in into <==> e in edges[..i] && e.dest == node
      invariant forall e :: e in out <==> e in edges[..i] && e.from == node
    {
      if edges[i].dest == node { into := into + [edges[i]]; }
      if edges[i].from == node { out := out + [edges[i]]; }
    }
    assert edges[..|edges|] == edges;
  }

  method IsProven(edges: seq<Edge>, silent: set<Name>, node: Name) returns (broken: bool)
    ensures broken <==> Proven(edges, silent, node)
  {
    var into, out := Touching(edges, node);
    var failedOut := |out| > 0 && AllFailed(out);
    broken := |into| > 0 && AllFailed(into) && (failedOut || node in silent) && OtherWorks(edges, node);
    assert |into| > 0 ==> into[0] in into;
    assert |out| > 0 ==> out[0] in out;
  }

  /** What the probe results prove. */
  method Classify(nodes: seq<Name>, edges: seq<Edge>, silent: set<Name>) returns (v: Verdict)
    ensures IsVerdict(nodes, edges, silent, v)
  {
    var broken := BrokenNodes(nodes, edges, silent);
    var links: seq<(Name, Name)>, ambiguous := [], false;
    for i := 0 to |edges|
      invariant ambiguous <==> exists e :: e in edges[..i] && Unexplained(e, broken) && !BothSeen(edges, e)
      invariant LinksFound(edges, i, broken, links)
    {
      var e := edges[i];
      assert edges[..i + 1] == edges[..i] + [e];
      if Unexplained(e, broken) {
        if !SeenWorking(edges, e.from) || !SeenWorking(edges, e.dest) {
          ambiguous := true;
        } else {
          var link := (Min(e.from, e.dest), Max(e.from, e.dest));
          if link !in links { links := links + [link]; }
        }
      }
    }
    assert edges[..|edges|] == edges;
    v := Verdict(broken, links, ambiguous);
  }

  ghost predicate LinksFound(edges: seq<Edge>, n: nat, broken: seq<Name>, links: seq<(Name, Name)>)
    requires n <= |edges|
  {
    && (forall l :: l in links <==> exists e ::
      (e in edges[..n] && Unexplained(e, broken) && BothSeen(edges, e)
        && l == (Min(e.from, e.dest), Max(e.from, e.dest))))
    && (forall i, j :: 0 <= i < j < |links| ==> links[i] != links[j])
  }

  method BrokenNodes(nodes: seq<Name>, edges: seq<Edge>, silent: set<Name>) returns (broken: seq<Name>)
    ensures forall n :: n in broken <==> n in nodes && Proven(edges, silent, n)
  {
    broken := [];
    for i := 0 to |nodes|
      invariant forall n :: n in broken <==> n in nodes[..i] && Proven(edges, silent, n)
    {
      var proven := IsProven(edges, silent, nodes[i]);
      if proven { broken := broken + [nodes[i]]; }
    }
    assert nodes[..|nodes|] == nodes;
  }

  // ---- what a verdict rests on ----

  ghost predicate Working(edges: seq<Edge>, a: Name, b: Name) { Edge(a, b, true) in edges }
  ghost predicate Failing(edges: seq<Edge>, a: Name, b: Name) { Edge(a, b, false) in edges }

  /** Whoever is blamed was reached by no probe, though one was sent, and reached nobody, or is silent; and
      two other nodes reach each other. And whoever this holds of is blamed. */
  lemma BlameRestsOn(nodes: seq<Name>, edges: seq<Edge>, silent: set<Name>, v: Verdict, n: Name)
    requires IsVerdict(nodes, edges, silent, v)
    ensures n in v.brokenNodes <==>
      && n in nodes
      && (exists a :: Failing(edges, a, n)) && (forall a :: !Working(edges, a, n))
      && (n in silent || ((exists b :: Failing(edges, n, b)) && forall b :: !Working(edges, n, b)))
      && exists a, b :: Working(edges, a, b) && a != n && b != n
  {
    forall e | e in edges && e.ok ensures Working(edges, e.from, e.dest) { assert e == Edge(e.from, e.dest, true); }
    forall e | e in edges && !e.ok ensures Failing(edges, e.from, e.dest) { assert e == Edge(e.from, e.dest, false); }
    if HasInto(edges, n) {
      var e :| e in edges && e.dest == n;
      assert e.ok ==> Working(edges, e.from, n);
      assert !e.ok ==> Failing(edges, e.from, n);
    }
    if HasFrom(edges, n) {
      var e :| e in edges && e.from == n;
      assert e.ok ==> Working(edges, n, e.dest);
      assert !e.ok ==> Failing(edges, n, e.dest);
    }
    if a, b :| Working(edges, a, b) && a != n && b != n { assert Edge(a, b, true) in edges; }
  }

  /** A node that some probe shows to work. */
  ghost predicate SeenAtWork(edges: seq<Edge>, n: Name) {
    exists a :: Working(edges, a, n) || Working(edges, n, a)
  }

  /** A probe failed, neither end of it is blamed, and one of them is not seen at work. */
  ghost predicate Unclear(edges: seq<Edge>, v: Verdict, a: Name, b: Name) {
    && Failing(edges, a, b) && a !in v.brokenNodes && b !in v.brokenNodes
    && (!SeenAtWork(edges, a) || !SeenAtWork(edges, b))
  }

  /** A link is reported exactly if a probe over it failed, neither end is blamed, and both are seen at work; and a
      verdict is ambiguous exactly if a probe failed and no end of it is blamed, but one is not seen at work. */
  lemma RestRestsOn(nodes: seq<Name>, edges: seq<Edge>, silent: set<Name>, v: Verdict, a: Name, b: Name)
    requires IsVerdict(nodes, edges, silent, v)
    ensures (a, b) in v.brokenLinks <==>
      && a <= b && (Failing(edges, a, b) || Failing(edges, b, a))
      && a !in v.brokenNodes && b !in v.brokenNodes && SeenAtWork(edges, a) && SeenAtWork(edges, b)
    ensures v.ambiguous <==> exists c, d :: Unclear(edges, v, c, d)
  {
    forall n ensures SeenWorking(edges, n) <==> SeenAtWork(edges, n) { SeenIs(edges, n); }
    forall e | e in edges && !e.ok ensures Failing(edges, e.from, e.dest) { assert e == Edge(e.from, e.dest, false); }
    if Failing(edges, a, b) { assert LinkOf(edges, v, Edge(a, b, false)); }
    if Failing(edges, b, a) { assert LinkOf(edges, v, Edge(b, a, false)); }
    if v.ambiguous {
      var e :| e in edges && Unexplained(e, v.brokenNodes) && !BothSeen(edges, e);
      assert Unclear(edges, v, e.from, e.dest);
    }
    if c, d :| Unclear(edges, v, c, d) {
      assert Unexplained(Edge(c, d, false), v.brokenNodes) && !BothSeen(edges, Edge(c, d, false));
    }
  }

  ghost predicate LinkOf(edges: seq<Edge>, v: Verdict, e: Edge) {
    Unexplained(e, v.brokenNodes) && BothSeen(edges, e) ==>
      LinkFails(edges, v.brokenNodes, (Min(e.from, e.dest), Max(e.from, e.dest)))
  }

  lemma SeenIs(edges: seq<Edge>, n: Name)
    ensures SeenWorking(edges, n) <==> SeenAtWork(edges, n)
  {
    if SeenWorking(edges, n) {
      var e :| e in edges && e.ok && e.Touches(n);
      assert e == Edge(e.from, e.dest, true) && Working(edges, e.from, e.dest);
    }
    if a :| Working(edges, a, n) || Working(edges, n, a) {
      var e := if Working(edges, a, n) then Edge(a, n, true) else Edge(n, a, true);
      assert e in edges && e.ok && e.Touches(n);
    }
  }

  // ---- what is really broken ----

  datatype Fault = Nodes(broken: set<Name>) | Link(a: Name, b: Name)

  predicate Works(f: Fault, x: Name, y: Name) {
    match f
    case Nodes(broken) => x !in broken && y !in broken
    case Link(a, b) => !(x == a && y == b) && !(x == b && y == a)
  }

  ghost predicate Distinct(names: seq<Name>) {
    forall i, j :: 0 <= i < j < |names| ==> names[i] != names[j]
  }

  ghost predicate Probed(names: seq<Name>, start: nat, i: nat, j: nat)
    requires |names| >= 2 && i < |names| && j < |names|
  {
    exists round :: start <= round < start + |names| / 2 && Probes(|names|, i, j, round)
  }

  /** The results of one sweep of the ring, every probe telling the truth. */
  ghost predicate SweepOf(names: seq<Name>, start: nat, f: Fault, edges: seq<Edge>)
    requires |names| >= 2
  {
    && (forall e :: e in edges ==> exists i: nat, j: nat ::
      (i < |names| && j < |names| && Probed(names, start, i, j)
        && e == Edge(names[i], names[j], Works(f, names[i], names[j]))))
    && (forall i: nat, j: nat :: (i < |names| && j < |names| && Probed(names, start, i, j)) ==>
      Edge(names[i], names[j], Works(f, names[i], names[j])) in edges)
  }

  ghost predicate Truthful(names: seq<Name>, f: Fault, e: Edge) {
    e.from in names && e.dest in names && e.from != e.dest && e.ok == Works(f, e.from, e.dest)
  }

  ghost predicate Tested(f: Fault, edges: seq<Edge>, x: Name, y: Name) {
    Edge(x, y, Works(f, x, y)) in edges || Edge(y, x, Works(f, y, x)) in edges
  }

  /** What a sweep knows: every pair was tested, every node in both directions, and nothing else is in it. */
  ghost predicate Complete(names: seq<Name>, f: Fault, edges: seq<Edge>) {
    && (forall e {:trigger Truthful(names, f, e)} :: e in edges ==> Truthful(names, f, e))
    && (forall x, y {:trigger Tested(f, edges, x, y)} :: x in names && y in names && x != y ==> Tested(f, edges, x, y))
    && (forall x {:trigger HasFrom(edges, x)} {:trigger HasInto(edges, x)} :: x in names ==>
      HasFrom(edges, x) && HasInto(edges, x))
  }

  lemma SweepIsComplete(names: seq<Name>, start: nat, f: Fault, edges: seq<Edge>)
    requires Distinct(names) && |names| >= 2 && SweepOf(names, start, f, edges)
    ensures Complete(names, f, edges)
  {
    var n := |names|;
    forall e | e in edges ensures Truthful(names, f, e) {
      var i: nat, j: nat :| i < n && j < n && Probed(names, start, i, j)
        && e == Edge(names[i], names[j], Works(f, names[i], names[j]));
      assert i != j;
    }
    forall x, y | x in names && y in names && x != y ensures Tested(f, edges, x, y) {
      var i: nat, j: nat :| i < n && j < n && names[i] == x && names[j] == y;
      var round := SweepPairsAll(n, i, j, start);
      assert Probed(names, start, i, j) || Probed(names, start, j, i);
    }
    forall x | x in names ensures HasFrom(edges, x) && HasInto(edges, x) {
      var j: nat :| j < n && names[j] == x;
      var i := RoundIsFair(n, j, start);
      var k := Ahead(n, j, Offset(n, start));
      assert Probes(n, i, j, start) && Probes(n, j, k, start);
      assert Probed(names, start, i, j) && Probed(names, start, j, k);
    }
  }

  /** A node that reaches some other node is not blamed. */
  lemma WorkingNotProven(names: seq<Name>, f: Fault, edges: seq<Edge>, n: Name, m: Name)
    requires Complete(names, f, edges) && n in names && m in names && n != m && Works(f, n, m)
    ensures !Proven(edges, {}, n) && SeenWorking(edges, n)
  {
    assert Tested(f, edges, n, m);
    var e := if Edge(n, m, true) in edges then Edge(n, m, true) else Edge(m, n, true);
    assert e in edges && e.ok && e.Touches(n);
  }

  lemma BrokenIsProven(names: seq<Name>, broken: set<Name>, edges: seq<Edge>, n: Name, h: Name, k: Name)
    requires Complete(names, Nodes(broken), edges) && n in names && n in broken
    requires h in names && k in names && h != k && h !in broken && k !in broken
    ensures Proven(edges, {}, n)
  {
    assert Tested(Nodes(broken), edges, h, k) && HasFrom(edges, n) && HasInto(edges, n);
    var e := if Edge(h, k, true) in edges then Edge(h, k, true) else Edge(k, h, true);
    assert e in edges && e.ok && !e.Touches(n);
    forall d | d in edges && d.Touches(n) ensures !d.ok { assert Truthful(names, Nodes(broken), d); }
  }

  /** With only node faults and two healthy nodes, exactly the broken nodes are blamed. */
  lemma BlamesExactlyTheBroken(names: seq<Name>, broken: set<Name>, edges: seq<Edge>, v: Verdict, h: Name, k: Name)
    requires Complete(names, Nodes(broken), edges) && IsVerdict(names, edges, {}, v)
    requires h in names && k in names && h != k && h !in broken && k !in broken
    ensures forall n :: n in v.brokenNodes <==> n in names && n in broken
    ensures v.brokenLinks == [] && !v.ambiguous
  {
    var f := Nodes(broken);
    forall n | n in names ensures Proven(edges, {}, n) <==> n in broken {
      if n in broken { BrokenIsProven(names, broken, edges, n, h, k); }
      else { WorkingNotProven(names, f, edges, n, if n == h then k else h); }
    }
    forall e | e in edges ensures !Unexplained(e, v.brokenNodes) { assert Truthful(names, f, e); }
    NoLinks(edges, v);
  }

  lemma SomeName(s: seq<Name>)
    ensures s == [] || exists n :: n in s
  {
    if s != [] {
      var n := s[0];
      assert n in s;
    }
  }

  lemma SomeLink(s: seq<(Name, Name)>)
    ensures s == [] || exists l :: l in s
  {
    if s != [] { assert s[0] in s; }
  }

  lemma NoLinks(edges: seq<Edge>, v: Verdict)
    requires forall l :: l in v.brokenLinks <==> LinkFails(edges, v.brokenNodes, l)
    requires forall e :: e in edges ==> !Unexplained(e, v.brokenNodes) || !BothSeen(edges, e)
    ensures v.brokenLinks == []
  {
    SomeLink(v.brokenLinks);
  }

  lemma NoneBroken(nodes: seq<Name>, edges: seq<Edge>, v: Verdict)
    requires IsVerdict(nodes, edges, {}, v) && forall n :: n in nodes ==> !Proven(edges, {}, n)
    ensures v.brokenNodes == []
  {
    SomeName(v.brokenNodes);
  }

  /** With at most one healthy node nothing can be told, and nobody is blamed. */
  lemma BlamesNobody(names: seq<Name>, broken: set<Name>, edges: seq<Edge>, v: Verdict)
    requires Complete(names, Nodes(broken), edges) && IsVerdict(names, edges, {}, v) && names != []
    requires forall h, k :: h in names && k in names && h != k ==> h in broken || k in broken
    ensures v.brokenNodes == [] && v.brokenLinks == [] && v.ambiguous
  {
    forall e | e in edges ensures !e.ok { assert Truthful(names, Nodes(broken), e); }
    forall n ensures !OtherWorks(edges, n) && !SeenWorking(edges, n) && !Proven(edges, {}, n) {}
    NoneBroken(names, edges, v);
    assert names[0] in names && HasFrom(edges, names[0]);
    var e :| e in edges && e.from == names[0];
    assert Unexplained(e, v.brokenNodes) && !BothSeen(edges, e);
    NoLinks(edges, v);
  }

  /** A link that is broken between healthy nodes of a ring of three or more is found, and nothing else is. */
  lemma FindsTheLink(names: seq<Name>, a: Name, b: Name, edges: seq<Edge>, v: Verdict)
    requires Distinct(names) && |names| >= 3 && a in names && b in names && a < b
    requires Complete(names, Link(a, b), edges) && IsVerdict(names, edges, {}, v)
    ensures v.brokenNodes == [] && v.brokenLinks == [(a, b)] && !v.ambiguous
  {
    var f := Link(a, b);
    forall n | n in names ensures SeenWorking(edges, n) && !Proven(edges, {}, n) {
      WorkingNotProven(names, f, edges, n, ThirdNode(names, n, if n == a then b else a));
    }
    NoneBroken(names, edges, v);
    forall e | e in edges && !e.ok ensures Min(e.from, e.dest) == a && Max(e.from, e.dest) == b && BothSeen(edges, e) {
      assert Truthful(names, f, e);
    }
    assert forall e :: e in edges && Unexplained(e, v.brokenNodes) ==> !e.ok;
    assert Tested(f, edges, a, b);
    OneLink(edges, v, a, b);
  }

  lemma OneLink(edges: seq<Edge>, v: Verdict, a: Name, b: Name)
    requires v.brokenNodes == [] && a < b && Tested(Link(a, b), edges, a, b)
    requires forall l :: l in v.brokenLinks <==> LinkFails(edges, v.brokenNodes, l)
    requires forall i, j :: 0 <= i < j < |v.brokenLinks| ==> v.brokenLinks[i] != v.brokenLinks[j]
    requires forall e :: e in edges && !e.ok ==>
      Min(e.from, e.dest) == a && Max(e.from, e.dest) == b && BothSeen(edges, e)
    ensures v.brokenLinks == [(a, b)]
  {
    var links := v.brokenLinks;
    forall l ensures l in links <==> l == (a, b) { OnlyLink(edges, v.brokenNodes, a, b, l); }
    assert (a, b) in links;
    TwoLinks(links);
    assert |links| == 1 && links[0] in links;
  }

  lemma TwoLinks(links: seq<(Name, Name)>)
    requires forall i, j :: 0 <= i < j < |links| ==> links[i] != links[j]
    ensures |links| > 1 ==> exists l, m :: l in links && m in links && l != m
  {
    if |links| > 1 { assert links[0] in links && links[1] in links; }
  }

  lemma OnlyLink(edges: seq<Edge>, broken: seq<Name>, a: Name, b: Name, l: (Name, Name))
    requires broken == [] && a < b && Tested(Link(a, b), edges, a, b)
    requires forall e :: e in edges && !e.ok ==>
      Min(e.from, e.dest) == a && Max(e.from, e.dest) == b && BothSeen(edges, e)
    ensures LinkFails(edges, broken, l) <==> l == (a, b)
  {
    var e := if Edge(a, b, false) in edges then Edge(a, b, false) else Edge(b, a, false);
    assert e in edges && Unexplained(e, broken) && BothSeen(edges, e);
  }

  ghost function ThirdNode(names: seq<Name>, x: Name, y: Name): (z: Name)
    requires Distinct(names) && |names| >= 3
    ensures z in names && z != x && z != y
  {
    if names[0] != x && names[0] != y then names[0] else if names[1] != x && names[1] != y then names[1] else names[2]
  }

  ghost predicate TwoHealthy(names: seq<Name>, broken: set<Name>) {
    exists h, k :: h in names && k in names && h != k && h !in broken && k !in broken
  }

  /** The verdict on one whole sweep. */
  lemma VerdictOnSweep(names: seq<Name>, start: nat, broken: set<Name>, edges: seq<Edge>, v: Verdict)
    requires Distinct(names) && |names| >= 3 && SweepOf(names, start, Nodes(broken), edges)
    requires IsVerdict(names, edges, {}, v)
    ensures v.brokenLinks == [] && (v.ambiguous <==> !TwoHealthy(names, broken))
    ensures forall n :: n in v.brokenNodes <==> n in names && n in broken && TwoHealthy(names, broken)
  {
    SweepIsComplete(names, start, Nodes(broken), edges);
    if TwoHealthy(names, broken) {
      var h, k :| h in names && k in names && h != k && h !in broken && k !in broken;
      BlamesExactlyTheBroken(names, broken, edges, v, h, k);
    } else {
      BlamesNobody(names, broken, edges, v);
    }
  }

  lemma LinkOnSweep(names: seq<Name>, start: nat, a: Name, b: Name, edges: seq<Edge>, v: Verdict)
    requires Distinct(names) && |names| >= 3 && a in names && b in names && a < b
    requires SweepOf(names, start, Link(a, b), edges) && IsVerdict(names, edges, {}, v)
    ensures v.brokenNodes == [] && v.brokenLinks == [(a, b)] && !v.ambiguous
  {
    SweepIsComplete(names, start, Link(a, b), edges);
    FindsTheLink(names, a, b, edges, v);
  }

  // ---- silent nodes ----

  /** The results of a sweep without those of the silent nodes. */
  ghost predicate HeardOf(names: seq<Name>, start: nat, broken: set<Name>, silent: set<Name>, edges: seq<Edge>)
    requires |names| >= 2
  {
    && (forall e :: e in edges ==> exists i: nat, j: nat ::
      (i < |names| && j < |names| && Probed(names, start, i, j) && names[i] !in silent
        && e == Edge(names[i], names[j], Works(Nodes(broken), names[i], names[j]))))
    && (forall i: nat, j: nat :: (i < |names| && j < |names| && Probed(names, start, i, j) && names[i] !in silent) ==>
      Edge(names[i], names[j], Works(Nodes(broken), names[i], names[j])) in edges)
  }

  /** Some node whose results are known has probed n. */
  ghost predicate Examined(names: seq<Name>, start: nat, silent: set<Name>, n: Name)
    requires |names| >= 2
  {
    exists i: nat, j: nat ::
      i < |names| && j < |names| && Probed(names, start, i, j) && names[i] !in silent && names[j] == n
  }

  /** What such a sweep knows. */
  ghost predicate Known(names: seq<Name>, start: nat, broken: set<Name>, silent: set<Name>, edges: seq<Edge>)
    requires |names| >= 2
  {
    && (forall e {:trigger Truthful(names, Nodes(broken), e)} :: e in edges ==>
      Truthful(names, Nodes(broken), e) && e.from !in silent)
    && (forall x, y {:trigger Tested(Nodes(broken), edges, x, y)} ::
      x in names && y in names && x != y && x !in silent && y !in silent ==> Tested(Nodes(broken), edges, x, y))
    && (forall x {:trigger HasFrom(edges, x)} :: x in names && x !in silent ==> HasFrom(edges, x))
    && (forall x {:trigger HasInto(edges, x)} :: HasInto(edges, x) <==> Examined(names, start, silent, x))
  }

  lemma HeardIsKnown(names: seq<Name>, start: nat, broken: set<Name>, silent: set<Name>, edges: seq<Edge>)
    requires Distinct(names) && |names| >= 2 && HeardOf(names, start, broken, silent, edges)
    ensures Known(names, start, broken, silent, edges)
  {
    var n, f := |names|, Nodes(broken);
    forall e | e in edges ensures Truthful(names, f, e) && e.from !in silent {
      var i: nat, j: nat :| i < n && j < n && Probed(names, start, i, j) && names[i] !in silent
        && e == Edge(names[i], names[j], Works(f, names[i], names[j]));
      assert i != j;
    }
    forall x, y | x in names && y in names && x != y && x !in silent && y !in silent ensures Tested(f, edges, x, y) {
      var i: nat, j: nat :| i < n && j < n && names[i] == x && names[j] == y;
      var round := SweepPairsAll(n, i, j, start);
      assert Probed(names, start, i, j) || Probed(names, start, j, i);
    }
    forall x | x in names && x !in silent ensures HasFrom(edges, x) {
      var j: nat :| j < n && names[j] == x;
      var k := Ahead(n, j, Offset(n, start));
      assert Probes(n, j, k, start) && Probed(names, start, j, k);
    }
    forall x ensures HasInto(edges, x) <==> Examined(names, start, silent, x) {}
  }

  /** Which broken nodes are blamed: those that some node probes whose results are known. */
  lemma BlamesTheExamined(names: seq<Name>, start: nat, broken: set<Name>, silent: set<Name>, edges: seq<Edge>,
                          n: Name)
    requires |names| >= 3 && Known(names, start, broken, silent, edges) && silent <= broken && n in names
    requires TwoHealthy(names, broken)
    ensures Proven(edges, silent, n) <==> n in broken && Examined(names, start, silent, n)
    ensures SeenWorking(edges, n) <==> n !in broken
  {
    var f := Nodes(broken);
    var h, k :| h in names && k in names && h != k && h !in broken && k !in broken;
    assert Tested(f, edges, h, k);
    if n in broken {
      var e := if Edge(h, k, true) in edges then Edge(h, k, true) else Edge(k, h, true);
      assert e in edges && e.ok && !e.Touches(n);
      forall d | d in edges && d.Touches(n) ensures !d.ok { assert Truthful(names, f, d); }
      assert n !in silent ==> HasFrom(edges, n);
    } else {
      var m := if n == h then k else h;
      assert Tested(f, edges, n, m);
      var e := if Edge(n, m, true) in edges then Edge(n, m, true) else Edge(m, n, true);
      assert e in edges && e.ok && e.Touches(n);
      HealthyNotProven(edges, silent, n, e);
    }
  }

  lemma HealthyNotProven(edges: seq<Edge>, silent: set<Name>, n: Name, e: Edge)
    requires e in edges && e.ok && e.Touches(n) && n !in silent
    ensures !Proven(edges, silent, n)
  {
  }

  /** With two healthy nodes, whichever broken nodes are silent: blamed are exactly the broken nodes that some node
      probes whose results are known, no link is, and the verdict is ambiguous exactly if some other broken node
      is not silent. */
  lemma VerdictOnSilence(names: seq<Name>, start: nat, broken: set<Name>, silent: set<Name>, edges: seq<Edge>,
                         v: Verdict)
    requires Distinct(names) && |names| >= 3 && silent <= broken && HeardOf(names, start, broken, silent, edges)
    requires TwoHealthy(names, broken) && IsVerdict(names, edges, silent, v)
    ensures forall n :: n in v.brokenNodes <==> n in names && n in broken && Examined(names, start, silent, n)
    ensures v.brokenLinks == []
    ensures v.ambiguous <==>
      exists n :: n in names && n in broken && n !in silent && !Examined(names, start, silent, n)
  {
    HeardIsKnown(names, start, broken, silent, edges);
    forall n | n in names
      ensures Proven(edges, silent, n) <==> n in broken && Examined(names, start, silent, n)
      ensures SeenWorking(edges, n) <==> n !in broken
    {
      BlamesTheExamined(names, start, broken, silent, edges, n);
    }
    forall e | e in edges && Unexplained(e, v.brokenNodes)
      ensures e.from in names && e.from in broken && e.from !in silent && !Examined(names, start, silent, e.from)
      ensures !BothSeen(edges, e)
    {
      assert Truthful(names, Nodes(broken), e) && HasInto(edges, e.dest);
    }
    NoLinks(edges, v);
    if n :| n in names && n in broken && n !in silent && !Examined(names, start, silent, n) {
      var e := FailsAtHealthy(names, start, broken, silent, edges, n);
      assert Unexplained(e, v.brokenNodes) && !BothSeen(edges, e);
    }
  }

  /** A broken node that nobody has examined probes every healthy node itself. */
  lemma FailsAtHealthy(names: seq<Name>, start: nat, broken: set<Name>, silent: set<Name>, edges: seq<Edge>, n: Name)
    returns (e: Edge)
    requires |names| >= 3 && Known(names, start, broken, silent, edges) && silent <= broken && TwoHealthy(names, broken)
    requires n in names && n in broken && n !in silent && !Examined(names, start, silent, n)
    ensures e in edges && e.from == n && e.dest in names && e.dest !in broken && !e.ok
  {
    var h :| h in names && h !in broken;
    assert Tested(Nodes(broken), edges, n, h);
    e := Edge(n, h, false);
    if Edge(h, n, false) in edges { assert HasInto(edges, n); }
  }

  /** The nodes that probe the node at j in k consecutive rounds of a sweep. */
  lemma {:induction false} Probers(names: seq<Name>, start: nat, j: nat, k: nat) returns (probers: set<Name>)
    requires Distinct(names) && |names| >= 2 && j < |names| && k <= |names| / 2
    ensures |probers| == k && names[j] !in probers
    ensures forall x :: x in probers ==> exists i: nat, round: nat ::
      i < |names| && names[i] == x && start <= round < start + k && Probes(|names|, i, j, round)
    decreases k
  {
    probers := {};
    if k > 0 {
      probers := Probers(names, start, j, k - 1);
      var i := RoundIsFair(|names|, j, start + k - 1);
      if names[i] in probers {
        var l: nat, round: nat :|
          l < |names| && names[l] == names[i] && start <= round < start + k - 1 && Probes(|names|, l, j, round);
        assert l == i;
        var only := SweepPairsAll(|names|, i, j, start);
        assert false;
      }
      probers := probers + {names[i]};
      assert Probes(|names|, i, j, start + k - 1);
    }
  }

  /** As long as fewer than half of the nodes are silent, each node is examined. */
  lemma FewSilent(names: seq<Name>, start: nat, silent: set<Name>, n: Name)
    requires Distinct(names) && |names| >= 2 && n in names && |silent - {n}| < |names| / 2
    ensures Examined(names, start, silent, n)
  {
    var j: nat :| j < |names| && names[j] == n;
    var probers := Probers(names, start, j, |names| / 2);
    if forall x :: x in probers ==> x in silent { AtMost(probers, silent - {n}); }
    var x :| x in probers && x !in silent;
    var i: nat, round: nat :|
      i < |names| && names[i] == x && start <= round < start + |names| / 2 && Probes(|names|, i, j, round);
    assert Probed(names, start, i, j);
  }

  lemma AtMost(s: set<Name>, t: set<Name>)
    requires s <= t
    ensures |s| <= |t|
  {
    assert t == s + (t - s);
  }

  /** Silence alone proves nothing: a node that no probe has failed to reach, or that one has reached, is not blamed. */
  lemma SilenceIsNoProof(nodes: seq<Name>, edges: seq<Edge>, silent: set<Name>, v: Verdict, n: Name)
    requires IsVerdict(nodes, edges, silent, v)
    requires (forall e :: e in edges && e.dest == n ==> e.ok) || (exists e :: e in edges && e.dest == n && e.ok)
    ensures n !in v.brokenNodes
  {
  }

  // The results of one round, where 1 and 3 are broken.
  const ROUND := [Edge(0, 1, false), Edge(1, 2, false), Edge(2, 3, false), Edge(3, 4, false), Edge(4, 0, true)]

  /** The results of a single round can put the blame on a healthy node: 2 sits between the broken 1 and 3. */
  lemma OneRoundMisleads(v: Verdict)
    requires IsVerdict([0, 1, 2, 3, 4], ROUND, {}, v)
    ensures 2 in v.brokenNodes
    ensures forall e :: e in ROUND ==>
      0 <= e.from < 5 && 0 <= e.dest < 5 && Probes(5, e.from, e.dest, 0) && e.ok == Works(Nodes({1, 3}), e.from, e.dest)
  {
    MiddleIsProven();
    assert [0, 1, 2, 3, 4][2] == 2;
  }

  lemma MiddleIsProven()
    ensures Proven(ROUND, {}, 2)
  {
    assert ROUND[1] == Edge(1, 2, false) && ROUND[2] == Edge(2, 3, false) && ROUND[4] == Edge(4, 0, true);
    assert Edge(1, 2, false) in ROUND && Edge(2, 3, false) in ROUND && Edge(4, 0, true) in ROUND;
  }
}
