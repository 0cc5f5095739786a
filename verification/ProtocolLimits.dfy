/** That every rule of Protocol.Careful is needed, in every world: after a step that breaks one of them there is a
    run of careful steps that ends with the same address leased on two nodes. */
module ProtocolLimits {
  import opened Options
  import opened Cidrs
  import opened NodeBlocks
  import opened Protocol
  import opened ProtocolSafety
  import opened ProtocolCompany

  // ---- where careful steps lead ----

  ghost predicate Way(w: World, steps: seq<Step>, v: World) {
    Leads(w, steps, v) && AllCareful(w, steps)
  }

  /** Some run of careful steps leads from w to v. */
  ghost predicate Reaches(w: World, v: World) {
    exists steps :: Way(w, steps, v)
  }

  /** Some run of careful steps ends with an address leased on two nodes. */
  ghost predicate Harmful(w: World) {
    exists v :: Reaches(w, v) && !NoSharedLease(v.net)
  }

  lemma {:induction false} WaysJoin(w: World, first: seq<Step>, v: World, second: seq<Step>, u: World)
    requires Way(w, first, v) && Way(v, second, u)
    ensures Way(w, first + second, u)
    decreases |first|
  {
    if first == [] {
      assert first + second == second;
    } else {
      WaysJoin(After(w, first[0]), first[1..], v, second, u);
      assert (first + second)[1..] == first[1..] + second;
    }
  }

  lemma Stay(w: World)
    ensures Reaches(w, w)
  {
    assert Way(w, [], w);
  }

  /** One more careful step. */
  lemma Go(w: World, v: World, s: Step)
    requires Reaches(w, v) && Enabled(v, s) && Careful(v, s)
    ensures Reaches(w, After(v, s))
  {
    var steps :| Way(w, steps, v);
    assert Way(After(v, s), [], After(v, s)) && [s][1..] == [];
    WaysJoin(w, steps, v, [s], After(v, s));
  }

  /** The controller gives up what is left to do. */
  lemma {:induction false} GiveUp(w: World, v: World)
    requires Reaches(w, v)
    ensures Reaches(w, v.(todo := {}))
    decreases |v.todo|
  {
    if v.todo != {} {
      var op :| op in v.todo;
      Go(w, v, Drop(op));
      GiveUp(w, After(v, Drop(op)));
    }
  }

  /** A pass of the controller that makes one write. */
  lemma Pass(w: World, v: World, op: Op)
    requires Reaches(w, v) && v.todo == {} && Planned(v, op) && !op.Release?
    requires op.Drain? ==> HasNeighbour(v, op.name)
    ensures Reaches(w, AfterWrite(v, op).(todo := {}))
  {
    if op.Drain? {
      var m :| Neighbour(v, op.name, m);
      assert Drain(m) !in {op};
    }
    Go(w, v, Plan({op}));
    Go(w, v.(todo := {op}), Write(op));
    GiveUp(w, AfterWrite(v.(todo := {op}), op));
    SameWrite(v, op);
  }

  /** What else is to be done does not matter to a write. */
  lemma SameWrite(v: World, op: Op)
    requires v.todo == {}
    ensures AfterWrite(v.(todo := {op}), op).(todo := {}) == AfterWrite(v, op).(todo := {})
  {
    assert {op} - {op} == {} && v.todo - {op} == {};
    assert v.(todo := {op}).(todo := {}) == v.(todo := v.todo - {op});
  }

  /** All pods go away. */
  lemma {:induction false} EndAll(w: World, v: World)
    requires Reaches(w, v)
    ensures Reaches(w, v.(net := v.net.(leases := {})))
    decreases |v.net.leases|
  {
    if v.net.leases != {} {
      var l :| l in v.net.leases;
      Go(w, v, EndLease(l));
      EndAll(w, After(v, EndLease(l)));
    }
  }

  // ---- the address is leased twice ----

  /** The blocks are apart and inside what their names say. */
  ghost predicate Placed(w: World) {
    && BlocksApart(w.blocks)
    && forall n {:trigger w.blocks[n]} :: n in w.blocks ==> Aligned(w.blocks[n].cidr) && Within(w.blocks[n].cidr, n)
  }

  lemma InvPlaced(w: World)
    requires Inv(w)
    ensures Placed(w)
  {
    forall n | n in w.blocks
      ensures Aligned(w.blocks[n].cidr) && Within(w.blocks[n].cidr, n)
    {
      assert BlockOk(w.net, n, w.blocks[n]);
    }
  }

  lemma {:induction false} LongerThanAll(names: set<string>) returns (name: string)
    ensures forall s :: s in names ==> |s| < |name|
    decreases |names|
  {
    name := "";
    if names != {} {
      var s :| s in names;
      name := LongerThanAll(names - {s});
      if |name| <= |s| { name := s + "x"; }
    }
  }

  /** A name that nothing in the cluster has. */
  lemma NewName(w: World) returns (name: string)
    ensures name !in w.nodes && OwnOf(w, name) == map[] && (forall l :: l in w.net.leases ==> l.node != name)
  {
    var owners, tenants := set n | n in w.blocks :: w.blocks[n].node, set l | l in w.net.leases :: l.node;
    name := LongerThanAll(w.nodes + owners + tenants);
    forall n | n in w.blocks ensures w.blocks[n].node != name { assert w.blocks[n].node in owners; }
    forall l | l in w.net.leases ensures l.node != name { assert l.node in tenants; }
  }

  /** A pass of the agent up to the config. */
  lemma Configure(w: World, v: World, node: string, promote: set<Cidr>) returns (u: World)
    requires Reaches(w, v) && node in v.nodes && Ranges(OwnOf(v, node), promote) != {}
    ensures Reaches(w, u) && u == v.(net := u.net, syncs := u.syncs)
    ensures u.net == v.net.(config := u.net.config, coming := u.net.coming)
    ensures Config(u.net, node) == Ranges(OwnOf(v, node), promote)
    ensures Coming(u.net, node) == {}
    ensures node in u.syncs && u.syncs[node] == Sync(OwnOf(v, node), promote, Configured, {}, {}, map[], {})
  {
    Go(w, v, Read(node, promote));
    u := After(v, Read(node, promote));
    assert u.syncs[node].own != map[] by { assert Ranges(map[], promote) == {}; }
    Go(w, u, WriteConfig(node));
    u := After(u, WriteConfig(node));
  }

  /** What the pass finds for block k, judging by these marks. */
  ghost predicate Found(marks: Marks, y: Sync, k: Cidr, now: int, settle: int)
    requires k in y.own
  {
    var half := Judgement(marks, y, k, now, settle);
    (k in y.ready <==> half.Some?) && (half.Some? ==> y.ready[k] == half.value)
  }

  /** What the pass remembers of block k, if half of it is asked for. */
  ghost predicate Remembered(marks: Marks, y: Sync, k: Cidr, now: int, after: Marks)
    requires k in y.own
  {
    Releasing(y.own[k]) ==>
      var mark := MarkFor(marks, y, k, now);
      (k in after <==> mark.Some?) && (mark.Some? ==> after[k] == mark.value)
  }

  /** The blocks that are not left are judged, and the marks of the others are as they were. */
  ghost predicate SoFar(marks: Marks, v: World, node: string) {
    && node in v.syncs && v.syncs[node].stage == HalvesCounted
    && (var y := v.syncs[node];
        && y.left <= y.own.Keys
        && forall k :: k in y.own ==>
          if k in y.left
          then (k in MarksFor(v, node) <==> k in marks) && (k in marks ==> MarksFor(v, node)[k] == marks[k])
          else Found(marks, y, k, v.net.now, v.net.settle) && Remembered(marks, y, k, v.net.now, MarksFor(v, node)))
  }

  lemma JudgeOne(marks: Marks, v: World, node: string, n: Cidr)
    requires SoFar(marks, v, node) && n in v.syncs[node].left
    ensures SoFar(marks, AfterJudge(v, node, v.syncs[node], n), node)
  {
    var y, u := v.syncs[node], AfterJudge(v, node, v.syncs[node], n);
    forall k | k in y.own && k !in u.syncs[node].left
      ensures Found(marks, u.syncs[node], k, v.net.now, v.net.settle)
      ensures Remembered(marks, u.syncs[node], k, v.net.now, MarksFor(u, node))
    {
      if k != n {
        assert Found(marks, y, k, v.net.now, v.net.settle) && Remembered(marks, y, k, v.net.now, MarksFor(v, node));
      }
    }
  }

  lemma {:induction false} JudgeRest(w: World, v: World, node: string, marks: Marks) returns (u: World)
    requires Reaches(w, v) && SoFar(marks, v, node)
    ensures Reaches(w, u) && SoFar(marks, u, node) && u == v.(syncs := u.syncs, marks := u.marks)
    ensures u.syncs[node] == v.syncs[node].(ready := u.syncs[node].ready, left := {})
    decreases |v.syncs[node].left|
  {
    u := v;
    if v.syncs[node].left != {} {
      var n :| n in v.syncs[node].left;
      JudgeOne(marks, v, node, n);
      Go(w, v, Judge(node, n));
      u := JudgeRest(w, After(v, Judge(node, n)), node, marks);
    }
  }

  /** A pass that has read these blocks, as it has judged them. */
  ghost predicate IsJudged(v: World, u: World, node: string, own: Objects, promote: set<Cidr>) {
    && node in u.syncs && u == v.(syncs := u.syncs, marks := u.marks)
    && (var y := u.syncs[node];
        && y.own == own && y.promote == promote && y.stage == Judged && y.left == own.Keys
        && y.seen == LeasesOf(v.net.leases, node) && y.seenInHalves == LeasesOf(v.net.leases, node)
        && forall k :: k in own ==>
          && Found(MarksFor(v, node), y, k, v.net.now, v.net.settle)
          && Remembered(MarksFor(v, node), y, k, v.net.now, MarksFor(u, node)))
    && forall k :: k in MarksFor(u, node) ==> k in own && Releasing(own[k])
  }

  /** Both counts of the pass. */
  lemma CountBoth(w: World, v: World, node: string, own: Objects, promote: set<Cidr>) returns (u: World)
    requires Reaches(w, v) && node in v.syncs && v.syncs[node] == Sync(own, promote, Configured, {}, {}, map[], {})
    ensures Reaches(w, u) && u == v.(syncs := u.syncs) && SoFar(MarksFor(v, node), u, node)
    ensures u.syncs[node] == Sync(own, promote, HalvesCounted, LeasesOf(v.net.leases, node),
                                  LeasesOf(v.net.leases, node), map[], own.Keys)
  {
    Go(w, v, Count(node));
    u := After(v, Count(node));
    Go(w, u, CountHalves(node));
    u := After(u, CountHalves(node));
  }

  lemma PruneAll(w: World, v: World, node: string, marks: Marks) returns (u: World)
    requires Reaches(w, v) && SoFar(marks, v, node) && v.syncs[node].left == {}
    ensures Reaches(w, u) && u == v.(syncs := u.syncs, marks := u.marks) && node in u.syncs
    ensures var y := v.syncs[node];
      && u.syncs[node] == y.(stage := Judged, left := y.own.Keys)
      && (forall k :: k in y.own ==>
        Found(marks, y, k, v.net.now, v.net.settle) && Remembered(marks, y, k, v.net.now, MarksFor(u, node)))
      && forall k :: k in MarksFor(u, node) ==> k in y.own && Releasing(y.own[k])
  {
    Go(w, v, Prune(node));
    u := After(v, Prune(node));
    var y := v.syncs[node];
    forall k | k in y.own ensures Found(marks, y, k, v.net.now, v.net.settle) {}
    forall k | k in y.own ensures Remembered(marks, y, k, v.net.now, MarksFor(u, node)) {
      assert Remembered(marks, y, k, v.net.now, MarksFor(v, node));
    }
  }

  /** The pass up to its status writes. */
  lemma CountAndJudge(w: World, v: World, node: string, own: Objects, promote: set<Cidr>) returns (u: World)
    requires Reaches(w, v) && node in v.syncs && v.syncs[node] == Sync(own, promote, Configured, {}, {}, map[], {})
    ensures Reaches(w, u) && IsJudged(v, u, node, own, promote)
  {
    u := CountBoth(w, v, node, own, promote);
    var t := JudgeRest(w, u, node, MarksFor(v, node));
    u := PruneAll(w, t, node, MarksFor(v, node));
    SameFindings(MarksFor(v, node), t.syncs[node], u.syncs[node], v.net.now, v.net.settle, MarksFor(u, node));
  }

  /** What a pass finds does not depend on how far it is. */
  lemma SameFindings(marks: Marks, y: Sync, z: Sync, now: int, settle: int, after: Marks)
    requires z == y.(stage := z.stage, left := z.left)
    requires forall k :: k in y.own ==> Found(marks, y, k, now, settle) && Remembered(marks, y, k, now, after)
    ensures forall k :: k in z.own ==> Found(marks, z, k, now, settle) && Remembered(marks, z, k, now, after)
  {
    forall k | k in z.own ensures Found(marks, z, k, now, settle) && Remembered(marks, z, k, now, after) {
      assert Found(marks, y, k, now, settle) && Remembered(marks, y, k, now, after);
    }
  }

  /** The rest of the pass, as far as the status of block n goes. */
  lemma Report(w: World, v: World, node: string, n: Cidr, own: Objects, promote: set<Cidr>) returns (u: World, y: Sync)
    requires Reaches(w, v) && node in v.syncs && v.syncs[node] == Sync(own, promote, Configured, {}, {}, map[], {})
    requires n in own && n in v.blocks && v.net.leases == {}
    requires v.blocks[n].phase == Draining || (v.blocks[n].phase == Active && !v.blocks[n].drain)
    ensures Reaches(w, u) && u == v.(syncs := u.syncs, marks := u.marks, blocks := u.blocks)
    ensures y.own == own && y.promote == promote && Found(MarksFor(v, node), y, n, v.net.now, v.net.settle)
    ensures y.FoundEmpty(n) && (own[n].release.Some? ==> y.HalfFoundEmpty(n))
    ensures u.blocks == v.blocks[n := StatusFor(y, n, v.blocks[n], v.net.now, v.net.settle)]
  {
    u := CountAndJudge(w, v, node, own, promote);
    y := u.syncs[node];
    PhaseGoesOn(y, n, v.blocks[n], v.net.now, v.net.settle);
    Go(w, u, WriteStatus(node, n));
    u := After(u, WriteStatus(node, n));
  }

  lemma TakeFromConfig(w: World, v: World, node: string, a: nat) returns (u: World)
    requires Reaches(w, v) && v.net.settle >= 1 && node in v.nodes && Covers(Config(v.net, node), a)
    ensures Reaches(w, u) && Lease(node, a) in u.net.leases
    ensures u == v.(net := u.net)
    ensures u.net == v.net.(leases := v.net.leases + {Lease(node, a)}, sandboxes := u.net.sandboxes)
  {
    if Lease(node, a) in v.net.leases {
      u := v;
      assert v.net.leases + {Lease(node, a)} == v.net.leases;
    } else {
      Go(w, v, StartSandbox(node));
      var x := Sandbox(node, Config(v.net, node), v.net.now);
      u := After(v, StartSandbox(node));
      Go(w, u, TakeLease(x, a));
      u := After(u, TakeLease(x, a));
    }
  }

  /** A node gets a new block. */
  lemma GetBlock(w: World, v: World, node: string, c: Cidr) returns (u: World)
    requires Reaches(w, v) && v.todo == {} && Placed(v) && node in v.nodes && Aligned(c) && ApartFromBlocks(v, c)
    requires NothingInFlight(v, node) && NothingReleased(v, node) && NothingDrained(v, node)
    ensures Reaches(w, u) && c !in v.blocks && Placed(u)
    ensures u == v.(blocks := v.blocks[c := NodeBlock(node, c, false, None, Pending, None, v.net.now)])
  {
    assert c !in v.blocks by { assert c in v.blocks ==> Within(v.blocks[c].cidr, c); }
    Pass(w, v, Create(node, c));
    u := AfterWrite(v, Create(node, c)).(todo := {});
    assert forall m :: m in v.blocks ==> Disjoint(v.blocks[m].cidr, c) && Disjoint(c, v.blocks[m].cidr);
  }

  lemma Joins(w: World, v: World, node: string) returns (u: World)
    requires Reaches(w, v) && node !in v.nodes
    ensures Reaches(w, u) && u == v.(todo := {}, nodes := v.nodes + {node})
  {
    GiveUp(w, v);
    u := v.(todo := {});
    Go(w, u, AddNode(node));
    u := After(u, AddNode(node));
  }

  /** A new node gets a block of its own. */
  lemma NewTenant(w: World, v: World, c: Cidr) returns (u: World, other: string)
    requires Reaches(w, v) && Placed(v) && Aligned(c) && ApartFromBlocks(v, c)
    ensures Reaches(w, u) && u.net == v.net && other in u.nodes && (forall l :: l in v.net.leases ==> l.node != other)
    ensures OwnOf(u, other) == map[c := NodeBlock(other, c, false, None, Pending, None, u.net.now)]
  {
    other := NewName(v);
    var t := Joins(w, v, other);
    forall m | m in v.blocks ensures v.blocks[m].node != other {
      assert v.blocks[m].node == other ==> m in OwnOf(v, other);
    }
    u := GetBlock(w, t, other, c);
    OnlyBlock(t, u, other, c);
  }

  lemma OnlyBlock(v: World, u: World, node: string, c: Cidr)
    requires OwnOf(v, node) == map[] && c !in v.blocks && c in u.blocks && u.blocks == v.blocks[c := u.blocks[c]]
    requires u.blocks[c].node == node
    ensures OwnOf(u, node) == map[c := u.blocks[c]]
  {
    forall n | n in v.blocks
      ensures v.blocks[n].node != node
    {
      assert v.blocks[n].node == node ==> n in OwnOf(v, node);
    }
  }

  /** An address that is leased although no block holds it is soon leased again: a new node gets a block there. */
  lemma SecondLease(w: World, v: World, c: Cidr, node: string, a: nat)
    requires Reaches(w, v) && Placed(v) && v.net.settle >= 1 && Aligned(c) && c.Contains(a) && ApartFromBlocks(v, c)
    requires Lease(node, a) in v.net.leases
    ensures Harmful(w)
  {
    var u, other := NewTenant(w, v, c);
    var b := NodeBlock(other, c, false, None, Pending, None, u.net.now);
    assert Ranges(map[c := b], {c}) == {c} by { assert Served(b) == c && c in map[c := b]; }
    u := Configure(w, u, other, {c});
    u := TakeFromConfig(w, u, other, a);
    assert Lease(node, a) in u.net.leases && Lease(other, a) in u.net.leases;
  }

  lemma ApartWithout(v: World, n: Cidr)
    requires Placed(v) && n in v.blocks
    ensures forall m :: m in v.blocks && m != n ==> Disjoint(v.blocks[m].cidr, v.blocks[n].cidr)
  {
  }

  /** A block that is put into quarantine while an address of it is leased. */
  lemma LoseBlock(w: World, v: World, n: Cidr, node: string, a: nat)
    requires Reaches(w, v) && Placed(v) && v.net.settle >= 1 && n in v.blocks && v.blocks[n].phase == Quarantined
    requires v.blocks[n].cidr.Contains(a) && Lease(node, a) in v.net.leases
    ensures Harmful(w)
  {
    var b := v.blocks[n];
    GiveUp(w, v);
    var u := v.(todo := {});
    var d := if b.since + v.quarantine > v.net.now then b.since + v.quarantine - v.net.now else 0;
    Go(w, u, Tick(d));
    u := After(u, Tick(d));
    Pass(w, u, Delete(n));
    u := AfterWrite(u, Delete(n)).(todo := {});
    assert u.blocks == v.blocks - {n};
    ApartWithout(v, n);
    SecondLease(w, u, b.cidr, node, a);
  }

  // ---- nothing is in flight ----

  lemma {:induction false} EndOthers(w: World, v: World, l: Lease)
    requires Reaches(w, v) && l in v.net.leases
    ensures Reaches(w, v.(net := v.net.(leases := {l})))
    decreases |v.net.leases - {l}|
  {
    if v.net.leases - {l} == {} {
      assert v.net.leases == {l};
    } else {
      var k :| k in v.net.leases && k != l;
      assert v.net.leases - {k} - {l} == v.net.leases - {l} - {k};
      Go(w, v, EndLease(k));
      EndOthers(w, After(v, EndLease(k)), l);
    }
  }

  /** So much time that every block has been in its phase for the settle time. */
  lemma {:induction false} LongEnough(blocks: Objects, now: int, settle: int) returns (d: nat)
    ensures forall m :: m in blocks ==> now + d - blocks[m].since >= settle
    decreases |blocks|
  {
    d := 0;
    if blocks != map[] {
      var m :| m in blocks;
      d := LongEnough(blocks - {m}, now, settle);
      if now + d - blocks[m].since < settle { d := settle + blocks[m].since - now; }
      forall k | k in blocks ensures now + d - blocks[k].since >= settle { assert k != m ==> k in blocks - {m}; }
    }
  }

  /** A pass that is about to write the statuses of these blocks in flight, and ends their changes. */
  ghost predicate CanSettle(v: World, node: string, flight: set<Cidr>) {
    && node in v.syncs && v.syncs[node].stage == Judged
    && (var y := v.syncs[node];
        && flight <= y.left && y.left <= y.own.Keys
        && forall m :: m in flight ==>
          && m in v.blocks && v.blocks[m] == y.own[m] && m !in y.ready && InFlight(y.own[m]) && m in y.promote
          && (y.own[m].drain ==> y.FoundEmpty(m) && v.net.now - y.own[m].since >= v.net.settle))
  }

  lemma SettledStatus(v: World, node: string, flight: set<Cidr>, m: Cidr)
    requires CanSettle(v, node, flight) && m in flight
    ensures Enabled(v, WriteStatus(node, m)) && Careful(v, WriteStatus(node, m))
    ensures var u := After(v, WriteStatus(node, m));
      && m in u.blocks && u == v.(syncs := u.syncs, blocks := v.blocks[m := u.blocks[m]])
      && !InFlight(u.blocks[m]) && u.blocks[m].cidr == v.blocks[m].cidr && u.blocks[m].node == v.blocks[m].node
  {
  }

  lemma StillSettles(v: World, node: string, flight: set<Cidr>, m: Cidr)
    requires CanSettle(v, node, flight) && m in flight && Enabled(v, WriteStatus(node, m))
    ensures CanSettle(After(v, WriteStatus(node, m)), node, flight - {m})
  {
  }

  lemma {:induction false} SettleAll(w: World, v: World, node: string, flight: set<Cidr>) returns (u: World)
    requires Reaches(w, v) && CanSettle(v, node, flight)
    ensures Reaches(w, u) && u == v.(syncs := u.syncs, blocks := u.blocks) && u.blocks.Keys == v.blocks.Keys
    ensures forall k :: k in v.blocks && k !in flight ==> u.blocks[k] == v.blocks[k]
    ensures forall k :: k in v.blocks ==> u.blocks[k].cidr == v.blocks[k].cidr && u.blocks[k].node == v.blocks[k].node
    ensures forall k :: k in flight ==> !InFlight(u.blocks[k])
    decreases |flight|
  {
    u := v;
    if flight != {} {
      var m :| m in flight;
      SettledStatus(v, node, flight, m);
      StillSettles(v, node, flight, m);
      Go(w, v, WriteStatus(node, m));
      u := After(v, WriteStatus(node, m));
      u := SettleAll(w, u, node, flight - {m});
    }
  }

  /** A block in service, and one lease in it. */
  ghost predicate Leased(v: World, n: Cidr, a: nat) {
    InService(v, n) && v.blocks[n].cidr.Contains(a) && Lease(v.blocks[n].node, a) in v.net.leases
  }

  ghost function FlightOf(v: World, node: string): set<Cidr> {
    set m | m in v.blocks && v.blocks[m].node == node && InFlight(v.blocks[m])
  }

  /** The agent ends every change in flight in a pass that does not get to the status of block n. */
  lemma Calms(w: World, v: World, n: Cidr, a: nat) returns (u: World)
    requires Reaches(w, v) && Placed(v) && Leased(v, n, a)
    ensures Reaches(w, u) && Leased(u, n, a) && u.todo == {} && u.blocks.Keys == v.blocks.Keys
    ensures u.nodes == v.nodes && u.net.settle == v.net.settle && u.blocks[n] == v.blocks[n]
    ensures Placed(u) && NothingInFlight(u, v.blocks[n].node)
  {
    var node := v.blocks[n].node;
    var t := JudgeAlone(w, v, n, a);
    u := SettleAll(w, t, node, FlightOf(v, node));
    KeepsPlaced(v, u);
    forall m | m in u.blocks && u.blocks[m].node == node ensures !InFlight(u.blocks[m]) {
      assert m in FlightOf(v, node) || !InFlight(v.blocks[m]);
    }
  }

  /** That pass, before it writes a status. */
  lemma JudgeAlone(w: World, v: World, n: Cidr, a: nat) returns (u: World)
    requires Reaches(w, v) && Placed(v) && Leased(v, n, a)
    ensures Reaches(w, u) && CanSettle(u, v.blocks[n].node, FlightOf(v, v.blocks[n].node))
    ensures u.blocks == v.blocks && u.nodes == v.nodes && u.todo == {} && u.net.settle == v.net.settle
    ensures u.net.leases == {Lease(v.blocks[n].node, a)}
  {
    var node := v.blocks[n].node;
    var t := LonelyLease(w, v, n, a);
    var own := OwnOf(v, node);
    assert n in own && InConfig(own[n], n in v.blocks.Keys) && Served(own[n]) in Ranges(own, v.blocks.Keys);
    t := Configure(w, t, node, v.blocks.Keys);
    u := CountAndJudge(w, t, node, own, v.blocks.Keys);
    FlightSettles(v, u, n, a);
  }

  /** No other lease is left, and all changes are old enough. */
  lemma LonelyLease(w: World, v: World, n: Cidr, a: nat) returns (u: World)
    requires Reaches(w, v) && Leased(v, n, a)
    ensures Reaches(w, u) && u.blocks == v.blocks && u.nodes == v.nodes && u.todo == {} && u.net.settle == v.net.settle
    ensures u.net.leases == {Lease(v.blocks[n].node, a)}
    ensures forall m :: m in v.blocks ==> u.net.now - v.blocks[m].since >= u.net.settle
  {
    GiveUp(w, v);
    u := v.(todo := {});
    EndOthers(w, u, Lease(v.blocks[n].node, a));
    u := u.(net := u.net.(leases := {Lease(v.blocks[n].node, a)}));
    var d := LongEnough(v.blocks, u.net.now, u.net.settle);
    Go(w, u, Tick(d));
    u := After(u, Tick(d));
  }

  lemma FlightSettles(v: World, u: World, n: Cidr, a: nat)
    requires Placed(v) && Leased(v, n, a) && u.blocks == v.blocks && u.net.leases == {Lease(v.blocks[n].node, a)}
    requires forall m :: m in v.blocks ==> u.net.now - v.blocks[m].since >= u.net.settle
    requires exists t :: IsJudged(t, u, v.blocks[n].node, OwnOf(v, v.blocks[n].node), v.blocks.Keys)
    ensures CanSettle(u, v.blocks[n].node, FlightOf(v, v.blocks[n].node))
  {
    var node := v.blocks[n].node;
    var t :| IsJudged(t, u, node, OwnOf(v, node), v.blocks.Keys);
    forall m | m in FlightOf(v, node) ensures m !in u.syncs[node].ready && u.syncs[node].FoundEmpty(m) {
      assert Found(MarksFor(t, node), u.syncs[node], m, t.net.now, t.net.settle);
      assert m != n && Disjoint(v.blocks[m].cidr, v.blocks[n].cidr);
    }
  }

  // ---- a half is given away ----

  /** The controller splits a half off. */
  lemma SplitOff(w: World, v: World, n: Cidr, half: Cidr) returns (u: World)
    requires Reaches(w, v) && v.todo == {} && InService(v, n) && SplitReady(v.blocks[n])
    requires NothingInFlight(v, v.blocks[n].node) && IsHalf(half, v.blocks[n].cidr) && v.blocks[n].release == Some(half)
    ensures Reaches(w, u) && u.net == v.net && OtherHalf(v.blocks[n].cidr, half).Some?
    ensures u.blocks == v.blocks[n := v.blocks[n].(cidr := OtherHalf(v.blocks[n].cidr, half).value, release := None)]
  {
    Pass(w, v, Split(n));
    u := AfterWrite(v, Split(n)).(todo := {});
  }

  lemma RestIsFree(v: World, u: World, n: Cidr, half: Cidr, keep: Cidr)
    requires Placed(v) && n in v.blocks && OtherHalf(v.blocks[n].cidr, half) == Some(keep)
    requires u.blocks == v.blocks[n := v.blocks[n].(cidr := keep, release := None)]
    ensures Placed(u) && Aligned(half) && ApartFromBlocks(u, half)
  {
    HalfFacts(v.blocks[n].cidr, half, keep);
    ApartWithout(v, n);
    forall m | m in v.blocks && m != n ensures Disjoint(v.blocks[m].cidr, keep) && Disjoint(keep, v.blocks[m].cidr) {}
  }

  /** A half that is split off while an address of it is leased. */
  lemma LoseHalf(w: World, v: World, n: Cidr, half: Cidr, a: nat)
    requires Reaches(w, v) && Placed(v) && v.net.settle >= 1 && InService(v, n) && SplitReady(v.blocks[n])
    requires IsHalf(half, v.blocks[n].cidr) && v.blocks[n].release == Some(half)
    requires half.Contains(a) && Lease(v.blocks[n].node, a) in v.net.leases
    ensures Harmful(w)
  {
    HalfInside(v.blocks[n].cidr, half, a);
    var t := Calms(w, v, n, a);
    var u := SplitOff(w, t, n, half);
    RestIsFree(t, u, n, half, OtherHalf(t.blocks[n].cidr, half).value);
    SecondLease(w, u, half, t.blocks[n].node, a);
  }

  // ---- what is coming is written ----

  /** A pass that is about to write the config writes it. */
  lemma WriteWhatComes(w: World, v: World, node: string) returns (u: World)
    requires Reaches(w, v) && SyncsOk(v) && Coming(v.net, node) != {}
    ensures Reaches(w, u) && Config(u.net, node) == Coming(v.net, node)
    ensures u == v.(net := u.net, syncs := u.syncs) && u.net == v.net.(config := u.net.config, coming := u.net.coming)
  {
    var y := v.syncs[node];
    assert SyncOk(v.net, node, y, MarksFor(v, node));
    assert y.own != map[] by { assert Ranges(map[], y.promote) == {}; }
    Go(w, v, WriteConfig(node));
    u := After(v, WriteConfig(node));
  }

  /** An address that a node touches can be leased there. */
  lemma TakeTouched(w: World, v: World, node: string, a: nat) returns (u: World)
    requires Reaches(w, v) && SyncsOk(v) && v.net.settle >= 1 && node in v.nodes && Touches(v.net, node, a)
    ensures Reaches(w, u) && Lease(node, a) in u.net.leases
    ensures u == v.(net := u.net, syncs := u.syncs) && u.net.settle == v.net.settle
  {
    if Lease(node, a) in v.net.leases {
      u := v;
    } else if Covers(Config(v.net, node), a) {
      u := TakeFromConfig(w, v, node, a);
    } else if Covers(Coming(v.net, node), a) {
      u := WriteWhatComes(w, v, node);
      u := TakeFromConfig(w, u, node, a);
    } else {
      var x :| x in v.net.sandboxes && x.node == node && Live(v.net, x) && Covers(x.ranges, a);
      Go(w, v, TakeLease(x, a));
      u := After(v, TakeLease(x, a));
    }
  }

  // ---- a release that comes too soon ----

  /** The world after the half is asked for. */
  lemma ReleaseWritten(w: World, n: Cidr, half: Cidr) returns (v: World)
    requires Inv(w) && Release(n, half) in w.todo && n in w.blocks
    ensures v == After(w, Write(Release(n, half))) && v.net == w.net && v.nodes == w.nodes && v.marks == w.marks
    ensures v.blocks == w.blocks[n := w.blocks[n].(release := Some(half))] && IsHalf(half, w.blocks[n].cidr)
    ensures w.blocks[n].phase == Active && !w.blocks[n].drain && Placed(v) && SyncsOk(v)
  {
    v := After(w, Write(Release(n, half)));
    assert OpOk(w, Release(n, half));
    InvPlaced(w);
    KeepsPlaced(w, v);
    SameSyncs(w, v);
  }

  lemma OnNode(w: World, node: string, a: nat, since: int)
    requires Inv(w) && (Touches(w.net, node, a) || Serves(w.net, node, a, since))
    ensures node in w.nodes
  {
    assert node !in w.nodes ==> Gone(w, node);
  }

  /** The report of the earlier release is believed. */
  lemma BelieveReport(w: World, n: Cidr, half: Cidr)
    requires Inv(w) && w.net.settle >= 1 && Release(n, half) in w.todo && StaleReport(w, n, half)
    ensures Harmful(After(w, Write(Release(n, half))))
  {
    var node := w.blocks[n].node;
    var v := ReleaseWritten(w, n, half);
    var a :| half.Contains(a) && Touches(w.net, node, a);
    OnNode(w, node, a, 0);
    Stay(v);
    var u := TakeTouched(v, v, node, a);
    KeepsPlaced(v, u);
    LoseHalf(v, u, n, half, a);
  }

  /** A node that has a half asked for, an old mark for it, and a pod that is about to lease an address of it. */
  ghost predicate Fooled(v: World, n: Cidr, half: Cidr, x: Sandbox, a: nat) {
    && InService(v, n) && v.blocks[n].release == Some(half) && IsHalf(half, v.blocks[n].cidr) && v.net.settle >= 1
    && (var marks := MarksFor(v, v.blocks[n].node);
        n in marks && marks[n].half == half && v.net.now - marks[n].since >= v.net.settle)
    && x in v.net.sandboxes && x.node == v.blocks[n].node && Live(v.net, x) && Covers(x.ranges, a) && half.Contains(a)
  }

  /** The agent takes the half for ready because its mark is old enough. */
  lemma ReportTooSoon(w: World, v: World, n: Cidr, half: Cidr, x: Sandbox, a: nat) returns (u: World)
    requires Reaches(w, v) && Fooled(v, n, half, x, a) && v.net.leases == {}
    ensures Reaches(w, u) && u.blocks == v.blocks[n := v.blocks[n].(ready := Some(half))] && u.nodes == v.nodes
    ensures u.net == v.net.(config := u.net.config, coming := u.net.coming)
  {
    var node, b := v.blocks[n].node, v.blocks[n];
    HalvesDiffer(b.cidr);
    assert n in OwnOf(v, node) && InConfig(b, n in {}) && Served(b) in Ranges(OwnOf(v, node), {});
    u := Configure(w, v, node, {});
    var t := u;
    var y;
    u, y := Report(w, t, node, n, OwnOf(v, node), {});
    assert Releasing(b) && y.ready[n] == half;
    FooledStatus(y, n, b, half, v.net.now, v.net.settle);
  }

  lemma FooledStatus(y: Sync, n: Cidr, b: NodeBlock, half: Cidr, now: int, settle: int)
    requires n in y.own && y.own[n] == b && n in y.ready && y.ready[n] == half && b.phase == Active && !b.drain
    ensures StatusFor(y, n, b, now, settle) == b.(ready := Some(half))
  {
  }

  lemma KeepsPlaced(v: World, u: World)
    requires Placed(v) && u.blocks.Keys == v.blocks.Keys
    requires forall n :: n in v.blocks ==> u.blocks[n].cidr == v.blocks[n].cidr
    ensures Placed(u)
  {
  }

  lemma HarmWhenFooled(w: World, v: World, n: Cidr, half: Cidr, x: Sandbox, a: nat)
    requires Reaches(w, v) && Placed(v) && Fooled(v, n, half, x, a)
    ensures Harmful(w)
  {
    EndAll(w, v);
    var u := v.(net := v.net.(leases := {}));
    assert Live(u.net, x);
    u := ReportTooSoon(w, u, n, half, x, a);
    assert Live(u.net, x);
    Go(w, u, TakeLease(x, a));
    var t := After(u, TakeLease(x, a));
    KeepsPlaced(v, t);
    LoseHalf(w, t, n, half, a);
  }

  /** Time passes until the mark is old enough, but not longer than the sandbox lives. */
  lemma Wait(w: World, v: World, since: int) returns (u: World)
    requires Reaches(w, v)
    ensures Reaches(w, u) && u == v.(net := v.net.(now := u.net.now))
    ensures u.net.now >= v.net.now && u.net.now - since >= v.net.settle
    ensures (u.net.now == v.net.now || u.net.now == since + v.net.settle)
  {
    var d := if since + v.net.settle > v.net.now then since + v.net.settle - v.net.now else 0;
    Go(w, v, Tick(d));
    u := After(v, Tick(d));
  }

  /** The mark of the earlier release is believed. */
  lemma BelieveMark(w: World, n: Cidr, half: Cidr)
    requires Inv(w) && w.net.settle >= 1 && Release(n, half) in w.todo && StaleMark(w, n, half)
    ensures Harmful(After(w, Write(Release(n, half))))
  {
    var node := w.blocks[n].node;
    var since := MarksFor(w, node)[n].since;
    var a :| half.Contains(a) && Serves(w.net, node, a, since);
    var v := ReleaseWritten(w, n, half);
    OnNode(w, node, a, since);
    Stay(v);
    if SandboxReaches(w.net, node, a, since) {
      HarmBySandbox(v, v, n, half, a);
    } else {
      var u := v;
      if !Covers(Config(v.net, node), a) { u := WriteWhatComes(v, v, node); }
      KeepsPlaced(v, u);
      HarmByConfig(v, u, n, half, a);
    }
  }

  lemma HarmBySandbox(w: World, v: World, n: Cidr, half: Cidr, a: nat)
    requires Reaches(w, v) && Placed(v) && InService(v, n) && v.net.settle >= 1
    requires v.blocks[n].release == Some(half) && IsHalf(half, v.blocks[n].cidr) && half.Contains(a)
    requires n in MarksFor(v, v.blocks[n].node) && MarksFor(v, v.blocks[n].node)[n].half == half
    requires SandboxReaches(v.net, v.blocks[n].node, a, MarksFor(v, v.blocks[n].node)[n].since)
    ensures Harmful(w)
  {
    var node, since := v.blocks[n].node, MarksFor(v, v.blocks[n].node)[n].since;
    var x :| x in v.net.sandboxes && x.node == node && Live(v.net, x) && Covers(x.ranges, a) && x.read > since;
    var u := Wait(w, v, since);
    HarmWhenFooled(w, u, n, half, x, a);
  }

  lemma HarmByConfig(w: World, v: World, n: Cidr, half: Cidr, a: nat)
    requires Reaches(w, v) && Placed(v) && InService(v, n) && v.net.settle >= 1
    requires v.blocks[n].release == Some(half) && IsHalf(half, v.blocks[n].cidr) && half.Contains(a)
    requires n in MarksFor(v, v.blocks[n].node) && MarksFor(v, v.blocks[n].node)[n].half == half
    requires Covers(Config(v.net, v.blocks[n].node), a)
    ensures Harmful(w)
  {
    var node := v.blocks[n].node;
    var u := Wait(w, v, MarksFor(v, node)[n].since);
    Go(w, u, StartSandbox(node));
    HarmWhenFooled(w, After(u, StartSandbox(node)), n, half, Sandbox(node, Config(u.net, node), u.net.now), a);
  }

  // ---- a status that comes too soon ----

  /** A lease has been taken since the count. */
  lemma LeasedBlockLost(w: World, node: string, n: Cidr)
    requires Inv(w) && w.net.settle >= 1 && Enabled(w, WriteStatus(node, n)) && n in w.blocks
    requires LeasedSince(w, w.syncs[node], n, w.blocks[n],
                         StatusFor(w.syncs[node], n, w.blocks[n], w.net.now, w.net.settle))
    ensures Harmful(After(w, WriteStatus(node, n)))
  {
    var v, b := After(w, WriteStatus(node, n)), w.blocks[n];
    var l :| l in w.net.leases && l.node == b.node && b.cidr.Contains(l.address);
    assert Lease(l.node, l.address) == l;
    PhaseGoesOn(w.syncs[node], n, b, w.net.now, w.net.settle);
    StatusPlaced(w, node, n);
    Stay(v);
    LoseBlock(v, v, n, b.node, l.address);
  }

  /** A block that drains by its status, but is still in the config. */
  ghost predicate DrainsInConfig(v: World, n: Cidr, a: nat) {
    && v.net.settle >= 1
    && n in v.blocks && v.blocks[n].phase == Draining && v.blocks[n].drain && v.blocks[n].node in v.nodes
    && Covers(Config(v.net, v.blocks[n].node), a) && v.blocks[n].cidr.Contains(a)
  }

  /** The settle time runs out while the config still lists the block. */
  lemma Outlasts(w: World, v: World, n: Cidr, m: Cidr, a: nat) returns (u: World)
    requires Reaches(w, v) && Placed(v) && DrainsInConfig(v, n, a) && Neighbour(v, n, m)
    ensures Reaches(w, u) && Placed(u) && DrainsInConfig(u, n, a) && u.net.leases == {} && u.blocks == v.blocks
    ensures u.net.now - u.blocks[n].since >= u.net.settle && Neighbour(u, n, m)
  {
    GiveUp(w, v);
    u := Wait(w, v.(todo := {}), v.blocks[n].since);
    EndAll(w, u);
    u := u.(net := u.net.(leases := {}));
  }

  /** The next pass leaves the block out of the config and, because it has been Draining for so long, at once
      quarantines it, although a sandbox has just read the old config. */
  lemma QuarantineTooSoon(w: World, v: World, n: Cidr, m: Cidr, a: nat)
    requires Reaches(w, v) && Placed(v) && DrainsInConfig(v, n, a) && v.net.leases == {} && Neighbour(v, n, m)
    requires v.net.now - v.blocks[n].since >= v.net.settle
    ensures Harmful(w)
  {
    var node := v.blocks[n].node;
    var x := Sandbox(node, Config(v.net, node), v.net.now);
    Go(w, v, StartSandbox(node));
    var u := After(v, StartSandbox(node));
    u := PassWhileDraining(w, u, n, m);
    assert Live(u.net, x);
    Go(w, u, TakeLease(x, a));
    u := After(u, TakeLease(x, a));
    KeepsPlaced(v, u);
    LoseBlock(w, u, n, node, a);
  }

  lemma PassWhileDraining(w: World, v: World, n: Cidr, m: Cidr) returns (u: World)
    requires Reaches(w, v) && v.net.leases == {} && n in v.blocks && v.blocks[n].node in v.nodes && Neighbour(v, n, m)
    requires v.blocks[n].phase == Draining && v.blocks[n].drain && v.net.now - v.blocks[n].since >= v.net.settle
    ensures Reaches(w, u) && u.net == v.net.(config := u.net.config, coming := u.net.coming)
    ensures n in u.blocks && u.blocks == v.blocks[n := u.blocks[n]]
    ensures u.blocks[n].phase == Quarantined && u.blocks[n].cidr == v.blocks[n].cidr
  {
    var node := v.blocks[n].node;
    var own := OwnOf(v, node);
    assert m in own && InConfig(v.blocks[m], m in {}) && Served(v.blocks[m]) in Ranges(own, {});
    var t := Configure(w, v, node, {});
    var y;
    u, y := Report(w, t, node, n, own, {});
    EmptyDrain(y, n, v.blocks[n], v.net.now, v.net.settle);
  }

  lemma EmptyDrain(y: Sync, n: Cidr, b: NodeBlock, now: int, settle: int)
    requires n in y.own && y.own[n] == b && y.FoundEmpty(n) && y.ConfigOK()
    requires b.phase == Draining && b.drain && now - b.since >= settle
    ensures var c := StatusFor(y, n, b, now, settle); c.phase == Quarantined && c.cidr == b.cidr
  {
  }

  /** After the status is written the block drains, its node has an address of it in its config or will, and serves
      another block. */
  lemma DrainsUnseen(w: World, node: string, n: Cidr) returns (a: nat, m: Cidr)
    requires Invariant(w) && Enabled(w, WriteStatus(node, n)) && n in w.blocks
    requires StillListed(w, w.syncs[node], n, w.blocks[n],
                         StatusFor(w.syncs[node], n, w.blocks[n], w.net.now, w.net.settle))
    ensures var v, b := After(w, WriteStatus(node, n)), w.blocks[n];
      && n in v.blocks && v.blocks[n].phase == Draining && v.blocks[n].drain && v.blocks[n].node == b.node
      && b.node in v.nodes && v.blocks[n].cidr == b.cidr && b.cidr.Contains(a) && Neighbour(v, n, m)
      && (Covers(Config(v.net, b.node), a) || Covers(Coming(v.net, b.node), a))
  {
    var b := w.blocks[n];
    a :| b.cidr.Contains(a) && (Covers(Config(w.net, b.node), a) || Covers(Coming(w.net, b.node), a));
    assert b.node in w.nodes by { assert b.node !in w.nodes ==> Gone(w, b.node); }
    PhaseGoesOn(w.syncs[node], n, b, w.net.now, w.net.settle);
    m := NeighbourStays(w, node, n);
  }

  lemma NeighbourStays(w: World, node: string, n: Cidr) returns (m: Cidr)
    requires Company(w) && DrainsListed(w, n) && Enabled(w, WriteStatus(node, n))
    ensures n in After(w, WriteStatus(node, n)).blocks && Neighbour(w, n, m)
    ensures After(w, WriteStatus(node, n)).blocks[n].node == w.blocks[n].node ==>
      Neighbour(After(w, WriteStatus(node, n)), n, m)
  {
    assert HasNeighbour(w, n);
    m :| Neighbour(w, n, m);
  }

  /** The config still lists the block whose status says Draining. */
  lemma ListedBlockLost(w: World, node: string, n: Cidr)
    requires Invariant(w) && w.net.settle >= 1 && Enabled(w, WriteStatus(node, n)) && n in w.blocks
    requires StillListed(w, w.syncs[node], n, w.blocks[n],
                         StatusFor(w.syncs[node], n, w.blocks[n], w.net.now, w.net.settle))
    ensures Harmful(After(w, WriteStatus(node, n)))
  {
    var v := After(w, WriteStatus(node, n));
    var a, m := DrainsUnseen(w, node, n);
    StatusPlaced(w, node, n);
    Stay(v);
    DrainTooSoon(v, n, m, a);
  }

  lemma StatusPlaced(w: World, node: string, n: Cidr)
    requires Inv(w) && Enabled(w, WriteStatus(node, n)) && n in w.blocks
    ensures Placed(After(w, WriteStatus(node, n))) && SyncsOk(After(w, WriteStatus(node, n)))
  {
    InvPlaced(w);
    KeepsPlaced(w, After(w, WriteStatus(node, n)));
    StatusSyncs(w, node, n);
  }

  lemma DrainTooSoon(v: World, n: Cidr, m: Cidr, a: nat)
    requires Reaches(v, v) && Placed(v) && SyncsOk(v) && v.net.settle >= 1 && Neighbour(v, n, m)
    requires v.blocks[n].phase == Draining && v.blocks[n].drain && v.blocks[n].node in v.nodes
    requires v.blocks[n].cidr.Contains(a)
    requires Covers(Config(v.net, v.blocks[n].node), a) || Covers(Coming(v.net, v.blocks[n].node), a)
    ensures Harmful(v)
  {
    var owner, u := v.blocks[n].node, v;
    if !Covers(Config(v.net, owner), a) { u := WriteWhatComes(v, v, owner); }
    u := Outlasts(v, u, n, m, a);
    QuarantineTooSoon(v, u, n, m, a);
  }

  /** A report of a half that has had a lease since the count. The block is in service, or else its drain has gone
      unnoticed. */
  lemma HalfIsReported(w: World, node: string, n: Cidr)
    requires Inv(w) && Enabled(w, WriteStatus(node, n)) && n in w.blocks
    requires HalfLeasedSince(w, w.syncs[node], n, w.blocks[n])
    requires !StillListed(w, w.syncs[node], n, w.blocks[n],
                          StatusFor(w.syncs[node], n, w.blocks[n], w.net.now, w.net.settle))
    ensures w.blocks[n].node == node && node in w.nodes
    ensures var c, half := StatusFor(w.syncs[node], n, w.blocks[n], w.net.now, w.net.settle), w.syncs[node].ready[n];
      SplitReady(c) && c.release == Some(half) && IsHalf(half, c.cidr)
  {
    ReportIsOwn(w, node, n);
    KeepIsListed(w, node, n);
    InUse(w, node, n);
    ReportedStatus(w.syncs[node], n, w.blocks[n], w.net.now, w.net.settle);
  }

  /** A block of which a half was found ready and has a lease is Active, or its drain has been taken back. */
  lemma InUse(w: World, node: string, n: Cidr)
    requires Inv(w) && Enabled(w, WriteStatus(node, n)) && n in w.blocks && w.blocks[n].node == node
    requires HalfLeasedSince(w, w.syncs[node], n, w.blocks[n])
    requires Listed(w.net, w.blocks[n]) && forall t :: !LeftOut(w.net, node, w.blocks[n].cidr, t)
    ensures node in w.nodes && Releasing(w.syncs[node].own[n])
    ensures w.syncs[node].own[n].release == Some(w.syncs[node].ready[n])
    ensures var b := w.blocks[n]; b.phase == Active || (b.phase == Draining && !b.drain)
  {
    var y, b := w.syncs[node], w.blocks[n];
    assert BlockOk(w.net, n, b) && SyncOk(w.net, node, y, MarksFor(w, node));
    assert node in w.nodes by { assert node !in w.nodes ==> Gone(w, node); }
    if Aside(b) { ClearIsUnlisted(w.net, b); }
  }

  lemma ReportedStatus(y: Sync, n: Cidr, b: NodeBlock, now: int, settle: int)
    requires n in y.own && n in y.ready && Releasing(y.own[n]) && y.own[n].release == Some(y.ready[n])
    requires b.cidr == y.own[n].cidr && b.release == y.own[n].release
    requires b.phase == Active || (b.phase == Draining && !b.drain)
    requires b.phase == Active ==> StatusFor(y, n, b, now, settle).phase != Draining
    ensures var c := StatusFor(y, n, b, now, settle);
      SplitReady(c) && c.release == Some(y.ready[n]) && IsHalf(y.ready[n], c.cidr)
  {
    assert Served(y.own[n]) in y.Wanted() by { assert InConfig(y.own[n], n in y.promote); }
  }

  /** What such a block keeps is in the config. */
  lemma KeepIsListed(w: World, node: string, n: Cidr)
    requires Inv(w) && Enabled(w, WriteStatus(node, n)) && n in w.blocks && n in w.syncs[node].ready
    requires w.blocks[n].node == node && w.blocks[n].cidr == w.syncs[node].own[n].cidr
    ensures Listed(w.net, w.blocks[n]) && forall t :: !LeftOut(w.net, node, w.blocks[n].cidr, t)
  {
    var y := w.syncs[node];
    assert SyncOk(w.net, node, y, MarksFor(w, node));
    var keep := Served(y.own[n]);
    KeepInConfig(w, node, n);
    ServedIsInside(y.own[n], keep.base);
    forall t ensures !LeftOut(w.net, node, w.blocks[n].cidr, t) { assert Serves(w.net, node, keep.base, t); }
  }

  /** The half goes back to the pool with the lease. */
  lemma LeasedHalfLost(w: World, node: string, n: Cidr)
    requires Inv(w) && w.net.settle >= 1 && Enabled(w, WriteStatus(node, n)) && n in w.blocks
    requires HalfLeasedSince(w, w.syncs[node], n, w.blocks[n])
    requires !StillListed(w, w.syncs[node], n, w.blocks[n],
                          StatusFor(w.syncs[node], n, w.blocks[n], w.net.now, w.net.settle))
    ensures Harmful(After(w, WriteStatus(node, n)))
  {
    var v, half := After(w, WriteStatus(node, n)), w.syncs[node].ready[n];
    HalfIsReported(w, node, n);
    var l :| l in w.net.leases && l.node == node && half.Contains(l.address);
    assert Lease(node, l.address) == l;
    PhaseGoesOn(w.syncs[node], n, w.blocks[n], w.net.now, w.net.settle);
    StatusPlaced(w, node, n);
    Stay(v);
    LoseHalf(v, v, n, half, l.address);
  }

  // ---- a node that comes back ----

  /** An address of a range that host-local does not keep for itself, if it has any. */
  function Inner(c: Cidr): (a: nat)
    ensures c.Contains(a)
  {
    if Size(c.prefix) > 3 then c.base + 2 else c.base
  }

  /** The node serves its block again, and a pod leases an address of it. */
  lemma ServeAgain(w: World, v: World, node: string, n: Cidr) returns (u: World, a: nat)
    requires Reaches(w, v) && v.net.settle >= 1 && node in v.nodes && n in v.blocks && v.blocks[n].node == node
    requires !v.blocks[n].drain && v.blocks[n].phase != Quarantined
    ensures Reaches(w, u) && u == v.(net := u.net, syncs := u.syncs) && u.net.settle == v.net.settle
    ensures v.blocks[n].cidr.Contains(a) && Lease(node, a) in u.net.leases
  {
    var b := v.blocks[n];
    assert n in OwnOf(v, node) && InConfig(b, n in {n}) && Served(b) in Ranges(OwnOf(v, node), {n});
    u := Configure(w, v, node, {n});
    a := Inner(Served(b));
    assert Covers(Config(u.net, node), a);
    ServedIsInside(b, a);
    u := TakeFromConfig(w, u, node, a);
  }

  lemma WithdrawStep(w: World, u: World, n: Cidr)
    requires Reaches(w, u) && Withdraw(n) in u.todo && n in u.blocks
    requires !u.blocks[n].drain && u.blocks[n].phase != Quarantined
    ensures var v, b := After(u, Write(Withdraw(n))), u.blocks[n];
      Reaches(w, v) && v.net == u.net && v.blocks == u.blocks[n := b.(phase := Quarantined, since := u.net.now)]
  {
    Go(w, u, Write(Withdraw(n)));
  }

  /** Only then the controller withdraws the block. */
  lemma WithdrawnInUse(w: World, node: string, n: Cidr)
    requires Inv(w) && w.net.settle >= 1 && node !in w.nodes && Withdraw(n) in w.todo && n in w.blocks
    requires w.blocks[n].node == node
    requires !w.blocks[n].drain && w.blocks[n].phase != Quarantined
    ensures Harmful(After(w, AddNode(node)))
  {
    var v := After(w, AddNode(node));
    InvPlaced(w);
    Stay(v);
    var u, a := ServeAgain(v, v, node, n);
    WithdrawStep(v, u, n);
    u := After(u, Write(Withdraw(n)));
    KeepsPlaced(w, u);
    LoseBlock(v, u, n, node, a);
  }

  // ---- every careless step ----

  /** Every step that is not careful can do harm, whatever the world that it is taken in. */
  lemma CarelessStepHarms(w: World, s: Step)
    requires Invariant(w) && Enabled(w, s) && !Careful(w, s) && w.net.settle >= 1
    ensures Harmful(After(w, s))
  {
    match s
    case Write(op) =>
      if StaleReport(w, op.name, op.half) {
        BelieveReport(w, op.name, op.half);
      } else {
        BelieveMark(w, op.name, op.half);
      }
    case WriteStatus(node, n) => CarelessStatusHarms(w, node, n);
    case AddNode(node) =>
      var op :| op in w.todo && op.Withdraw? && op.name in w.blocks && w.blocks[op.name].node == node
        && !w.blocks[op.name].drain && w.blocks[op.name].phase != Quarantined;
      WithdrawnInUse(w, node, op.name);
  }

  lemma CarelessStatusHarms(w: World, node: string, n: Cidr)
    requires Invariant(w) && Enabled(w, WriteStatus(node, n)) && !Careful(w, WriteStatus(node, n)) && w.net.settle >= 1
    ensures Harmful(After(w, WriteStatus(node, n)))
  {
    var next := StatusFor(w.syncs[node], n, w.blocks[n], w.net.now, w.net.settle);
    if StillListed(w, w.syncs[node], n, w.blocks[n], next) {
      ListedBlockLost(w, node, n);
    } else if LeasedSince(w, w.syncs[node], n, w.blocks[n], next) {
      LeasedBlockLost(w, node, n);
    } else {
      LeasedHalfLost(w, node, n);
    }
  }

  /** The rules are exact: in every world that a run of careful steps leads to, a step is careful exactly if no run of
      careful steps after it ends with an address leased on two nodes. */
  lemma CarefulIsExact(w: World, s: Step)
    requires Invariant(w) && Enabled(w, s) && w.net.settle >= 1
    ensures Careful(w, s) <==> !Harmful(After(w, s))
  {
    if Careful(w, s) {
      StepKeepsInv(w, s);
      forall v | Reaches(After(w, s), v) ensures NoSharedLease(v.net) {
        var steps :| Way(After(w, s), steps, v);
        RunKeepsInv(After(w, s), steps, v);
        InvIsSafe(v);
      }
    } else {
      CarelessStepHarms(w, s);
    }
  }
}
