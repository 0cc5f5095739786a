/** How the steps that Protocol.Careful rules out come about: complete runs from an empty cluster, of careful steps
    that planner and agents can make, up to such a step. The node has its first block and one that it has
    grown by, with the settle time and the quarantine that the program has by default. */
module ProtocolRuns {
  import opened Options
  import opened Cidrs
  import opened NodeBlocks
  import opened Protocol
  import opened ProtocolSafety
  import opened ProtocolCompany
  import opened ProtocolLimits

  const A := "a"
  const FIRST := Cidr(64, 28)
  const WHOLE := Cidr(0, 27)
  const LOWER := Cidr(0, 28)
  const UPPER := Cidr(16, 28)
  const SETTLE := 10
  const QUARANTINE := 60

  lemma Addresses()
    ensures Size(27) == 32 && Size(28) == 16 && Aligned(FIRST) && Aligned(WHOLE) && Aligned(LOWER) && Aligned(UPPER)
    ensures LowerHalf(WHOLE) == LOWER && UpperHalf(WHOLE) == UPPER && OtherHalf(WHOLE, UPPER) == Some(LOWER)
  {
    assert Size(32) == 1 && Size(31) == 2 && Size(30) == 4 && Size(29) == 8;
    assert Multiple(0, 32) && Multiple(0, 16) && Multiple(16, 16) && Multiple(32, 16) && Multiple(48, 16)
      && Multiple(64, 16);
  }

  ghost function Empty(): World {
    World(Net(0, SETTLE, map[], map[], {}, {}), {}, map[], {}, map[], map[], QUARANTINE)
  }

  function First(): NodeBlock { NodeBlock(A, FIRST, false, None, Active, None, 0) }

  function Grown(): NodeBlock { NodeBlock(A, WHOLE, false, None, Active, None, 0) }

  /** The node has its first block and b; nothing is to be written and nothing is leased. */
  ghost predicate At(v: World, b: NodeBlock, now: int) {
    && Reaches(Empty(), v) && v.blocks == map[FIRST := First(), WHOLE := b] && b.node == A && v.nodes == {A}
    && v.todo == {}
    && v.net.now == now && v.net.settle == SETTLE && v.quarantine == QUARANTINE && v.net.leases == {}
  }

  function TwoBlocks(f: NodeBlock, b: NodeBlock): Objects { map[FIRST := f, WHOLE := b] }

  lemma TwoRanges(f: NodeBlock, b: NodeBlock, promote: set<Cidr>)
    ensures Ranges(TwoBlocks(f, b), promote) ==
      (if InConfig(f, FIRST in promote) then {Served(f)} else {})
        + (if InConfig(b, WHOLE in promote) then {Served(b)} else {})
  {
    var own := TwoBlocks(f, b);
    assert FIRST in own && WHOLE in own && own[FIRST] == f && own[WHOLE] == b;
    if InConfig(f, FIRST in promote) { assert Served(own[FIRST]) in Ranges(own, promote); }
    if InConfig(b, WHOLE in promote) { assert Served(own[WHOLE]) in Ranges(own, promote); }
  }

  /** The agent reads its blocks and writes the config. */
  lemma Configures(v: World, b: NodeBlock, now: int, promote: set<Cidr>) returns (u: World)
    requires At(v, b, now)
    ensures At(u, b, now) && u.marks == v.marks && u.net.sandboxes == v.net.sandboxes
    ensures Config(u.net, A) == {FIRST} + (if InConfig(b, WHOLE in promote) then {Served(b)} else {})
    ensures Coming(u.net, A) == {}
    ensures A in u.syncs && u.syncs[A] == Sync(TwoBlocks(First(), b), promote, Configured, {}, {}, map[], {})
  {
    assert OwnOf(v, A) == TwoBlocks(First(), b);
    TwoRanges(First(), b, promote);
    u := Configure(Empty(), v, A, promote);
  }

  /** It counts and judges. */
  lemma Judges(v: World, b: NodeBlock, now: int, promote: set<Cidr>) returns (u: World)
    requires At(v, b, now) && A in v.syncs
    requires v.syncs[A] == Sync(TwoBlocks(First(), b), promote, Configured, {}, {}, map[], {})
    ensures At(u, b, now) && u.net == v.net && IsJudged(v, u, A, TwoBlocks(First(), b), promote)
  {
    u := CountAndJudge(Empty(), v, A, TwoBlocks(First(), b), promote);
  }

  /** Without a release there is nothing to remember and nothing ready. */
  lemma NothingAsked(v: World, u: World, b: NodeBlock, promote: set<Cidr>)
    requires IsJudged(v, u, A, TwoBlocks(First(), b), promote) && b.release.None?
    ensures MarksFor(u, A) == map[] && WHOLE in u.syncs[A].own && WHOLE !in u.syncs[A].ready
  {
    assert !Releasing(b) && !Releasing(First());
    assert Found(MarksFor(v, A), u.syncs[A], WHOLE, v.net.now, v.net.settle);
    forall k ensures k !in MarksFor(u, A) {}
  }

  /** It writes the status of the second block. */
  lemma Reports(v: World, b: NodeBlock, now: int, c: NodeBlock) returns (u: World)
    requires At(v, b, now) && Enabled(v, WriteStatus(A, WHOLE)) && Careful(v, WriteStatus(A, WHOLE))
    requires StatusFor(v.syncs[A], WHOLE, b, now, SETTLE) == c
    ensures At(u, c, now) && u.net == v.net && u.marks == v.marks
  {
    Go(Empty(), v, WriteStatus(A, WHOLE));
    u := After(v, WriteStatus(A, WHOLE));
    assert u.blocks == map[FIRST := First(), WHOLE := c];
  }

  /** The controller makes one write. */
  lemma Controls(v: World, b: NodeBlock, now: int, op: Op) returns (u: World)
    requires At(v, b, now) && Planned(v, op) && !op.Creates() && !op.Release? && !op.Split? && !op.Delete?
    requires op.name == WHOLE && (op.Drain? ==> b.phase == Active)
    ensures At(u, AfterUpdate(v, WHOLE, b, op).blocks[WHOLE], now) && u.net == v.net && u.marks == v.marks
    ensures u.syncs == v.syncs
  {
    assert Neighbour(v, WHOLE, FIRST);
    Pass(Empty(), v, op);
    u := AfterWrite(v, op).(todo := {});
    assert u.blocks == map[FIRST := First(), WHOLE := u.blocks[WHOLE]];
  }

  lemma Passes(v: World, b: NodeBlock, now: int, d: nat) returns (u: World)
    requires At(v, b, now)
    ensures At(u, b, now + d) && u.marks == v.marks && u.syncs == v.syncs && u.net == v.net.(now := now + d)
  {
    Go(Empty(), v, Tick(d));
    u := After(v, Tick(d));
  }

  /** A node that joins gets its first block, and then another one. */
  lemma FirstBlock() returns (u: World)
    ensures Reaches(Empty(), u) && OwnOf(u, A) == map[FIRST := First()] && u.blocks == map[FIRST := First()]
    ensures u.nodes == {A} && u.todo == {}
    ensures u.net.now == 0 && u.net.settle == SETTLE && u.quarantine == QUARANTINE && u.net.leases == {}
    ensures u.net.sandboxes == {}
    ensures MarksFor(u, A) == map[]
  {
    Addresses();
    var w := Empty();
    Stay(w);
    Go(w, w, AddNode(A));
    u := After(w, AddNode(A));
    u := GetBlock(w, u, A, FIRST);
    var b := NodeBlock(A, FIRST, false, None, Pending, None, 0);
    assert OwnOf(u, A) == map[FIRST := b];
    assert Ranges(map[FIRST := b], {FIRST}) == {FIRST} by { assert Served(b) == FIRST && FIRST in map[FIRST := b]; }
    u := Configure(w, u, A, {FIRST});
    var t := u;
    u := CountAndJudge(w, t, A, map[FIRST := b], {FIRST});
    u := FirstPromoted(t, u, b);
  }

  lemma FirstPromoted(t: World, v: World, b: NodeBlock) returns (u: World)
    requires Reaches(Empty(), v) && b == NodeBlock(A, FIRST, false, None, Pending, None, 0)
    requires v.blocks == map[FIRST := b]
    requires v.net.now == 0 && IsJudged(t, v, A, map[FIRST := b], {FIRST})
    ensures Reaches(Empty(), u) && u.blocks == map[FIRST := First()] && u.net == v.net && u.nodes == v.nodes
    ensures u.todo == v.todo && u.quarantine == v.quarantine && MarksFor(u, A) == map[]
    ensures OwnOf(u, A) == map[FIRST := First()]
  {
    assert Found(MarksFor(t, A), v.syncs[A], FIRST, t.net.now, t.net.settle) && !Releasing(b);
    Go(Empty(), v, WriteStatus(A, FIRST));
    u := After(v, WriteStatus(A, FIRST));
    assert u.blocks == map[FIRST := First()];
    forall k ensures k !in MarksFor(u, A) {}
  }

  /** The second block, not in use yet. */
  function Planted(): NodeBlock { NodeBlock(A, WHOLE, false, None, Pending, None, 0) }

  lemma GetsSecond() returns (u: World)
    ensures At(u, Planted(), 0) && u.net.sandboxes == {} && MarksFor(u, A) == map[]
  {
    Addresses();
    var v := FirstBlock();
    u := GetBlock(Empty(), v, A, WHOLE);
    assert u.blocks == map[FIRST := First(), WHOLE := Planted()];
  }

  lemma Grows() returns (u: World)
    ensures At(u, Grown(), 0) && Config(u.net, A) == {FIRST, WHOLE} && u.net.sandboxes == {} && MarksFor(u, A) == map[]
  {
    var v := GetsSecond();
    v := Configures(v, Planted(), 0, {WHOLE});
    u := Judges(v, Planted(), 0, {WHOLE});
    NothingAsked(v, u, Planted(), {WHOLE});
    u := Promotes(u, Planted());
  }

  lemma Promotes(v: World, b: NodeBlock) returns (u: World)
    requires At(v, b, 0) && b == Planted() && Enabled(v, WriteStatus(A, WHOLE))
    requires v.syncs[A].own[WHOLE] == b && v.syncs[A].promote == {WHOLE} && WHOLE !in v.syncs[A].ready
    ensures At(u, Grown(), 0) && u.net == v.net && u.marks == v.marks
  {
    u := Reports(v, b, 0, Grown());
  }

  // ---- a half that is asked for again ----

  /** The cooldown has passed. */
  lemma Cools() returns (u: World)
    ensures At(u, Grown(), 300) && Config(u.net, A) == {FIRST, WHOLE} && u.net.sandboxes == {}
    ensures MarksFor(u, A) == map[]
  {
    u := Grows();
    u := Passes(u, Grown(), 0, 300);
  }

  function Asked(): NodeBlock { Grown().(release := Some(UPPER)) }

  /** The planner asks for the upper half, and the agent leaves it out of the config. */
  lemma LeavesOut(v: World) returns (u: World)
    requires At(v, Grown(), 300) && MarksFor(v, A) == map[]
    ensures At(u, Asked(), 300) && Config(u.net, A) == {FIRST, LOWER} && u.net.sandboxes == v.net.sandboxes
    ensures WHOLE in MarksFor(u, A) && MarksFor(u, A)[WHOLE] == Mark(UPPER, 300)
  {
    Addresses();
    var t := Asks(v, Grown(), 300);
    t := Configures(t, Asked(), 300, {});
    u := Judges(t, Asked(), 300, {});
    assert Releasing(Asked()) && WHOLE in TwoBlocks(First(), Asked());
    TwoRanges(First(), Asked(), {});
    assert Remembered(MarksFor(t, A), u.syncs[A], WHOLE, 300, MarksFor(u, A));
  }

  /** The release is planned. */
  lemma Plans(v: World, b: NodeBlock, now: int) returns (u: World)
    requires At(v, b, now) && b.phase == Active && !b.drain && b.release.None? && b.cidr == WHOLE
    ensures Reaches(Empty(), u) && u == v.(todo := {Release(WHOLE, UPPER)}) && Enabled(u, Write(Release(WHOLE, UPPER)))
  {
    Addresses();
    assert Neighbour(v, WHOLE, FIRST) && Drain(FIRST) !in {Release(WHOLE, UPPER)};
    Go(Empty(), v, Plan({Release(WHOLE, UPPER)}));
    u := After(v, Plan({Release(WHOLE, UPPER)}));
  }

  lemma Asks(v: World, b: NodeBlock, now: int) returns (u: World)
    requires At(v, b, now) && b.phase == Active && !b.drain && b.release.None? && b.cidr == WHOLE && b.ready.None?
    requires MarksFor(v, A) == map[]
    ensures At(u, b.(release := Some(UPPER)), now) && u.net == v.net && u.marks == v.marks && u.syncs == v.syncs
  {
    u := Plans(v, b, now);
    Go(Empty(), u, Write(Release(WHOLE, UPPER)));
    u := After(u, Write(Release(WHOLE, UPPER)));
    assert u.blocks == map[FIRST := First(), WHOLE := b.(release := Some(UPPER))];
  }

  /** A world that is reached has harm ahead if its next step is not careful. */
  lemma Ends(w: World, s: Step)
    requires Reaches(Empty(), w) && Enabled(w, s) && !Careful(w, s) && w.net.settle == SETTLE
    ensures Harmful(After(w, s))
  {
    var steps :| Way(Empty(), steps, w);
    RunKeepsInvariant(Empty(), steps, w);
    CarelessStepHarms(w, s);
  }

  /** The planner wants the half back, and before it has written that the agent reports the half ready. */
  lemma ReportsAndKeeps(v: World, b: NodeBlock, now: int) returns (u: World)
    requires At(v, b, now) && b == Grown().(release := Some(UPPER)) && Enabled(v, WriteStatus(A, WHOLE))
    requires WHOLE in v.syncs[A].ready && v.syncs[A].ready[WHOLE] == UPPER && v.syncs[A].own[WHOLE] == b
    ensures At(u, Grown().(ready := Some(UPPER)), now) && u.net == v.net && u.marks == v.marks
  {
    u := PlannedBeforeReport(v, b, now);
    Go(Empty(), u, Write(Unrelease(WHOLE)));
    u := After(u, Write(Unrelease(WHOLE)));
    assert u.todo == {} && u.blocks == map[FIRST := First(), WHOLE := Grown().(ready := Some(UPPER))];
  }

  lemma PlannedBeforeReport(v: World, b: NodeBlock, now: int) returns (u: World)
    requires At(v, b, now) && b == Grown().(release := Some(UPPER)) && Enabled(v, WriteStatus(A, WHOLE))
    requires WHOLE in v.syncs[A].ready && v.syncs[A].ready[WHOLE] == UPPER && v.syncs[A].own[WHOLE] == b
    ensures Reaches(Empty(), u) && u.net == v.net && u.marks == v.marks && u.nodes == v.nodes
    ensures u.quarantine == v.quarantine && u.todo == {Unrelease(WHOLE)}
    ensures u.blocks == TwoBlocks(First(), b.(ready := Some(UPPER)))
  {
    Go(Empty(), v, Plan({Unrelease(WHOLE)}));
    u := After(v, Plan({Unrelease(WHOLE)}));
    Go(Empty(), u, WriteStatus(A, WHOLE));
    u := After(u, WriteStatus(A, WHOLE));
  }

  /** The agent finds the half ready. */
  lemma FindsHalfReady() returns (w: World)
    ensures At(w, Grown().(release := Some(UPPER)), 310) && Enabled(w, WriteStatus(A, WHOLE))
    ensures w.syncs[A].own[WHOLE] == Grown().(release := Some(UPPER)) && WHOLE in w.syncs[A].ready
    ensures w.syncs[A].ready[WHOLE] == UPPER
  {
    Addresses();
    var v := Cools();
    v := LeavesOut(v);
    v := Passes(v, Asked(), 300, SETTLE);
    v := Configures(v, Asked(), 310, {});
    w := Judges(v, Asked(), 310, {});
    assert Releasing(Asked()) && WHOLE in TwoBlocks(First(), Asked()) && LeasesOf({}, A) == {};
    assert Found(MarksFor(v, A), w.syncs[A], WHOLE, 310, SETTLE);
  }

  /** The half is in the config again, but the agent has not got to the report yet when the planner asks for
      the half once more. */
  lemma ReportIsStale() returns (w: World)
    ensures Reaches(Empty(), w) && Enabled(w, Write(Release(WHOLE, UPPER))) && StaleReport(w, WHOLE, UPPER)
    ensures Harmful(After(w, Write(Release(WHOLE, UPPER))))
  {
    Addresses();
    var c := Grown().(ready := Some(UPPER));
    var v := FindsHalfReady();
    v := ReportsAndKeeps(v, Grown().(release := Some(UPPER)), 310);
    v := Configures(v, c, 310, {});
    w := Plans(v, c, 310);
    assert UPPER.Contains(20) && WHOLE.Contains(20) && WHOLE in Config(w.net, A) && Touches(w.net, A, 20);
    Ends(w, Write(Release(WHOLE, UPPER)));
  }

  /** The half is wanted back before the settle time is over. */
  lemma KeepsHalfAgain() returns (w: World)
    ensures At(w, Grown(), 300) && Config(w.net, A) == {FIRST, WHOLE}
    ensures WHOLE in MarksFor(w, A) && MarksFor(w, A)[WHOLE] == Mark(UPPER, 300)
  {
    w := Cools();
    w := LeavesOut(w);
    w := Controls(w, Asked(), 300, Unrelease(WHOLE));
    w := Configures(w, Grown(), 300, {});
  }

  /** No half has been reported ready. The half is in the config again, but the pass that put it there ended
      before its agent forgot since when it was left out. */
  lemma MarkIsStale() returns (w: World)
    ensures Reaches(Empty(), w) && Enabled(w, Write(Release(WHOLE, UPPER))) && StaleMark(w, WHOLE, UPPER)
    ensures !StaleReport(w, WHOLE, UPPER)
    ensures Harmful(After(w, Write(Release(WHOLE, UPPER))))
  {
    Addresses();
    w := KeepsHalfAgain();
    w := Plans(w, Grown(), 300);
    assert UPPER.Contains(20) && WHOLE.Contains(20) && WHOLE in Config(w.net, A) && Serves(w.net, A, 20, 300);
    Ends(w, Write(Release(WHOLE, UPPER)));
  }

  // ---- a drain ----

  lemma CountsInService() returns (w: World)
    ensures At(w, Grown(), 300) && Config(w.net, A) == {FIRST, WHOLE} && Enabled(w, WriteStatus(A, WHOLE))
    ensures w.syncs[A].own == TwoBlocks(First(), Grown()) && w.syncs[A].ConfigOK()
  {
    var v := Cools();
    v := Configures(v, Grown(), 300, {});
    TwoRanges(First(), Grown(), {});
    w := Judges(v, Grown(), 300, {});
    assert WHOLE in TwoBlocks(First(), Grown());
  }

  /** The drain begins between the read and the status write of a pass. */
  lemma DrainIsUnseen() returns (w: World)
    ensures Reaches(Empty(), w) && Enabled(w, WriteStatus(A, WHOLE)) && WHOLE in w.blocks
    ensures StillListed(w, w.syncs[A], WHOLE, w.blocks[WHOLE],
                        StatusFor(w.syncs[A], WHOLE, w.blocks[WHOLE], w.net.now, w.net.settle))
    ensures Harmful(After(w, WriteStatus(A, WHOLE)))
  {
    Addresses();
    var v := CountsInService();
    w := Controls(v, Grown(), 300, Drain(WHOLE));
    assert WHOLE.Contains(20) && WHOLE in Config(w.net, A) && Covers(Config(w.net, A), 20);
    Ends(w, WriteStatus(A, WHOLE));
  }

  /** A sandbox reads the config before the drain. */
  lemma ReadsConfig() returns (w: World)
    ensures At(w, Grown(), 300) && w.net.sandboxes == {Sandbox(A, {FIRST, WHOLE}, 300)} && MarksFor(w, A) == map[]
  {
    var v := Cools();
    Go(Empty(), v, StartSandbox(A));
    w := After(v, StartSandbox(A));
  }

  function Drained(): NodeBlock { Grown().(drain := true) }

  /** The drained block leaves the config; the sandbox is still about to lease. */
  lemma DrainConfigured() returns (w: World)
    ensures At(w, Drained(), 300) && Config(w.net, A) == {FIRST} && Coming(w.net, A) == {}
    ensures w.net.sandboxes == {Sandbox(A, {FIRST, WHOLE}, 300)} && Enabled(w, WriteStatus(A, WHOLE))
    ensures w.syncs[A].own[WHOLE] == Drained() && WHOLE !in w.syncs[A].ready && w.syncs[A].promote == {}
    ensures w.syncs[A].ConfigOK()
  {
    w := ReadsConfig();
    w := Controls(w, Grown(), 300, Drain(WHOLE));
    var v := Configures(w, Drained(), 300, {});
    w := Judges(v, Drained(), 300, {});
    NothingAsked(v, w, Drained(), {});
  }

  lemma DrainsBlock() returns (w: World)
    ensures At(w, Drained().(phase := Draining, since := 300), 300) && Config(w.net, A) == {FIRST}
    ensures w.net.sandboxes == {Sandbox(A, {FIRST, WHOLE}, 300)}
  {
    Addresses();
    w := DrainConfigured();
    assert WHOLE.Last() < FIRST.base;
    forall a | WHOLE.Contains(a)
      ensures !Covers(Config(w.net, A), a) && !Covers(Coming(w.net, A), a)
    {
      assert !FIRST.Contains(a) && Coming(w.net, A) == {};
    }
    w := Reports(w, Drained(), 300, Drained().(phase := Draining, since := 300));
  }

  /** A pass counts just before the settle time is over. */
  lemma CountsEarly() returns (w: World, x: Sandbox)
    ensures At(w, Drained().(phase := Draining, since := 300), 309) && Enabled(w, WriteStatus(A, WHOLE))
    ensures w.syncs[A].own[WHOLE] == w.blocks[WHOLE] && w.syncs[A].FoundEmpty(WHOLE) && w.syncs[A].ConfigOK()
    ensures x == Sandbox(A, {FIRST, WHOLE}, 300) && x in w.net.sandboxes
  {
    Addresses();
    var b := Drained().(phase := Draining, since := 300);
    x := Sandbox(A, {FIRST, WHOLE}, 300);
    var v := DrainsBlock();
    v := Passes(v, b, 300, SETTLE - 1);
    v := Configures(v, b, 309, {});
    TwoRanges(First(), b, {});
    w := Judges(v, b, 309, {});
    assert WHOLE in TwoBlocks(First(), b);
  }

  /** The sandbox leases an address, and a second passes. */
  lemma LeasesLate() returns (w: World)
    ensures Reaches(Empty(), w) && w.blocks == TwoBlocks(First(), Drained().(phase := Draining, since := 300))
    ensures Enabled(w, WriteStatus(A, WHOLE)) && w.syncs[A].own[WHOLE] == w.blocks[WHOLE]
    ensures w.syncs[A].FoundEmpty(WHOLE) && w.syncs[A].ConfigOK() && Lease(A, 20) in w.net.leases
    ensures w.net.now == 310 && w.net.settle == SETTLE
  {
    Addresses();
    var v, x := CountsEarly();
    assert WHOLE.Contains(20) && WHOLE in x.ranges && Live(v.net, x);
    Go(Empty(), v, TakeLease(x, 20));
    v := After(v, TakeLease(x, 20));
    Go(Empty(), v, Tick(1));
    w := After(v, Tick(1));
  }

  /** It writes just after; meanwhile the sandbox leases an address. */
  lemma LeaseIsUnseen() returns (w: World)
    ensures Reaches(Empty(), w) && Enabled(w, WriteStatus(A, WHOLE)) && WHOLE in w.blocks
    ensures LeasedSince(w, w.syncs[A], WHOLE, w.blocks[WHOLE],
                        StatusFor(w.syncs[A], WHOLE, w.blocks[WHOLE], w.net.now, w.net.settle))
    ensures Harmful(After(w, WriteStatus(A, WHOLE)))
  {
    Addresses();
    w := LeasesLate();
    assert WHOLE.Contains(20) && Lease(A, 20) in w.net.leases;
    Ends(w, WriteStatus(A, WHOLE));
  }

  // ---- a half that is counted too early ----

  /** A sandbox has read the config before the half was asked for, and a pass counts just before the settle time is
      over. */
  lemma CountsHalfEarly() returns (w: World, x: Sandbox)
    ensures At(w, Asked(), 309) && x == Sandbox(A, {FIRST, WHOLE}, 300) && x in w.net.sandboxes
    ensures A in w.syncs && w.syncs[A].stage == HalvesCounted && w.syncs[A].own == TwoBlocks(First(), Asked())
    ensures w.syncs[A].left == {FIRST, WHOLE} && w.syncs[A].HalfFoundEmpty(WHOLE) && w.syncs[A].ConfigOK()
    ensures WHOLE in MarksFor(w, A) && MarksFor(w, A)[WHOLE] == Mark(UPPER, 300)
  {
    Addresses();
    x := Sandbox(A, {FIRST, WHOLE}, 300);
    var v := ReadsConfig();
    v := LeavesOut(v);
    v := Passes(v, Asked(), 300, SETTLE - 1);
    v := Configures(v, Asked(), 309, {});
    TwoRanges(First(), Asked(), {});
    Go(Empty(), v, Count(A));
    v := After(v, Count(A));
    Go(Empty(), v, CountHalves(A));
    w := After(v, CountHalves(A));
    assert WHOLE in w.syncs[A].own && LeasesOf({}, A) == {};
    assert w.syncs[A].own.Keys == {FIRST, WHOLE};
  }

  /** The sandbox leases an address of the half, and a second passes. */
  lemma LeasesHalf() returns (w: World)
    ensures Reaches(Empty(), w) && Lease(A, 20) in w.net.leases && w.blocks == TwoBlocks(First(), Asked())
    ensures A in w.syncs && w.syncs[A].stage == HalvesCounted && w.syncs[A].own == TwoBlocks(First(), Asked())
    ensures w.syncs[A].left == {FIRST, WHOLE} && w.syncs[A].HalfFoundEmpty(WHOLE) && w.syncs[A].ConfigOK()
    ensures WHOLE in MarksFor(w, A) && MarksFor(w, A)[WHOLE] == Mark(UPPER, 300)
    ensures w.net.now == 310 && w.net.settle == SETTLE
  {
    Addresses();
    var v, x := CountsHalfEarly();
    assert WHOLE.Contains(20) && WHOLE in x.ranges && Live(v.net, x);
    Go(Empty(), v, TakeLease(x, 20));
    v := After(v, TakeLease(x, 20));
    Go(Empty(), v, Tick(1));
    w := After(v, Tick(1));
  }

  /** Only then the pass judges. */
  lemma JudgesLate() returns (w: World)
    ensures Reaches(Empty(), w) && Lease(A, 20) in w.net.leases && w.blocks == TwoBlocks(First(), Asked())
    ensures Enabled(w, WriteStatus(A, WHOLE)) && w.syncs[A].own == w.blocks && w.net.settle == SETTLE
    ensures WHOLE in w.syncs[A].ready && w.syncs[A].ready[WHOLE] == UPPER && w.syncs[A].HalfFoundEmpty(WHOLE)
  {
    Addresses();
    var v := LeasesHalf();
    var marks := MarksFor(v, A);
    v := JudgeRest(Empty(), v, A, marks);
    w := PruneAll(Empty(), v, A, marks);
    assert WHOLE in v.syncs[A].own && Releasing(Asked()) && Found(marks, v.syncs[A], WHOLE, 310, SETTLE);
  }

  /** The clock is read after the count: the pass reports the half ready, and a pod has an address of it. */
  lemma HalfLeaseIsUnseen() returns (w: World)
    ensures Reaches(Empty(), w) && Enabled(w, WriteStatus(A, WHOLE)) && WHOLE in w.blocks
    ensures HalfLeasedSince(w, w.syncs[A], WHOLE, w.blocks[WHOLE])
    ensures Harmful(After(w, WriteStatus(A, WHOLE)))
  {
    Addresses();
    w := JudgesLate();
    assert UPPER.Contains(20) && Lease(A, 20) in w.net.leases;
    Ends(w, WriteStatus(A, WHOLE));
  }

  // ---- a node that comes back ----

  lemma NodeReturns() returns (w: World)
    ensures Reaches(Empty(), w) && Enabled(w, AddNode(A)) && Withdraw(WHOLE) in w.todo && !Careful(w, AddNode(A))
    ensures Harmful(After(w, AddNode(A)))
  {
    Addresses();
    w := Grows();
    Go(Empty(), w, DeleteNode(A));
    w := After(w, DeleteNode(A));
    Go(Empty(), w, Plan({Withdraw(WHOLE)}));
    w := After(w, Plan({Withdraw(WHOLE)}));
    Ends(w, AddNode(A));
  }
}
