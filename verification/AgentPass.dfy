/** The pass of an agent over its own blocks as the program makes it: loops over the blocks, a config
    file, a memory of released halves, and one status write after the other, while others change the objects.
    It makes the steps of the protocol in their order. */
module AgentPass {
  import opened Options
  import opened Cidrs
  import opened NodeBlocks
  import opened Protocol
  import opened ApiServer

  /** The blocks of a part of own that go into the config. */
  function RangesOf(own: Objects, names: set<Cidr>, promote: set<Cidr>): set<Cidr> {
    set name | name in names && name in own && InConfig(own[name], name in promote) :: Served(own[name])
  }

  /** The blocks in which none of these leases lies. */
  function EmptyBlocks(own: Objects, seen: set<Lease>): set<Cidr> {
    set n | n in own && NoneIn(seen, own[n].cidr)
  }

  /** The blocks of which a half is asked for in which none of these leases lies. */
  function EmptyHalves(own: Objects, seen: set<Lease>): set<Cidr> {
    set n | n in own && own[n].release.Some? && NoneIn(seen, own[n].release.value)
  }

  /** A step, with what the agent sees of the cluster before and after it. */
  datatype Act = Act(before: World, step: Step, after: World)
  {
    ghost predicate Made() { Enabled(before, step) && after == After(before, step) }

    /** What belongs to the agent is at the next step as this one has left it. */
    ghost predicate Precedes(next: Act) {
      && next.before.net.config == after.net.config && next.before.net.coming == after.net.coming
      && next.before.marks == after.marks && next.before.syncs == after.syncs
    }
  }

  class Agent {
    const node: string
    const settle: int
    // The ranges in the CNI config on disk, and the halves being given back.
    var config: set<Cidr>
    var releasing: Marks
    // How far the pass is, and every step that it has made.
    ghost var sync: Sync
    ghost var acts: seq<Act>

    constructor (node: string, settle: int)
      ensures this.node == node && this.settle == settle && config == {} && releasing == map[] && acts == []
    {
      this.node, this.settle, config, releasing := node, settle, {}, map[];
      sync, acts := Sync(map[], {}, Judged, {}, {}, map[], {}), [];
    }

    /** The blocks of this node. */
    method OwnBlocks(api: Api) returns (own: Objects)
      ensures own == map n | n in api.blocks && api.blocks[n].node == node :: api.blocks[n]
    {
      own := map[];
      var todo := api.blocks.Keys;
      while todo != {}
        invariant todo <= api.blocks.Keys
        invariant own == map n | n in api.blocks && n !in todo && api.blocks[n].node == node :: api.blocks[n]
      {
        var n :| n in todo;
        if api.blocks[n].node == node { own := own[n := api.blocks[n]]; }
        todo := todo - {n};
      }
    }

    /** The ranges that belong into the config. */
    method WantedRanges(own: Objects, promote: set<Cidr>) returns (ranges: set<Cidr>)
      ensures ranges == Ranges(own, promote)
    {
      ranges := {};
      var todo := own.Keys;
      while todo != {}
        invariant todo <= own.Keys
        invariant ranges == RangesOf(own, own.Keys - todo, promote)
      {
        var n :| n in todo;
        ghost var done := own.Keys - todo;
        assert own.Keys - (todo - {n}) == done + {n};
        if InConfig(own[n], n in promote) { ranges := ranges + {Served(own[n])}; }
        assert RangesOf(own, done + {n}, promote)
            == RangesOf(own, done, promote) + if InConfig(own[n], n in promote) then {Served(own[n])} else {};
        todo := todo - {n};
      }
      assert own.Keys - {} == own.Keys;
    }

    /** The mark of one block, new if the half changed and the config on disk leaves it out. */
    method Remember(name: Cidr, half: Cidr, configOK: bool, now: int) returns (mark: Option<Mark>)
      modifies this`releasing
      ensures var after := MarkOf(old(releasing), name, half, configOK, now);
        && mark == (if after.Some? && after.value.half == half then after else None)
        && releasing == if after.Some? then old(releasing)[name := after.value] else old(releasing)
    {
      if name in releasing && releasing[name].half == half {
        assert releasing[name := releasing[name]] == releasing;
        return Some(releasing[name]);
      }
      if !configOK {
        assert name in releasing ==> releasing[name := releasing[name]] == releasing;
        return None;
      }
      releasing := releasing[name := Mark(half, now)];
      mark := Some(Mark(half, now));
    }

    /** Whether the half of one block can be given back: the config has left it out for the settle time, and it held
        no lease when they were counted. */
    method Consider(own: Objects, n: Cidr, empty: set<Cidr>, configOK: bool, now: int) returns (ready: Option<Cidr>)
      requires n in own
      modifies this`releasing
      ensures ready == ReadyHalf(old(releasing), n, own[n], n in empty, configOK, now, settle)
      ensures var mark :=
        if Releasing(own[n]) then MarkOf(old(releasing), n, own[n].release.value, configOK, now) else None;
        releasing == if mark.Some? then old(releasing)[n := mark.value] else old(releasing)
    {
      ready := None;
      if Releasing(own[n]) {
        var half := own[n].release.value;
        var mark := Remember(n, half, configOK, now);
        if mark.Some? && n in empty && now - mark.value.since >= settle { ready := Some(half); }
      }
    }

    /** Forgets the blocks that release nothing any more. */
    method Forget(own: Objects)
      modifies this`releasing
      ensures releasing == Pruned(old(releasing), own)
    {
      ghost var was := releasing;
      var todo := releasing.Keys;
      while todo != {}
        invariant todo <= was.Keys
        invariant releasing == map n | n in was && (n in todo || (n in own && Releasing(own[n]))) :: was[n]
      {
        var n :| n in todo;
        todo := todo - {n};
        if n !in own || !Releasing(own[n]) { releasing := releasing - {n}; }
      }
    }

    /** Writes the status of one block into the object as it is now. What the pass found is only good for the
        range and the release that it has read. */
    method UpdateStatus(api: Api, name: Cidr, read: NodeBlock, promoting: bool, unused: bool, ready: Option<Cidr>,
                        configOK: bool, now: int)
      modifies api
      ensures api.blocks == if name !in old(api.blocks) then old(api.blocks) else
        var b := old(api.blocks)[name];
        var report := if b.cidr != read.cidr then b.ready else if b.release != read.release then None else ready;
        old(api.blocks)[name := StatusAfter(b, report, NextPhase(b, promoting, unused, configOK, now, settle), now)]
    {
      if name !in api.blocks { return; }
      var b := api.blocks[name];
      var phase := NextPhase(b, promoting, unused, configOK, now, settle);
      if b.cidr == read.cidr { b := b.(ready := if b.release == read.release then ready else None); }
      if phase.Some? { b := b.(phase := phase.value, since := now); }
      api.blocks := api.blocks[name := b];
    }

    // ---- the steps ----

    ghost function ComingNow(): map<string, set<Cidr>>
      reads this`sync
    {
      if sync.stage == HasRead && sync.ConfigOK() then map[node := sync.Wanted()] else map[]
    }

    /** What the agent sees of the cluster. */
    ghost function Seen(api: Api, leases: set<Lease>, now: int): World
      reads this, api
    {
      var net := Net(now, settle, map[node := config], ComingNow(), leases, {});
      World(net, {node}, api.blocks, {}, map[node := releasing], map[node := sync], 0)
    }

    /** How far the pass is: the counts have found no lease in these blocks, and none in these halves. */
    ghost predicate Pass(own: Objects, promote: set<Cidr>, stage: Stage, unused: set<Cidr>, empty: set<Cidr>,
                         ready: map<Cidr, Cidr>, left: set<Cidr>)
      reads this`sync
    {
      && sync == Sync(own, promote, stage, sync.seen, sync.seenInHalves, ready, left)
      && unused == EmptyBlocks(own, sync.seen) && empty == EmptyHalves(own, sync.seenInHalves)
    }

    /** Every step since `from` is one of the protocol, and between them nobody else changes what belongs to the
        agent. */
    static ghost predicate Chain(acts: seq<Act>, from: nat) {
      from < |acts| && forall i {:trigger Follows(acts, from, i)} :: from <= i < |acts| ==> Follows(acts, from, i)
    }

    static ghost predicate Follows(acts: seq<Act>, from: nat, i: int)
      requires from <= i < |acts|
    {
      acts[i].Made() && (i > from ==> acts[i - 1].Precedes(acts[i]))
    }

    /** What belongs to the agent is as the last step has left it. */
    ghost predicate Current()
      reads this
    {
      acts != [] &&
        var last := acts[|acts| - 1].after;
        && last.net.config == map[node := config] && last.net.coming == ComingNow()
        && last.marks == map[node := releasing] && last.syncs == map[node := sync]
    }

    /** The objects are as the last step has left them. */
    ghost predicate Landed(api: Api)
      reads this, api
    {
      acts != [] && acts[|acts| - 1].after.blocks == api.blocks
    }

    static lemma ChainMore(acts: seq<Act>, from: nat, act: Act)
      requires Chain(acts, from) && acts[|acts| - 1].Precedes(act) && act.Made()
      ensures Chain(acts + [act], from)
    {
      forall i | from <= i < |acts| + 1 ensures Follows(acts + [act], from, i) {
        if i < |acts| { assert Follows(acts, from, i); }
      }
    }

    /** Records a step that led from what the agent saw before to what it sees now. */
    ghost method Record(before: World, step: Step, after: World, from: nat)
      requires Enabled(before, step) && after == After(before, step)
      requires Chain(acts, from) && acts[|acts| - 1].Precedes(Act(before, step, after))
      modifies this`acts
      ensures acts == old(acts) + [Act(before, step, after)] && Chain(acts, from) && Made(old(acts), acts, [step])
    {
      ChainMore(acts, from, Act(before, step, after));
      acts := acts + [Act(before, step, after)];
    }

    static ghost function StepsOf(acts: seq<Act>): seq<Step> {
      seq(|acts|, i requires 0 <= i < |acts| => acts[i].step)
    }

    /** Since then exactly these steps were made. */
    static ghost predicate Made(before: seq<Act>, acts: seq<Act>, steps: seq<Step>) {
      before <= acts && StepsOf(acts) == StepsOf(before) + steps
    }

    static lemma MadeMore(before: seq<Act>, between: seq<Act>, acts: seq<Act>, first: seq<Step>, second: seq<Step>)
      requires Made(before, between, first) && Made(between, acts, second)
      ensures Made(before, acts, first + second)
    {
    }

    /** The agent lists its blocks. */
    method Begin(api: Api, promote: set<Cidr>, leases: set<Lease>, now: int) returns (own: Objects)
      modifies this`sync, this`acts
      ensures own == OwnOf(old(Seen(api, leases, now)), node) && sync == Sync(own, promote, HasRead, {}, {}, map[], {})
      ensures Made(old(acts), acts, [Read(node, promote)]) && Chain(acts, |old(acts)|) && Current() && Landed(api)
    {
      ghost var before := Seen(api, leases, now);
      own := OwnBlocks(api);
      assert own == OwnOf(before, node);
      sync := Sync(own, promote, HasRead, {}, {}, map[], {});
      assert Act(before, Read(node, promote), Seen(api, leases, now)).Made();
      acts := acts + [Act(before, Read(node, promote), Seen(api, leases, now))];
      assert Follows(acts, |acts| - 1, |acts| - 1);
    }

    /** It writes the config, if there is anything to put into it. */
    method Configure(api: Api, own: Objects, promote: set<Cidr>, leases: set<Lease>, now: int, ghost from: nat)
      returns (configOK: bool)
      requires sync == Sync(own, promote, HasRead, {}, {}, map[], {}) && own != map[] && Chain(acts, from) && Current()
      modifies this`config, this`sync, this`acts
      ensures sync == Sync(own, promote, Configured, {}, {}, map[], {}) && configOK == sync.ConfigOK()
      ensures Made(old(acts), acts, [WriteConfig(node)]) && Chain(acts, from) && Current() && Landed(api)
    {
      ghost var before := Seen(api, leases, now);
      var ranges := WantedRanges(own, promote);
      configOK := ranges != {};
      if configOK { config := ranges; }
      sync := sync.(stage := Configured);
      Record(before, WriteConfig(node), Seen(api, leases, now), from);
    }

    /** It counts the leases of its blocks. */
    method CountBlocks(api: Api, own: Objects, promote: set<Cidr>, leases: set<Lease>, now: int, ghost from: nat)
      returns (unused: set<Cidr>)
      requires sync == Sync(own, promote, Configured, {}, {}, map[], {}) && Chain(acts, from) && Current()
      modifies this`sync, this`acts
      ensures sync == Sync(own, promote, Counted, sync.seen, {}, map[], {}) && unused == EmptyBlocks(own, sync.seen)
      ensures Made(old(acts), acts, [Count(node)]) && Chain(acts, from) && Current() && Landed(api)
    {
      ghost var before := Seen(api, leases, now);
      var seen := LeasesOf(leases, node);
      unused := EmptyBlocks(own, seen);
      sync := sync.(stage := Counted, seen := seen);
      Record(before, Count(node), Seen(api, leases, now), from);
    }

    /** And then those of their halves. */
    method CountInHalves(api: Api, own: Objects, promote: set<Cidr>, unused: set<Cidr>, leases: set<Lease>, now: int,
                         ghost from: nat) returns (empty: set<Cidr>)
      requires sync == Sync(own, promote, Counted, sync.seen, {}, map[], {}) && unused == EmptyBlocks(own, sync.seen)
      requires Chain(acts, from) && Current()
      modifies this`sync, this`acts
      ensures Pass(own, promote, HalvesCounted, unused, empty, map[], own.Keys)
      ensures Made(old(acts), acts, [CountHalves(node)]) && Chain(acts, from) && Current() && Landed(api)
    {
      ghost var before := Seen(api, leases, now);
      var seen := LeasesOf(leases, node);
      empty := EmptyHalves(own, seen);
      sync := sync.(stage := HalvesCounted, seenInHalves := seen, left := own.Keys);
      Record(before, CountHalves(node), Seen(api, leases, now), from);
    }

    /** It judges one block, by the clock as it is then. */
    method JudgeOne(api: Api, own: Objects, promote: set<Cidr>, n: Cidr, unused: set<Cidr>, empty: set<Cidr>,
                    ready: map<Cidr, Cidr>, configOK: bool, ghost leases: set<Lease>, now: int, ghost from: nat)
      returns (more: map<Cidr, Cidr>)
      requires Pass(own, promote, HalvesCounted, unused, empty, ready, sync.left)
      requires configOK == sync.ConfigOK() && n in own && n !in ready && Chain(acts, from) && Current()
      modifies this`releasing, this`sync, this`acts
      ensures sync == old(sync).(ready := more, left := old(sync).left - {n}) && more.Keys <= ready.Keys + {n}
      ensures Made(old(acts), acts, [Judge(node, n)]) && Chain(acts, from) && Current() && Landed(api)
    {
      ghost var before := Seen(api, leases, now);
      more := DecideOne(api, own, n, empty, ready, configOK, leases, now);
      Record(before, Judge(node, n), Seen(api, leases, now), from);
    }

    method DecideOne(ghost api: Api, own: Objects, n: Cidr, empty: set<Cidr>, ready: map<Cidr, Cidr>, configOK: bool,
                     ghost leases: set<Lease>, now: int)
      returns (more: map<Cidr, Cidr>)
      requires sync.own == own && sync.stage == HalvesCounted && sync.ready == ready
      requires empty == EmptyHalves(own, sync.seenInHalves)
      requires configOK == sync.ConfigOK() && n in own && n !in ready
      modifies this`releasing, this`sync
      ensures sync == old(sync).(ready := more, left := old(sync).left - {n}) && more.Keys <= ready.Keys + {n}
      ensures Enabled(old(Seen(api, leases, now)), Judge(node, n))
      ensures Seen(api, leases, now) == After(old(Seen(api, leases, now)), Judge(node, n))
    {
      ghost var before := Seen(api, leases, now);
      var half := Consider(own, n, empty, configOK, now);
      more := WithReady(ready, n, half);
      sync := sync.(ready := more, left := sync.left - {n});
      JudgeMakes(before, Seen(api, leases, now), n, before.syncs[node]);
    }

    function WithReady(ready: map<Cidr, Cidr>, n: Cidr, half: Option<Cidr>): (more: map<Cidr, Cidr>)
      requires n !in ready
      ensures more.Keys <= ready.Keys + {n} && more == if half.Some? then ready[n := half.value] else ready - {n}
    {
      if half.Some? then ready[n := half.value] else ready
    }

    lemma JudgeMakes(w: World, v: World, n: Cidr, y: Sync)
      requires n in y.own && y.stage == HalvesCounted && w.syncs == map[node := y]
      requires v == w.(syncs := v.syncs, marks := v.marks)
      requires var half := Judgement(MarksFor(w, node), y, n, w.net.now, w.net.settle);
        var ready := if half.Some? then y.ready[n := half.value] else y.ready - {n};
        v.syncs == map[node := y.(ready := ready, left := y.left - {n})]
      requires node in w.marks && var mark := MarkFor(MarksFor(w, node), y, n, w.net.now);
        v.marks == w.marks[node := if mark.Some? then MarksFor(w, node)[n := mark.value] else MarksFor(w, node)]
      ensures Enabled(w, Judge(node, n)) && v == After(w, Judge(node, n))
    {
      assert w.marks[node := w.marks[node]] == w.marks;
      assert w.syncs[node := v.syncs[node]] == v.syncs;
    }

    /** It forgets old marks. */
    method PruneMarks(api: Api, own: Objects, promote: set<Cidr>, unused: set<Cidr>, ghost empty: set<Cidr>,
                      ready: map<Cidr, Cidr>, ghost leases: set<Lease>, ghost now: int, ghost from: nat)
      requires Pass(own, promote, HalvesCounted, unused, empty, ready, {}) && Chain(acts, from) && Current()
      modifies this`releasing, this`sync, this`acts
      ensures Pass(own, promote, Judged, unused, empty, ready, own.Keys)
      ensures Made(old(acts), acts, [Prune(node)]) && Chain(acts, from) && Current() && Landed(api)
    {
      ghost var before := Seen(api, leases, now);
      ForgetOld(api, own, leases, now);
      Record(before, Prune(node), Seen(api, leases, now), from);
    }

    method ForgetOld(ghost api: Api, own: Objects, ghost leases: set<Lease>, ghost now: int)
      requires sync.own == own && sync.stage == HalvesCounted && sync.left == {}
      modifies this`releasing, this`sync
      ensures sync == old(sync).(stage := Judged, left := own.Keys)
      ensures Enabled(old(Seen(api, leases, now)), Prune(node))
      ensures Seen(api, leases, now) == After(old(Seen(api, leases, now)), Prune(node))
    {
      Forget(own);
      sync := sync.(stage := Judged, left := own.Keys);
    }

    /** It writes the status of one of its blocks. */
    method WriteOne(api: Api, own: Objects, promote: set<Cidr>, n: Cidr, unused: set<Cidr>, ghost empty: set<Cidr>,
                    ready: map<Cidr, Cidr>, configOK: bool, ghost leases: set<Lease>, now: int, ghost from: nat)
      requires Pass(own, promote, Judged, unused, empty, ready, sync.left) && configOK == sync.ConfigOK()
      requires n in sync.left && n in own && Chain(acts, from) && Current()
      modifies this`sync, this`acts, api
      ensures sync == old(sync).(left := old(sync).left - {n})
      ensures Made(old(acts), acts, [WriteStatus(node, n)]) && Chain(acts, from) && Current() && Landed(api)
    {
      ghost var before := Seen(api, leases, now);
      var promoting := InConfig(own[n], n in promote) && own[n].phase == Pending;
      UpdateStatus(api, n, own[n], promoting, n in unused, Get(ready, n), configOK, now);
      sync := sync.(left := sync.left - {n});
      Record(before, WriteStatus(node, n), Seen(api, leases, now), from);
    }

    // ---- the pass ----

    /** Each of these names once. */
    static ghost predicate Lists(names: seq<Cidr>, all: set<Cidr>) {
      && (forall n :: n in all <==> n in names)
      && (forall i, j :: 0 <= i < j < |names| ==> names[i] != names[j])
    }

    ghost function JudgeSteps(names: seq<Cidr>): seq<Step> {
      seq(|names|, i requires 0 <= i < |names| => Judge(node, names[i]))
    }

    ghost function StatusSteps(names: seq<Cidr>): seq<Step> {
      seq(|names|, i requires 0 <= i < |names| => WriteStatus(node, names[i]))
    }

    /** The steps of a pass that gets that far: it ends early if the config cannot be written, or if the leases of the
        blocks or of the halves cannot be counted. */
    ghost function PassSteps(promote: set<Cidr>, end: Stage, judged: seq<Cidr>, written: seq<Cidr>): seq<Step> {
      if end == HasRead then [Read(node, promote)]
      else if end == Configured then [Read(node, promote), WriteConfig(node)]
      else if end == Counted then [Read(node, promote), WriteConfig(node), Count(node)]
      else [Read(node, promote), WriteConfig(node), Count(node), CountHalves(node)]
           + JudgeSteps(judged) + [Prune(node)] + StatusSteps(written)
    }

    /** The pass: config first, then the counts, the judgements and the statuses, of which some writes fail. Before
        each of its steps others may have changed the objects and the leases, and time passes. */
    method SyncOwn(api: Api, promote: set<Cidr>, leases: nat -> set<Lease>, end: Stage, failed: set<Cidr>,
                   clock: nat -> int, meanwhile: (nat, Objects) -> Objects)
      returns (ghost own: Objects, ghost judged: seq<Cidr>, ghost written: seq<Cidr>)
      modifies this, api
      ensures own == OwnOf(old(Seen(api, leases(0), clock(0))), node)
      ensures Chain(acts, |old(acts)|) && Current() && Landed(api)
      ensures Lists(judged, own.Keys) && Lists(written, own.Keys - failed)
      ensures Made(old(acts), acts, PassSteps(promote, if own == map[] then HasRead else end, judged, written))
    {
      ghost var before := acts;
      var blocks := Begin(api, promote, leases(0), clock(0));
      own := blocks;
      judged := ListNames(own.Keys);
      written := ListNames(own.Keys - failed);
      if blocks != map[] && end != HasRead {
        judged, written := FromConfig(api, blocks, promote, leases, end, failed, clock, meanwhile, before);
      }
    }

    /** The pass from the config on. */
    method FromConfig(api: Api, own: Objects, promote: set<Cidr>, leases: nat -> set<Lease>, end: Stage,
                      failed: set<Cidr>, clock: nat -> int, meanwhile: (nat, Objects) -> Objects,
                      ghost before: seq<Act>)
      returns (ghost judged: seq<Cidr>, ghost written: seq<Cidr>)
      requires sync == Sync(own, promote, HasRead, {}, {}, map[], {}) && own != map[] && end != HasRead
      requires Chain(acts, |before|) && Current() && Made(before, acts, [Read(node, promote)])
      modifies this, api
      ensures Chain(acts, |before|) && Current() && Landed(api)
      ensures Lists(judged, own.Keys) && Lists(written, own.Keys - failed)
      ensures Made(before, acts, PassSteps(promote, end, judged, written))
    {
      judged := ListNames(own.Keys);
      written := ListNames(own.Keys - failed);
      api.blocks := meanwhile(1, api.blocks);
      ghost var begun := acts;
      var configOK := Configure(api, own, promote, leases(1), clock(1), |before|);
      MadeMore(before, begun, acts, [Read(node, promote)], [WriteConfig(node)]);
      if end != Configured {
        judged, written := FromCount(api, own, promote, configOK, leases, end, failed, clock, meanwhile, before);
      }
    }

    method FromCount(api: Api, own: Objects, promote: set<Cidr>, configOK: bool, leases: nat -> set<Lease>, end: Stage,
                     failed: set<Cidr>, clock: nat -> int, meanwhile: (nat, Objects) -> Objects, ghost before: seq<Act>)
      returns (ghost judged: seq<Cidr>, ghost written: seq<Cidr>)
      requires sync == Sync(own, promote, Configured, {}, {}, map[], {}) && configOK == sync.ConfigOK()
      requires end != HasRead && end != Configured && Chain(acts, |before|) && Current()
      requires Made(before, acts, [Read(node, promote), WriteConfig(node)])
      modifies this, api
      ensures Chain(acts, |before|) && Current() && Landed(api)
      ensures Lists(judged, own.Keys) && Lists(written, own.Keys - failed)
      ensures Made(before, acts, PassSteps(promote, end, judged, written))
    {
      judged := ListNames(own.Keys);
      written := ListNames(own.Keys - failed);
      api.blocks := meanwhile(2, api.blocks);
      ghost var configured := acts;
      var unused := CountBlocks(api, own, promote, leases(2), clock(2), |before|);
      MadeMore(before, configured, acts, [Read(node, promote), WriteConfig(node)], [Count(node)]);
      if end != Counted {
        judged, written := FromHalves(api, own, promote, unused, configOK, leases, failed, clock, meanwhile, before);
      }
    }

    /** The second part of a pass, from the leases of the halves. */
    method FromHalves(api: Api, own: Objects, promote: set<Cidr>, unused: set<Cidr>, configOK: bool,
                      leases: nat -> set<Lease>, failed: set<Cidr>, clock: nat -> int,
                      meanwhile: (nat, Objects) -> Objects, ghost before: seq<Act>)
      returns (ghost judged: seq<Cidr>, ghost written: seq<Cidr>)
      requires sync == Sync(own, promote, Counted, sync.seen, {}, map[], {}) && unused == EmptyBlocks(own, sync.seen)
      requires configOK == sync.ConfigOK()
      requires Chain(acts, |before|) && Current()
      requires Made(before, acts, [Read(node, promote), WriteConfig(node), Count(node)])
      modifies this`releasing, this`sync, this`acts, api
      ensures Chain(acts, |before|) && Current() && Landed(api)
      ensures Lists(judged, own.Keys) && Lists(written, own.Keys - failed)
      ensures Made(before, acts, PassSteps(promote, Judged, judged, written))
    {
      ghost var counted := acts;
      api.blocks := meanwhile(3, api.blocks);
      var empty := CountInHalves(api, own, promote, unused, leases(3), clock(3), |before|);
      MadeMore(before, counted, acts, [Read(node, promote), WriteConfig(node), Count(node)], [CountHalves(node)]);
      ghost var halved := acts;
      var ready;
      ready, judged := JudgeAll(api, own, promote, unused, empty, configOK, leases, clock, meanwhile, |before|);
      ghost var first := [Read(node, promote), WriteConfig(node), Count(node), CountHalves(node)];
      MadeMore(before, halved, acts, first, JudgeSteps(judged));
      ghost var considered := acts;
      PruneMarks(api, own, promote, unused, empty, ready, leases(4), clock(4), |before|);
      MadeMore(before, considered, acts, first + JudgeSteps(judged), [Prune(node)]);
      ghost var pruned := acts;
      written := WriteStatuses(api, own, promote, unused, empty, ready, configOK, leases, failed, clock, meanwhile,
                               |before|);
      MadeMore(before, pruned, acts, first + JudgeSteps(judged) + [Prune(node)], StatusSteps(written));
    }

    /** Per block, the half that can be given back. */
    method JudgeAll(api: Api, own: Objects, promote: set<Cidr>, unused: set<Cidr>, empty: set<Cidr>, configOK: bool,
                    leases: nat -> set<Lease>, clock: nat -> int, meanwhile: (nat, Objects) -> Objects, ghost from: nat)
      returns (ready: map<Cidr, Cidr>, ghost judged: seq<Cidr>)
      requires Pass(own, promote, HalvesCounted, unused, empty, map[], own.Keys)
      requires configOK == sync.ConfigOK() && Chain(acts, from) && Current() && Landed(api)
      modifies this`releasing, this`sync, this`acts, api
      ensures Pass(own, promote, HalvesCounted, unused, empty, ready, {}) && Lists(judged, own.Keys)
      ensures Made(old(acts), acts, JudgeSteps(judged)) && Chain(acts, from) && Current() && Landed(api)
    {
      ready, judged := map[], [];
      ghost var before := acts;
      var todo, i := own.Keys, 4;
      while todo != {}
        invariant todo <= own.Keys && ready.Keys !! todo && Lists(judged, own.Keys - todo)
        invariant Pass(own, promote, HalvesCounted, unused, empty, ready, todo)
        invariant Made(before, acts, JudgeSteps(judged)) && Chain(acts, from) && Current() && Landed(api)
      {
        var n :| n in todo;
        todo := todo - {n};
        api.blocks := meanwhile(i, api.blocks);
        ghost var between := acts;
        ready := JudgeOne(api, own, promote, n, unused, empty, ready, configOK, leases(i), clock(i), from);
        MadeMore(before, between, acts, JudgeSteps(judged), [Judge(node, n)]);
        assert JudgeSteps(judged) + [Judge(node, n)] == JudgeSteps(judged + [n]);
        judged, i := judged + [n], i + 1;
      }
    }

    method WriteStatuses(api: Api, own: Objects, promote: set<Cidr>, unused: set<Cidr>, ghost empty: set<Cidr>,
                         ready: map<Cidr, Cidr>, configOK: bool, ghost leases: nat -> set<Lease>, failed: set<Cidr>,
                         clock: nat -> int, meanwhile: (nat, Objects) -> Objects, ghost from: nat)
      returns (ghost written: seq<Cidr>)
      requires Pass(own, promote, Judged, unused, empty, ready, own.Keys) && configOK == sync.ConfigOK()
      requires Chain(acts, from) && Current() && Landed(api)
      modifies this`sync, this`acts, api
      ensures Lists(written, own.Keys - failed)
      ensures Made(old(acts), acts, StatusSteps(written)) && Chain(acts, from) && Current() && Landed(api)
    {
      written := [];
      ghost var before := acts;
      var todo, i: nat := own.Keys - failed, |own| + 5;
      while todo != {}
        invariant todo <= own.Keys - failed && todo <= sync.left && Lists(written, own.Keys - failed - todo)
        invariant Pass(own, promote, Judged, unused, empty, ready, sync.left)
        invariant Made(before, acts, StatusSteps(written)) && Chain(acts, from) && Current() && Landed(api)
      {
        var n :| n in todo;
        todo := todo - {n};
        api.blocks := meanwhile(i, api.blocks);
        ghost var between := acts;
        WriteOne(api, own, promote, n, unused, empty, ready, configOK, leases(i), clock(i), from);
        MadeMore(before, between, acts, StatusSteps(written), [WriteStatus(node, n)]);
        assert StatusSteps(written) + [WriteStatus(node, n)] == StatusSteps(written + [n]);
        written, i := written + [n], i + 1;
      }
    }

    /** The names in some order. */
    ghost method ListNames(all: set<Cidr>) returns (names: seq<Cidr>)
      ensures Lists(names, all)
    {
      names := [];
      ghost var todo := all;
      while todo != {}
        invariant todo <= all && Lists(names, all - todo)
        decreases todo
      {
        ghost var n :| n in todo;
        names, todo := names + [n], todo - {n};
      }
    }
  }

  function Get(ready: map<Cidr, Cidr>, n: Cidr): Option<Cidr> {
    if n in ready then Some(ready[n]) else None
  }
}
