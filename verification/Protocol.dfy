/** The life of a NodeBlock as a step system: the controller plans and then writes one object at a time, each agent
    passes over its own blocks by reading them, writing the CNI config, counting leases, judging which halves are
    ready and writing one status after the other, and pods lease addresses out of whatever config their sandbox read.
    Anything may happen between these steps. The API server, the configs on disk and the lease files are the state.
    The clock is shared and counts whole seconds. */
module Protocol {
  import opened Options
  import opened Cidrs
  import opened NodeBlocks

  datatype Lease = Lease(node: string, address: nat)

  /** A pod sandbox that has read the CNI config but holds no address yet. */
  datatype Sandbox = Sandbox(node: string, ranges: set<Cidr>, read: int)

  /** What happens on the nodes: their configs, the configs that agents are about to write, the leases and the
      pending sandboxes. settle is how long a sandbox may still act on the config it read (DrainSettle). */
  datatype Net = Net(now: int, settle: int, config: map<string, set<Cidr>>, coming: map<string, set<Cidr>>,
                     leases: set<Lease>, sandboxes: set<Sandbox>)

  datatype Stage = HasRead | Configured | Counted | HalvesCounted | Judged

  /** A pass of an agent that is under way: its blocks as it read them, the Pending ones it promotes, then the leases
      that it saw when it counted those of the blocks and those of their halves, the halves that it takes for
      ready, and the blocks left to judge and, after that, the statuses left to write. */
  datatype Sync = Sync(own: Objects, promote: set<Cidr>, stage: Stage,
                       seen: set<Lease>, seenInHalves: set<Lease>, ready: map<Cidr, Cidr>, left: set<Cidr>)
  {
    /** The count found no lease in the block. */
    predicate FoundEmpty(n: Cidr) { n in own && NoneIn(seen, own[n].cidr) }

    /** It found none in the half that is asked for. */
    predicate HalfFoundEmpty(n: Cidr) {
      n in own && own[n].release.Some? && NoneIn(seenInHalves, own[n].release.value)
    }

    /** The lease was counted for the block. */
    predicate Counted(n: Cidr, l: Lease) { l in seen && n in own && own[n].cidr.Contains(l.address) }

    function Wanted(): set<Cidr> { Ranges(own, promote) }

    /** The config on disk is the one this pass wrote. */
    predicate ConfigOK() { Wanted() != {} }
  }

  /** A write that the controller still has to make in its pass. The Stamp operations are the second,
      status, writes after a create or a split. */
  datatype Op =
    | Create(node: string, cidr: Cidr) | StampPending(name: Cidr)
    | Drain(name: Cidr) | Undrain(name: Cidr)
    | Release(name: Cidr, half: Cidr) | Unrelease(name: Cidr)
    | Split(name: Cidr) | StampSplit(name: Cidr) | CreateRest(node: string, cidr: Cidr) | StampRest(name: Cidr)
    | Withdraw(name: Cidr) | Delete(name: Cidr)
  {
    predicate Creates() { Create? || CreateRest? }
  }

  /** marks and syncs are the memory of the agents. */
  datatype World = World(net: Net, nodes: set<string>, blocks: Objects, todo: set<Op>,
                         marks: map<string, Marks>, syncs: map<string, Sync>, quarantine: int)

  datatype Step =
    | Tick(seconds: nat)
    | AddNode(node: string) | DeleteNode(node: string)
    // The controller decides on the writes of a pass; makes one of them; or gives one up, because it
    // crashed, the write failed or the object changed meanwhile.
    | Plan(ops: set<Op>) | Write(op: Op) | Drop(op: Op)
    // An agent reads its blocks, of which it promotes some Pending ones whose routes are acknowledged; writes
    // the config; counts the leases of the blocks and then of their halves; judges by the clock, once or more,
    // whether the half of one block is ready; drops the marks of blocks that release nothing; and writes the
    // status of one block. A pass ends when the next one begins, however far it got. Restart forgets the marks and
    // the pass.
    | Read(node: string, promote: set<Cidr>) | WriteConfig(node: string)
    | Count(node: string) | CountHalves(node: string) | Judge(node: string, name: Cidr) | Prune(node: string)
    | WriteStatus(node: string, name: Cidr) | Restart(node: string)
    | StartSandbox(node: string) | TakeLease(sandbox: Sandbox, address: nat) | EndLease(lease: Lease)

  // ---- the nodes ----

  function Config(net: Net, node: string): set<Cidr> {
    if node in net.config then net.config[node] else {}
  }

  function Coming(net: Net, node: string): set<Cidr> {
    if node in net.coming then net.coming[node] else {}
  }

  predicate Live(net: Net, s: Sandbox) {
    net.now - s.read < net.settle
  }

  predicate NoneIn(leases: set<Lease>, c: Cidr) {
    forall l :: l in leases ==> !c.Contains(l.address)
  }

  /** The lease files of a node. */
  function LeasesOf(leases: set<Lease>, node: string): set<Lease> {
    set l | l in leases && l.node == node
  }

  predicate Unused(leases: set<Lease>, node: string, c: Cidr) {
    NoneIn(LeasesOf(leases, node), c)
  }

  // ---- who may still use an address ----

  ghost predicate SandboxReaches(net: Net, node: string, a: nat, after: int) {
    exists x :: x in net.sandboxes && x.node == node && Live(net, x) && Covers(x.ranges, a) && x.read > after
  }

  ghost predicate SandboxHas(net: Net, node: string, a: nat) {
    exists x :: x in net.sandboxes && x.node == node && Live(net, x) && Covers(x.ranges, a)
  }

  /** The node can still hand the address out: by its config, or by a config read after a given time. */
  ghost predicate Serves(net: Net, node: string, a: nat, after: int) {
    Covers(Config(net, node), a) || Covers(Coming(net, node), a) || SandboxReaches(net, node, a, after)
  }

  /** The node has the address in its config, in a pending sandbox or in a lease. */
  ghost predicate Touches(net: Net, node: string, a: nat) {
    Covers(Config(net, node), a) || Covers(Coming(net, node), a) || Lease(node, a) in net.leases
      || SandboxHas(net, node, a)
  }

  /** The node has nothing left in c. */
  ghost predicate Clear(net: Net, node: string, c: Cidr) {
    forall a :: c.Contains(a) ==> !Touches(net, node, a)
  }

  /** Since the given time the node's config has left c out. */
  ghost predicate LeftOut(net: Net, node: string, c: Cidr, since: int) {
    forall a :: c.Contains(a) ==> !Serves(net, node, a, since)
  }

  // ---- the controller ----

  predicate ApartFromBlocks(w: World, c: Cidr) {
    forall name :: name in w.blocks ==> Disjoint(w.blocks[name].cidr, c)
  }

  /** A block that its node serves and no change is under way for. */
  predicate InService(w: World, n: Cidr) {
    n in w.blocks && w.blocks[n].phase == Active && !w.blocks[n].drain && w.blocks[n].node in w.nodes
  }

  predicate SplitReady(b: NodeBlock) {
    b.phase == Active && !b.drain && b.release.Some? && b.ready == b.release
  }

  /** A change that the planner waits for. */
  predicate InFlight(b: NodeBlock) {
    b.phase == Pending || (b.phase == Draining && !b.drain)
  }

  predicate IsDraining(b: NodeBlock) {
    b.drain && (b.phase == Active || b.phase == Draining)
  }

  predicate IsReleasing(b: NodeBlock) {
    b.phase == Active && !b.drain && b.release.Some?
  }

  ghost predicate NothingInFlight(w: World, node: string) {
    forall m :: m in w.blocks && w.blocks[m].node == node ==> !InFlight(w.blocks[m])
  }

  ghost predicate NothingReleased(w: World, node: string) {
    forall m :: m in w.blocks && w.blocks[m].node == node ==> !IsReleasing(w.blocks[m])
  }

  ghost predicate NothingDrained(w: World, node: string) {
    forall m :: m in w.blocks && w.blocks[m].node == node ==> !IsDraining(w.blocks[m])
  }

  /** What the planner may ask for, whatever its numbers. The pool is rebuilt from the NodeBlocks, so that a
      new block is apart from all of them (Rebuild.NewBlocksAreApart). For a node with a change in flight nothing is
      planned; then halves that are ready are split off; a node that is short keeps what it was giving
      back, takes back what it was draining, and only then gets new blocks; one that is not gives something
      back, unless it is about to already. */
  ghost predicate Planned(w: World, op: Op) {
    match op
    case Create(node, c) =>
      && node in w.nodes && Aligned(c) && ApartFromBlocks(w, c)
      && NothingInFlight(w, node) && NothingReleased(w, node) && NothingDrained(w, node)
    case Drain(n) => InService(w, n) && NothingInFlight(w, w.blocks[n].node) && NothingReleased(w, w.blocks[n].node)
    case Undrain(n) =>
      && n in w.blocks && w.blocks[n].node in w.nodes && IsDraining(w.blocks[n])
      && NothingInFlight(w, w.blocks[n].node) && NothingReleased(w, w.blocks[n].node)
    case Release(n, half) =>
      && InService(w, n) && IsHalf(half, w.blocks[n].cidr)
      && NothingInFlight(w, w.blocks[n].node) && NothingReleased(w, w.blocks[n].node)
    case Unrelease(n) =>
      && InService(w, n) && w.blocks[n].release.Some? && NothingInFlight(w, w.blocks[n].node)
      && forall m :: m in w.blocks && w.blocks[m].node == w.blocks[n].node ==> !SplitReady(w.blocks[m])
    case Split(n) => InService(w, n) && SplitReady(w.blocks[n]) && NothingInFlight(w, w.blocks[n].node)
    case Withdraw(n) => n in w.blocks && w.blocks[n].phase != Quarantined && w.blocks[n].node !in w.nodes
    case Delete(n) => n in w.blocks && w.blocks[n].phase == Quarantined && w.net.now - w.blocks[n].since >= w.quarantine
    case _ => false
  }

  ghost predicate SameName(o: Op, p: Op) {
    !o.Creates() && !p.Creates() && o.name == p.name
  }

  /** m is another block that the node of n serves. */
  predicate Neighbour(w: World, n: Cidr, m: Cidr) {
    && n in w.blocks && m in w.blocks && m != n && w.blocks[m].node == w.blocks[n].node
    && w.blocks[m].phase == Active && !w.blocks[m].drain
  }

  /** A pass makes at most one change to a block, creates blocks that are apart, and drains no block without
      leaving its node another one. */
  ghost predicate PlannedTogether(w: World, ops: set<Op>) {
    && (forall op :: op in ops ==> Planned(w, op))
    && (forall o, p {:trigger SameName(o, p)} :: o in ops && p in ops && o != p ==> !SameName(o, p))
    && (forall o, p :: o in ops && p in ops && o != p && o.Create? && p.Create? ==> Disjoint(o.cidr, p.cidr))
    && (forall op :: op in ops && op.Drain? ==> exists m :: Neighbour(w, op.name, m) && Drain(m) !in ops)
  }

  function With(w: World, name: Cidr, b: NodeBlock, more: set<Op>): World {
    w.(blocks := w.blocks[name := b], todo := w.todo + more)
  }

  /** A new NodeBlock, unless the name is taken. */
  function AfterCreate(w: World, node: string, c: Cidr, drain: bool, stamp: Op): World {
    if c in w.blocks then w
    else With(w, c, NodeBlock(node, c, drain, None, Pending, None, w.net.now), {stamp})
  }

  /** First write of a split: the block shrinks to the half it keeps. The other half has no owner until
      it gets a NodeBlock of its own. */
  function AfterSplit(w: World, n: Cidr, b: NodeBlock): World {
    if b.release.None? || b.ready != b.release then w
    else
      var keep := OtherHalf(b.cidr, b.release.value);
      if keep.None? then With(w, n, b.(release := None), {})
      else With(w, n, b.(cidr := keep.value, release := None), {StampSplit(n), CreateRest(b.node, b.release.value)})
  }

  /** A write to the existing object n, whose current value is b. */
  function AfterUpdate(w: World, n: Cidr, b: NodeBlock, op: Op): World {
    var now := w.net.now;
    match op
    case StampPending(_) => if b.phase == Pending then With(w, n, b.(since := now), {}) else w
    case StampRest(_) =>
      if b.phase == Pending && b.drain then With(w, n, b.(phase := Quarantined, since := now), {}) else w
    case Drain(_) => With(w, n, b.(drain := true), {})
    case Undrain(_) => With(w, n, b.(drain := false), {})
    case Release(_, half) => With(w, n, b.(release := Some(half)), {})
    case Unrelease(_) => With(w, n, b.(release := None), {})
    case Split(_) => AfterSplit(w, n, b)
    case StampSplit(_) => With(w, n, b.(ready := None, since := now), {})
    case Withdraw(_) => With(w, n, b.(phase := Quarantined, since := now), {})
    case _ => w
  }

  /** One write. A write to an object that is gone does nothing. */
  function AfterWrite(v: World, op: Op): World {
    var w := v.(todo := v.todo - {op});
    if op.Create? then AfterCreate(w, op.node, op.cidr, false, StampPending(op.cidr))
    else if op.CreateRest? then AfterCreate(w, op.node, op.cidr, true, StampRest(op.cidr))
    else if op.name !in w.blocks then w
    else if op.Delete? then w.(blocks := w.blocks - {op.name})
    else AfterUpdate(w, op.name, w.blocks[op.name], op)
  }

  // ---- an agent ----

  function OwnOf(w: World, node: string): Objects {
    map n | n in w.blocks && w.blocks[n].node == node :: w.blocks[n]
  }

  function MarksFor(w: World, node: string): Marks {
    if node in w.marks then w.marks[node] else map[]
  }

  /** The pass as it begins. What it will write into the config follows from the blocks as they are now. */
  function AfterRead(w: World, node: string, promote: set<Cidr>): World {
    var y := Sync(OwnOf(w, node), promote, HasRead, {}, {}, map[], {});
    w.(syncs := w.syncs[node := y],
       net := w.net.(coming := if y.ConfigOK() then w.net.coming[node := y.Wanted()] else w.net.coming - {node}))
  }

  /** The config is rewritten, unless there is nothing to put into it. */
  function AfterConfig(w: World, node: string, y: Sync): World {
    w.(syncs := w.syncs[node := y.(stage := Configured)],
       net := w.net.(config := if y.ConfigOK() then w.net.config[node := y.Wanted()] else w.net.config,
                     coming := w.net.coming - {node}))
  }

  function AfterCount(w: World, node: string, y: Sync): World {
    w.(syncs := w.syncs[node := y.(stage := Counted, seen := LeasesOf(w.net.leases, node))])
  }

  function AfterCountHalves(w: World, node: string, y: Sync): World {
    w.(syncs := w.syncs[node :=
      y.(stage := HalvesCounted, seenInHalves := LeasesOf(w.net.leases, node), left := y.own.Keys)])
  }

  /** The mark of the block by this pass. */
  function MarkFor(marks: Marks, y: Sync, n: Cidr, now: int): Option<Mark>
    requires n in y.own
  {
    if Releasing(y.own[n]) then MarkOf(marks, n, y.own[n].release.value, y.ConfigOK(), now) else None
  }

  /** The half of the block that the pass takes for ready, by what it has counted and by the clock now. */
  function Judgement(marks: Marks, y: Sync, n: Cidr, now: int, settle: int): Option<Cidr>
    requires n in y.own
  {
    ReadyHalf(marks, n, y.own[n], y.HalfFoundEmpty(n), y.ConfigOK(), now, settle)
  }

  function AfterJudge(w: World, node: string, y: Sync, n: Cidr): World
    requires n in y.own
  {
    var marks := MarksFor(w, node);
    var half, mark := Judgement(marks, y, n, w.net.now, w.net.settle), MarkFor(marks, y, n, w.net.now);
    var ready := if half.Some? then y.ready[n := half.value] else y.ready - {n};
    w.(syncs := w.syncs[node := y.(ready := ready, left := y.left - {n})],
       marks := if mark.Some? then w.marks[node := marks[n := mark.value]] else w.marks)
  }

  /** Marks of blocks that release nothing any more are dropped. */
  function Pruned(marks: Marks, own: Objects): Marks {
    map n | n in marks && n in own && Releasing(own[n]) :: marks[n]
  }

  function AfterPrune(w: World, node: string, y: Sync): World {
    w.(syncs := w.syncs[node := y.(stage := Judged, left := y.own.Keys)],
       marks := w.marks[node := Pruned(MarksFor(w, node), y.own)])
  }

  /** The report for a block: what the pass found is only good for the range and the release it was found for. */
  function ReportFor(y: Sync, n: Cidr, b: NodeBlock): Option<Cidr>
    requires n in y.own
  {
    if b.cidr != y.own[n].cidr then b.ready
    else if b.release != y.own[n].release then None
    else if n in y.ready then Some(y.ready[n]) else None
  }

  /** The object b of this name with the status that the pass writes. It is not the one the pass has read. */
  function StatusFor(y: Sync, n: Cidr, b: NodeBlock, now: int, settle: int): NodeBlock
    requires n in y.own
  {
    var promoting := InConfig(y.own[n], n in y.promote) && y.own[n].phase == Pending;
    StatusAfter(b, ReportFor(y, n, b), NextPhase(b, promoting, y.FoundEmpty(n), y.ConfigOK(), now, settle), now)
  }

  function AfterStatus(w: World, node: string, y: Sync, n: Cidr): World
    requires n in y.own
  {
    var v := w.(syncs := w.syncs[node := y.(left := y.left - {n})]);
    if n in w.blocks then v.(blocks := w.blocks[n := StatusFor(y, n, w.blocks[n], w.net.now, w.net.settle)]) else v
  }

  // ---- steps ----

  ghost predicate Enabled(w: World, s: Step) {
    match s
    case Tick(_) => true
    case AddNode(node) => node !in w.nodes
    case DeleteNode(node) => node in w.nodes
    case Plan(ops) => w.todo == {} && PlannedTogether(w, ops)
    case Write(op) => op in w.todo
    case Drop(op) => op in w.todo
    case Read(node, _) => node in w.nodes
    case WriteConfig(node) => node in w.syncs && w.syncs[node].stage == HasRead && w.syncs[node].own != map[]
    case Count(node) => node in w.syncs && w.syncs[node].stage == Configured
    case CountHalves(node) => node in w.syncs && w.syncs[node].stage == Counted
    case Judge(node, n) => node in w.syncs && w.syncs[node].stage == HalvesCounted && n in w.syncs[node].own
    case Prune(node) => node in w.syncs && w.syncs[node].stage == HalvesCounted && w.syncs[node].left == {}
    case WriteStatus(node, n) =>
      node in w.syncs && w.syncs[node].stage == Judged && n in w.syncs[node].left && n in w.syncs[node].own
    case Restart(node) => node in w.nodes
    case StartSandbox(node) => node in w.nodes
    case TakeLease(x, a) => x in w.net.sandboxes && Live(w.net, x) && Covers(x.ranges, a)
      && Lease(x.node, a) !in w.net.leases
    case EndLease(l) => l in w.net.leases
  }

  function After(w: World, s: Step): World
    requires s.WriteConfig? || s.Count? || s.CountHalves? || s.Prune? ==> s.node in w.syncs
    requires s.Judge? || s.WriteStatus? ==> s.node in w.syncs && s.name in w.syncs[s.node].own
  {
    var net := w.net;
    match s
    case Tick(d) => w.(net := net.(now := net.now + d))
    case AddNode(node) => w.(nodes := w.nodes + {node})
    case DeleteNode(node) =>
      w.(nodes := w.nodes - {node}, marks := w.marks - {node}, syncs := w.syncs - {node},
         net := net.(config := net.config - {node}, coming := net.coming - {node},
                     leases := (set l | l in net.leases && l.node != node),
                     sandboxes := (set x | x in net.sandboxes && x.node != node)))
    case Plan(ops) => w.(todo := ops)
    case Write(op) => AfterWrite(w, op)
    case Drop(op) => w.(todo := w.todo - {op})
    case Read(node, promote) => AfterRead(w, node, promote)
    case WriteConfig(node) => AfterConfig(w, node, w.syncs[node])
    case Count(node) => AfterCount(w, node, w.syncs[node])
    case CountHalves(node) => AfterCountHalves(w, node, w.syncs[node])
    case Judge(node, n) => AfterJudge(w, node, w.syncs[node], n)
    case Prune(node) => AfterPrune(w, node, w.syncs[node])
    case WriteStatus(node, n) => AfterStatus(w, node, w.syncs[node], n)
    case Restart(node) =>
      w.(marks := w.marks - {node}, syncs := w.syncs - {node}, net := net.(coming := net.coming - {node}))
    case StartSandbox(node) => w.(net := net.(sandboxes := net.sandboxes + {Sandbox(node, Config(net, node), net.now)}))
    case TakeLease(x, a) => w.(net := net.(leases := net.leases + {Lease(x.node, a)}, sandboxes := net.sandboxes - {x}))
    case EndLease(l) => w.(net := net.(leases := net.leases - {l}))
  }

  // ---- what can go wrong ----

  /** The status still reports the half ready, from an earlier release, but the node has it in use again. */
  ghost predicate StaleReport(w: World, n: Cidr, half: Cidr) {
    n in w.blocks && w.blocks[n].ready == Some(half) && !Clear(w.net, w.blocks[n].node, half)
  }

  /** The agent still remembers, from an earlier release, since when its config has left the half out, but the
      half has been in the config again. */
  ghost predicate StaleMark(w: World, n: Cidr, half: Cidr) {
    n in w.blocks &&
      var node, marks := w.blocks[n].node, MarksFor(w, w.blocks[n].node);
      n in marks && marks[n].half == half && !LeftOut(w.net, node, half, marks[n].since)
  }

  /** The config lists some of the block, or is about to. */
  ghost predicate Listed(net: Net, b: NodeBlock) {
    exists a :: b.cidr.Contains(a) && (Covers(Config(net, b.node), a) || Covers(Coming(net, b.node), a))
  }

  /** The pass moves the block to Draining although the config lists it: it read the block, or another one of that
      name, before the controller asked for the drain. */
  ghost predicate StillListed(w: World, y: Sync, n: Cidr, b: NodeBlock, next: NodeBlock)
    requires n in y.own
  {
    && b.phase == Active && next.phase == Draining && Listed(w.net, b)
    && !(y.own[n].drain && y.own[n].node == b.node && y.own[n].cidr == b.cidr)
  }

  /** The pass moves the block to Quarantined, and a pod has leased an address of it that the pass has not counted. */
  ghost predicate LeasedSince(w: World, y: Sync, n: Cidr, b: NodeBlock, next: NodeBlock) {
    b.phase == Draining && next.phase == Quarantined
      && exists l :: l in w.net.leases && l.node == b.node && b.cidr.Contains(l.address) && !y.Counted(n, l)
  }

  /** The pass reports the half of the block ready, and a pod has leased an address of it that the pass has not
      counted: the settle time ran out only after the count. */
  ghost predicate HalfLeasedSince(w: World, y: Sync, n: Cidr, b: NodeBlock)
    requires n in y.own
  {
    && n in y.ready && b.cidr == y.own[n].cidr && b.release == y.own[n].release
    && exists l :: l in w.net.leases && l.node == b.node && y.ready[n].Contains(l.address) && l !in y.seenInHalves
  }

  /** What the protocol relies on beyond its own rules. A half is not asked for again before the agent has
      forgotten that it was ready, or since when it was left out. Between the read and the status write of a
      pass no drain begins that the pass does not see, and no lease that its counts have not seen is taken in
      a block that it quarantines or a half that it reports ready. And a node does not come back under its name while
      the controller is about to withdraw blocks of it that are in use. */
  ghost predicate Careful(w: World, s: Step) {
    match s
    case Write(Release(n, half)) => !StaleReport(w, n, half) && !StaleMark(w, n, half)
    case WriteStatus(node, n) =>
      node in w.syncs && n in w.syncs[node].own && n in w.blocks ==>
        var next := StatusFor(w.syncs[node], n, w.blocks[n], w.net.now, w.net.settle);
        && !StillListed(w, w.syncs[node], n, w.blocks[n], next) && !LeasedSince(w, w.syncs[node], n, w.blocks[n], next)
        && !HalfLeasedSince(w, w.syncs[node], n, w.blocks[n])
    case AddNode(node) =>
      forall op :: op in w.todo && op.Withdraw? && op.name in w.blocks && w.blocks[op.name].node == node ==>
        w.blocks[op.name].drain || w.blocks[op.name].phase == Quarantined
    case _ => true
  }

  ghost predicate Init(w: World) {
    && w.nodes == {} && w.blocks == map[] && w.todo == {} && w.marks == map[] && w.syncs == map[]
    && w.net.config == map[] && w.net.coming == map[] && w.net.leases == {} && w.net.sandboxes == {}
  }

  /** The steps can be taken one after the other from w and end in v. */
  ghost predicate Leads(w: World, steps: seq<Step>, v: World)
    decreases |steps|
  {
    if steps == [] then v == w else Enabled(w, steps[0]) && Leads(After(w, steps[0]), steps[1..], v)
  }

  ghost predicate AllCareful(w: World, steps: seq<Step>)
    decreases |steps|
  {
    steps != [] ==> Enabled(w, steps[0]) && Careful(w, steps[0]) && AllCareful(After(w, steps[0]), steps[1..])
  }

  /** No address is leased on two nodes. */
  ghost predicate NoSharedLease(net: Net) {
    forall l, m :: l in net.leases && m in net.leases && l.address == m.address ==> l == m
  }

  /** The address is in a block of the node that is not on its way back to the pool. */
  ghost predicate OwnedAddress(w: World, node: string, a: nat) {
    exists n ::
      && n in w.blocks && w.blocks[n].node == node && w.blocks[n].cidr.Contains(a)
      && w.blocks[n].phase != Quarantined
  }

  ghost predicate Safe(w: World) {
    && NoSharedLease(w.net)
    && (forall l :: l in w.net.leases ==> OwnedAddress(w, l.node, l.address))
    && (forall node, a :: Covers(Config(w.net, node), a) ==> OwnedAddress(w, node, a))
  }
}
