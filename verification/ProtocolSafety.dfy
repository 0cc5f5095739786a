/** What every step of the NodeBlock protocol keeps, and what follows for whole runs. */
module ProtocolSafety {
  import opened Options
  import opened Cidrs
  import opened NodeBlocks
  import opened Protocol

  // ---- the invariant ----

  ghost predicate Aside(b: NodeBlock) {
    b.phase == Quarantined || (b.phase == Pending && b.drain)
  }

  /** A half that is asked for and reported ready has nothing left in it. */
  ghost predicate ReportOk(net: Net, b: NodeBlock) {
    b.ready.Some? && b.release == b.ready && IsHalf(b.ready.value, b.cidr) ==> Clear(net, b.node, b.ready.value)
  }

  ghost predicate BlockOk(net: Net, n: Cidr, b: NodeBlock) {
    && Aligned(n) && Aligned(b.cidr) && Within(b.cidr, n)
    && (Aside(b) ==> Clear(net, b.node, b.cidr))
    && (b.phase == Draining && b.drain ==> LeftOut(net, b.node, b.cidr, b.since))
    && (b.phase == Pending ==> b.release.None?)
    && ReportOk(net, b)
  }

  /** A half that is asked for has been left out since its mark. */
  ghost predicate MarkOk(net: Net, node: string, b: NodeBlock, m: Mark) {
    b.node == node && b.release == Some(m.half) && IsHalf(m.half, b.cidr) ==> LeftOut(net, node, m.half, m.since)
  }

  ghost predicate MarksOk(w: World) {
    forall node, n :: (node in w.marks && n in w.marks[node] && n in w.blocks) ==>
      MarkOk(w.net, node, w.blocks[n], w.marks[node][n])
  }

  /** The config is the one that the pass wants, or is about to write. */
  ghost predicate ConfigFits(net: Net, node: string, y: Sync) {
    if y.stage == HasRead then Coming(net, node) == y.Wanted()
    else Coming(net, node) == {} && (y.ConfigOK() ==> Config(net, node) == y.Wanted())
  }

  /** Nothing on the node can lease an address of c any more. */
  ghost predicate Unreached(net: Net, node: string, c: Cidr) {
    forall t :: LeftOut(net, node, c, t)
  }

  ghost predicate ReadyOk(net: Net, node: string, y: Sync) {
    && (y.stage == HalvesCounted || y.stage == Judged || y.ready == map[])
    && forall n :: n in y.ready ==>
      && n in y.own && Releasing(y.own[n]) && y.own[n].release == Some(y.ready[n])
      && Unreached(net, node, y.ready[n]) && NoneIn(y.seenInHalves, y.ready[n])
  }

  /** What the pass has read is still good for what it is going to do. */
  ghost predicate SyncOk(net: Net, node: string, y: Sync, marks: Marks) {
    && BlocksApart(y.own)
    && (forall n {:trigger y.own[n]} :: n in y.own ==> Aligned(y.own[n].cidr) && y.own[n].node == node)
    && ConfigFits(net, node, y)
    && ReadyOk(net, node, y)
    && (forall n :: n in marks && n in y.own ==> MarkOk(net, node, y.own[n], marks[n]))
  }

  ghost predicate SyncsOk(w: World) {
    && (forall node {:trigger w.syncs[node]} :: node in w.syncs ==>
      SyncOk(w.net, node, w.syncs[node], MarksFor(w, node)))
    && (forall node :: node !in w.syncs ==> Coming(w.net, node) == {})
  }

  ghost predicate OpOk(w: World, op: Op) {
    match op
    case Create(_, c) => Aligned(c) && ApartFromBlocks(w, c)
    case CreateRest(_, c) => Aligned(c) && ApartFromBlocks(w, c)
    case Drain(n) => n in w.blocks && w.blocks[n].phase == Active && !w.blocks[n].drain
    case Release(n, half) =>
      n in w.blocks && w.blocks[n].phase == Active && !w.blocks[n].drain && w.blocks[n].release.None?
        && IsHalf(half, w.blocks[n].cidr)
    case Withdraw(n) => n in w.blocks &&
      (w.blocks[n].node !in w.nodes || w.blocks[n].phase == Quarantined
        || (w.blocks[n].drain && Clear(w.net, w.blocks[n].node, w.blocks[n].cidr)))
    case Delete(n) => n in w.blocks && w.blocks[n].phase == Quarantined
    case _ => op.name in w.blocks
  }

  ghost predicate Gone(w: World, node: string) {
    && node !in w.net.config && node !in w.net.coming && node !in w.marks && node !in w.syncs
    && (forall l :: l in w.net.leases ==> l.node != node)
    && (forall x :: x in w.net.sandboxes ==> x.node != node)
  }

  ghost predicate CoveredBy(w: World, node: string, a: nat, n: Cidr) {
    n in w.blocks && w.blocks[n].node == node && w.blocks[n].cidr.Contains(a)
  }

  ghost predicate Covered(w: World, node: string, a: nat) {
    exists n :: CoveredBy(w, node, a, n)
  }

  ghost predicate BlocksOk(w: World) {
    forall n {:trigger w.blocks[n]} :: n in w.blocks ==> BlockOk(w.net, n, w.blocks[n])
  }

  ghost predicate TodoOk(w: World) {
    && (forall op :: op in w.todo ==> OpOk(w, op))
    && (forall o, p {:trigger SameName(o, p)} :: o in w.todo && p in w.todo && o != p ==> !SameName(o, p))
    && (forall o, p :: o in w.todo && p in w.todo && o != p && o.Creates() && p.Creates() ==> Disjoint(o.cidr, p.cidr))
  }

  ghost predicate NetOk(w: World) {
    && (forall node, a :: Touches(w.net, node, a) ==> Covered(w, node, a))
    && (forall x :: x in w.net.sandboxes ==> x.read <= w.net.now)
    && (forall node :: node !in w.nodes ==> Gone(w, node))
  }

  ghost predicate Inv(w: World) {
    BlocksApart(w.blocks) && BlocksOk(w) && MarksOk(w) && SyncsOk(w) && TodoOk(w) && NetOk(w)
  }

  // ---- the invariant makes a world safe ----

  lemma OneOwner(w: World, n: Cidr, m: Cidr, node: string, other: string, a: nat)
    requires BlocksApart(w.blocks) && CoveredBy(w, node, a, n) && CoveredBy(w, other, a, m)
    ensures n == m && node == other
  {
  }

  lemma InvIsSafe(w: World)
    requires Inv(w)
    ensures Safe(w)
  {
    forall l, m | l in w.net.leases && m in w.net.leases && l.address == m.address ensures l == m {
      assert Lease(l.node, l.address) in w.net.leases && Lease(m.node, m.address) in w.net.leases;
      assert Touches(w.net, l.node, l.address) && Touches(w.net, m.node, m.address);
      var n :| CoveredBy(w, l.node, l.address, n);
      var k :| CoveredBy(w, m.node, m.address, k);
      OneOwner(w, n, k, l.node, m.node, l.address);
    }
    forall l | l in w.net.leases ensures OwnedAddress(w, l.node, l.address) {
      assert Lease(l.node, l.address) in w.net.leases;
      TouchedIsOwned(w, l.node, l.address);
    }
    forall node, a | Covers(Config(w.net, node), a) ensures OwnedAddress(w, node, a) {
      TouchedIsOwned(w, node, a);
    }
  }

  lemma TouchedIsOwned(w: World, node: string, a: nat)
    requires Inv(w) && Touches(w.net, node, a)
    ensures OwnedAddress(w, node, a)
  {
    var n :| CoveredBy(w, node, a, n);
    assert BlockOk(w.net, n, w.blocks[n]);
  }

  // ---- steps that leave the objects alone ----

  /** Nodes have no more than before. */
  ghost predicate Quieter(old_: Net, net: Net) {
    && (forall node, a :: Touches(net, node, a) ==> Touches(old_, node, a))
    && (forall node, a, t :: Serves(net, node, a, t) ==> Serves(old_, node, a, t))
  }

  lemma QuietBlock(net: Net, quiet: Net, n: Cidr, b: NodeBlock)
    requires BlockOk(net, n, b) && Quieter(net, quiet)
    ensures BlockOk(quiet, n, b)
  {
  }

  lemma QuietSync(net: Net, quiet: Net, node: string, y: Sync, marks: Marks)
    requires SyncOk(net, node, y, marks) && Quieter(net, quiet)
    requires Config(quiet, node) == Config(net, node) && Coming(quiet, node) == Coming(net, node)
    ensures SyncOk(quiet, node, y, marks)
  {
    QuietReady(net, quiet, node, y);
  }

  lemma QuietReady(net: Net, quiet: Net, node: string, y: Sync)
    requires ReadyOk(net, node, y) && Quieter(net, quiet)
    ensures ReadyOk(quiet, node, y)
  {
    forall n, t | n in y.ready ensures LeftOut(quiet, node, y.ready[n], t) { assert LeftOut(net, node, y.ready[n], t); }
  }

  lemma QuietStep(w: World, v: World)
    requires Inv(w) && Quieter(w.net, v.net) && v.blocks == w.blocks && v.todo == w.todo && SyncsOk(v)
    requires forall node :: node in v.marks ==> node in w.marks && v.marks[node] == w.marks[node]
    requires forall x :: x in v.net.sandboxes ==> x.read <= v.net.now
    requires forall op :: op in w.todo && op.Withdraw? && op.name in w.blocks && w.blocks[op.name].node in v.nodes ==>
      CanWithdraw(w, op.name)
    requires forall node :: node !in v.nodes ==> Gone(v, node)
    ensures Inv(v)
  {
    forall n | n in v.blocks ensures BlockOk(v.net, n, v.blocks[n]) { QuietBlock(w.net, v.net, n, w.blocks[n]); }
    forall node, n | node in v.marks && n in v.marks[node] && n in v.blocks
      ensures MarkOk(v.net, node, v.blocks[n], v.marks[node][n])
    {
      assert MarkOk(w.net, node, w.blocks[n], w.marks[node][n]);
    }
    StillCovered(w, v);
    forall op | op in v.todo ensures OpOk(v, op) { assert OpOk(w, op); }
  }

  lemma StillCovered(w: World, v: World)
    requires Inv(w) && Quieter(w.net, v.net)
    requires forall n :: n in w.blocks ==>
      n in v.blocks && v.blocks[n].node == w.blocks[n].node && v.blocks[n].cidr == w.blocks[n].cidr
    ensures forall node, a :: Touches(v.net, node, a) ==> Covered(v, node, a)
  {
    forall node, a | Touches(v.net, node, a) ensures Covered(v, node, a) {
      assert Touches(w.net, node, a);
      var n :| CoveredBy(w, node, a, n);
      assert CoveredBy(v, node, a, n);
    }
  }

  lemma SameIsQuiet(net: Net)
    ensures Quieter(net, net)
  {
  }

  lemma TickIsQuiet(net: Net, d: nat)
    ensures Quieter(net, net.(now := net.now + d))
  {
    var later := net.(now := net.now + d);
    forall node ensures Config(later, node) == Config(net, node) && Coming(later, node) == Coming(net, node) {}
    forall x | Live(later, x) ensures Live(net, x) {}
  }

  lemma StartIsQuiet(net: Net, node: string)
    requires forall x :: x in net.sandboxes ==> x.read <= net.now
    ensures Quieter(net, net.(sandboxes := net.sandboxes + {Sandbox(node, Config(net, node), net.now)}))
  {
    var started := net.(sandboxes := net.sandboxes + {Sandbox(node, Config(net, node), net.now)});
    forall m ensures Config(started, m) == Config(net, m) && Coming(started, m) == Coming(net, m) {}
    forall x ensures Live(started, x) == Live(net, x) {}
  }

  lemma LeaseIsQuiet(net: Net, x: Sandbox, a: nat)
    requires x in net.sandboxes && Live(net, x) && Covers(x.ranges, a)
    ensures Quieter(net, net.(leases := net.leases + {Lease(x.node, a)}, sandboxes := net.sandboxes - {x}))
  {
    var leased := net.(leases := net.leases + {Lease(x.node, a)}, sandboxes := net.sandboxes - {x});
    forall m ensures Config(leased, m) == Config(net, m) && Coming(leased, m) == Coming(net, m) {}
    forall y ensures Live(leased, y) == Live(net, y) {}
    assert SandboxHas(net, x.node, a);
  }

  lemma EndIsQuiet(net: Net, l: Lease)
    ensures Quieter(net, net.(leases := net.leases - {l}))
  {
    var ended := net.(leases := net.leases - {l});
    forall m ensures Config(ended, m) == Config(net, m) && Coming(ended, m) == Coming(net, m) {}
    forall y ensures Live(ended, y) == Live(net, y) {}
  }

  lemma LeavingIsQuiet(net: Net, node: string)
    ensures Quieter(net, net.(config := net.config - {node}, coming := net.coming - {node},
                              leases := (set l | l in net.leases && l.node != node),
                              sandboxes := (set x | x in net.sandboxes && x.node != node)))
  {
    var left := net.(config := net.config - {node}, coming := net.coming - {node},
                     leases := (set l | l in net.leases && l.node != node),
                     sandboxes := (set x | x in net.sandboxes && x.node != node));
    forall m ensures Config(left, m) == (if m == node then {} else Config(net, m)) {}
    forall m ensures Coming(left, m) == (if m == node then {} else Coming(net, m)) {}
    forall y ensures Live(left, y) == Live(net, y) {}
  }

  /** What a pass was about to write is forgotten. */
  lemma ForgetIsQuiet(net: Net, node: string)
    ensures Quieter(net, net.(coming := net.coming - {node}))
  {
    var forgot := net.(coming := net.coming - {node});
    forall m
      ensures Config(forgot, m) == Config(net, m) && Coming(forgot, m) == (if m == node then {} else Coming(net, m))
    {
    }
    forall y ensures Live(forgot, y) == Live(net, y) {}
  }

  // ---- writes to one object ----

  /** A write that keeps the object's owner and range, and does not undo Quarantined. */
  ghost predicate Benign(w: World, n: Cidr, b: NodeBlock) {
    && n in w.blocks && b.node == w.blocks[n].node && b.cidr == w.blocks[n].cidr
    && (w.blocks[n].phase == Quarantined ==> b.phase == Quarantined)
  }

  lemma PutBlock(w: World, v: World, n: Cidr, b: NodeBlock)
    requires Inv(w) && Benign(w, n, b) && BlockOk(w.net, n, b)
    requires v.blocks == w.blocks[n := b] && v.todo <= w.todo
    requires forall op :: op in v.todo && !op.Creates() && op.name == n ==> OpOk(v, op)
    requires forall node :: node in w.marks && n in w.marks[node] ==> MarkOk(w.net, node, b, w.marks[node][n])
    requires v.net == w.net && v.nodes == w.nodes && v.marks == w.marks && SyncsOk(v)
    requires forall node :: node in v.syncs ==> node in w.syncs
    ensures Inv(v)
  {
    forall m | m in v.blocks ensures BlockOk(v.net, m, v.blocks[m]) {
      assert m != n ==> BlockOk(w.net, m, w.blocks[m]);
    }
    PutMarks(w, v, n, b);
    PutTodo(w, v, n, b);
    SameIsQuiet(w.net);
    StillCovered(w, v);
    forall node | node !in v.nodes ensures Gone(v, node) { assert Gone(w, node); }
  }

  lemma PutTodo(w: World, v: World, n: Cidr, b: NodeBlock)
    requires TodoOk(w) && n in w.blocks && b.cidr == w.blocks[n].cidr && v.blocks == w.blocks[n := b]
    requires v.todo <= w.todo && v.net == w.net && v.nodes == w.nodes
    requires forall op :: op in v.todo && !op.Creates() && op.name == n ==> OpOk(v, op)
    ensures TodoOk(v)
  {
    SameApart(w, v, n, b);
    forall op | op in v.todo ensures OpOk(v, op) { assert OpOk(w, op); }
  }

  lemma PutMarks(w: World, v: World, n: Cidr, b: NodeBlock)
    requires MarksOk(w) && n in w.blocks && v.blocks == w.blocks[n := b] && v.net == w.net && v.marks == w.marks
    requires forall node :: node in w.marks && n in w.marks[node] ==> MarkOk(w.net, node, b, w.marks[node][n])
    ensures MarksOk(v)
  {
    forall node, m | node in v.marks && m in v.marks[node] && m in v.blocks
      ensures MarkOk(v.net, node, v.blocks[m], v.marks[node][m])
    {
      assert m != n ==> MarkOk(w.net, node, w.blocks[m], w.marks[node][m]);
    }
  }

  lemma SameApart(w: World, v: World, n: Cidr, b: NodeBlock)
    requires n in w.blocks && b.cidr == w.blocks[n].cidr && v.blocks == w.blocks[n := b]
    ensures forall c :: ApartFromBlocks(w, c) ==> ApartFromBlocks(v, c)
  {
    forall c | ApartFromBlocks(w, c) ensures ApartFromBlocks(v, c) {
      forall m | m in v.blocks ensures Disjoint(v.blocks[m].cidr, c) { assert Disjoint(w.blocks[m].cidr, c); }
    }
  }

  lemma SameSyncs(w: World, v: World)
    requires SyncsOk(w) && v.net == w.net && v.syncs == w.syncs && v.marks == w.marks
    ensures SyncsOk(v)
  {
    forall node | node in v.syncs ensures SyncOk(v.net, node, v.syncs[node], MarksFor(v, node)) {
      assert SyncOk(w.net, node, w.syncs[node], MarksFor(w, node));
    }
  }

  /** Giving up a write. */
  lemma DropStep(w: World, v: World)
    requires Inv(w) && v.todo <= w.todo && v == w.(todo := v.todo)
    ensures Inv(v)
  {
    SameSyncs(w, v);
    forall n | n in v.blocks ensures BlockOk(v.net, n, v.blocks[n]) { assert BlockOk(w.net, n, w.blocks[n]); }
    forall op | op in v.todo ensures OpOk(v, op) { assert OpOk(w, op); }
    SameIsQuiet(w.net);
    StillCovered(w, v);
    forall node | node !in v.nodes ensures Gone(v, node) { assert Gone(w, node); }
  }

  /** Every update but a split. */
  lemma UpdateStep(w: World, op: Op)
    requires Inv(w) && op in w.todo && !op.Creates() && !op.Delete? && !op.Split? && Careful(w, Write(op))
    ensures Inv(AfterWrite(w, op))
  {
    var v, n := AfterWrite(w, op), op.name;
    assert OpOk(w, op);
    var b := w.blocks[n];
    assert BlockOk(w.net, n, b) && (b.node !in w.nodes ==> Gone(w, b.node));
    if v.blocks == w.blocks {
      DropStep(w, v);
    } else {
      SameSyncs(w, v);
      forall o | o in v.todo && !o.Creates() ensures o.name != n { assert !SameName(o, op); }
      UpdatedMarks(w, op);
      UpdatedBlock(w, op);
      PutBlock(w, v, n, v.blocks[n]);
    }
  }

  lemma UpdatedMarks(w: World, op: Op)
    requires Inv(w) && op in w.todo && !op.Creates() && !op.Delete? && !op.Split? && Careful(w, Write(op))
    ensures op.name in AfterWrite(w, op).blocks
    ensures forall node :: node in w.marks && op.name in w.marks[node] ==>
      MarkOk(w.net, node, AfterWrite(w, op).blocks[op.name], w.marks[node][op.name])
  {
    var n := op.name;
    assert OpOk(w, op);
    forall node | node in w.marks && n in w.marks[node]
      ensures MarkOk(w.net, node, AfterWrite(w, op).blocks[n], w.marks[node][n])
    {
      assert MarkOk(w.net, node, w.blocks[n], w.marks[node][n]);
    }
  }

  lemma UpdatedBlock(w: World, op: Op)
    requires Inv(w) && op in w.todo && !op.Creates() && !op.Delete? && !op.Split? && Careful(w, Write(op))
    ensures op.name in AfterWrite(w, op).blocks && BlockOk(w.net, op.name, AfterWrite(w, op).blocks[op.name])
  {
    assert OpOk(w, op);
    var b := w.blocks[op.name];
    assert BlockOk(w.net, op.name, b) && (b.node !in w.nodes ==> Gone(w, b.node));
    if op.Withdraw? && b.node !in w.nodes { GoneIsClear(w, b.node, b.cidr); }
  }

  lemma GoneIsClear(w: World, node: string, c: Cidr)
    requires Gone(w, node)
    ensures Clear(w.net, node, c)
  {
  }

  /** No node has anything in a region that is apart from all blocks. */
  lemma NobodyIn(w: World, node: string, c: Cidr)
    requires Inv(w) && ApartFromBlocks(w, c)
    ensures Clear(w.net, node, c)
  {
    forall a | c.Contains(a) ensures !Touches(w.net, node, a) {
      assert Touches(w.net, node, a) ==> Covered(w, node, a);
    }
  }

  /** A name that a new object would take is free: a block of that name would lie inside the new one. */
  lemma NameIsFree(w: World, op: Op)
    requires Inv(w) && op in w.todo && op.Creates()
    ensures op.cidr !in w.blocks
  {
    assert OpOk(w, op);
    assert op.cidr in w.blocks ==> BlockOk(w.net, op.cidr, w.blocks[op.cidr]);
  }

  lemma CreateStep(w: World, op: Op)
    requires Inv(w) && op in w.todo && op.Creates()
    ensures Inv(AfterWrite(w, op))
  {
    var v := AfterWrite(w, op);
    NameIsFree(w, op);
    CreateBlocks(w, op);
    CreateTodo(w, op);
    CreateMarks(w, op);
    SameSyncs(w, v);
    SameIsQuiet(w.net);
    StillCovered(w, v);
    forall node | node !in v.nodes ensures Gone(v, node) { assert Gone(w, node); }
  }

  lemma CreateMarks(w: World, op: Op)
    requires Inv(w) && op in w.todo && op.Creates() && op.cidr !in w.blocks
    ensures MarksOk(AfterWrite(w, op))
  {
    var v := AfterWrite(w, op);
    forall node, m | node in v.marks && m in v.marks[node] && m in v.blocks
      ensures MarkOk(v.net, node, v.blocks[m], v.marks[node][m])
    {
      assert m in w.blocks ==> MarkOk(w.net, node, w.blocks[m], w.marks[node][m]);
    }
  }

  lemma CreateBlocks(w: World, op: Op)
    requires Inv(w) && op in w.todo && op.Creates() && op.cidr !in w.blocks
    ensures BlocksApart(AfterWrite(w, op).blocks) && BlocksOk(AfterWrite(w, op))
  {
    var v, c := AfterWrite(w, op), op.cidr;
    assert OpOk(w, op);
    NobodyIn(w, op.node, c);
    assert BlockOk(v.net, c, v.blocks[c]);
    forall m | m in v.blocks ensures BlockOk(v.net, m, v.blocks[m]) {
      assert m != c ==> BlockOk(w.net, m, w.blocks[m]);
    }
    forall m | m in w.blocks ensures Disjoint(w.blocks[m].cidr, c) {}
  }

  lemma CreateTodo(w: World, op: Op)
    requires Inv(w) && op in w.todo && op.Creates() && op.cidr !in w.blocks
    ensures TodoOk(AfterWrite(w, op))
  {
    var v := AfterWrite(w, op);
    forall p | p in v.todo ensures OpOk(v, p) { CreateKeepsOps(w, v, op, p); }
    forall o, p | o in v.todo && p in v.todo && o != p ensures !SameName(o, p) {
      assert o in w.todo && p in w.todo ==> !SameName(o, p);
      assert o in w.todo ==> OpOk(w, o);
      assert p in w.todo ==> OpOk(w, p);
    }
  }

  lemma CreateKeepsOps(w: World, v: World, op: Op, p: Op)
    requires Inv(w) && op in w.todo && op.Creates() && v == AfterWrite(w, op) && p in v.todo && op.cidr !in w.blocks
    ensures OpOk(v, p)
  {
    if p in w.todo {
      assert OpOk(w, p);
      if p.Creates() {
        forall m | m in v.blocks ensures Disjoint(v.blocks[m].cidr, p.cidr) {
          if m in w.blocks { assert Disjoint(w.blocks[m].cidr, p.cidr); }
        }
      }
    }
  }

  lemma DeleteStep(w: World, n: Cidr)
    requires Inv(w) && Delete(n) in w.todo
    ensures Inv(AfterWrite(w, Delete(n)))
  {
    var v := AfterWrite(w, Delete(n));
    assert OpOk(w, Delete(n)) && BlockOk(w.net, n, w.blocks[n]);
    SameSyncs(w, v);
    forall m | m in v.blocks ensures BlockOk(v.net, m, v.blocks[m]) { assert BlockOk(w.net, m, w.blocks[m]); }
    forall p | p in v.todo ensures OpOk(v, p) { assert OpOk(w, p) && !SameName(p, Delete(n)); }
    forall node, a | Touches(v.net, node, a) ensures Covered(v, node, a) {
      var m :| CoveredBy(w, node, a, m);
      assert CoveredBy(v, node, a, m);
    }
    forall node | node !in v.nodes ensures Gone(v, node) { assert Gone(w, node); }
  }

  // ---- the split ----

  lemma HalfFacts(c: Cidr, half: Cidr, keep: Cidr)
    requires Aligned(c) && OtherHalf(c, half) == Some(keep)
    ensures Aligned(half) && Aligned(keep) && Disjoint(half, keep) && Within(half, c) && Within(keep, c)
    ensures half.prefix == keep.prefix == c.prefix + 1
    ensures forall a :: c.Contains(a) ==> half.Contains(a) || keep.Contains(a)
  {
    HalvesAligned(c);
  }

  lemma SplitStep(w: World, n: Cidr)
    requires Inv(w) && Split(n) in w.todo
    ensures Inv(AfterWrite(w, Split(n)))
  {
    var v := AfterWrite(w, Split(n));
    assert OpOk(w, Split(n));
    var b := w.blocks[n];
    assert BlockOk(w.net, n, b);
    if b.release.None? || b.ready != b.release {
      DropStep(w, v);
    } else if OtherHalf(b.cidr, b.release.value).None? {
      SameSyncs(w, v);
      forall o | o in v.todo && !o.Creates() ensures o.name != n { assert !SameName(o, Split(n)); }
      PutBlock(w, v, n, v.blocks[n]);
    } else {
      var half, keep := b.release.value, OtherHalf(b.cidr, b.release.value).value;
      HalfFacts(b.cidr, half, keep);
      SameSyncs(w, v);
      SplitBlocks(w, v, n, half, keep);
      SplitMarks(w, v, n, half, keep);
      SplitTodo(w, v, n, half, keep);
      SplitNet(w, v, n, half, keep);
    }
  }

  ghost predicate IsSplit(w: World, v: World, n: Cidr, half: Cidr, keep: Cidr) {
    && n in w.blocks && Aligned(w.blocks[n].cidr) && OtherHalf(w.blocks[n].cidr, half) == Some(keep)
    && w.blocks[n].ready == w.blocks[n].release == Some(half)
    && v.blocks == w.blocks[n := w.blocks[n].(cidr := keep, release := None)]
    && Split(n) in w.todo && v.todo == w.todo - {Split(n)} + {StampSplit(n), CreateRest(w.blocks[n].node, half)}
    && v.net == w.net && v.nodes == w.nodes && v.marks == w.marks && v.syncs == w.syncs
  }

  lemma SplitBlocks(w: World, v: World, n: Cidr, half: Cidr, keep: Cidr)
    requires Inv(w) && IsSplit(w, v, n, half, keep)
    ensures BlocksApart(v.blocks) && BlocksOk(v)
  {
    HalfFacts(w.blocks[n].cidr, half, keep);
    assert BlockOk(w.net, n, w.blocks[n]);
    SplitBlockOk(w.net, n, w.blocks[n], half, keep);
    forall m | m in v.blocks ensures BlockOk(v.net, m, v.blocks[m]) {
      assert m != n ==> BlockOk(w.net, m, w.blocks[m]);
    }
    forall m | m in v.blocks && m != n ensures Disjoint(v.blocks[m].cidr, keep) && Disjoint(keep, v.blocks[m].cidr) {
      assert Disjoint(w.blocks[m].cidr, w.blocks[n].cidr);
    }
  }

  lemma SplitBlockOk(net: Net, n: Cidr, b: NodeBlock, half: Cidr, keep: Cidr)
    requires BlockOk(net, n, b) && OtherHalf(b.cidr, half) == Some(keep)
    ensures BlockOk(net, n, b.(cidr := keep, release := None))
  {
    HalfFacts(b.cidr, half, keep);
  }

  lemma SplitMarks(w: World, v: World, n: Cidr, half: Cidr, keep: Cidr)
    requires Inv(w) && IsSplit(w, v, n, half, keep)
    ensures MarksOk(v)
  {
    forall node, m | node in v.marks && m in v.marks[node] && m in v.blocks
      ensures MarkOk(v.net, node, v.blocks[m], v.marks[node][m])
    {
      assert MarkOk(w.net, node, w.blocks[m], w.marks[node][m]);
    }
  }

  lemma SplitTodo(w: World, v: World, n: Cidr, half: Cidr, keep: Cidr)
    requires Inv(w) && IsSplit(w, v, n, half, keep)
    ensures TodoOk(v)
  {
    forall p | p in v.todo ensures OpOk(v, p) { SplitKeepsOps(w, v, n, half, keep, p); }
    forall o, p | o in v.todo && p in v.todo && o != p
      ensures !SameName(o, p)
    {
      SplitKeepsNames(w, v, n, half, keep, o, p);
    }
    forall o, p | o in v.todo && p in v.todo && o != p && o.Creates() && p.Creates() ensures Disjoint(o.cidr, p.cidr) {
      SplitKeepsCreates(w, v, n, half, keep, o, p);
    }
  }

  lemma SplitKeepsCreates(w: World, v: World, n: Cidr, half: Cidr, keep: Cidr, o: Op, p: Op)
    requires Inv(w) && IsSplit(w, v, n, half, keep) && o in v.todo && p in v.todo && o != p && o.Creates()
    requires p.Creates()
    ensures Disjoint(o.cidr, p.cidr)
  {
    RestIsApart(w, v, n, half, keep);
  }

  lemma SplitKeepsNames(w: World, v: World, n: Cidr, half: Cidr, keep: Cidr, o: Op, p: Op)
    requires Inv(w) && IsSplit(w, v, n, half, keep) && o in v.todo && p in v.todo && o != p
    ensures !SameName(o, p)
  {
    assert o in w.todo && p in w.todo ==> !SameName(o, p);
    assert o in w.todo && o != Split(n) ==> !SameName(o, Split(n));
    assert p in w.todo && p != Split(n) ==> !SameName(p, Split(n));
  }

  /** The half that goes back meets neither a block nor a block about to be created. */
  lemma RestIsApart(w: World, v: World, n: Cidr, half: Cidr, keep: Cidr)
    requires Inv(w) && IsSplit(w, v, n, half, keep)
    ensures Aligned(half) && ApartFromBlocks(v, half)
    ensures forall p :: p in w.todo && p.Creates() ==> Disjoint(p.cidr, half) && Disjoint(half, p.cidr)
  {
    HalfFacts(w.blocks[n].cidr, half, keep);
    forall m | m in v.blocks ensures Disjoint(v.blocks[m].cidr, half) {
      assert m != n ==> Disjoint(w.blocks[m].cidr, w.blocks[n].cidr);
    }
    forall p | p in w.todo && p.Creates() ensures Disjoint(p.cidr, half) && Disjoint(half, p.cidr) {
      assert OpOk(w, p) && Disjoint(w.blocks[n].cidr, p.cidr);
    }
  }

  lemma SplitKeepsOps(w: World, v: World, n: Cidr, half: Cidr, keep: Cidr, p: Op)
    requires Inv(w) && IsSplit(w, v, n, half, keep) && p in v.todo
    ensures OpOk(v, p)
  {
    if p in w.todo {
      assert OpOk(w, p) && !SameName(p, Split(n));
      if p.Creates() { SplitKeepsApart(w, v, n, half, keep, p.cidr); }
    } else {
      RestIsApart(w, v, n, half, keep);
    }
  }

  lemma SplitKeepsApart(w: World, v: World, n: Cidr, half: Cidr, keep: Cidr, c: Cidr)
    requires IsSplit(w, v, n, half, keep) && ApartFromBlocks(w, c)
    ensures ApartFromBlocks(v, c)
  {
    HalfFacts(w.blocks[n].cidr, half, keep);
    forall m | m in v.blocks ensures Disjoint(v.blocks[m].cidr, c) { assert Disjoint(w.blocks[m].cidr, c); }
  }

  lemma SplitNet(w: World, v: World, n: Cidr, half: Cidr, keep: Cidr)
    requires Inv(w) && IsSplit(w, v, n, half, keep)
    ensures NetOk(v)
  {
    HalfFacts(w.blocks[n].cidr, half, keep);
    assert BlockOk(w.net, n, w.blocks[n]);
    forall node, a | Touches(v.net, node, a) ensures Covered(v, node, a) {
      var m :| CoveredBy(w, node, a, m);
      if m == n { assert keep.Contains(a); }
      assert CoveredBy(v, node, a, m);
    }
    forall node | node !in v.nodes ensures Gone(v, node) { assert Gone(w, node); }
  }

  lemma WriteStep(w: World, op: Op)
    requires Inv(w) && op in w.todo && Careful(w, Write(op))
    ensures Inv(AfterWrite(w, op))
  {
    if op.Creates() {
      CreateStep(w, op);
    } else if op.Delete? {
      DeleteStep(w, op.name);
    } else if op.Split? {
      SplitStep(w, op.name);
    } else {
      UpdateStep(w, op);
    }
  }

  lemma PlanStep(w: World, ops: set<Op>)
    requires Inv(w) && w.todo == {} && PlannedTogether(w, ops)
    ensures Inv(w.(todo := ops))
  {
    var v := w.(todo := ops);
    SameSyncs(w, v);
    forall n | n in v.blocks ensures BlockOk(v.net, n, v.blocks[n]) { assert BlockOk(w.net, n, w.blocks[n]); }
    forall op | op in v.todo ensures OpOk(v, op) { assert Planned(w, op); }
    forall o, p | o in v.todo && p in v.todo && o != p && o.Creates() && p.Creates() ensures Disjoint(o.cidr, p.cidr) {
      assert Planned(w, o) && Planned(w, p);
    }
    SameIsQuiet(w.net);
    StillCovered(w, v);
    forall node | node !in v.nodes ensures Gone(v, node) { assert Gone(w, node); }
  }

  // ---- an agent reads its blocks ----

  /** An address of block n is about to come into the config of its owner only if the pass serves it. */
  lemma ComingOfBlock(w: World, node: string, promote: set<Cidr>, n: Cidr, a: nat)
    requires BlocksApart(w.blocks) && n in w.blocks && w.blocks[n].cidr.Contains(a)
    ensures var b := w.blocks[n];
      Covers(Coming(AfterRead(w, node, promote).net, b.node), a) ==>
        if b.node == node then InConfig(b, n in promote) && Served(b).Contains(a) else Covers(Coming(w.net, b.node), a)
  {
    var b, ranges := w.blocks[n], Ranges(OwnOf(w, node), promote);
    if b.node == node && Covers(ranges, a) {
      var c :| c in ranges && c.Contains(a);
      var m :| m in OwnOf(w, node) && InConfig(w.blocks[m], m in promote) && c == Served(w.blocks[m]);
      ServedIsInside(w.blocks[m], a);
      OneOwner(w, n, m, node, node, a);
    }
  }

  lemma ServedIsInside(b: NodeBlock, a: nat)
    requires Served(b).Contains(a)
    ensures b.cidr.Contains(a)
    ensures b.release.Some? && IsHalf(b.release.value, b.cidr) ==> !b.release.value.Contains(a)
  {
  }

  /** The read changes what is coming to the node and nothing else. */
  lemma ReadNet(w: World, node: string, promote: set<Cidr>, other: string, a: nat, t: int)
    ensures var net := AfterRead(w, node, promote).net;
      && (SandboxHas(net, other, a) <==> SandboxHas(w.net, other, a))
      && (SandboxReaches(net, other, a, t) <==> SandboxReaches(w.net, other, a, t))
      && Config(net, other) == Config(w.net, other)
      && Coming(net, other) == if other == node then Ranges(OwnOf(w, node), promote) else Coming(w.net, other)
  {
    var net := AfterRead(w, node, promote).net;
    assert forall x :: Live(net, x) == Live(w.net, x);
  }

  /** A region of which nothing new is coming is as quiet as before. */
  lemma StaysClear(w: World, node: string, promote: set<Cidr>, owner: string, c: Cidr)
    requires forall a :: c.Contains(a) && Covers(Coming(AfterRead(w, node, promote).net, owner), a) ==>
      Covers(Coming(w.net, owner), a)
    ensures var net := AfterRead(w, node, promote).net;
      && (Clear(w.net, owner, c) ==> Clear(net, owner, c))
      && (forall t :: LeftOut(w.net, owner, c, t) ==> LeftOut(net, owner, c, t))
  {
    var net := AfterRead(w, node, promote).net;
    forall a, t | c.Contains(a) ensures (Serves(net, owner, a, t) ==> Serves(w.net, owner, a, t))
      && (Touches(net, owner, a) ==> Touches(w.net, owner, a))
    {
      ReadNet(w, node, promote, owner, a, t);
    }
  }

  /** A region of a block of which the pass serves nothing is as quiet as before. */
  lemma NotServed(w: World, node: string, promote: set<Cidr>, n: Cidr, c: Cidr)
    requires BlocksApart(w.blocks) && n in w.blocks
    requires forall a :: c.Contains(a) ==> w.blocks[n].cidr.Contains(a)
    requires w.blocks[n].node == node && InConfig(w.blocks[n], n in promote) ==> forall a :: c.Contains(a) ==>
      !Served(w.blocks[n]).Contains(a)
    ensures var net, owner := AfterRead(w, node, promote).net, w.blocks[n].node;
      && (Clear(w.net, owner, c) ==> Clear(net, owner, c))
      && (forall t :: LeftOut(w.net, owner, c, t) ==> LeftOut(net, owner, c, t))
  {
    forall a | c.Contains(a) && Covers(Coming(AfterRead(w, node, promote).net, w.blocks[n].node), a)
      ensures Covers(Coming(w.net, w.blocks[n].node), a)
    {
      ComingOfBlock(w, node, promote, n, a);
    }
    StaysClear(w, node, promote, w.blocks[n].node, c);
  }

  /** A half that is asked for is not served. */
  lemma HalfNotServed(w: World, node: string, promote: set<Cidr>, n: Cidr, half: Cidr)
    requires BlocksApart(w.blocks) && n in w.blocks && IsHalf(half, w.blocks[n].cidr)
    requires w.blocks[n].release == Some(half)
    ensures var net, owner := AfterRead(w, node, promote).net, w.blocks[n].node;
      && (Clear(w.net, owner, half) ==> Clear(net, owner, half))
      && (forall t :: LeftOut(w.net, owner, half, t) ==> LeftOut(net, owner, half, t))
  {
    forall a | half.Contains(a) ensures w.blocks[n].cidr.Contains(a) && !Served(w.blocks[n]).Contains(a) {
      HalfInside(w.blocks[n].cidr, half, a);
      if Served(w.blocks[n]).Contains(a) { ServedIsInside(w.blocks[n], a); }
    }
    NotServed(w, node, promote, n, half);
  }

  lemma HalfInside(c: Cidr, half: Cidr, a: nat)
    requires IsHalf(half, c) && half.Contains(a)
    ensures c.Contains(a)
  {
    assert Size(c.prefix) == 2 * Size(c.prefix + 1);
  }

  lemma ReadBlock(w: World, node: string, promote: set<Cidr>, n: Cidr)
    requires Inv(w) && n in w.blocks
    ensures BlockOk(AfterRead(w, node, promote).net, n, w.blocks[n])
  {
    var b := w.blocks[n];
    assert BlockOk(w.net, n, b);
    if Aside(b) || (b.phase == Draining && b.drain) { NotServed(w, node, promote, n, b.cidr); }
    if b.ready.Some? && b.release == b.ready && IsHalf(b.ready.value, b.cidr) {
      HalfNotServed(w, node, promote, n, b.ready.value);
    }
  }

  lemma ReadMark(w: World, node: string, promote: set<Cidr>, n: Cidr, owner: string, m: Mark)
    requires BlocksApart(w.blocks) && n in w.blocks && MarkOk(w.net, owner, w.blocks[n], m)
    ensures MarkOk(AfterRead(w, node, promote).net, owner, w.blocks[n], m)
  {
    if w.blocks[n].release == Some(m.half) && IsHalf(m.half, w.blocks[n].cidr) {
      HalfNotServed(w, node, promote, n, m.half);
    }
  }

  lemma ReadSync(w: World, node: string, promote: set<Cidr>)
    requires Inv(w)
    ensures var v := AfterRead(w, node, promote); SyncOk(v.net, node, v.syncs[node], MarksFor(v, node))
  {
    var v := AfterRead(w, node, promote);
    ReadNet(w, node, promote, node, 0, 0);
    forall n | n in OwnOf(w, node) ensures Aligned(w.blocks[n].cidr) { assert BlockOk(w.net, n, w.blocks[n]); }
    forall n | n in MarksFor(v, node) && n in OwnOf(w, node)
      ensures MarkOk(v.net, node, w.blocks[n], MarksFor(v, node)[n])
    {
      assert MarkOk(w.net, node, w.blocks[n], w.marks[node][n]);
      ReadMark(w, node, promote, n, node, w.marks[node][n]);
    }
  }

  /** The passes of the other nodes do not notice. */
  lemma ReadOtherSync(w: World, node: string, promote: set<Cidr>, other: string)
    requires Inv(w) && other in w.syncs && other != node
    ensures SyncOk(AfterRead(w, node, promote).net, other, w.syncs[other], MarksFor(w, other))
  {
    var y := w.syncs[other];
    assert SyncOk(w.net, other, y, MarksFor(w, other));
    ReadNet(w, node, promote, other, 0, 0);
    forall c ensures (Clear(w.net, other, c) ==> Clear(AfterRead(w, node, promote).net, other, c))
      && (forall t :: LeftOut(w.net, other, c, t) ==> LeftOut(AfterRead(w, node, promote).net, other, c, t))
    {
      StaysClear(w, node, promote, other, c);
    }
    forall n, t | n in y.ready ensures LeftOut(AfterRead(w, node, promote).net, other, y.ready[n], t) {
      assert LeftOut(w.net, other, y.ready[n], t);
    }
  }

  lemma ReadTodo(w: World, node: string, promote: set<Cidr>)
    requires Inv(w)
    ensures TodoOk(AfterRead(w, node, promote))
  {
    var v := AfterRead(w, node, promote);
    forall op | op in v.todo ensures OpOk(v, op) {
      assert OpOk(w, op);
      if op.Withdraw? && w.blocks[op.name].drain { NotServed(w, node, promote, op.name, w.blocks[op.name].cidr); }
    }
  }

  lemma ReadCovered(w: World, node: string, promote: set<Cidr>, other: string, a: nat)
    requires Inv(w) && Touches(AfterRead(w, node, promote).net, other, a)
    ensures Covered(AfterRead(w, node, promote), other, a)
  {
    ReadNet(w, node, promote, other, a, 0);
    var n: Cidr;
    if Touches(w.net, other, a) {
      n :| CoveredBy(w, other, a, n);
    } else {
      var c :| c in Ranges(OwnOf(w, node), promote) && c.Contains(a);
      n :| n in OwnOf(w, node) && InConfig(w.blocks[n], n in promote) && c == Served(w.blocks[n]);
      ServedIsInside(w.blocks[n], a);
    }
    assert CoveredBy(AfterRead(w, node, promote), other, a, n);
  }

  lemma ReadStep(w: World, node: string, promote: set<Cidr>)
    requires Inv(w) && node in w.nodes
    ensures Inv(AfterRead(w, node, promote))
  {
    var v := AfterRead(w, node, promote);
    forall n | n in v.blocks ensures BlockOk(v.net, n, v.blocks[n]) { ReadBlock(w, node, promote, n); }
    forall other, n | other in v.marks && n in v.marks[other] && n in v.blocks
      ensures MarkOk(v.net, other, v.blocks[n], v.marks[other][n])
    {
      ReadMark(w, node, promote, n, other, w.marks[other][n]);
    }
    ReadSync(w, node, promote);
    forall other | other in v.syncs && other != node ensures SyncOk(v.net, other, v.syncs[other], MarksFor(v, other)) {
      ReadOtherSync(w, node, promote, other);
    }
    ReadTodo(w, node, promote);
    forall other, a | Touches(v.net, other, a) ensures Covered(v, other, a) { ReadCovered(w, node, promote, other, a); }
    forall other | other !in v.nodes ensures Gone(v, other) { assert Gone(w, other); }
  }

  // ---- it writes the config ----

  /** Every config is what it was, or what was coming; nothing new is coming. */
  ghost predicate Settles(net: Net, next: Net) {
    && next.now == net.now && next.settle == net.settle && next.leases == net.leases && next.sandboxes == net.sandboxes
    && (forall m :: Config(next, m) == Config(net, m) || Config(next, m) == Coming(net, m))
    && (forall m :: Coming(next, m) == Coming(net, m) || Coming(next, m) == {})
  }

  lemma SettlesIsQuiet(net: Net, next: Net)
    requires Settles(net, next)
    ensures Quieter(net, next)
  {
    forall x ensures Live(next, x) == Live(net, x) {}
  }

  lemma ConfigSettles(w: World, node: string)
    requires Inv(w) && Enabled(w, WriteConfig(node))
    ensures Settles(w.net, After(w, WriteConfig(node)).net)
  {
    var y, net := w.syncs[node], After(w, WriteConfig(node)).net;
    assert SyncOk(w.net, node, y, MarksFor(w, node));
    assert Coming(w.net, node) == y.Wanted();
  }

  lemma ConfigSync(w: World, node: string, other: string)
    requires Inv(w) && Enabled(w, WriteConfig(node)) && other in w.syncs
    ensures var v := After(w, WriteConfig(node)); SyncOk(v.net, other, v.syncs[other], MarksFor(v, other))
  {
    var v := After(w, WriteConfig(node));
    assert SyncOk(w.net, other, w.syncs[other], MarksFor(w, other));
    ConfigSettles(w, node);
    SettlesIsQuiet(w.net, v.net);
    if other != node {
      QuietSync(w.net, v.net, other, w.syncs[other], MarksFor(w, other));
    } else {
      QuietReady(w.net, v.net, node, w.syncs[node]);
      ConfigSyncMarks(w, v.net, node, w.syncs[node], MarksFor(w, node));
    }
  }

  lemma ConfigSyncMarks(w: World, quiet: Net, node: string, y: Sync, marks: Marks)
    requires SyncOk(w.net, node, y, marks) && Quieter(w.net, quiet)
    ensures forall n :: n in marks && n in y.own ==> MarkOk(quiet, node, y.own[n], marks[n])
  {
    forall n | n in marks && n in y.own ensures MarkOk(quiet, node, y.own[n], marks[n]) {
      assert MarkOk(w.net, node, y.own[n], marks[n]);
    }
  }

  lemma ConfigStep(w: World, node: string)
    requires Inv(w) && Enabled(w, WriteConfig(node))
    ensures Inv(After(w, WriteConfig(node)))
  {
    var v := After(w, WriteConfig(node));
    ConfigSettles(w, node);
    SettlesIsQuiet(w.net, v.net);
    forall other | other in v.syncs
      ensures SyncOk(v.net, other, v.syncs[other], MarksFor(v, other))
    {
      ConfigSync(w, node, other);
    }
    forall other | other !in v.nodes ensures Gone(v, other) { assert Gone(w, other); }
    SameWithdraws(w);
    QuietStep(w, v);
  }

  lemma SameWithdraws(w: World)
    requires Inv(w)
    ensures forall op :: op in w.todo && op.Withdraw? && op.name in w.blocks && w.blocks[op.name].node in w.nodes ==>
      w.blocks[op.name].phase == Quarantined
        || (w.blocks[op.name].drain && Clear(w.net, w.blocks[op.name].node, w.blocks[op.name].cidr))
  {
    forall op | op in w.todo && op.Withdraw? ensures OpOk(w, op) {}
  }

  // ---- it counts and judges ----

  /** What the config written by this pass leaves out has been left out since now. */
  lemma LeftOutNow(w: World, node: string, n: Cidr)
    requires Inv(w) && node in w.syncs && w.syncs[node].stage != HasRead
    requires n in w.syncs[node].own && Releasing(w.syncs[node].own[n])
    ensures LeftOut(w.net, node, w.syncs[node].own[n].release.value, w.net.now)
  {
    var y := w.syncs[node];
    var half := y.own[n].release.value;
    assert SyncOk(w.net, node, y, MarksFor(w, node));
    assert Served(y.own[n]) in y.Wanted() by { assert InConfig(y.own[n], n in y.promote); }
    forall a | half.Contains(a) ensures !Covers(y.Wanted(), a) {
      if c :| c in y.Wanted() && c.Contains(a) { OwnPart(y, n, half, c, a); }
    }
  }

  /** Nothing of a half that is being given back is among the ranges of the pass. */
  lemma OwnPart(y: Sync, n: Cidr, half: Cidr, c: Cidr, a: nat)
    requires BlocksApart(y.own) && n in y.own && Releasing(y.own[n]) && y.own[n].release == Some(half)
    requires half.Contains(a)
    requires c in y.Wanted()
    ensures !c.Contains(a)
  {
    var m :| m in y.own && InConfig(y.own[m], m in y.promote) && c == Served(y.own[m]);
    HalfInside(y.own[n].cidr, half, a);
    assert m != n ==> Disjoint(y.own[n].cidr, y.own[m].cidr);
    if c.Contains(a) { ServedIsInside(y.own[m], a); }
  }

  /** The mark of a half that is being given back is true. */
  lemma MarkIsTrue(w: World, node: string, n: Cidr)
    requires Inv(w) && node in w.syncs && w.syncs[node].stage != HasRead
    requires n in w.syncs[node].own && Releasing(w.syncs[node].own[n])
    ensures var y := w.syncs[node];
      var m := MarkFor(MarksFor(w, node), y, n, w.net.now);
      m.Some? && m.value.half == y.own[n].release.value && IsHalf(m.value.half, y.own[n].cidr)
        && LeftOut(w.net, node, m.value.half, m.value.since)
  {
    var y := w.syncs[node];
    assert SyncOk(w.net, node, y, MarksFor(w, node));
    assert Served(y.own[n]) in y.Wanted() by { assert InConfig(y.own[n], n in y.promote); }
    LeftOutNow(w, node, n);
    if n in MarksFor(w, node) { assert MarkOk(w.net, node, y.own[n], MarksFor(w, node)[n]); }
  }

  /** Left out for as long as a sandbox may act on an old config: nothing can be leased any more. */
  lemma SettledIsUnreached(net: Net, node: string, c: Cidr, since: int)
    requires LeftOut(net, node, c, since) && net.now - since >= net.settle
    ensures Unreached(net, node, c)
  {
    forall a, t | c.Contains(a) ensures !Serves(net, node, a, t) { assert !Serves(net, node, a, since); }
  }

  lemma UnreachedIsClear(net: Net, node: string, c: Cidr)
    requires Unreached(net, node, c) && Unused(net.leases, node, c)
    ensures Clear(net, node, c)
  {
    forall a | c.Contains(a) ensures !Touches(net, node, a) {
      assert LeftOut(net, node, c, 0) && !Serves(net, node, a, 0);
      forall x | x in net.sandboxes ensures !(x.node == node && Live(net, x) && Covers(x.ranges, a)) {
        assert LeftOut(net, node, c, x.read - 1) && !Serves(net, node, a, x.read - 1);
      }
      assert Lease(node, a) in net.leases ==> Lease(node, a).node == node;
    }
  }

  /** Left out for as long as a sandbox may act on an old config, and without a lease: nothing is left. */
  lemma SettledIsClear(net: Net, node: string, c: Cidr, since: int)
    requires LeftOut(net, node, c, since) && Unused(net.leases, node, c) && net.now - since >= net.settle
    ensures Clear(net, node, c)
  {
    forall a | c.Contains(a) ensures !Touches(net, node, a) {
      assert !Serves(net, node, a, since);
    }
  }

  /** A half that a pass takes for ready is out of the config and settled. */
  lemma JudgedIsUnreached(w: World, node: string, n: Cidr)
    requires Inv(w) && Enabled(w, Judge(node, n))
    ensures var y := w.syncs[node];
      var half := Judgement(MarksFor(w, node), y, n, w.net.now, w.net.settle);
      half.Some? ==> Releasing(y.own[n]) && half == y.own[n].release && Unreached(w.net, node, half.value)
  {
    var y := w.syncs[node];
    if Judgement(MarksFor(w, node), y, n, w.net.now, w.net.settle).Some? {
      MarkIsTrue(w, node, n);
      SettledIsUnreached(w.net, node, y.own[n].release.value, MarkFor(MarksFor(w, node), y, n, w.net.now).value.since);
    }
  }

  /** A step that changes nothing but the memory of one agent. */
  ghost predicate InMemory(w: World, v: World, node: string) {
    && node in w.syncs && node in v.syncs && v == w.(syncs := w.syncs[node := v.syncs[node]], marks := v.marks)
    && forall other :: other != node ==>
      MarksFor(v, other) == MarksFor(w, other) && (other in v.marks ==> other in w.marks)
  }

  lemma MemoryStep(w: World, v: World, node: string)
    requires Inv(w) && InMemory(w, v, node) && SyncOk(v.net, node, v.syncs[node], MarksFor(v, node))
    requires forall n :: n in MarksFor(v, node) && n in v.blocks ==>
      MarkOk(v.net, node, v.blocks[n], MarksFor(v, node)[n])
    ensures Inv(v)
  {
    forall other | other in v.syncs ensures SyncOk(v.net, other, v.syncs[other], MarksFor(v, other)) {
      assert SyncOk(w.net, other, w.syncs[other], MarksFor(w, other));
    }
    forall other, n | other in v.marks && n in v.marks[other] && n in v.blocks
      ensures MarkOk(v.net, other, v.blocks[n], v.marks[other][n])
    {
      assert v.marks[other] == MarksFor(v, other);
      if other != node { assert MarkOk(w.net, other, w.blocks[n], w.marks[other][n]); }
    }
    forall n | n in v.blocks ensures BlockOk(v.net, n, v.blocks[n]) { assert BlockOk(w.net, n, w.blocks[n]); }
    forall op | op in v.todo ensures OpOk(v, op) { assert OpOk(w, op); }
    SameIsQuiet(w.net);
    StillCovered(w, v);
    MemoryGone(w, v, node);
  }

  lemma MemoryGone(w: World, v: World, node: string)
    requires Inv(w) && InMemory(w, v, node)
    ensures forall other :: other !in v.nodes ==> Gone(v, other)
  {
    forall other | other !in v.nodes ensures Gone(v, other) { assert Gone(w, other); }
  }

  lemma CountStep(w: World, s: Step)
    requires Inv(w) && Enabled(w, s) && (s.Count? || s.CountHalves?)
    ensures Inv(After(w, s))
  {
    var v, node := After(w, s), s.node;
    SameMarks(w, v, node);
    CountedSync(w, s);
    MemoryStep(w, v, node);
  }

  lemma CountedSync(w: World, s: Step)
    requires Inv(w) && Enabled(w, s) && (s.Count? || s.CountHalves?)
    ensures var v := After(w, s); SyncOk(v.net, s.node, v.syncs[s.node], MarksFor(v, s.node))
  {
    assert SyncOk(w.net, s.node, w.syncs[s.node], MarksFor(w, s.node));
  }

  /** Marks that are kept are as true as before. */
  lemma SameMarks(w: World, v: World, node: string)
    requires MarksOk(w) && v.net == w.net && v.blocks == w.blocks
    requires forall n :: n in MarksFor(v, node) ==>
      n in MarksFor(w, node) && MarksFor(v, node)[n] == MarksFor(w, node)[n]
    ensures forall n :: n in MarksFor(v, node) && n in v.blocks ==>
      MarkOk(v.net, node, v.blocks[n], MarksFor(v, node)[n])
  {
    forall n | n in MarksFor(v, node) && n in v.blocks ensures MarkOk(v.net, node, v.blocks[n], MarksFor(v, node)[n]) {
      assert MarkOk(w.net, node, w.blocks[n], w.marks[node][n]);
    }
  }

  lemma JudgeStep(w: World, node: string, n: Cidr)
    requires Inv(w) && Enabled(w, Judge(node, n))
    ensures Inv(After(w, Judge(node, n)))
  {
    var v := After(w, Judge(node, n));
    JudgedSync(w, node, n);
    forall m | m in MarksFor(v, node) && m in v.blocks ensures MarkOk(v.net, node, v.blocks[m], MarksFor(v, node)[m]) {
      if m in MarksFor(w, node) { assert MarkOk(w.net, node, w.blocks[m], w.marks[node][m]); }
      JudgedMark(w, node, n, m, w.blocks[m]);
    }
    MemoryStep(w, v, node);
  }

  /** Each mark is true still of whatever block it was true of. */
  lemma JudgedMark(w: World, node: string, n: Cidr, m: Cidr, b: NodeBlock)
    requires Inv(w) && Enabled(w, Judge(node, n)) && m in MarksFor(After(w, Judge(node, n)), node)
    requires m in MarksFor(w, node) ==> MarkOk(w.net, node, b, MarksFor(w, node)[m])
    ensures MarkOk(w.net, node, b, MarksFor(After(w, Judge(node, n)), node)[m])
  {
    if m == n && Releasing(w.syncs[node].own[n]) { MarkIsTrue(w, node, n); }
  }

  lemma JudgedSync(w: World, node: string, n: Cidr)
    requires Inv(w) && Enabled(w, Judge(node, n))
    ensures var v := After(w, Judge(node, n)); SyncOk(v.net, node, v.syncs[node], MarksFor(v, node))
  {
    var v, y := After(w, Judge(node, n)), w.syncs[node];
    assert SyncOk(w.net, node, y, MarksFor(w, node));
    JudgedIsUnreached(w, node, n);
    forall m | m in MarksFor(v, node) && m in y.own ensures MarkOk(v.net, node, y.own[m], MarksFor(v, node)[m]) {
      JudgedMark(w, node, n, m, y.own[m]);
    }
  }

  lemma PruneStep(w: World, node: string)
    requires Inv(w) && Enabled(w, Prune(node))
    ensures Inv(After(w, Prune(node)))
  {
    var v := After(w, Prune(node));
    SameMarks(w, v, node);
    PrunedSync(w, node);
    MemoryStep(w, v, node);
  }

  /** After it an agent remembers only halves that are asked for; and what it remembers of them it remembered before. */
  lemma PrunedMarks(w: World, node: string, n: Cidr)
    requires Enabled(w, Prune(node))
    ensures var own, marks := w.syncs[node].own, MarksFor(After(w, Prune(node)), node);
      && (n in marks <==> n in MarksFor(w, node) && n in own && GivesHalf(own[n]))
      && (n in marks ==> marks[n] == MarksFor(w, node)[n])
  {
    if n in w.syncs[node].own { ReleasingIs(w.syncs[node].own[n]); }
  }

  /** The block is in service, and a half of it is asked for. */
  predicate GivesHalf(b: NodeBlock) {
    b.phase == Active && !b.drain && b.release.Some? && IsHalf(b.release.value, b.cidr)
  }

  lemma ReleasingIs(b: NodeBlock)
    ensures Releasing(b) <==> GivesHalf(b)
  {
    if b.cidr.prefix < 32 { HalvesDiffer(b.cidr); }
  }

  /** What judging a block makes of its mark, and when its half is ready: an old mark of the half stays; a new one
      needs a config that has been written; and ready is a half that has been left out since its mark for the settle
      time and in which no lease was counted. */
  lemma JudgementIs(w: World, node: string, n: Cidr)
    requires Enabled(w, Judge(node, n)) && GivesHalf(w.syncs[node].own[n])
    ensures var y, was, marks := w.syncs[node], MarksFor(w, node), MarksFor(After(w, Judge(node, n)), node);
      var half, ready := y.own[n].release.value, After(w, Judge(node, n)).syncs[node].ready;
      var marked := n in was && was[n].half == half;
      && (if marked then n in marks && marks[n] == was[n]
          else if y.ConfigOK() then n in marks && marks[n] == Mark(half, w.net.now)
          else n in marks <==> n in was)
      && (n in ready <==>
            n in marks && marks[n].half == half && NoneIn(y.seenInHalves, half)
              && w.net.now - marks[n].since >= w.net.settle)
      && (n in ready ==> ready[n] == half)
  {
    ReleasingIs(w.syncs[node].own[n]);
  }

  /** Judging a block of which no half is asked for keeps its mark, and makes no half ready. */
  lemma NothingToJudge(w: World, node: string, n: Cidr)
    requires Enabled(w, Judge(node, n)) && !GivesHalf(w.syncs[node].own[n])
    ensures MarksFor(After(w, Judge(node, n)), node) == MarksFor(w, node)
    ensures n !in After(w, Judge(node, n)).syncs[node].ready
  {
    ReleasingIs(w.syncs[node].own[n]);
  }

  lemma PrunedSync(w: World, node: string)
    requires Inv(w) && Enabled(w, Prune(node))
    ensures var v := After(w, Prune(node)); SyncOk(v.net, node, v.syncs[node], MarksFor(v, node))
  {
    assert SyncOk(w.net, node, w.syncs[node], MarksFor(w, node));
  }

  /** What the config offers once a pass has written it: of the blocks that it read, those in service, those that are
      taken back from a drain, and of those not in service yet only the ones that it promotes; and of a block of which a
      half is asked for only the other half. */
  lemma ConfigRestsOn(w: World, node: string, a: nat)
    requires Inv(w) && node in w.syncs && w.syncs[node].stage != HasRead && w.syncs[node].ConfigOK()
    ensures Covers(Config(w.net, node), a) <==> exists n :: n in w.syncs[node].own && Offers(w.syncs[node], n, a)
  {
    var y := w.syncs[node];
    assert SyncOk(w.net, node, y, MarksFor(w, node));
    forall n | n in y.own
      ensures Offers(y, n, a) <==> InConfig(y.own[n], n in y.promote) && Served(y.own[n]).Contains(a)
    {
      if y.own[n].release.Some? && IsHalf(y.own[n].release.value, y.own[n].cidr) {
        HalfFacts(y.own[n].cidr, y.own[n].release.value, Served(y.own[n]));
      }
    }
    if Covers(Config(w.net, node), a) {
      var c :| c in y.Wanted() && c.Contains(a);
      var n :| n in y.own && InConfig(y.own[n], n in y.promote) && c == Served(y.own[n]);
    }
    if n :| n in y.own && Offers(y, n, a) { assert Served(y.own[n]) in y.Wanted(); }
  }

  /** A pass that has nothing to put into the config leaves it as it is. */
  lemma ConfigStays(w: World, node: string)
    requires Enabled(w, WriteConfig(node))
    requires forall n :: n in w.syncs[node].own ==> !InConfig(w.syncs[node].own[n], n in w.syncs[node].promote)
    ensures Config(After(w, WriteConfig(node)).net, node) == Config(w.net, node)
  {
  }

  ghost predicate Offers(y: Sync, n: Cidr, a: nat)
    requires n in y.own
  {
    var b := y.own[n];
    && b.cidr.Contains(a) && !b.drain && b.phase != Quarantined && (b.phase == Pending ==> n in y.promote)
    && (b.release.Some? && IsHalf(b.release.value, b.cidr) ==> !b.release.value.Contains(a))
  }

  // ---- it writes the status of a block ----

  /** What a block with a half to give back keeps is in the config. */
  lemma KeepInConfig(w: World, node: string, n: Cidr)
    requires Inv(w) && Enabled(w, WriteStatus(node, n)) && n in w.syncs[node].ready
    ensures var keep := Served(w.syncs[node].own[n]);
      keep.Contains(keep.base) && Covers(Config(w.net, node), keep.base)
  {
    var y := w.syncs[node];
    assert SyncOk(w.net, node, y, MarksFor(w, node));
    assert Served(y.own[n]) in y.Wanted() by { assert InConfig(y.own[n], n in y.promote); }
  }

  /** A report is written only into the block that it is about. */
  lemma ReportIsOwn(w: World, node: string, n: Cidr)
    requires Inv(w) && Enabled(w, WriteStatus(node, n)) && n in w.blocks && n in w.syncs[node].ready
    requires w.blocks[n].cidr == w.syncs[node].own[n].cidr
    ensures w.blocks[n].node == node
  {
    var y := w.syncs[node];
    var keep := Served(y.own[n]);
    KeepInConfig(w, node, n);
    assert Touches(w.net, node, keep.base);
    var m :| CoveredBy(w, node, keep.base, m);
    ServedIsInside(y.own[n], keep.base);
    OneOwner(w, n, m, w.blocks[n].node, node, keep.base);
  }

  lemma ReadyWasCounted(w: World, node: string, n: Cidr)
    requires Inv(w) && node in w.syncs && n in w.syncs[node].ready
    ensures NoneIn(w.syncs[node].seenInHalves, w.syncs[node].ready[n])
  {
    assert SyncOk(w.net, node, w.syncs[node], MarksFor(w, node));
  }

  /** The counts are heeded: a block in which the pass has counted a lease goes on to no quarantine, and a half in
      which it has counted one is not reported ready. */
  lemma CountIsHeeded(w: World, node: string, n: Cidr, l: Lease)
    requires Inv(w) && Enabled(w, WriteStatus(node, n)) && n in w.blocks
    ensures var y, b := w.syncs[node], w.blocks[n];
      var c := StatusFor(y, n, b, w.net.now, w.net.settle);
      && (y.Counted(n, l) && c.phase == Quarantined ==> b.phase == Quarantined)
      && (l in y.seenInHalves && b.cidr == y.own[n].cidr && c.ready.Some? ==> !c.ready.value.Contains(l.address))
  {
    if n in w.syncs[node].ready { ReadyWasCounted(w, node, n); }
  }

  /** A report of a half that is no longer asked for, or was not when the pass read the block, is withdrawn; one that
      is written is of the half that is asked for. */
  lemma ReportIsFresh(w: World, node: string, n: Cidr)
    requires Inv(w) && Enabled(w, WriteStatus(node, n)) && n in w.blocks
    ensures var y, b := w.syncs[node], w.blocks[n];
      var c := StatusFor(y, n, b, w.net.now, w.net.settle);
      if b.cidr != y.own[n].cidr then c.ready == b.ready
      else if n in y.ready && b.release == y.own[n].release then c.ready.Some? && c.ready == b.release
      else c.ready == None
  {
    assert SyncOk(w.net, node, w.syncs[node], MarksFor(w, node));
  }

  /** Which phase a status write leads to: into service only by a promotion or out of a drain that is taken back; into
      a drain only by request and with a config written; into quarantine only by request, after the settle time and
      with no lease counted. Whatever changes does so now. */
  lemma PhaseIs(w: World, node: string, n: Cidr)
    requires Enabled(w, WriteStatus(node, n)) && n in w.blocks
    ensures var y, b := w.syncs[node], w.blocks[n];
      var c := StatusFor(y, n, b, w.net.now, w.net.settle);
      var promoted := n in y.promote && y.own[n].phase == Pending && !y.own[n].drain;
      var rested := b.drain && y.FoundEmpty(n) && b.since + w.net.settle <= w.net.now;
      && c.since == (if c.phase == b.phase then b.since else w.net.now)
      && match b.phase
         case Pending => c.phase == if promoted then Active else if rested then Quarantined else Pending
         case Active => c.phase == if b.drain && y.ConfigOK() then Draining else Active
         case Draining =>
           c.phase == if !b.drain then Active else if rested && y.ConfigOK() then Quarantined else Draining
         case Quarantined => c.phase == Quarantined
  {
  }

  lemma WrittenBlock(w: World, node: string, n: Cidr)
    requires Inv(w) && Enabled(w, WriteStatus(node, n)) && Careful(w, WriteStatus(node, n)) && n in w.blocks
    ensures BlockOk(w.net, n, StatusFor(w.syncs[node], n, w.blocks[n], w.net.now, w.net.settle))
  {
    var y, b := w.syncs[node], w.blocks[n];
    var c := StatusFor(y, n, b, w.net.now, w.net.settle);
    assert BlockOk(w.net, n, b);
    PhaseGoesOn(y, n, b, w.net.now, w.net.settle);
    if b.phase == Draining && c.phase == Quarantined { SettledIsClear(w.net, b.node, b.cidr, b.since); }
    if b.phase == Active && c.phase == Draining && b.cidr == y.own[n].cidr && b.node == node && y.own[n].drain {
      DrainIsLeftOut(w, node, n);
    }
    WrittenReport(w, node, n);
  }

  /** The config that a pass has written does not list a block that it read with the request to drain. */
  lemma DrainIsLeftOut(w: World, node: string, n: Cidr)
    requires Inv(w) && node in w.syncs && w.syncs[node].stage != HasRead && w.syncs[node].ConfigOK()
    requires n in w.syncs[node].own && w.syncs[node].own[n].drain
    ensures forall a :: w.syncs[node].own[n].cidr.Contains(a) ==>
      !Covers(Config(w.net, node), a) && !Covers(Coming(w.net, node), a)
  {
    var y := w.syncs[node];
    assert SyncOk(w.net, node, y, MarksFor(w, node));
    forall a | y.own[n].cidr.Contains(a) ensures !Covers(Config(w.net, node), a) {
      ConfigRestsOn(w, node, a);
      assert forall m :: m in y.own && y.own[m].cidr.Contains(a) ==> m == n;
    }
  }

  lemma WrittenReport(w: World, node: string, n: Cidr)
    requires Inv(w) && Enabled(w, WriteStatus(node, n)) && Careful(w, WriteStatus(node, n)) && n in w.blocks
    ensures ReportOk(w.net, StatusFor(w.syncs[node], n, w.blocks[n], w.net.now, w.net.settle))
  {
    var y, b := w.syncs[node], w.blocks[n];
    assert BlockOk(w.net, n, b) && SyncOk(w.net, node, y, MarksFor(w, node));
    PhaseGoesOn(y, n, b, w.net.now, w.net.settle);
    if b.cidr == y.own[n].cidr && b.release == y.own[n].release && n in y.ready {
      ReportIsOwn(w, node, n);
      UnreachedIsClear(w.net, node, y.ready[n]);
    }
  }

  /** A block keeps its spec, and does not go back to Pending or leave Quarantined. A block in service stays so. */
  lemma PhaseGoesOn(y: Sync, n: Cidr, b: NodeBlock, now: int, settle: int)
    requires n in y.own
    ensures var c := StatusFor(y, n, b, now, settle);
      && c.node == b.node && c.cidr == b.cidr && c.drain == b.drain && c.release == b.release
      && (c.phase == Pending ==> b.phase == Pending) && (b.phase == Quarantined ==> c.phase == Quarantined)
      && (b.phase == Active && !b.drain ==> c.phase == Active)
  {
  }

  lemma StatusStep(w: World, node: string, n: Cidr)
    requires Inv(w) && Enabled(w, WriteStatus(node, n)) && Careful(w, WriteStatus(node, n))
    ensures Inv(After(w, WriteStatus(node, n)))
  {
    var v, y := After(w, WriteStatus(node, n)), w.syncs[node];
    StatusSyncs(w, node, n);
    if n in w.blocks {
      PhaseGoesOn(y, n, w.blocks[n], w.net.now, w.net.settle);
      WrittenBlock(w, node, n);
      forall op | op in v.todo && !op.Creates() && op.name == n ensures OpOk(v, op) { assert OpOk(w, op); }
      forall other | other in w.marks && n in w.marks[other]
        ensures MarkOk(w.net, other, v.blocks[n], w.marks[other][n])
      {
        assert MarkOk(w.net, other, w.blocks[n], w.marks[other][n]);
      }
      PutBlock(w, v, n, v.blocks[n]);
    } else {
      SameIsQuiet(w.net);
      forall other | other !in v.nodes ensures Gone(v, other) { assert Gone(w, other); }
      SameWithdraws(w);
      QuietStep(w, v);
    }
  }

  lemma StatusSyncs(w: World, node: string, n: Cidr)
    requires Inv(w) && Enabled(w, WriteStatus(node, n))
    ensures SyncsOk(After(w, WriteStatus(node, n)))
  {
    var v := After(w, WriteStatus(node, n));
    forall other | other in v.syncs ensures SyncOk(v.net, other, v.syncs[other], MarksFor(v, other)) {
      LessLeft(w.net, other, w.syncs[other], MarksFor(w, other), v.syncs[other].left);
    }
  }

  lemma LessLeft(net: Net, node: string, y: Sync, marks: Marks, left: set<Cidr>)
    requires SyncOk(net, node, y, marks)
    ensures SyncOk(net, node, y.(left := left), marks)
  {
  }

  // ---- every step, every run ----

  ghost predicate OnNodes(s: Step) {
    s.Tick? || s.StartSandbox? || s.TakeLease? || s.EndLease? || s.AddNode? || s.DeleteNode? || s.Restart?
  }

  lemma NodeStepIsQuiet(w: World, s: Step)
    requires Inv(w) && Enabled(w, s) && OnNodes(s)
    ensures Quieter(w.net, After(w, s).net)
  {
    match s
    case Tick(d) => TickIsQuiet(w.net, d);
    case StartSandbox(node) => StartIsQuiet(w.net, node);
    case TakeLease(x, a) => LeaseIsQuiet(w.net, x, a);
    case EndLease(l) => EndIsQuiet(w.net, l);
    case DeleteNode(node) => LeavingIsQuiet(w.net, node);
    case Restart(node) => ForgetIsQuiet(w.net, node);
    case _ => SameIsQuiet(w.net);
  }

  /** A pass that goes on keeps what it has, and its config. */
  lemma SameMemory(w: World, s: Step, node: string)
    requires Enabled(w, s) && OnNodes(s) && node in After(w, s).syncs
    ensures var v := After(w, s);
      && node in w.syncs && v.syncs[node] == w.syncs[node] && MarksFor(v, node) == MarksFor(w, node)
      && Config(v.net, node) == Config(w.net, node) && Coming(v.net, node) == Coming(w.net, node)
  {
  }

  lemma NodeSyncs(w: World, s: Step)
    requires Inv(w) && Enabled(w, s) && OnNodes(s)
    ensures SyncsOk(After(w, s))
  {
    var v := After(w, s);
    NodeStepIsQuiet(w, s);
    forall node | node in v.syncs ensures SyncOk(v.net, node, v.syncs[node], MarksFor(v, node)) {
      SameMemory(w, s, node);
      QuietSync(w.net, v.net, node, w.syncs[node], MarksFor(w, node));
    }
    forall node | node !in v.syncs
      ensures Coming(v.net, node) == {}
    {
      assert node !in w.syncs ==> Coming(w.net, node) == {};
    }
  }

  lemma NodeStep(w: World, s: Step)
    requires Inv(w) && Enabled(w, s) && Careful(w, s) && OnNodes(s)
    ensures Inv(After(w, s))
  {
    NodeStepIsQuiet(w, s);
    NodeSyncs(w, s);
    NodeWithdraws(w, s);
    NodeGone(w, s);
    QuietStep(w, After(w, s));
  }

  lemma NodeWithdraws(w: World, s: Step)
    requires Inv(w) && Enabled(w, s) && Careful(w, s) && OnNodes(s)
    ensures forall op ::
      op in w.todo && op.Withdraw? && op.name in w.blocks && w.blocks[op.name].node in After(w, s).nodes ==>
        CanWithdraw(w, op.name)
  {
    forall op | op in w.todo && op.Withdraw? && op.name in w.blocks && w.blocks[op.name].node in After(w, s).nodes
      ensures CanWithdraw(w, op.name)
    {
      NodeWithdraw(w, s, op);
    }
  }

  ghost predicate CanWithdraw(w: World, n: Cidr)
    requires n in w.blocks
  {
    w.blocks[n].phase == Quarantined || (w.blocks[n].drain && Clear(w.net, w.blocks[n].node, w.blocks[n].cidr))
  }

  lemma NodeWithdraw(w: World, s: Step, op: Op)
    requires Inv(w) && Enabled(w, s) && Careful(w, s) && OnNodes(s)
    requires op in w.todo && op.Withdraw? && op.name in w.blocks && w.blocks[op.name].node in After(w, s).nodes
    ensures CanWithdraw(w, op.name)
  {
    assert OpOk(w, op);
    if w.blocks[op.name].node !in w.nodes {
      NewNode(w, s, w.blocks[op.name].node);
      GoneIsClear(w, w.blocks[op.name].node, w.blocks[op.name].cidr);
    }
  }

  lemma NewNode(w: World, s: Step, node: string)
    requires Enabled(w, s) && OnNodes(s) && node in After(w, s).nodes && node !in w.nodes
    ensures s == AddNode(node)
  {
  }

  lemma NodeGone(w: World, s: Step)
    requires Inv(w) && Enabled(w, s) && OnNodes(s)
    ensures forall node :: node !in After(w, s).nodes ==> Gone(After(w, s), node)
  {
    forall node | node !in After(w, s).nodes ensures Gone(After(w, s), node) {
      assert node !in w.nodes ==> Gone(w, node);
    }
  }

  lemma StepKeepsInv(w: World, s: Step)
    requires Inv(w) && Enabled(w, s) && Careful(w, s)
    ensures Inv(After(w, s))
  {
    match s
    case Plan(ops) => PlanStep(w, ops);
    case Write(op) => WriteStep(w, op);
    case Drop(op) => DropStep(w, After(w, s));
    case Read(node, promote) => ReadStep(w, node, promote);
    case WriteConfig(node) => ConfigStep(w, node);
    case Count(_) => CountStep(w, s);
    case CountHalves(_) => CountStep(w, s);
    case Judge(node, n) => JudgeStep(w, node, n);
    case Prune(node) => PruneStep(w, node);
    case WriteStatus(node, n) => StatusStep(w, node, n);
    case _ => NodeStep(w, s);
  }

  lemma InitInv(w: World)
    requires Init(w)
    ensures Inv(w)
  {
    forall node, a ensures !Touches(w.net, node, a) { assert Config(w.net, node) == {}; }
  }

  lemma {:induction false} RunKeepsInv(w: World, steps: seq<Step>, v: World)
    requires Inv(w) && Leads(w, steps, v) && AllCareful(w, steps)
    ensures Inv(v)
    decreases |steps|
  {
    if steps != [] {
      StepKeepsInv(w, steps[0]);
      RunKeepsInv(After(w, steps[0]), steps[1..], v);
    }
  }

  /** Wherever a run may lead, no address is leased on two nodes, and everything leased or configured on a
      node lies in a NodeBlock of that node that is not Quarantined. */
  lemma EveryRunIsSafe(w: World, steps: seq<Step>, v: World)
    requires Init(w) && Leads(w, steps, v) && AllCareful(w, steps)
    ensures Safe(v)
  {
    InitInv(w);
    RunKeepsInv(w, steps, v);
    InvIsSafe(v);
  }

  /** Wherever a run may lead, the NodeBlocks are apart and inside what their names say, so that no block
      about to be created, and no half that a split releases, finds its name taken or its space in use. */
  lemma BlocksNeverCollide(w: World, steps: seq<Step>, v: World)
    requires Init(w) && Leads(w, steps, v) && AllCareful(w, steps)
    ensures BlocksApart(v.blocks)
    ensures forall n {:trigger v.blocks[n]} :: n in v.blocks ==>
      Within(v.blocks[n].cidr, n) && Aligned(v.blocks[n].cidr)
    ensures forall op :: op in v.todo && op.Creates() ==> op.cidr !in v.blocks && ApartFromBlocks(v, op.cidr)
  {
    InitInv(w);
    RunKeepsInv(w, steps, v);
    forall n | n in v.blocks ensures Within(v.blocks[n].cidr, n) && Aligned(v.blocks[n].cidr) {
      assert BlockOk(v.net, n, v.blocks[n]);
    }
    forall op | op in v.todo && op.Creates() ensures op.cidr !in v.blocks && ApartFromBlocks(v, op.cidr) {
      NameIsFree(v, op);
      assert OpOk(v, op);
    }
  }
}
