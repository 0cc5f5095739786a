/** A block that is being drained while its node still serves it is never the only one that the node serves. The
    planner leaves a node another block when it drains one, and no later step takes that one away. */
module ProtocolCompany {
  import opened Options
  import opened Cidrs
  import opened NodeBlocks
  import opened Protocol
  import opened ProtocolSafety

  /** A drain that the node has not noticed. */
  ghost predicate DrainsListed(w: World, n: Cidr) {
    n in w.blocks && w.blocks[n].phase == Active && w.blocks[n].drain && Listed(w.net, w.blocks[n])
  }

  ghost predicate HasNeighbour(w: World, n: Cidr) {
    exists m :: Neighbour(w, n, m)
  }

  /** Another block that the controller is not about to drain or to withdraw. */
  ghost predicate Stays(w: World, n: Cidr, m: Cidr) {
    Neighbour(w, n, m) && Drain(m) !in w.todo && Withdraw(m) !in w.todo
  }

  ghost predicate Company(w: World) {
    && (forall n {:trigger HasNeighbour(w, n)} {:trigger DrainsListed(w, n)} ::
      DrainsListed(w, n) ==> HasNeighbour(w, n))
    && (forall n :: Drain(n) in w.todo ==> exists m :: Stays(w, n, m))
  }

  // ---- steps that leave the blocks in service alone ----

  predicate Serving(w: World, m: Cidr) {
    m in w.blocks && w.blocks[m].phase == Active && !w.blocks[m].drain
  }

  /** Every block in service stays so, no more drains go unnoticed, and nothing more is to be drained or withdrawn. */
  ghost predicate Kept(w: World, v: World) {
    && (forall m :: Serving(w, m) ==> Serving(v, m) && v.blocks[m].node == w.blocks[m].node)
    && (forall n :: DrainsListed(v, n) ==> DrainsListed(w, n) && v.blocks[n].node == w.blocks[n].node)
    && (forall n :: Drain(n) in v.todo ==> Drain(n) in w.todo)
    && (forall n :: Drain(n) in v.todo ==> n in w.blocks && n in v.blocks && v.blocks[n].node == w.blocks[n].node)
    && (forall n :: Withdraw(n) in v.todo ==> Withdraw(n) in w.todo)
  }

  lemma KeptCompany(w: World, v: World)
    requires Company(w) && Kept(w, v)
    ensures Company(v)
  {
    forall n | DrainsListed(v, n) ensures HasNeighbour(v, n) {
      assert DrainsListed(w, n) && HasNeighbour(w, n);
      var m :| Neighbour(w, n, m);
      assert Serving(w, m) && Neighbour(v, n, m);
    }
    forall n | Drain(n) in v.todo ensures exists m :: Stays(v, n, m) {
      var m :| Stays(w, n, m);
      assert Serving(w, m) && Stays(v, n, m);
    }
  }

  lemma DrainsExist(w: World)
    requires Inv(w)
    ensures forall n :: Drain(n) in w.todo ==> n in w.blocks && w.blocks[n].phase != Quarantined && Delete(n) !in w.todo
  {
    forall n | Drain(n) in w.todo ensures n in w.blocks && w.blocks[n].phase != Quarantined && Delete(n) !in w.todo {
      assert OpOk(w, Drain(n));
      if Delete(n) in w.todo { assert OpOk(w, Delete(n)) && SameName(Drain(n), Delete(n)); }
    }
  }

  /** What is quieter lists no more. */
  lemma QuietListed(net: Net, quiet: Net, b: NodeBlock)
    requires Quieter(net, quiet) && (forall x :: x in net.sandboxes ==> x.read <= net.now) && Listed(quiet, b)
    ensures Listed(net, b)
  {
    var a :| b.cidr.Contains(a) && (Covers(Config(quiet, b.node), a) || Covers(Coming(quiet, b.node), a));
    assert Serves(quiet, b.node, a, net.now) && Serves(net, b.node, a, net.now);
  }

  lemma QuietKept(w: World, v: World)
    requires Inv(w) && Quieter(w.net, v.net) && v.blocks == w.blocks && v.todo <= w.todo
    ensures Kept(w, v)
  {
    forall n | DrainsListed(v, n) ensures DrainsListed(w, n) { QuietListed(w.net, v.net, w.blocks[n]); }
    DrainsExist(w);
  }

  lemma ReadKept(w: World, node: string, promote: set<Cidr>)
    requires Inv(w)
    ensures Kept(w, AfterRead(w, node, promote))
  {
    var v := AfterRead(w, node, promote);
    forall n | DrainsListed(v, n) ensures DrainsListed(w, n) {
      var b := w.blocks[n];
      var a :| b.cidr.Contains(a) && (Covers(Config(v.net, b.node), a) || Covers(Coming(v.net, b.node), a));
      ComingOfBlock(w, node, promote, n, a);
      ReadNet(w, node, promote, b.node, a, 0);
    }
    DrainsExist(w);
  }

  /** A region of which nothing is left is not listed. */
  lemma ClearIsUnlisted(net: Net, b: NodeBlock)
    requires Clear(net, b.node, b.cidr)
    ensures !Listed(net, b)
  {
    forall a | b.cidr.Contains(a) ensures !Covers(Config(net, b.node), a) && !Covers(Coming(net, b.node), a) {
      assert !Touches(net, b.node, a);
    }
  }

  /** One object is written, and it stays in service if it was. */
  lemma PutKept(w: World, v: World, n: Cidr, c: NodeBlock)
    requires n in w.blocks && v.blocks == w.blocks[n := c] && v.net == w.net && c.node == w.blocks[n].node
    requires Serving(w, n) ==> c.phase == Active && !c.drain
    requires c.phase == Active && c.drain && Listed(w.net, c) ==> DrainsListed(w, n)
    requires forall m :: Drain(m) in v.todo ==> Drain(m) in w.todo
    requires forall m :: Withdraw(m) in v.todo ==> Withdraw(m) in w.todo
    requires forall m :: Drain(m) in w.todo ==> m in w.blocks
    ensures Kept(w, v)
  {
    forall m | DrainsListed(v, m) ensures DrainsListed(w, m) { if m != n { assert v.blocks[m] == w.blocks[m]; } }
  }

  lemma StatusKept(w: World, node: string, n: Cidr)
    requires Inv(w) && Enabled(w, WriteStatus(node, n))
    ensures Kept(w, After(w, WriteStatus(node, n)))
  {
    var v, y := After(w, WriteStatus(node, n)), w.syncs[node];
    if n in w.blocks {
      assert BlockOk(w.net, n, w.blocks[n]);
      PhaseGoesOn(y, n, w.blocks[n], w.net.now, w.net.settle);
      if Aside(w.blocks[n]) { ClearIsUnlisted(w.net, w.blocks[n]); }
      DrainsExist(w);
      PutKept(w, v, n, v.blocks[n]);
    } else {
      SameIsQuiet(w.net);
      QuietKept(w, v);
    }
  }

  // ---- writes of the controller ----

  lemma CreateKept(w: World, op: Op)
    requires Inv(w) && op in w.todo && op.Creates()
    ensures Kept(w, AfterWrite(w, op))
  {
    NameIsFree(w, op);
    DrainsExist(w);
    NewKept(w, AfterWrite(w, op), op.cidr);
  }

  /** A new object is not in use yet. */
  lemma NewKept(w: World, v: World, c: Cidr)
    requires c !in w.blocks && c in v.blocks && v.blocks == w.blocks[c := v.blocks[c]] && v.blocks[c].phase == Pending
    requires v.net == w.net && forall n :: Drain(n) in w.todo ==> n in w.blocks
    requires forall n :: Drain(n) in v.todo ==> Drain(n) in w.todo
    requires forall n :: Withdraw(n) in v.todo ==> Withdraw(n) in w.todo
    ensures Kept(w, v)
  {
    forall n | DrainsListed(v, n) ensures DrainsListed(w, n) { assert n != c; }
  }

  lemma DeleteKept(w: World, n: Cidr)
    requires Inv(w) && Delete(n) in w.todo
    ensures Kept(w, AfterWrite(w, Delete(n)))
  {
    assert OpOk(w, Delete(n));
    DrainsExist(w);
  }

  lemma SmallerIsListedLess(net: Net, b: NodeBlock, c: NodeBlock)
    requires c.node == b.node && Within(c.cidr, b.cidr) && Listed(net, c)
    ensures Listed(net, b)
  {
    var a :| c.cidr.Contains(a) && (Covers(Config(net, c.node), a) || Covers(Coming(net, c.node), a));
    assert b.cidr.Contains(a);
  }

  /** The kept half is part of the block. */
  lemma KeepsPart(b: NodeBlock)
    requires Aligned(b.cidr)
    ensures b.release.Some? && OtherHalf(b.cidr, b.release.value).Some? ==>
      Within(OtherHalf(b.cidr, b.release.value).value, b.cidr)
  {
    if b.release.Some? && OtherHalf(b.cidr, b.release.value).Some? {
      HalfFacts(b.cidr, b.release.value, OtherHalf(b.cidr, b.release.value).value);
    }
  }

  /** The block shrinks, and what is still to be done concerns no other drain or withdrawal. */
  lemma SplitWrites(w: World, n: Cidr)
    requires n in w.blocks && Aligned(w.blocks[n].cidr)
    ensures var v, b := AfterWrite(w, Split(n)), w.blocks[n];
      && n in v.blocks && v.blocks == w.blocks[n := v.blocks[n]] && v.net == w.net
      && v.blocks[n] == b.(cidr := v.blocks[n].cidr, release := v.blocks[n].release)
      && Within(v.blocks[n].cidr, b.cidr)
      && (forall m :: Drain(m) in v.todo ==> Drain(m) in w.todo)
      && (forall m :: Withdraw(m) in v.todo ==> Withdraw(m) in w.todo)
  {
    KeepsPart(w.blocks[n]);
  }

  lemma SplitKept(w: World, n: Cidr)
    requires Inv(w) && Split(n) in w.todo
    ensures Kept(w, AfterWrite(w, Split(n)))
  {
    assert OpOk(w, Split(n)) && BlockOk(w.net, n, w.blocks[n]);
    SplitWrites(w, n);
    WrittenKept(w, AfterWrite(w, Split(n)), n);
  }

  /** The object is written without a new drain, and with no more addresses. */
  lemma WrittenKept(w: World, v: World, n: Cidr)
    requires Inv(w) && n in w.blocks && n in v.blocks && v.blocks == w.blocks[n := v.blocks[n]] && v.net == w.net
    requires v.blocks[n].node == w.blocks[n].node && Within(v.blocks[n].cidr, w.blocks[n].cidr)
    requires v.blocks[n].drain ==> w.blocks[n].drain
    requires w.blocks[n].phase == Active <==> v.blocks[n].phase == Active
    requires forall m :: Drain(m) in v.todo ==> Drain(m) in w.todo
    requires forall m :: Withdraw(m) in v.todo ==> Withdraw(m) in w.todo
    ensures Kept(w, v)
  {
    if Listed(w.net, v.blocks[n]) { SmallerIsListedLess(w.net, w.blocks[n], v.blocks[n]); }
    DrainsExist(w);
    PutKept(w, v, n, v.blocks[n]);
  }

  lemma UpdateKept(w: World, op: Op)
    requires Inv(w) && op in w.todo && !op.Creates() && !op.Delete? && !op.Split? && !op.Drain? && !op.Withdraw?
    ensures Kept(w, AfterWrite(w, op))
  {
    assert OpOk(w, op);
    WrittenKept(w, AfterWrite(w, op), op.name);
  }

  /** A drain takes one block out of service, but not the last one that its node serves. */
  lemma DrainCompany(w: World, n: Cidr)
    requires Inv(w) && Company(w) && Drain(n) in w.todo
    ensures Company(AfterWrite(w, Drain(n)))
  {
    assert OpOk(w, Drain(n));
    Drained(w, AfterWrite(w, Drain(n)), n);
  }

  lemma Drained(w: World, v: World, n: Cidr)
    requires Company(w) && Drain(n) in w.todo && n in w.blocks && v.net == w.net && v.todo == w.todo - {Drain(n)}
    requires v.blocks == w.blocks[n := w.blocks[n].(drain := true)]
    ensures Company(v)
  {
    var stays :| Stays(w, n, stays);
    forall k | DrainsListed(v, k) ensures HasNeighbour(v, k) { DrainNeighbour(w, v, n, stays, k); }
    forall k | Drain(k) in v.todo ensures exists m :: Stays(v, k, m) {
      var m :| Stays(w, k, m);
      assert Stays(v, k, m);
    }
  }

  lemma DrainNeighbour(w: World, v: World, n: Cidr, stays: Cidr, k: Cidr)
    requires Company(w) && Neighbour(w, n, stays) && DrainsListed(v, k) && v.net == w.net
    requires v.blocks == w.blocks[n := w.blocks[n].(drain := true)]
    ensures HasNeighbour(v, k)
  {
    if k == n {
      assert Neighbour(v, k, stays);
    } else {
      assert DrainsListed(w, k) && HasNeighbour(w, k);
      var m :| Neighbour(w, k, m);
      assert Neighbour(v, k, if m == n then stays else m);
    }
  }

  /** A withdrawal takes a block out of service only if its node is gone, and then the node serves nothing. */
  lemma WithdrawCompany(w: World, n: Cidr)
    requires Inv(w) && Company(w) && Withdraw(n) in w.todo
    ensures Company(AfterWrite(w, Withdraw(n)))
  {
    assert OpOk(w, Withdraw(n));
    Withdrawn(w, AfterWrite(w, Withdraw(n)), n);
  }

  lemma Withdrawn(w: World, v: World, n: Cidr)
    requires Inv(w) && Company(w) && Withdraw(n) in w.todo && OpOk(w, Withdraw(n)) && n in w.blocks && v.net == w.net
    requires v.blocks == w.blocks[n := w.blocks[n].(phase := Quarantined, since := w.net.now)]
    requires v.todo == w.todo - {Withdraw(n)}
    ensures Company(v)
  {
    forall k | DrainsListed(v, k) ensures HasNeighbour(v, k) { WithdrawNeighbour(w, v, n, k); }
    WithdrawStays(w, v, n);
  }

  lemma WithdrawStays(w: World, v: World, n: Cidr)
    requires Company(w) && Withdraw(n) in w.todo && n in w.blocks && v.todo == w.todo - {Withdraw(n)}
    requires v.blocks == w.blocks[n := w.blocks[n].(phase := Quarantined, since := w.net.now)]
    ensures forall k :: Drain(k) in v.todo ==> exists m :: Stays(v, k, m)
  {
    forall k | Drain(k) in v.todo ensures exists m :: Stays(v, k, m) {
      var m :| Stays(w, k, m);
      assert m != n && Stays(v, k, m);
    }
  }

  lemma WithdrawNeighbour(w: World, v: World, n: Cidr, k: Cidr)
    requires Inv(w) && Company(w) && n in w.blocks && OpOk(w, Withdraw(n)) && DrainsListed(v, k) && v.net == w.net
    requires v.blocks == w.blocks[n := w.blocks[n].(phase := Quarantined, since := w.net.now)]
    ensures HasNeighbour(v, k)
  {
    assert DrainsListed(w, k) && HasNeighbour(w, k);
    assert w.blocks[k].node in w.nodes by { assert w.blocks[k].node !in w.nodes ==> Gone(w, w.blocks[k].node); }
    var m :| Neighbour(w, k, m);
    assert Neighbour(v, k, m);
  }

  lemma WriteCompany(w: World, op: Op)
    requires Inv(w) && Company(w) && op in w.todo
    ensures Company(AfterWrite(w, op))
  {
    if op.Drain? {
      DrainCompany(w, op.name);
    } else if op.Withdraw? {
      WithdrawCompany(w, op.name);
    } else {
      if op.Creates() {
        CreateKept(w, op);
      } else if op.Delete? {
        DeleteKept(w, op.name);
      } else if op.Split? {
        SplitKept(w, op.name);
      } else {
        UpdateKept(w, op);
      }
      KeptCompany(w, AfterWrite(w, op));
    }
  }

  lemma PlanCompany(w: World, ops: set<Op>)
    requires Company(w) && PlannedTogether(w, ops)
    ensures Company(w.(todo := ops))
  {
    var v := w.(todo := ops);
    forall n | DrainsListed(v, n) ensures HasNeighbour(v, n) {
      assert DrainsListed(w, n) && HasNeighbour(w, n);
      var m :| Neighbour(w, n, m);
      assert Neighbour(v, n, m);
    }
    forall n | Drain(n) in ops ensures exists m :: Stays(v, n, m) {
      assert Planned(w, Drain(n));
      var m :| Neighbour(w, n, m) && Drain(m) !in ops;
      assert Withdraw(m) in ops ==> Planned(w, Withdraw(m));
      assert Stays(v, n, m);
    }
  }

  // ---- every step, every run ----

  lemma StepKeepsCompany(w: World, s: Step)
    requires Inv(w) && Company(w) && Enabled(w, s)
    ensures Company(After(w, s))
  {
    match s
    case Plan(ops) => PlanCompany(w, ops);
    case Write(op) => WriteCompany(w, op);
    case _ => OtherStepCompany(w, s);
  }

  lemma OtherStepCompany(w: World, s: Step)
    requires Inv(w) && Company(w) && Enabled(w, s) && !s.Plan? && !s.Write?
    ensures Company(After(w, s))
  {
    OtherStepKept(w, s);
    KeptCompany(w, After(w, s));
  }

  lemma OtherStepKept(w: World, s: Step)
    requires Inv(w) && Enabled(w, s) && !s.Plan? && !s.Write?
    ensures Kept(w, After(w, s))
  {
    match s
    case Read(node, promote) => ReadKept(w, node, promote);
    case WriteStatus(node, n) => StatusKept(w, node, n);
    case _ => QuietStepKept(w, s);
  }

  lemma QuietStepKept(w: World, s: Step)
    requires Inv(w) && Enabled(w, s) && !s.Plan? && !s.Write? && !s.Read? && !s.WriteStatus?
    ensures Kept(w, After(w, s))
  {
    if s.WriteConfig? {
      ConfigSettles(w, s.node);
      SettlesIsQuiet(w.net, After(w, s).net);
    } else if OnNodes(s) {
      NodeStepIsQuiet(w, s);
    } else {
      SameIsQuiet(w.net);
    }
    QuietKept(w, After(w, s));
  }

  /** What holds in every world that a run of careful steps leads to. */
  ghost predicate Invariant(w: World) {
    Inv(w) && Company(w)
  }

  lemma StepKeepsInvariant(w: World, s: Step)
    requires Invariant(w) && Enabled(w, s) && Careful(w, s)
    ensures Invariant(After(w, s))
  {
    StepKeepsInv(w, s);
    StepKeepsCompany(w, s);
  }

  lemma {:induction false} RunKeepsInvariant(w: World, steps: seq<Step>, v: World)
    requires (Init(w) || Invariant(w)) && Leads(w, steps, v) && AllCareful(w, steps)
    ensures Invariant(v)
    decreases |steps|
  {
    if Init(w) { InitInv(w); }
    if steps != [] {
      StepKeepsInvariant(w, steps[0]);
      RunKeepsInvariant(After(w, steps[0]), steps[1..], v);
    }
  }
}
