/** The writes of a controller pass as the program makes them, in its order, cut off after any of them by a
    crash or an error. Whatever happens, the pass is a run of the step system; and it is cut off only if no more writes
    go through, or else has made every step of its plan. */
module ControllerPass {
  import opened Options
  import opened Cidrs
  import opened NodeBlocks
  import opened Protocol
  import opened ApiServer

  lemma {:induction false} OneMoreStep(w: World, steps: seq<Step>, v: World, s: Step)
    requires Leads(w, steps, v) && Enabled(v, s)
    ensures Leads(w, steps + [s], After(v, s))
    decreases |steps|
  {
    if steps == [] {
      assert [s][1..] == [];
    } else {
      OneMoreStep(After(w, steps[0]), steps[1..], v, s);
      assert (steps + [s])[0] == steps[0] && (steps + [s])[1..] == steps[1..] + [s];
    }
  }

  /** The operations that a plan lists. The others follow from these. */
  predicate FromPlan(op: Op) {
    !op.CreateRest? && !op.StampPending? && !op.StampRest? && !op.StampSplit?
  }

  // ---- the steps of a plan ----

  /** The block has a half to give up. */
  predicate Splits(objects: Objects, n: Cidr) {
    && n in objects && objects[n].release.Some? && objects[n].ready == objects[n].release
    && OtherHalf(objects[n].cidr, objects[n].release.value).Some?
  }

  /** The steps that carry out an operation on the objects as they are: a new object, or the rest of a split, gets its
      status stamped, unless the name is taken. */
  function StepsFor(objects: Objects, op: Op, conflicts: set<Cidr>): seq<Step>
    decreases op.Split?
  {
    match op
    case Create(_, c) => if c in objects then [Write(op)] else [Write(op), Write(StampPending(c))]
    case CreateRest(_, c) => if c in objects then [Write(op)] else [Write(op), Write(StampRest(c))]
    case StampSplit(n) => if n in conflicts then [Protocol.Drop(op)] else [Write(op)]
    case Split(n) =>
      if !Splits(objects, n) then [Write(op)]
      else [Write(op)] + StepsFor(objects, StampSplit(n), conflicts)
             + StepsFor(objects, CreateRest(objects[n].node, objects[n].release.value), conflicts)
    case _ => [Write(op)]
  }

  /** How many of them are writes that go to the API server. */
  function CostOf(objects: Objects, op: Op, conflicts: set<Cidr>): nat
    decreases op.Split?
  {
    match op
    case Create(_, c) => if c in objects then 0 else 2
    case CreateRest(_, c) => if c in objects then 0 else 2
    case StampSplit(n) => if n in conflicts then 0 else 1
    case Drain(n) => if n in objects && !objects[n].drain then 1 else 0
    case Undrain(n) => if n in objects && objects[n].drain then 1 else 0
    case Release(n, half) => if n in objects && objects[n].release != Some(half) then 1 else 0
    case Unrelease(n) => if n in objects && objects[n].release.Some? then 1 else 0
    case Split(n) =>
      if Splits(objects, n) then
        1 + CostOf(objects, StampSplit(n), conflicts)
          + CostOf(objects, CreateRest(objects[n].node, objects[n].release.value), conflicts)
      else if n in objects && objects[n].release.Some? && objects[n].ready == objects[n].release then 1 else 0
    case Withdraw(n) => if n in objects then 1 else 0
    case Delete(n) => if n in objects then 1 else 0
    case _ => 1
  }

  predicate OfController(s: Step) {
    s.Write? || s.Drop?
  }

  /** Where the steps of the controller lead. */
  function AfterAll(w: World, steps: seq<Step>): World
    requires forall s :: s in steps ==> OfController(s)
  {
    if steps == [] then w else
      var last := steps[|steps| - 1];
      assert last in steps && OfController(last);
      After(AfterAll(w, steps[..|steps| - 1]), last)
  }

  lemma {:induction false} AfterBoth(w: World, a: seq<Step>, b: seq<Step>)
    requires forall s :: s in a + b ==> OfController(s)
    ensures forall s :: s in a ==> s in a + b
    ensures forall s :: s in b ==> s in a + b
    ensures AfterAll(w, a + b) == AfterAll(AfterAll(w, a), b)
    decreases |b|
  {
    assert forall s :: s in a || s in b ==> s in a + b;
    if b == [] {
      assert a + b == a;
    } else {
      var c := b[..|b| - 1];
      assert a + b == a + c + [b[|b| - 1]] && (a + b)[..|a + b| - 1] == a + c;
      AfterBoth(w, a, c);
    }
  }

  lemma ForController(objects: Objects, op: Op, conflicts: set<Cidr>)
    ensures forall s :: s in StepsFor(objects, op, conflicts) ==> OfController(s)
    decreases op.Split?
  {
    if op.Split? && Splits(objects, op.name) {
      ForController(objects, StampSplit(op.name), conflicts);
      ForController(objects, CreateRest(objects[op.name].node, objects[op.name].release.value), conflicts);
    }
  }

  /** All these steps have been made, or no more writes went through before the last of them. */
  ghost predicate Ran(w: World, was: seq<Step>, had: nat, all: seq<Step>, cost: nat, v: World, steps: seq<Step>,
                      left: nat, cut: bool)
  {
    && (forall s :: s in all ==> OfController(s)) && (cut <==> had < cost)
    && if cut then exists k: nat :: k < |all| && steps == was + all[..k]
       else steps == was + all && v == AfterAll(w, all) && left == had - cost
  }

  lemma RanBoth(w: World, was: seq<Step>, had: nat, a: seq<Step>, ca: nat, u: World, mid: seq<Step>, m: nat,
                b: seq<Step>, cb: nat, v: World, steps: seq<Step>, left: nat, cut: bool)
    requires Ran(w, was, had, a, ca, u, mid, m, false) && Ran(u, mid, m, b, cb, v, steps, left, cut)
    ensures Ran(w, was, had, a + b, ca + cb, v, steps, left, cut)
  {
    assert forall s :: s in a + b ==> s in a || s in b;
    if cut {
      var k: nat :| k < |b| && steps == mid + b[..k];
      PrefixOfBoth(was, a, b, k);
    } else {
      AfterBoth(w, a, b);
      Regroup(was, a, b);
    }
  }

  lemma Regroup(x: seq<Step>, y: seq<Step>, z: seq<Step>)
    ensures x + y + z == x + (y + z)
  {
  }

  lemma PrefixOfBoth(was: seq<Step>, a: seq<Step>, b: seq<Step>, k: nat)
    requires k <= |b|
    ensures was + a + b[..k] == was + (a + b)[..|a| + k]
  {
    assert (a + b)[..|a| + k] == a + b[..k];
  }

  lemma RanCut(w: World, was: seq<Step>, had: nat, a: seq<Step>, ca: nat, v: World, steps: seq<Step>, left: nat,
               b: seq<Step>, cb: nat)
    requires Ran(w, was, had, a, ca, v, steps, left, true) && forall s :: s in b ==> OfController(s)
    ensures Ran(w, was, had, a + b, ca + cb, v, steps, left, true)
  {
    var k: nat :| k < |a| && steps == was + a[..k];
    assert a[..k] == (a + b)[..k];
  }

  /** The steps of a whole plan, one operation after the other. */
  ghost function PlanSteps(w: World, plan: seq<Op>, conflicts: set<Cidr>): (all: seq<Step>)
    ensures forall s :: s in all ==> OfController(s)
  {
    if plan == [] then [] else
      var front := PlanSteps(w, plan[..|plan| - 1], conflicts);
      var objects := AfterAll(w, front).blocks;
      ForController(objects, plan[|plan| - 1], conflicts);
      front + StepsFor(objects, plan[|plan| - 1], conflicts)
  }

  ghost function PlanCost(w: World, plan: seq<Op>, conflicts: set<Cidr>): nat {
    if plan == [] then 0 else
      PlanCost(w, plan[..|plan| - 1], conflicts)
        + CostOf(AfterAll(w, PlanSteps(w, plan[..|plan| - 1], conflicts)).blocks, plan[|plan| - 1], conflicts)
  }

  class Pass {
    const api: Api
    const now: int
    // The blocks for which the status write after a split conflicts with one of their agent.
    const conflicts: set<Cidr>
    // How many more writes go through before the pass is cut off.
    var writes: nat
    var cut: bool
    // The run so far: where the pass began, the steps it has made, and where they led.
    ghost const start: World
    ghost var steps: seq<Step>
    ghost var world: World

    constructor (api: Api, now: int, conflicts: set<Cidr>, writes: nat, ghost planned: World)
      requires api.blocks == planned.blocks && now == planned.net.now
      ensures Valid() && world == planned == start && steps == [] && this.api == api && !cut
    {
      this.api, this.now, this.conflicts, this.writes, cut := api, now, conflicts, writes, false;
      start, steps, world := planned, [], planned;
    }

    /** The objects are those that the steps lead to. */
    ghost predicate Valid()
      reads this, api
    {
      api.blocks == world.blocks && now == world.net.now && Leads(start, steps, world)
    }

    /** The operation is done, and of what is planned everything else is still to do. */
    static ghost predicate Keeps(before: World, op: Op, after: World) {
      op !in after.todo && forall o :: FromPlan(o) && o != op ==> (o in before.todo <==> o in after.todo)
    }

    /** Since then the steps of the operation have been made, unless the pass was cut off among them. */
    ghost predicate Did(w: World, was: seq<Step>, had: nat, op: Op)
      reads this
    {
      && Ran(w, was, had, StepsFor(w.blocks, op, conflicts), CostOf(w.blocks, op, conflicts), world, steps, writes, cut)
      && (!cut ==> Keeps(w, op, world))
    }

    /** Records that the objects are now as the planned write leaves them. */
    ghost method Record(op: Op)
      requires Leads(start, steps, world) && op in world.todo && now == world.net.now
      requires api.blocks == AfterWrite(world, op).blocks
      modifies this`steps, this`world
      ensures Valid() && world == AfterWrite(old(world), op) && steps == old(steps) + [Write(op)]
    {
      OneMoreStep(start, steps, world, Write(op));
      steps, world := steps + [Write(op)], AfterWrite(world, op);
    }

    /** One write, unless the pass is cut off here. */
    method Put(blocks: Objects, ghost op: Op)
      requires Valid() && !cut && op in world.todo && blocks == AfterWrite(world, op).blocks
      modifies this, api
      ensures Valid() && (cut <==> old(writes) == 0)
      ensures if cut then world == old(world) && steps == old(steps)
              else world == AfterWrite(old(world), op) && steps == old(steps) + [Write(op)] && writes == old(writes) - 1
    {
      if writes == 0 {
        cut := true;
        return;
      }
      writes, api.blocks := writes - 1, blocks;
      Record(op);
    }

    /** A write that is given up while the pass goes on. */
    ghost method Skip(op: Op)
      requires Valid() && op in world.todo
      modifies this`steps, this`world
      ensures Valid() && world == old(world).(todo := old(world).todo - {op})
      ensures steps == old(steps) + [Protocol.Drop(op)]
    {
      OneMoreStep(start, steps, world, Protocol.Drop(op));
      steps, world := steps + [Protocol.Drop(op)], After(world, Protocol.Drop(op));
    }

    /** One step. */
    static lemma RanOne(w: World, was: seq<Step>, had: nat, s: Step, cost: nat, v: World, steps: seq<Step>, left: nat,
                        cut: bool)
      requires OfController(s) && cost <= 1 && (cut <==> had < cost)
      requires if cut then steps == was else v == After(w, s) && steps == was + [s] && left == had - cost
      ensures Ran(w, was, had, [s], cost, v, steps, left, cut)
    {
      assert [s][..0] == [] && AfterAll(w, []) == w;
      if cut { assert steps == was + [s][..0]; } else { assert AfterAll(w, [s]) == After(AfterAll(w, []), s); }
    }

    /** Sets or withdraws the request to drain a block. */
    method SetDrain(name: Cidr, drain: bool, ghost op: Op)
      requires Valid() && !cut && op in world.todo && op == if drain then Drain(name) else Undrain(name)
      modifies this, api
      ensures Valid() && Did(old(world), old(steps), old(writes), op)
      ensures !cut && name in old(api.blocks) ==>
        api.blocks == old(api.blocks)[name := old(api.blocks)[name].(drain := drain)]
    {
      if name !in api.blocks || api.blocks[name].drain == drain {
        assert name in world.blocks ==> world.blocks[name].(drain := drain) == world.blocks[name];
        Record(op);
      } else {
        Put(api.blocks[name := api.blocks[name].(drain := drain)], op);
      }
      RanOne(old(world), old(steps), old(writes), Write(op), CostOf(old(api.blocks), op, conflicts), world, steps,
             writes, cut);
    }

    /** Asks for a half of a block, or withdraws that. */
    method SetRelease(name: Cidr, half: Option<Cidr>, ghost op: Op)
      requires Valid() && !cut && op in world.todo
      requires op == if half.Some? then Release(name, half.value) else Unrelease(name)
      modifies this, api
      ensures Valid() && Did(old(world), old(steps), old(writes), op)
      ensures !cut && name in old(api.blocks) ==>
        api.blocks == old(api.blocks)[name := old(api.blocks)[name].(release := half)]
    {
      if name !in api.blocks || api.blocks[name].release == half {
        assert name in world.blocks ==> world.blocks[name].(release := half) == world.blocks[name];
        Record(op);
      } else {
        Put(api.blocks[name := api.blocks[name].(release := half)], op);
      }
      RanOne(old(world), old(steps), old(writes), Write(op), CostOf(old(api.blocks), op, conflicts), world, steps,
             writes, cut);
    }

    /** A new object and then, in a write of its own, its status. */
    method CreateAndStamp(c: Cidr, b: NodeBlock, stamped: NodeBlock, ghost op: Op, ghost stamp: Op)
      requires Valid() && !cut && op in world.todo && op.Creates() && op.cidr == c && c !in api.blocks
      requires AfterWrite(world, op) == world.(blocks := world.blocks[c := b], todo := world.todo - {op} + {stamp})
      requires AfterWrite(AfterWrite(world, op), stamp).blocks == world.blocks[c := stamped]
      requires stamp.StampPending? || stamp.StampRest?
      modifies this, api
      ensures Valid() && (cut <==> old(writes) < 2) && (!cut ==> api.blocks == old(api.blocks)[c := stamped])
      ensures Ran(old(world), old(steps), old(writes), [Write(op), Write(stamp)], 2, world, steps, writes, cut)
      ensures !cut ==> world == AfterWrite(AfterWrite(old(world), op), stamp)
    {
      ghost var w, was, had := world, steps, writes;
      Put(api.blocks[c := b], op);
      RanOne(w, was, had, Write(op), 1, world, steps, writes, cut);
      assert [Write(op), Write(stamp)] == [Write(op)] + [Write(stamp)];
      if cut {
        RanCut(w, was, had, [Write(op)], 1, world, steps, writes, [Write(stamp)], 1);
        return;
      }
      ghost var u, mid, m := world, steps, writes;
      Put(api.blocks[c := stamped], stamp);
      RanOne(u, mid, m, Write(stamp), 1, world, steps, writes, cut);
      RanBoth(w, was, had, [Write(op)], 1, u, mid, m, [Write(stamp)], 1, world, steps, writes, cut);
    }

    /** Creates an object and then stamps its status. Nothing happens if the name is taken. */
    method CreateBlock(node: string, c: Cidr)
      requires Valid() && !cut && Create(node, c) in world.todo
      modifies this, api
      ensures Valid() && Did(old(world), old(steps), old(writes), Create(node, c))
      ensures !cut ==> api.blocks == if c in old(api.blocks) then old(api.blocks)
        else old(api.blocks)[c := NodeBlock(node, c, false, None, Pending, None, now)]
    {
      if c in api.blocks {
        Record(Create(node, c));
        RanOne(old(world), old(steps), old(writes), Write(Create(node, c)), 0, world, steps, writes, cut);
        return;
      }
      var b := NodeBlock(node, c, false, None, Pending, None, now);
      CreateAndStamp(c, b, b.(since := now), Create(node, c), StampPending(c));
    }

    /** Completes a release: the block shrinks first, in one write, and only then the other half gets an
        object of its own, which rests in quarantine. It gets that even if the status of the block could not
        be written in between. */
    method SplitBlock(name: Cidr)
      requires Valid() && !cut && Split(name) in world.todo
      modifies this, api
      ensures Valid() && Did(old(world), old(steps), old(writes), Split(name))
      ensures !cut && Splits(old(api.blocks), name) ==>
        var b := old(api.blocks)[name];
        var half, keep := b.release.value, OtherHalf(b.cidr, b.release.value).value;
        api.blocks == WithRest(old(api.blocks)[name := Stamped(b.(cidr := keep, release := None), name)], b.node, half)
    {
      if name !in api.blocks || api.blocks[name].release.None? || api.blocks[name].ready != api.blocks[name].release {
        Record(Split(name));
        RanOne(old(world), old(steps), old(writes), Write(Split(name)), 0, world, steps, writes, cut);
        return;
      }
      var b := api.blocks[name];
      var half := b.release.value;
      var keep := OtherHalf(b.cidr, half);
      if keep.None? {
        Put(api.blocks[name := b.(release := None)], Split(name));
        RanOne(old(world), old(steps), old(writes), Write(Split(name)), 1, world, steps, writes, cut);
        return;
      }
      SplitInHalves(name, b, half, keep.value);
    }

    /** The objects with one for the half that is given up, which rests, unless its name is taken. */
    function WithRest(objects: Objects, node: string, half: Cidr): Objects {
      if half in objects then objects
      else objects[half := NodeBlock(node, half, true, None, Quarantined, None, now)]
    }

    method SplitInHalves(name: Cidr, b: NodeBlock, half: Cidr, keep: Cidr)
      requires Valid() && !cut && Split(name) in world.todo && Splits(api.blocks, name) && b == api.blocks[name]
      requires b.release == Some(half) && OtherHalf(b.cidr, half) == Some(keep)
      modifies this, api
      ensures Valid() && Did(old(world), old(steps), old(writes), Split(name))
      ensures var kept := Stamped(b.(cidr := keep, release := None), name);
        !cut ==> api.blocks == WithRest(old(api.blocks)[name := kept], b.node, half)
    {
      ghost var w, was, had := world, steps, writes;
      Put(api.blocks[name := b.(cidr := keep, release := None)], Split(name));
      ghost var u, mid, m := world, steps, writes;
      if cut {
        SplitCut(w, was, had, name);
        return;
      }
      FinishSplit(name, b.node, half);
      SplitDone(w, was, had, name, u, mid, m);
    }

    /** The steps of a split after the first. */
    function Later(objects: Objects, name: Cidr): seq<Step>
      requires Splits(objects, name)
    {
      StepsFor(objects, StampSplit(name), conflicts)
        + StepsFor(objects, CreateRest(objects[name].node, objects[name].release.value), conflicts)
    }

    function LaterCost(objects: Objects, name: Cidr): nat
      requires Splits(objects, name)
    {
      CostOf(objects, StampSplit(name), conflicts)
        + CostOf(objects, CreateRest(objects[name].node, objects[name].release.value), conflicts)
    }

    lemma SplitCut(w: World, was: seq<Step>, had: nat, name: Cidr)
      requires Splits(w.blocks, name) && cut && had == 0 && steps == was
      ensures Did(w, was, had, Split(name))
    {
      var op := Split(name);
      RanOne(w, was, had, Write(op), 1, world, steps, writes, true);
      ForController(w.blocks, op, conflicts);
      assert forall s :: s in Later(w.blocks, name) ==> s in StepsFor(w.blocks, op, conflicts);
      RanCut(w, was, had, [Write(op)], 1, world, steps, writes, Later(w.blocks, name), LaterCost(w.blocks, name));
      assert StepsFor(w.blocks, op, conflicts) == [Write(op)] + Later(w.blocks, name);
    }

    lemma SplitDone(w: World, was: seq<Step>, had: nat, name: Cidr, u: World, mid: seq<Step>, m: nat)
      requires Splits(w.blocks, name) && u == AfterWrite(w, Split(name)) && mid == was + [Write(Split(name))]
      requires had > 0 && m == had - 1
      requires Ran(u, mid, m, Later(w.blocks, name), LaterCost(w.blocks, name), world, steps, writes, cut)
      requires !cut ==> forall o :: FromPlan(o) ==> (o in world.todo <==> o in u.todo)
      ensures Did(w, was, had, Split(name))
    {
      var op := Split(name);
      RanOne(w, was, had, Write(op), 1, u, mid, m, false);
      RanBoth(w, was, had, [Write(op)], 1, u, mid, m, Later(w.blocks, name), LaterCost(w.blocks, name), world, steps,
              writes, cut);
      assert StepsFor(w.blocks, op, conflicts) == [Write(op)] + Later(w.blocks, name);
    }

    /** What is left of a split once the block has shrunk. */
    method FinishSplit(name: Cidr, node: string, half: Cidr)
      requires Valid() && !cut && name in api.blocks && StampSplit(name) in world.todo
      requires CreateRest(node, half) in world.todo
      modifies this, api
      ensures Valid()
      ensures var stamp, rest := StampSplit(name), CreateRest(node, half);
        Ran(old(world), old(steps), old(writes),
            StepsFor(old(world).blocks, stamp, conflicts) + StepsFor(old(world).blocks, rest, conflicts),
            CostOf(old(world).blocks, stamp, conflicts) + CostOf(old(world).blocks, rest, conflicts),
            world, steps, writes, cut)
      ensures !cut ==> forall o :: FromPlan(o) ==> (o in world.todo <==> o in old(world).todo)
      ensures !cut ==> api.blocks == WithRest(old(api.blocks)[name := Stamped(old(api.blocks)[name], name)], node, half)
    {
      ghost var w, was, had := world, steps, writes;
      ghost var stamp, rest := StampSplit(name), CreateRest(node, half);
      StampKept(name);
      if cut {
        ForController(w.blocks, rest, conflicts);
        RanCut(w, was, had, StepsFor(w.blocks, stamp, conflicts), CostOf(w.blocks, stamp, conflicts), world, steps,
               writes, StepsFor(w.blocks, rest, conflicts), CostOf(w.blocks, rest, conflicts));
        return;
      }
      ghost var u, mid, m := world, steps, writes;
      assert StepsFor(u.blocks, rest, conflicts) == StepsFor(w.blocks, rest, conflicts);
      CreateHalf(node, half);
      RanBoth(w, was, had, StepsFor(w.blocks, stamp, conflicts), CostOf(w.blocks, stamp, conflicts), u, mid, m,
              StepsFor(w.blocks, rest, conflicts), CostOf(w.blocks, rest, conflicts), world, steps, writes, cut);
    }

    /** The block with the status that it gets after it has shrunk. */
    function Stamped(b: NodeBlock, name: Cidr): NodeBlock {
      if name in conflicts then b else b.(ready := None, since := now)
    }

    /** The status of the half that is kept, unless that write conflicts. */
    method StampKept(name: Cidr)
      requires Valid() && !cut && StampSplit(name) in world.todo && name in api.blocks
      modifies this, api
      ensures Valid() && Did(old(world), old(steps), old(writes), StampSplit(name))
      ensures !cut ==> world.todo == old(world).todo - {StampSplit(name)} && world.blocks.Keys == old(world).blocks.Keys
      ensures !cut ==> api.blocks == old(api.blocks)[name := Stamped(old(api.blocks)[name], name)]
    {
      ghost var op := StampSplit(name);
      if name in conflicts {
        Skip(op);
        RanOne(old(world), old(steps), old(writes), Protocol.Drop(op), 0, world, steps, writes, cut);
      } else {
        Put(api.blocks[name := api.blocks[name].(ready := None, since := now)], op);
        RanOne(old(world), old(steps), old(writes), Write(op), 1, world, steps, writes, cut);
      }
    }

    method CreateHalf(node: string, half: Cidr)
      requires Valid() && !cut && CreateRest(node, half) in world.todo
      modifies this, api
      ensures Valid() && Did(old(world), old(steps), old(writes), CreateRest(node, half))
      ensures !cut ==> api.blocks == if half in old(api.blocks) then old(api.blocks)
        else old(api.blocks)[half := NodeBlock(node, half, true, None, Quarantined, None, now)]
    {
      if half in api.blocks {
        Record(CreateRest(node, half));
        RanOne(old(world), old(steps), old(writes), Write(CreateRest(node, half)), 0, world, steps, writes, cut);
        return;
      }
      var b := NodeBlock(node, half, true, None, Pending, None, now);
      CreateAndStamp(half, b, b.(phase := Quarantined, since := now), CreateRest(node, half), StampRest(half));
    }

    /** Withdraws the block of a node that is gone. */
    method WithdrawBlock(name: Cidr)
      requires Valid() && !cut && Withdraw(name) in world.todo
      modifies this, api
      ensures Valid() && Did(old(world), old(steps), old(writes), Withdraw(name))
      ensures !cut && name in old(api.blocks) ==>
        api.blocks == old(api.blocks)[name := old(api.blocks)[name].(phase := Quarantined, since := now)]
    {
      ghost var op := Withdraw(name);
      if name !in api.blocks {
        Record(op);
      } else {
        Put(api.blocks[name := api.blocks[name].(phase := Quarantined, since := now)], op);
      }
      RanOne(old(world), old(steps), old(writes), Write(op), CostOf(old(api.blocks), op, conflicts), world, steps,
             writes, cut);
    }

    method DeleteBlock(name: Cidr)
      requires Valid() && !cut && Delete(name) in world.todo
      modifies this, api
      ensures Valid() && Did(old(world), old(steps), old(writes), Delete(name))
      ensures !cut ==> api.blocks == old(api.blocks) - {name}
    {
      ghost var op := Delete(name);
      if name !in api.blocks {
        Record(op);
      } else {
        Put(api.blocks - {name}, op);
      }
      RanOne(old(world), old(steps), old(writes), Write(op), CostOf(old(api.blocks), op, conflicts), world, steps,
             writes, cut);
    }

    method Do(op: Op)
      requires Valid() && !cut && op in world.todo && FromPlan(op)
      modifies this, api
      ensures Valid() && Did(old(world), old(steps), old(writes), op)
    {
      match op
      case Create(node, c) => CreateBlock(node, c);
      case Drain(n) => SetDrain(n, true, op);
      case Undrain(n) => SetDrain(n, false, op);
      case Release(n, half) => SetRelease(n, Some(half), op);
      case Unrelease(n) => SetRelease(n, None, op);
      case Split(n) => SplitBlock(n);
      case Withdraw(n) => WithdrawBlock(n);
      case Delete(n) => DeleteBlock(n);
    }

    /** Carries out a plan in order. The pass is cut off exactly if its writes do not suffice, and otherwise makes every
        step of the plan; what it has not written is then dropped. The objects are those that this run of the step
        system leads to, with nothing left to write. */
    method Apply(plan: seq<Op>) returns (ghost made: seq<Step>, ghost v: World)
      requires Valid() && !cut && (forall op :: op in plan ==> op in world.todo && FromPlan(op))
      requires forall i, j :: 0 <= i < j < |plan| ==> plan[i] != plan[j]
      modifies this, api
      ensures Valid() && world == v.(todo := {})
      ensures Ran(old(world), old(steps), old(writes), PlanSteps(old(world), plan, conflicts),
                  PlanCost(old(world), plan, conflicts), v, made, writes, cut)
      ensures made <= steps && forall s :: s in steps[|made|..] ==> s.Drop?
    {
      RunPlan(plan);
      made, v := steps, world;
      GiveUp();
    }

    method RunPlan(plan: seq<Op>)
      requires Valid() && !cut && ToDo(plan, 0, world)
      requires forall i, j :: 0 <= i < j < |plan| ==> plan[i] != plan[j]
      modifies this, api
      ensures Valid()
      ensures Ran(old(world), old(steps), old(writes), PlanSteps(old(world), plan, conflicts),
                  PlanCost(old(world), plan, conflicts), world, steps, writes, cut)
    {
      ghost var w, was, had := world, steps, writes;
      var i := 0;
      while i < |plan| && !cut
        invariant 0 <= i <= |plan| && Valid()
        invariant RanTo(w, was, had, plan, i) && (!cut ==> ToDo(plan, i, world))
      {
        ghost var u, mid, m := world, steps, writes;
        Do(plan[i]);
        OneMoreOp(w, was, had, plan, i, u, mid, m);
        if !cut { StillToDo(plan, i, u, world); }
        i := i + 1;
      }
      assert plan[..|plan|] == plan;
      if cut { CutBefore(w, was, had, plan, i); }
    }

    /** The rest of the plan is still to be written. */
    static ghost predicate ToDo(plan: seq<Op>, i: nat, w: World) {
      forall k :: i <= k < |plan| ==> plan[k] in w.todo && FromPlan(plan[k])
    }

    static lemma StillToDo(plan: seq<Op>, i: nat, u: World, v: World)
      requires i < |plan| && ToDo(plan, i, u) && Keeps(u, plan[i], v)
      requires forall j, k :: 0 <= j < k < |plan| ==> plan[j] != plan[k]
      ensures ToDo(plan, i + 1, v)
    {
      forall k | i + 1 <= k < |plan| ensures plan[k] in v.todo && FromPlan(plan[k]) {
        assert plan[i] != plan[k] && plan[k] in u.todo;
      }
    }

    /** The first operations of a plan have been carried out. */
    ghost predicate RanTo(w: World, was: seq<Step>, had: nat, plan: seq<Op>, i: nat)
      requires i <= |plan|
      reads this
    {
      Ran(w, was, had, PlanSteps(w, plan[..i], conflicts), PlanCost(w, plan[..i], conflicts), world, steps, writes, cut)
    }

    lemma OneMoreOp(w: World, was: seq<Step>, had: nat, plan: seq<Op>, i: nat, u: World, mid: seq<Step>, m: nat)
      requires i < |plan|
      requires Ran(w, was, had, PlanSteps(w, plan[..i], conflicts), PlanCost(w, plan[..i], conflicts), u, mid, m, false)
      requires Did(u, mid, m, plan[i])
      ensures RanTo(w, was, had, plan, i + 1)
    {
      assert plan[..i + 1][..i] == plan[..i];
      RanBoth(w, was, had, PlanSteps(w, plan[..i], conflicts), PlanCost(w, plan[..i], conflicts), u, mid, m,
              StepsFor(u.blocks, plan[i], conflicts), CostOf(u.blocks, plan[i], conflicts), world, steps, writes, cut);
    }

    /** A pass that is cut off in the middle of its plan does not get to the end of it. */
    lemma {:induction false} CutBefore(w: World, was: seq<Step>, had: nat, plan: seq<Op>, i: nat)
      requires cut && i <= |plan| && RanTo(w, was, had, plan, i)
      ensures RanTo(w, was, had, plan, |plan|)
      decreases |plan| - i
    {
      if i < |plan| {
        assert plan[..i + 1][..i] == plan[..i];
        var objects := AfterAll(w, PlanSteps(w, plan[..i], conflicts)).blocks;
        ForController(objects, plan[i], conflicts);
        RanCut(w, was, had, PlanSteps(w, plan[..i], conflicts), PlanCost(w, plan[..i], conflicts), world, steps, writes,
               StepsFor(objects, plan[i], conflicts), CostOf(objects, plan[i], conflicts));
        CutBefore(w, was, had, plan, i + 1);
      }
    }

    /** What was not written is dropped. */
    ghost method GiveUp()
      requires Valid()
      modifies this`steps, this`world
      ensures Valid() && world == old(world).(todo := {})
      ensures old(steps) <= steps && forall s :: s in steps[|old(steps)|..] ==> s.Drop?
    {
      while world.todo != {}
        invariant Valid() && world == old(world).(todo := world.todo)
        invariant old(steps) <= steps && forall s :: s in steps[|old(steps)|..] ==> s.Drop?
        decreases |world.todo|
      {
        var op :| op in world.todo;
        Skip(op);
      }
    }
  }
}
