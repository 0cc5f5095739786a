/** What the planner decides is a plan of the step system: whatever the pool's numbers, the pods and the leases are,
    the writes that a pass decides on, for all nodes together, are ones that Protocol lets it plan. What is proved
    of every run there thus holds under the planner. */
module PlannerSteps {
  import opened Options
  import opened Cidrs
  import opened NodeBlocks
  import opened Sizing
  import opened Planner
  import P = Protocol
  import ProtocolSafety

  /** The blocks of a node as the planner sees them. */
  ghost predicate Sees(w: P.World, node: string, owned: set<Block>) {
    && WellFormed(owned)
    && (forall b :: b in owned ==> b.name in w.blocks && w.blocks[b.name] == b.nb && b.nb.node == node)
    && (forall n :: n in w.blocks && w.blocks[n].node == node ==> exists b :: b in owned && b.name == n)
  }

  /** In every world that a careful run leads to, a list of a node's objects, each of them once, is such a view. */
  lemma ReachedIsSeen(w: P.World, node: string, owned: set<Block>)
    requires ProtocolSafety.Inv(w)
    requires forall b :: b in owned ==> b.name in w.blocks && w.blocks[b.name] == b.nb && b.nb.node == node
    requires forall n :: n in w.blocks && w.blocks[n].node == node ==> exists b :: b in owned && b.name == n
    requires forall b, c :: b in owned && c in owned && b.name == c.name ==> b == c
    ensures Sees(w, node, owned)
  {
    forall b | b in owned ensures Aligned(b.nb.cidr) { assert ProtocolSafety.BlockOk(w.net, b.name, w.blocks[b.name]); }
    forall b, c | b in owned && c in owned && b != c ensures Apart(b, c) {
      assert Disjoint(w.blocks[b.name].cidr, w.blocks[c.name].cidr);
    }
  }

  /** New blocks as the pool hands them out: apart from one another and from the blocks there are. */
  ghost predicate New(w: P.World, given: set<Cidr>) {
    && (forall c :: c in given ==> Aligned(c) && P.ApartFromBlocks(w, c))
    && (forall c, d :: c in given && d in given && c != d ==> Disjoint(c, d))
  }

  /** The writes for one node. A grow, or a first block, takes new ones. */
  function Writes(node: string, d: Decision, given: set<Cidr>): set<P.Op> {
    match d
    case Initial => set c | c in given :: P.Create(node, c)
    case Grow => set c | c in given :: P.Create(node, c)
    case Splits(names) => set n | n in names :: P.Split(n)
    case Unrelease(names) => set n | n in names :: P.Unrelease(n)
    case Undrain(n) => {P.Undrain(n)}
    case Drain(names) => set n | n in names :: P.Drain(n)
    case ReleaseHalf(n, half) => {P.Release(n, half)}
    case Wait => {}
    case Nothing => {}
  }

  // ---- what a decision says of the node's blocks ----

  lemma SeenBlock(w: P.World, node: string, owned: set<Block>, n: Cidr) returns (b: Block)
    requires Sees(w, node, owned) && n in w.blocks && w.blocks[n].node == node
    ensures b in owned && b.name == n && b.nb == w.blocks[n]
  {
    b :| b in owned && b.name == n;
  }

  lemma NotWaiting(w: P.World, node: string, owned: set<Block>)
    requires Sees(w, node, owned) && forall b :: b in owned ==> !IsInFlight(b)
    ensures P.NothingInFlight(w, node)
  {
    forall n | n in w.blocks && w.blocks[n].node == node ensures !P.InFlight(w.blocks[n]) {
      var b := SeenBlock(w, node, owned, n);
    }
  }

  lemma NotReleasing(w: P.World, node: string, owned: set<Block>)
    requires Sees(w, node, owned) && forall b :: b in owned ==> !IsReleasing(b)
    ensures P.NothingReleased(w, node)
  {
    forall n | n in w.blocks && w.blocks[n].node == node ensures !P.IsReleasing(w.blocks[n]) {
      var b := SeenBlock(w, node, owned, n);
    }
  }

  lemma NotDraining(w: P.World, node: string, owned: set<Block>)
    requires Sees(w, node, owned) && forall b :: b in owned ==> !IsDraining(b)
    ensures P.NothingDrained(w, node)
  {
    forall n | n in w.blocks && w.blocks[n].node == node ensures !P.IsDraining(w.blocks[n]) {
      var b := SeenBlock(w, node, owned, n);
    }
  }

  // ---- one node ----

  /** The drains of a pass leave the node one block that they do not touch. */
  lemma DrainsLeaveOne(w: P.World, node: string, owned: set<Block>, spec: PoolSpec, allocatable: nat, demand: nat,
                       first: Option<Cidr>, names: set<Cidr>, n: Cidr)
    requires Sees(w, node, owned) && spec.Ok() && n in names
    requires names == Names(Drains(spec, allocatable, demand, ActiveOf(owned), first, w.net.now))
    ensures exists b :: b in ActiveOf(owned) && b.name == n
    ensures exists m :: P.Neighbour(w, n, m) && m !in names
  {
    var active := ActiveOf(owned);
    var drains := Drains(spec, allocatable, demand, active, first, w.net.now);
    DrainsSpare(spec, allocatable, demand, active, first, w.net.now);
    var b :| b in drains && b.name == n;
    var c :| c in active && c !in drains;
    forall d | d in drains ensures d.name != c.name { if d.name == c.name { NamedOnce(owned, c, d); } }
    assert P.Neighbour(w, n, c.name) && c.name !in names;
  }

  lemma DrainIsPlanned(w: P.World, node: string, owned: set<Block>, spec: PoolSpec, allocatable: nat, demand: nat,
                       first: Option<Cidr>, names: set<Cidr>, ops: set<P.Op>)
    requires Sees(w, node, owned) && spec.Ok() && node in w.nodes
    requires P.NothingInFlight(w, node) && P.NothingReleased(w, node)
    requires names == Names(Drains(spec, allocatable, demand, ActiveOf(owned), first, w.net.now))
    requires ops == Writes(node, Drain(names), {})
    ensures P.PlannedTogether(w, ops)
  {
    forall n | n in names ensures P.Planned(w, P.Drain(n)) && exists m :: P.Neighbour(w, n, m) && P.Drain(m) !in ops {
      DrainsLeaveOne(w, node, owned, spec, allocatable, demand, first, names, n);
      var m :| P.Neighbour(w, n, m) && m !in names;
      assert P.Drain(m) !in ops;
    }
  }

  lemma HalfIsPlanned(w: P.World, node: string, owned: set<Block>, candidates: set<Block>)
    requires Sees(w, node, owned) && node in w.nodes && candidates <= ActiveOf(owned)
    requires forall b :: b in candidates ==> EmptyHalf(b).Some?
    requires P.NothingInFlight(w, node) && P.NothingReleased(w, node)
    ensures P.PlannedTogether(w, Writes(node, SplitDecision(candidates), {}))
  {
    var b := FirstToSplit(candidates);
    if b.Some? { assert P.Planned(w, P.Release(b.value.name, EmptyHalf(b.value).value.0)); }
  }

  lemma ShrinkIsPlanned(w: P.World, node: string, owned: set<Block>, spec: PoolSpec, allocatable: nat, demand: nat,
                        first: Option<Cidr>, d: Decision)
    requires Sees(w, node, owned) && spec.Ok() && node in w.nodes
    requires P.NothingInFlight(w, node) && P.NothingReleased(w, node)
    requires d == Shrink(spec, allocatable, demand, ActiveOf(owned), first, w.net.now)
    ensures P.PlannedTogether(w, Writes(node, d, {}))
  {
    if d.Drain? {
      DrainIsPlanned(w, node, owned, spec, allocatable, demand, first, d.names, Writes(node, d, {}));
    } else {
      HalfIsPlanned(w, node, owned, Splittable(spec, allocatable, demand, ActiveOf(owned), first, w.net.now));
    }
  }

  lemma UnreleaseIsPlanned(w: P.World, node: string, owned: set<Block>, names: set<Cidr>)
    requires Sees(w, node, owned) && node in w.nodes && P.NothingInFlight(w, node)
    requires forall b :: b in owned ==> !IsSplitReady(b)
    requires names == Names(set b | b in owned && IsReleasing(b))
    ensures P.PlannedTogether(w, Writes(node, Unrelease(names), {}))
  {
    forall m | m in w.blocks && w.blocks[m].node == node ensures !P.SplitReady(w.blocks[m]) {
      var c := SeenBlock(w, node, owned, m);
    }
  }

  lemma GrowIsPlanned(w: P.World, node: string, owned: set<Block>, given: set<Cidr>)
    requires Sees(w, node, owned) && node in w.nodes && New(w, given) && P.NothingInFlight(w, node)
    requires forall b :: b in owned ==> !IsSplitReady(b)
    ensures P.PlannedTogether(w, Writes(node, GrowDecision(owned), given))
  {
    var releasing := set b | b in owned && IsReleasing(b);
    if releasing != {} {
      UnreleaseIsPlanned(w, node, owned, Names(releasing));
    } else {
      assert forall b :: b in owned ==> b !in releasing;
      NotReleasing(w, node, owned);
      if DrainingOf(owned) != {} {
        var b := SomeMostUsed(DrainingOf(owned));
      } else {
        assert forall b :: b in owned ==> b !in DrainingOf(owned);
        NotDraining(w, node, owned);
      }
    }
  }

  lemma SplitsArePlanned(w: P.World, node: string, owned: set<Block>, names: set<Cidr>)
    requires Sees(w, node, owned) && node in w.nodes && P.NothingInFlight(w, node)
    requires names == Names(set b | b in owned && IsSplitReady(b))
    ensures P.PlannedTogether(w, Writes(node, Splits(names), {}))
  {
  }

  /** Whatever is decided for a node is what the system lets the controller plan. */
  lemma DecisionIsPlanned(w: P.World, node: string, owned: set<Block>, spec: PoolSpec, info: Input, given: set<Cidr>)
    requires Sees(w, node, owned) && spec.Ok() && node in w.nodes && New(w, given)
    ensures P.PlannedTogether(w, Writes(node, Decide(spec, owned, info, w.net.now), given))
  {
    var splits := set b | b in owned && IsSplitReady(b);
    if owned == {} {
      NotWaiting(w, node, owned);
      NotReleasing(w, node, owned);
      NotDraining(w, node, owned);
    } else if !exists b :: b in owned && IsInFlight(b) {
      NotWaiting(w, node, owned);
      if splits != {} {
        SplitsArePlanned(w, node, owned, Names(splits));
      } else {
        assert forall b :: b in owned ==> b !in splits;
        QuietIsPlanned(w, node, owned, spec, info, given);
      }
    }
  }

  /** No change is under way. */
  lemma QuietIsPlanned(w: P.World, node: string, owned: set<Block>, spec: PoolSpec, info: Input, given: set<Cidr>)
    requires Sees(w, node, owned) && spec.Ok() && node in w.nodes && New(w, given) && P.NothingInFlight(w, node)
    requires forall b :: b in owned ==> !IsSplitReady(b)
    ensures P.PlannedTogether(w, Writes(node, GrowDecision(owned), given))
    ensures P.PlannedTogether(w, Writes(node, CalmDecision(spec, owned, info, w.net.now), given))
  {
    GrowIsPlanned(w, node, owned, given);
    CalmIsPlanned(w, node, owned, spec, info, given);
  }

  lemma TakesNothing(node: string, d: Decision, given: set<Cidr>)
    requires !d.Initial? && !d.Grow?
    ensures Writes(node, d, given) == Writes(node, d, {})
  {
  }

  lemma CalmIsPlanned(w: P.World, node: string, owned: set<Block>, spec: PoolSpec, info: Input, given: set<Cidr>)
    requires Sees(w, node, owned) && spec.Ok() && node in w.nodes && P.NothingInFlight(w, node)
    ensures P.PlannedTogether(w, Writes(node, CalmDecision(spec, owned, info, w.net.now), given))
  {
    var d := CalmDecision(spec, owned, info, w.net.now);
    TakesNothing(node, d, given);
    if d != Nothing {
      NotReleasing(w, node, owned);
      ShrinkIsPlanned(w, node, owned, spec, info.allocatable, ShrinkDemand(owned, info), StartingBlock(owned), d);
    }
  }

  // ---- all nodes together ----

  /** The write is a new block for the node, or changes one that it has. */
  predicate About(w: P.World, node: string, op: P.Op) {
    if op.Create? then op.node == node
    else !op.CreateRest? && !op.Withdraw? && !op.Delete? && op.name in w.blocks && w.blocks[op.name].node == node
  }

  lemma ShrinkIsOwn(owned: set<Block>, spec: PoolSpec, allocatable: nat, demand: nat, active: set<Block>,
                    first: Option<Cidr>, now: int)
    requires WellFormed(owned) && spec.Ok() && active <= owned
    ensures var d := Shrink(spec, allocatable, demand, active, first, now);
      (d.Drain? ==> d.names <= Names(owned)) && (d.ReleaseHalf? ==> d.name in Names(owned))
  {
    DrainsSpare(spec, allocatable, demand, active, first, now);
  }

  /** The blocks that a decision names are among those of the node. */
  predicate NamesOnly(d: Decision, names: set<Cidr>) {
    match d
    case Splits(some) => some <= names
    case Unrelease(some) => some <= names
    case Undrain(n) => n in names
    case Drain(some) => some <= names
    case ReleaseHalf(n, _) => n in names
    case _ => true
  }

  lemma GrowIsOwn(owned: set<Block>)
    ensures NamesOnly(GrowDecision(owned), Names(owned))
  {
    if DrainingOf(owned) != {} { var b := SomeMostUsed(DrainingOf(owned)); }
  }

  lemma DecisionIsOwn(owned: set<Block>, spec: PoolSpec, info: Input, now: int)
    requires WellFormed(owned) && spec.Ok()
    ensures NamesOnly(Decide(spec, owned, info, now), Names(owned))
  {
    GrowIsOwn(owned);
    ShrinkIsOwn(owned, spec, info.allocatable, ShrinkDemand(owned, info), ActiveOf(owned), StartingBlock(owned), now);
  }

  lemma WritesAreOwn(w: P.World, node: string, owned: set<Block>, d: Decision, given: set<Cidr>)
    requires Sees(w, node, owned) && NamesOnly(d, Names(owned))
    ensures forall op :: op in Writes(node, d, given) ==> About(w, node, op)
  {
  }

  function All(plans: map<string, set<P.Op>>): set<P.Op> {
    set node, op | node in plans && op in plans[node] :: op
  }

  /** Blocks of nodes that are gone are withdrawn, and those that have rested are deleted. */
  ghost predicate Tidies(w: P.World, ops: set<P.Op>) {
    forall op :: op in ops ==> (op.Withdraw? || op.Delete?) && P.Planned(w, op)
  }

  /** What holds of the plans for the nodes, one by one and of their new blocks, and of the rest of the pass. */
  ghost predicate Parts(w: P.World, plans: map<string, set<P.Op>>, tidy: set<P.Op>) {
    && (forall node :: node in plans ==> P.PlannedTogether(w, plans[node]))
    && (forall node, op :: node in plans && op in plans[node] ==> About(w, node, op))
    && (forall o, p :: o in All(plans) && p in All(plans) && o != p && o.Create? && p.Create? ==>
      Disjoint(o.cidr, p.cidr))
    && Tidies(w, tidy)
  }

  lemma NamedByOne(w: P.World, plans: map<string, set<P.Op>>, tidy: set<P.Op>, o: P.Op, p: P.Op)
    requires Parts(w, plans, tidy) && o in All(plans) + tidy && p in All(plans) + tidy && P.SameName(o, p)
    ensures o == p
  {
    if o in All(plans) && p in All(plans) {
      var n :| n in plans && o in plans[n];
      var m :| m in plans && p in plans[m];
      assert About(w, n, o) && About(w, m, p) && n == m;
    } else {
      assert o in tidy && p in tidy by {
        if o in tidy { TidyIsOther(w, plans, tidy, o); } else { TidyIsOther(w, plans, tidy, p); }
      }
    }
  }

  /** A block that is withdrawn or deleted is no node's to change. */
  lemma TidyIsOther(w: P.World, plans: map<string, set<P.Op>>, tidy: set<P.Op>, o: P.Op)
    requires Parts(w, plans, tidy) && o in tidy
    ensures forall p :: p in All(plans) ==> !P.SameName(o, p)
  {
    forall p | p in All(plans) ensures !P.SameName(o, p) {
      var n :| n in plans && p in plans[n];
      assert About(w, n, p) && P.Planned(w, p) && P.Planned(w, o);
    }
  }

  lemma LeavesOne(w: P.World, plans: map<string, set<P.Op>>, tidy: set<P.Op>, n: Cidr)
    requires Parts(w, plans, tidy) && P.Drain(n) in All(plans)
    ensures exists m :: P.Neighbour(w, n, m) && P.Drain(m) !in All(plans) + tidy
  {
    var node :| node in plans && P.Drain(n) in plans[node];
    var m :| P.Neighbour(w, n, m) && P.Drain(m) !in plans[node];
    assert About(w, node, P.Drain(n));
    forall other | other in plans && P.Drain(m) in plans[other] ensures other == node {
      assert About(w, other, P.Drain(m));
    }
  }

  /** What a pass withdraws and deletes. */
  function TidyWrites(w: P.World): set<P.Op> {
    (set n | n in w.blocks && w.blocks[n].phase != Quarantined && w.blocks[n].node !in w.nodes :: P.Withdraw(n))
      + set n | n in w.blocks && w.blocks[n].phase == Quarantined && w.net.now - w.blocks[n].since >= w.quarantine ::
          P.Delete(n)
  }

  lemma TidyIsPlanned(w: P.World)
    ensures Tidies(w, TidyWrites(w))
    ensures forall op: P.Op :: (op.Withdraw? || op.Delete?) && P.Planned(w, op) ==> op in TidyWrites(w)
  {
  }

  /** Plans for different nodes go together if their new blocks are apart. */
  lemma PlansGoTogether(w: P.World, plans: map<string, set<P.Op>>, tidy: set<P.Op>)
    requires Parts(w, plans, tidy)
    ensures P.PlannedTogether(w, All(plans) + tidy)
  {
    var ops := All(plans) + tidy;
    forall o, p | o in ops && p in ops && o != p ensures !P.SameName(o, p) {
      if P.SameName(o, p) { NamedByOne(w, plans, tidy, o, p); }
    }
    forall op | op in ops && op.Drain? ensures exists m :: P.Neighbour(w, op.name, m) && P.Drain(m) !in ops {
      LeavesOne(w, plans, tidy, op.name);
    }
  }

  /** What a pass goes by for one node: its blocks, what else is known of it, and the new blocks it can have. */
  datatype View = View(owned: set<Block>, info: Input, given: set<Cidr>)

  /** The views are those of nodes that exist, and their new blocks are apart. */
  ghost predicate AllSeen(w: P.World, views: map<string, View>) {
    && views.Keys <= w.nodes
    && (forall node :: node in views ==> Sees(w, node, views[node].owned) && New(w, views[node].given))
    && (forall m, n, c, d :: m in views && n in views && m != n && c in views[m].given && d in views[n].given ==>
      Disjoint(c, d))
  }

  /** The writes that are decided on for a node. */
  ghost function PlanOf(spec: PoolSpec, node: string, v: View, now: int): set<P.Op>
    requires spec.Ok() && WellFormed(v.owned)
  {
    Writes(node, Decide(spec, v.owned, v.info, now), v.given)
  }

  lemma PlanOfNode(w: P.World, spec: PoolSpec, node: string, v: View)
    requires spec.Ok() && node in w.nodes && Sees(w, node, v.owned) && New(w, v.given)
    ensures P.PlannedTogether(w, PlanOf(spec, node, v, w.net.now))
    ensures forall op :: op in PlanOf(spec, node, v, w.net.now) ==>
      About(w, node, op) && (op.Create? ==> op.cidr in v.given)
  {
    DecisionIsPlanned(w, node, v.owned, spec, v.info, v.given);
    DecisionIsOwn(v.owned, spec, v.info, w.net.now);
    WritesAreOwn(w, node, v.owned, Decide(spec, v.owned, v.info, w.net.now), v.given);
  }

  lemma NewAreApart(w: P.World, views: map<string, View>, plans: map<string, set<P.Op>>, o: P.Op, p: P.Op)
    requires AllSeen(w, views) && plans.Keys == views.Keys
    requires forall node, op :: node in plans && op in plans[node] ==>
      About(w, node, op) && (op.Create? ==> op.cidr in views[node].given)
    requires o in All(plans) && p in All(plans) && o != p && o.Create? && p.Create?
    ensures Disjoint(o.cidr, p.cidr)
  {
    var m :| m in plans && o in plans[m];
    var n :| n in plans && p in plans[n];
    assert About(w, m, o) && About(w, n, p);
  }

  /** A whole pass, over all the nodes it decides about: the system lets the controller plan it. */
  lemma PassIsPlanned(w: P.World, spec: PoolSpec, views: map<string, View>, plans: map<string, set<P.Op>>,
                      tidy: set<P.Op>)
    requires spec.Ok() && AllSeen(w, views) && plans.Keys == views.Keys && Tidies(w, tidy)
    requires forall node :: node in views ==> plans[node] == PlanOf(spec, node, views[node], w.net.now)
    ensures P.PlannedTogether(w, All(plans) + tidy)
  {
    forall node | node in plans
      ensures P.PlannedTogether(w, plans[node])
      ensures forall op :: op in plans[node] ==> About(w, node, op) && (op.Create? ==> op.cidr in views[node].given)
    {
      PlanOfNode(w, spec, node, views[node]);
    }
    forall o, p | o in All(plans) && p in All(plans) && o != p && o.Create? && p.Create?
      ensures Disjoint(o.cidr, p.cidr)
    {
      NewAreApart(w, views, plans, o, p);
    }
    PlansGoTogether(w, plans, tidy);
  }
}
