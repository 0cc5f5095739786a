/** Moving Service traffic to backup addresses and back, one API write at a time: a call may be cut off
    after any of its writes, by a crash or an error. */
module Failover {
  import opened Options

  type Ip = nat

  /** A pod: the node it runs on, its primary and its backup address, and whether it has the readiness gate. */
  datatype Pod = Pod(node: string, ip: Option<Ip>, backup: Option<Ip>, gated: bool) {
    predicate Movable(on: string) { node == on && ip.Some? && backup.Some? }
  }

  /** An entry of an EndpointSlice. */
  datatype Endpoint = Endpoint(node: Option<string>, addresses: set<Ip>)

  type Pods = map<string, Pod>
  type Slices = map<string, set<Endpoint>>

  datatype ShadowKey = ShadowKey(slice: string, node: string)

  /** Every write of a call is charged to what is left; with nothing left the call is cut off. */
  datatype Call = Over(node: string, writes: nat) | Back(node: string, writes: nat)

  ghost predicate Lists(slices: Slices, slice: string, p: Pod) {
    && slice in slices && p.ip.Some?
    && exists e :: e in slices[slice] && e.node == Some(p.node) && p.ip.value in e.addresses
  }

  /** Pods of one node that have a backup address do not share their primary one. */
  ghost predicate DistinctIps(pods: Pods) {
    forall p, q ::
      (p in pods && q in pods && p != q && pods[p].Movable(pods[q].node) && pods[q].Movable(pods[q].node)) ==>
        pods[p].ip != pods[q].ip
  }

  /** The backup addresses that the node's shadow of a slice lists. */
  function Shadowed(endpoints: set<Endpoint>, node: string, backups: map<Ip, Ip>): set<Ip> {
    set e, a | e in endpoints && e.node == Some(node) && a in e.addresses && a in backups :: backups[a]
  }

  // ---- what the writes go to ----

  /** All that is no longer to do has been paid for. */
  ghost predicate Paid<T>(all: set<T>, todo: set<T>, writes: nat, left: nat) {
    left + |all - todo| == writes
  }

  lemma PaidNothing<T>(all: set<T>, todo: set<T>, writes: nat)
    requires all <= todo
    ensures Paid(all, todo, writes, writes)
  {
    assert all - todo == {};
  }

  lemma PayOne<T>(all: set<T>, todo: set<T>, x: T, writes: nat, left: nat)
    requires Paid(all, todo, writes, left) && x in todo
    ensures x !in all ==> Paid(all, todo - {x}, writes, left)
    ensures x in all && left > 0 ==> Paid(all, todo - {x}, writes, left - 1)
    ensures x in all && left == 0 ==> writes < |all|
  {
    if x in all {
      assert all - (todo - {x}) == all - todo + {x};
      Smaller(all - todo, all);
    } else {
      assert all - (todo - {x}) == all - todo;
    }
  }

  lemma PaidAll<T>(all: set<T>, writes: nat, left: nat)
    requires Paid(all, {}, writes, left)
    ensures writes >= |all| && left == writes - |all|
  {
    assert all - {} == all;
  }

  lemma Smaller<T>(s: set<T>, t: set<T>)
    requires s < t
    ensures |s| < |t|
  {
    assert t == s + (t - s);
    assert t - s != {};
  }

  /** The gates with those of some pods set. */
  function Turned(gates: map<string, bool>, some: set<string>, on: bool): map<string, bool> {
    map p | p in gates :: if p in some then on else gates[p]
  }

  lemma TurnOne(gates: map<string, bool>, all: set<string>, todo: set<string>, p: string, on: bool)
    requires p in todo && p in gates
    ensures Turned(gates, all - (todo - {p}), on)
      == if p in all then Turned(gates, all - todo, on)[p := on] else Turned(gates, all - todo, on)
    ensures Turned(gates, all - todo, on)[p] == gates[p]
  {
  }

  lemma TurnNone(gates: map<string, bool>, all: set<string>, todo: set<string>, on: bool)
    requires all <= todo
    ensures Turned(gates, all - todo, on) == gates
  {
    assert all - todo == {};
  }

  /** The shadows of the other nodes. */
  function Others(shadows: map<ShadowKey, set<Ip>>, node: string): map<ShadowKey, set<Ip>> {
    map k | k in shadows && k.node != node :: shadows[k]
  }

  class Manager {
    // The pods and slices of the cluster, which do not change, the gates that are set, and the shadows.
    const pods: Pods
    const slices: Slices
    var gates: map<string, bool>
    var shadows: map<ShadowKey, set<Ip>>

    /** All gates are on and there are no shadows. */
    constructor (pods: Pods, slices: Slices)
      requires DistinctIps(pods)
      ensures this.pods == pods && this.slices == slices && shadows == map[] && Reachable()
      ensures forall p :: p in pods ==> !Off(p)
    {
      this.pods, this.slices := pods, slices;
      gates, shadows := map p | p in pods :: true, map[];
    }

    predicate Off(p: string)
      reads this`gates
    {
      p !in gates || !gates[p]
    }

    /** The pod's backup address is in the shadow of every slice that lists the pod. */
    ghost predicate Covered(p: Pod)
      reads this`shadows
    {
      forall s {:trigger Lists(slices, s, p)} :: Lists(slices, s, p) ==> InShadow(p, s)
    }

    ghost predicate InShadow(p: Pod, s: string)
      reads this`shadows
    {
      var key := ShadowKey(s, p.node);
      key in shadows && p.backup.Some? && p.backup.value in shadows[key]
    }

    /** A gated pod with a backup address is reachable by one address or the other. */
    ghost predicate Reachable()
      reads this`gates, this`shadows
    {
      && DistinctIps(pods) && gates.Keys == pods.Keys
      && forall p :: p in pods && pods[p].gated && pods[p].Movable(pods[p].node) && Off(p) ==> Covered(pods[p])
    }

    /** The backup addresses of the node's pods by primary address. */
    method BackupIps(node: string) returns (backups: map<Ip, Ip>)
      requires DistinctIps(pods)
      ensures forall p :: p in pods && pods[p].Movable(node) ==>
        pods[p].ip.value in backups && backups[pods[p].ip.value] == pods[p].backup.value
      ensures forall ip :: ip in backups ==> HasBackup(node, Some(ip))
    {
      backups := map[];
      var todo := pods.Keys;
      while todo != {}
        invariant todo <= pods.Keys
        invariant forall p :: p in pods && p !in todo && pods[p].Movable(node) ==>
          pods[p].ip.value in backups && backups[pods[p].ip.value] == pods[p].backup.value
        invariant forall ip :: ip in backups ==>
          exists p :: p in pods && p !in todo && pods[p].Movable(node) && pods[p].ip == Some(ip)
      {
        var p :| p in todo;
        todo := todo - {p};
        if pods[p].Movable(node) { backups := backups[pods[p].ip.value := pods[p].backup.value]; }
      }
    }

    /** A pod of the node with this primary address has a backup address. */
    ghost predicate HasBackup(node: string, ip: Option<Ip>) {
      exists p :: p in pods && pods[p].Movable(node) && pods[p].ip == ip
    }

    ghost predicate Known(node: string, backups: map<Ip, Ip>) {
      forall p {:trigger pods[p]} :: p in pods && pods[p].Movable(node) ==>
        pods[p].ip.value in backups && backups[pods[p].ip.value] == pods[p].backup.value
    }

    ghost predicate AllBackups(node: string, backups: map<Ip, Ip>) {
      Known(node, backups) && forall ip :: ip in backups ==> HasBackup(node, Some(ip))
    }

    /** The slice lists a pod of the node that has a backup address. */
    ghost predicate Sends(s: string, node: string) {
      s in slices && exists e, a ::
        e in slices[s] && e.node == Some(node) && a in e.addresses && HasBackup(node, Some(a))
    }

    /** The slices that need a shadow. */
    ghost function Traffic(node: string): set<string> {
      set s | s in slices && Sends(s, node)
    }

    /** The same, said of the backup addresses that a call has found. */
    ghost function Listing(node: string, backups: map<Ip, Ip>): set<string> {
      set s | s in slices && Shadowed(slices[s], node, backups) != {}
    }

    lemma ListingIsTraffic(node: string, backups: map<Ip, Ip>)
      requires AllBackups(node, backups)
      ensures Listing(node, backups) == Traffic(node)
    {
      forall s | s in slices ensures s in Listing(node, backups) <==> s in Traffic(node) {
        ShadowedIfSends(s, node, backups);
      }
    }

    lemma BackupKnown(node: string, backups: map<Ip, Ip>, ip: Option<Ip>)
      requires AllBackups(node, backups)
      ensures HasBackup(node, ip) <==> ip.Some? && ip.value in backups
    {
      if HasBackup(node, ip) { var p :| p in pods && pods[p].Movable(node) && pods[p].ip == ip; }
    }

    lemma ShadowedIfSends(s: string, node: string, backups: map<Ip, Ip>)
      requires s in slices && AllBackups(node, backups)
      ensures Shadowed(slices[s], node, backups) != {} <==> Sends(s, node)
    {
      if Sends(s, node) {
        var e, a :| e in slices[s] && e.node == Some(node) && a in e.addresses && HasBackup(node, Some(a));
        assert backups[a] in Shadowed(slices[s], node, backups);
      }
      if Shadowed(slices[s], node, backups) != {} {
        var b :| b in Shadowed(slices[s], node, backups);
        var e, a :| e in slices[s] && e.node == Some(node) && a in e.addresses && a in backups && b == backups[a];
      }
    }

    /** The gates that a failover has to turn off. */
    ghost function OnGates(node: string): set<string>
      reads this`gates
    {
      set p | p in pods && pods[p].gated && pods[p].node == node && HasBackup(node, pods[p].ip) && !Off(p)
    }

    ghost function GatesIn(node: string, backups: map<Ip, Ip>): set<string>
      reads this`gates
    {
      set p | p in pods && pods[p].gated && pods[p].node == node && pods[p].ip.Some? && pods[p].ip.value in backups
              && !Off(p)
    }

    lemma GatesInAreOn(node: string, backups: map<Ip, Ip>)
      requires AllBackups(node, backups)
      ensures GatesIn(node, backups) == OnGates(node)
    {
      forall p | p in pods ensures p in GatesIn(node, backups) <==> p in OnGates(node) {
        BackupKnown(node, backups, pods[p].ip);
      }
    }

    /** The gates that a failback has to turn on. */
    ghost function OffGates(node: string): set<string>
      reads this`gates
    {
      set p | p in pods && pods[p].gated && pods[p].node == node && Off(p)
    }

    ghost function ShadowsOf(node: string): set<ShadowKey>
      reads this`shadows
    {
      set k | k in shadows && k.node == node
    }

    /** Writes one shadow. An existing one is replaced, which takes nothing away. */
    method ApplyShadow(s: string, node: string, backups: map<Ip, Ip>, writes: nat)
      returns (wrote: bool, left: nat, cut: bool)
      requires Reachable() && s in slices && Known(node, backups)
      modifies this`shadows
      ensures Reachable()
      ensures cut <==> Shadowed(slices[s], node, backups) != {} && writes == 0
      ensures wrote <==> Shadowed(slices[s], node, backups) != {} && writes > 0
      ensures left == if wrote then writes - 1 else writes
      ensures shadows ==
        if wrote then old(shadows)[ShadowKey(s, node) := Shadowed(slices[s], node, backups)] else old(shadows)
    {
      var endpoints := Shadowed(slices[s], node, backups);
      wrote, left, cut := false, writes, false;
      if endpoints == {} { return; }
      if writes == 0 {
        cut := true;
        return;
      }
      shadows := shadows[ShadowKey(s, node) := endpoints];
      wrote, left := true, writes - 1;
      forall p | p in pods && pods[p].gated && pods[p].Movable(pods[p].node) && Off(p) ensures Covered(pods[p]) {
        forall t | Lists(slices, t, pods[p]) ensures InShadow(pods[p], t) {
          assert old(InShadow(pods[p], t));
          if t == s && pods[p].node == node { ListedIsShadowed(s, pods[p], node, backups); }
        }
      }
    }

    lemma ListedIsShadowed(s: string, p: Pod, node: string, backups: map<Ip, Ip>)
      requires Lists(slices, s, p) && p.Movable(node) && p.ip.value in backups && backups[p.ip.value] == p.backup.value
      ensures p.backup.value in Shadowed(slices[s], node, backups)
    {
    }

    /** The shadows of the node's slices, one after the other, for as long as writes are left. */
    method ApplyShadows(node: string, backups: map<Ip, Ip>, writes: nat) returns (written: nat, left: nat, cut: bool)
      requires Reachable() && Known(node, backups)
      modifies this`shadows
      ensures Reachable() && OthersKept(node) && left + written == writes
      ensures cut <==> writes < |Listing(node, backups)|
      ensures cut ==> left == 0
      ensures !cut ==> written == |Listing(node, backups)| && ShadowsWritten(node, backups)
      ensures written == 0 ==> shadows == old(shadows)
    {
      ghost var was, all := shadows, Listing(node, backups);
      ghost var todo;
      PaidNothing(all, slices.Keys, writes);
      ShadowNone(was, node, backups, all);
      written, left, cut, todo := ApplyEach(node, backups, all, was, writes);
      OthersAre(was, node, backups, all - todo);
      if written == 0 { NothingPaid(was, node, backups, all, todo, writes); }
      if !cut {
        PaidAll(all, writes, left);
        AllWritten(was, node, backups);
      }
    }

    method ApplyEach(node: string, backups: map<Ip, Ip>, ghost all: set<string>, ghost was: map<ShadowKey, set<Ip>>,
                     writes: nat) returns (written: nat, left: nat, cut: bool, ghost todo: set<string>)
      requires Reachable() && Known(node, backups) && all == Listing(node, backups)
      requires Paid(all, slices.Keys, writes, writes) && shadows == Shaded(was, node, backups, all - slices.Keys)
      modifies this`shadows
      ensures Reachable() && left + written == writes && Paid(all, todo, writes, left)
      ensures shadows == Shaded(was, node, backups, all - todo)
      ensures if cut then left == 0 && writes < |all| else todo == {}
    {
      written, left, cut := 0, writes, false;
      var rest := slices.Keys;
      todo := rest;
      while rest != {}
        invariant Reachable() && left + written == writes && !cut && todo == rest <= slices.Keys
        invariant Paid(all, todo, writes, left) && shadows == Shaded(was, node, backups, all - todo)
      {
        var s :| s in rest;
        PayOne(all, todo, s, writes, left);
        ShadeOne(was, node, backups, all, todo, s);
        var wrote;
        wrote, left, cut := ApplyShadow(s, node, backups, left);
        if cut { return; }
        rest := rest - {s};
        todo := rest;
        if wrote { written := written + 1; }
      }
    }

    /** The shadows with the node's for some slices. */
    ghost function Shaded(was: map<ShadowKey, set<Ip>>, node: string, backups: map<Ip, Ip>, some: set<string>)
      : map<ShadowKey, set<Ip>>
    {
      was + map s | s in slices && s in some :: ShadowKey(s, node) := Shadowed(slices[s], node, backups)
    }

    lemma ShadowNone(was: map<ShadowKey, set<Ip>>, node: string, backups: map<Ip, Ip>, all: set<string>)
      requires all <= slices.Keys
      ensures Shaded(was, node, backups, all - slices.Keys) == was
    {
    }

    lemma ShadeOne(was: map<ShadowKey, set<Ip>>, node: string, backups: map<Ip, Ip>, all: set<string>,
                   todo: set<string>, s: string)
      requires s in todo && s in slices
      ensures var before := Shaded(was, node, backups, all - todo);
        Shaded(was, node, backups, all - (todo - {s}))
          == if s in all then before[ShadowKey(s, node) := Shadowed(slices[s], node, backups)] else before
    {
    }

    lemma OthersAre(was: map<ShadowKey, set<Ip>>, node: string, backups: map<Ip, Ip>, some: set<string>)
      ensures Others(Shaded(was, node, backups, some), node) == Others(was, node)
    {
      var now := Shaded(was, node, backups, some);
      forall k | k in now && k.node != node ensures k in was && now[k] == was[k] {}
    }

    lemma AllWritten(was: map<ShadowKey, set<Ip>>, node: string, backups: map<Ip, Ip>)
      requires shadows == Shaded(was, node, backups, Listing(node, backups) - {})
      ensures ShadowsWritten(node, backups)
    {
      assert Listing(node, backups) - {} == Listing(node, backups);
    }

    lemma NothingPaid(was: map<ShadowKey, set<Ip>>, node: string, backups: map<Ip, Ip>, all: set<string>,
                      todo: set<string>, writes: nat)
      requires Paid(all, todo, writes, writes)
      ensures Shaded(was, node, backups, all - todo) == was
    {
      assert all - todo == {};
    }

    /** Every slice has its shadow for the node. */
    ghost predicate ShadowsWritten(node: string, backups: map<Ip, Ip>)
      reads this`shadows
    {
      forall s :: s in slices && Shadowed(slices[s], node, backups) != {} ==>
        ShadowKey(s, node) in shadows && shadows[ShadowKey(s, node)] == Shadowed(slices[s], node, backups)
    }

    /** Sets one gate, unless it is set that way already. */
    method SetGate(p: string, on: bool, writes: nat) returns (left: nat, cut: bool)
      requires Reachable() && p in pods
      requires !on && pods[p].gated && pods[p].Movable(pods[p].node) ==> Covered(pods[p])
      modifies this`gates
      ensures Reachable() && (cut <==> Off(p) == on && writes == 0)
      ensures left == if old(Off(p)) == on && !cut then writes - 1 else writes
      ensures gates == if old(Off(p)) == on && !cut then old(gates)[p := on] else old(gates)
    {
      left, cut := writes, false;
      if p in gates && gates[p] == on { return; }
      if writes == 0 {
        cut := true;
        return;
      }
      gates, left := gates[p := on], writes - 1;
    }

    /** Moves the node's traffic to the backup addresses: first every shadow, then the gates go off. Without a
        pod to move that some Service lists, nothing changes. It is cut off only if the writes run out. */
    method FailoverNode(node: string, writes: nat) returns (written: nat, done: bool)
      requires Reachable()
      modifies this
      ensures Reachable()
      ensures written == if writes < |Traffic(node)| then writes else |Traffic(node)|
      ensures Traffic(node) != {} ==> (done <==> writes >= |Traffic(node)| + |old(OnGates(node))|)
      ensures Traffic(node) == {} ==> (done <==> exists p :: p in pods && pods[p].Movable(node))
      ensures done && Traffic(node) != {} ==> forall p :: p in pods && pods[p].gated && pods[p].Movable(node) ==>
        Off(p) && Covered(pods[p])
      ensures written == 0 ==> gates == old(gates) && shadows == old(shadows)
      ensures forall p :: p in pods && Off(p) != old(Off(p)) ==>
        pods[p].gated && pods[p].node == node && HasBackup(node, pods[p].ip) && !old(Off(p))
    {
      var backups := BackupIps(node);
      if |backups| == 0 {
        NoTraffic(node, backups);
        return 0, false;
      }
      var left, cut;
      ListingIsTraffic(node, backups);
      written, left, cut := ApplyShadows(node, backups, writes);
      done := !cut;
      SomeBackup(node, backups);
      if cut || written == 0 { return; }
      ShadowsCover(node, backups);
      GatesInAreOn(node, backups);
      done := GatesOff(node, backups, left);
    }

    /** With every shadow written the node's pods can do without their gates. */
    lemma ShadowsCover(node: string, backups: map<Ip, Ip>)
      requires ShadowsWritten(node, backups) && Known(node, backups)
      ensures forall p :: p in pods && pods[p].Movable(node) ==> Covered(pods[p])
    {
      forall p | p in pods && pods[p].Movable(node) ensures Covered(pods[p]) {
        forall s | Lists(slices, s, pods[p]) ensures InShadow(pods[p], s) {
          ListedIsShadowed(s, pods[p], node, backups);
        }
      }
    }

    lemma NoTraffic(node: string, backups: map<Ip, Ip>)
      requires AllBackups(node, backups) && |backups| == 0
      ensures Traffic(node) == {} && forall p :: p in pods ==> !pods[p].Movable(node)
    {
      forall ip ensures !HasBackup(node, ip) {}
    }

    lemma SomeBackup(node: string, backups: map<Ip, Ip>)
      requires AllBackups(node, backups) && |backups| != 0
      ensures exists p :: p in pods && pods[p].Movable(node)
    {
      var ip :| ip in backups;
      assert HasBackup(node, Some(ip));
    }

    /** Turns off the gates of the node's pods whose address has a backup address. */
    method GatesOff(node: string, backups: map<Ip, Ip>, writes: nat) returns (done: bool)
      requires Reachable() && Known(node, backups)
      requires forall p :: p in pods && pods[p].Movable(node) ==> Covered(pods[p])
      modifies this`gates
      ensures Reachable() && (done <==> writes >= |old(GatesIn(node, backups))|)
      ensures done ==> forall p :: p in old(GatesIn(node, backups)) ==> Off(p)
      ensures forall p :: p in pods && p !in old(GatesIn(node, backups)) ==> (Off(p) <==> old(Off(p)))
    {
      var left: nat, todo := writes, pods.Keys;
      ghost var all, was := GatesIn(node, backups), gates;
      PaidNothing(all, todo, writes);
      TurnNone(was, all, todo, false);
      while todo != {}
        invariant Reachable() && todo <= pods.Keys && Paid(all, todo, writes, left)
        invariant gates == Turned(was, all - todo, false)
      {
        var p :| p in todo;
        PayOne(all, todo, p, writes, left);
        TurnOne(was, all, todo, p, false);
        if pods[p].node == node && pods[p].ip.Some? && pods[p].ip.value in backups && pods[p].gated {
          var cut;
          left, cut := SetGate(p, false, left);
          if cut { return false; }
        }
        todo := todo - {p};
      }
      PaidAll(all, writes, left);
      done := true;
    }

    /** Undoes a failover: the gates go back on before the shadows are removed. It is cut off only if the writes
        run out. */
    method FailbackNode(node: string, writes: nat) returns (done: bool)
      requires Reachable()
      modifies this
      ensures Reachable() && (done <==> writes >= |old(OffGates(node))| + |old(ShadowsOf(node))|)
      ensures done ==> OffGates(node) == {} && ShadowsOf(node) == {}
      ensures shadows.Keys != old(shadows.Keys) ==> OffGates(node) == {}
      ensures forall p :: p in pods && Off(p) != old(Off(p)) ==>
        pods[p].gated && pods[p].node == node && old(Off(p))
      ensures done ==> forall p :: p in pods && pods[p].gated && pods[p].node == node ==> !Off(p)
      ensures done ==> forall k: ShadowKey :: k in shadows ==> k.node != node
      ensures OthersKept(node)
    {
      var left, cut := GatesOn(node, writes);
      if cut { return false; }
      assert forall p :: p in pods && pods[p].gated && pods[p].node == node ==> p !in OffGates(node);
      done := DeleteShadows(node, left);
      assert done ==> forall k: ShadowKey :: k in shadows ==> k !in ShadowsOf(node);
    }

    /** The shadows of other nodes are what they were. */
    twostate predicate OthersKept(node: string)
      reads this`shadows
    {
      Others(shadows, node) == Others(old(shadows), node)
    }

    /** Turns on the gates of the node's pods. */
    method GatesOn(node: string, writes: nat) returns (left: nat, cut: bool)
      requires Reachable()
      modifies this`gates
      ensures Reachable() && (cut <==> writes < |old(OffGates(node))|)
      ensures !cut ==> left == writes - |old(OffGates(node))| && OffGates(node) == {}
      ensures forall p :: p in pods && p !in old(OffGates(node)) ==> (Off(p) <==> old(Off(p)))
    {
      left, cut := writes, false;
      var todo := pods.Keys;
      ghost var all, was := OffGates(node), gates;
      PaidNothing(all, todo, writes);
      TurnNone(was, all, todo, true);
      while todo != {}
        invariant Reachable() && todo <= pods.Keys && Paid(all, todo, writes, left) && !cut
        invariant gates == Turned(was, all - todo, true)
      {
        var p :| p in todo;
        PayOne(all, todo, p, writes, left);
        TurnOne(was, all, todo, p, true);
        if pods[p].node == node && pods[p].gated {
          left, cut := SetGate(p, true, left);
          if cut { return; }
        }
        todo := todo - {p};
      }
      PaidAll(all, writes, left);
    }

    method DeleteShadows(node: string, writes: nat) returns (done: bool)
      requires Reachable() && OffGates(node) == {}
      modifies this`shadows
      ensures Reachable() && (done <==> writes >= |old(ShadowsOf(node))|) && (done ==> ShadowsOf(node) == {})
      ensures OthersKept(node)
    {
      var left: nat, todo := writes, set k | k in shadows && k.node == node;
      ghost var all := ShadowsOf(node);
      while todo != {}
        invariant Reachable() && todo == ShadowsOf(node) && OthersKept(node)
        invariant left + |all| == writes + |todo|
      {
        var k :| k in todo;
        if left == 0 { return false; }
        ghost var before := shadows;
        todo, shadows, left := todo - {k}, shadows - {k}, left - 1;
        StillCovered(node, before);
      }
      done := true;
    }

    /** The pod cannot be reached by its primary address. */
    predicate MustMove(p: string)
      requires p in pods
      reads this`gates
    {
      pods[p].gated && pods[p].Movable(pods[p].node) && Off(p)
    }

    /** Without gates that are off, no pod of the node needs its shadow. */
    lemma StillCovered(node: string, before: map<ShadowKey, set<Ip>>)
      requires DistinctIps(pods) && gates.Keys == pods.Keys && OffGates(node) == {}
      requires forall p, s :: p in pods && MustMove(p) && Lists(slices, s, pods[p]) ==>
        ShadowKey(s, pods[p].node) in before && pods[p].backup.value in before[ShadowKey(s, pods[p].node)]
      requires forall k: ShadowKey :: k.node != node && k in before ==> k in shadows && shadows[k] == before[k]
      ensures Reachable()
    {
      forall p | p in pods && pods[p].gated && pods[p].Movable(pods[p].node) && Off(p) ensures Covered(pods[p]) {
        assert pods[p].node != node by { assert p !in OffGates(node); }
      }
    }

    /** Whatever calls are made, and wherever each of them is cut off, no gated pod with a backup address is
        left with neither address in a Service. */
    method RunCalls(calls: seq<Call>)
      requires Reachable()
      modifies this
      ensures Reachable()
    {
      for i := 0 to |calls|
        invariant Reachable()
      {
        match calls[i]
        case Over(node, writes) => var _, _ := FailoverNode(node, writes);
        case Back(node, writes) => var _ := FailbackNode(node, writes);
      }
    }
  }
}
