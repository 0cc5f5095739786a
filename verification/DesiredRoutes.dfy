/** The routes a node wants: one per owner and joined prefix. */
module DesiredRoutes {
  import opened Options
  import opened Cidrs
  import opened NodeBlocks
  import opened Aggregation
  import opened Routes
  import Protocol
  import ProtocolSafety

  datatype Route = Route(dst: Cidr, gateway: Ip)

  /** Draining blocks stay routable until the drain finishes. */
  predicate Routable(phase: Phase) {
    phase == Pending || phase == Active || phase == Draining
  }

  predicate Foreign(b: NodeBlock, self: string) {
    b.node != self && Routable(b.phase)
  }

  /** What other nodes route to the owner. */
  function CidrsOf(blocks: Objects, self: string, owner: string): set<Cidr> {
    set n | n in blocks && Foreign(blocks[n], self) && blocks[n].node == owner :: blocks[n].cidr
  }

  function OwnersOf(blocks: Objects, self: string): set<string> {
    set n | n in blocks && Foreign(blocks[n], self) :: blocks[n].node
  }

  function IpOf(ips: map<string, Option<Ip>>, node: string): Option<Ip> {
    if node in ips then ips[node] else None
  }

  ghost predicate ObjectsAligned(blocks: Objects) {
    forall n {:trigger blocks[n]} :: n in blocks ==> Aligned(blocks[n].cidr)
  }

  /** The route leads to this owner and covers addresses of its blocks only. */
  ghost predicate LeadsTo(blocks: Objects, self: string, ips: map<string, Option<Ip>>, r: Route, owner: string) {
    Aligned(r.dst) && IpOf(ips, owner) == Some(r.gateway) && CoversAll(CidrsOf(blocks, self, owner), r.dst)
  }

  ghost predicate Reaches(routes: seq<Route>, gateway: Ip, a: nat) {
    exists r :: r in routes && r.gateway == gateway && r.dst.Contains(a)
  }

  ghost predicate DstsApart(routes: seq<Route>) {
    forall i, j :: 0 <= i < j < |routes| ==> Disjoint(routes[i].dst, routes[j].dst)
  }

  /** Routes to some of the owners. */
  ghost predicate RoutesFor(blocks: Objects, self: string, ips: map<string, Option<Ip>>, owners: set<string>,
                            routes: seq<Route>) {
    && (forall r :: r in routes ==> exists owner :: owner in owners && LeadsTo(blocks, self, ips, r, owner))
    && (forall owner, a :: owner in owners && IpOf(ips, owner).Some? && Covers(CidrsOf(blocks, self, owner), a) ==>
          Reaches(routes, IpOf(ips, owner).value, a))
    && (BlocksApart(blocks) ==> DstsApart(routes))
  }

  /** The blocks of the other nodes by owner. */
  method ByOwner(blocks: Objects, self: string) returns (byOwner: map<string, seq<Cidr>>)
    ensures byOwner.Keys == OwnersOf(blocks, self)
    ensures forall owner :: owner in byOwner ==> SetOf(byOwner[owner]) == CidrsOf(blocks, self, owner)
  {
    byOwner := map[];
    var todo := blocks.Keys;
    ghost var done: Objects := map[];
    while todo != {}
      invariant todo <= blocks.Keys && done == map n | n in blocks && n !in todo :: blocks[n]
      invariant byOwner.Keys == OwnersOf(done, self)
      invariant forall owner :: owner in byOwner ==> SetOf(byOwner[owner]) == CidrsOf(done, self, owner)
    {
      var n :| n in todo;
      todo := todo - {n};
      var b := blocks[n];
      OneMore(done, self, n, b);
      done := done[n := b];
      if Foreign(b, self) {
        var before := if b.node in byOwner then byOwner[b.node] else [];
        assert SetOf(before + [b.cidr]) == SetOf(before) + {b.cidr};
        byOwner := byOwner[b.node := before + [b.cidr]];
      }
    }
    assert done == blocks;
  }

  lemma OneMore(done: Objects, self: string, n: Cidr, b: NodeBlock)
    requires n !in done
    ensures OwnersOf(done[n := b], self) == OwnersOf(done, self) + if Foreign(b, self) then {b.node} else {}
    ensures forall owner ::
      CidrsOf(done[n := b], self, owner)
        == CidrsOf(done, self, owner) + if Foreign(b, self) && b.node == owner then {b.cidr} else {}
    ensures forall owner :: owner !in OwnersOf(done, self) ==> CidrsOf(done, self, owner) == {}
  {
    var more := done[n := b];
    assert more[n] == b;
    assert forall m :: m in done ==> more[m] == done[m];
  }

  /** The joined blocks of one owner as routes through it. */
  method RoutesTo(cidrs: seq<Cidr>, gateway: Ip) returns (routes: seq<Route>)
    requires AllAligned(SetOf(cidrs))
    ensures forall r :: r in routes ==> r.gateway == gateway && Aligned(r.dst) && CoversAll(SetOf(cidrs), r.dst)
    ensures forall a :: Covers(SetOf(cidrs), a) ==> Reaches(routes, gateway, a)
    ensures AllApart(SetOf(cidrs)) ==> DstsApart(routes)
  {
    var agg, _ := Aggregate(cidrs);
    routes := seq(|agg|, i requires 0 <= i < |agg| => Route(agg[i], gateway));
    forall r | r in routes ensures r.gateway == gateway && Aligned(r.dst) && CoversAll(SetOf(cidrs), r.dst) {
      assert r.dst in SetOf(agg);
    }
    forall a | Covers(SetOf(cidrs), a) ensures Reaches(routes, gateway, a) {
      assert Covers(SetOf(agg), a);
      var i :| 0 <= i < |agg| && agg[i].Contains(a);
      assert routes[i] in routes;
    }
    if AllApart(SetOf(cidrs)) {
      forall i, j | 0 <= i < j < |routes| ensures Disjoint(routes[i].dst, routes[j].dst) {
        assert Before(agg[i], agg[j]) && agg[i] in SetOf(agg) && agg[j] in SetOf(agg);
      }
    }
  }

  function NoIp(ips: map<string, Option<Ip>>, owners: set<string>): set<string> {
    set o | o in owners && IpOf(ips, o).None?
  }

  /** The routes, or the problem, of one more owner. */
  method AddRoutes(self: string, ips: map<string, Option<Ip>>, ghost blocks: Objects, owner: string, cidrs: seq<Cidr>,
                   routes: seq<Route>, problems: set<string>, ghost done: set<string>)
    returns (more: seq<Route>, noted: set<string>)
    requires ObjectsAligned(blocks) && SetOf(cidrs) == CidrsOf(blocks, self, owner) && owner !in done
    requires RoutesFor(blocks, self, ips, done, routes) && problems == NoIp(ips, done)
    ensures RoutesFor(blocks, self, ips, done + {owner}, more) && noted == NoIp(ips, done + {owner})
  {
    more, noted := routes, problems;
    var ip := IpOf(ips, owner);
    assert NoIp(ips, done + {owner}) == NoIp(ips, done) + NoIp(ips, {owner});
    if ip.None? {
      noted := noted + {owner};
    } else {
      OwnCidrs(blocks, self, owner);
      var own := RoutesTo(cidrs, ip.value);
      AddOwner(blocks, self, ips, done, owner, routes, own);
      more := routes + own;
    }
  }

  /** The routes this node needs, and the owners that have no InternalIP to route through. */
  method Desired(self: string, ips: map<string, Option<Ip>>, blocks: Objects)
    returns (routes: seq<Route>, problems: set<string>)
    requires ObjectsAligned(blocks)
    ensures RoutesFor(blocks, self, ips, OwnersOf(blocks, self), routes)
    ensures forall o :: o in problems <==> IpOf(ips, o) == None && exists n ::
      n in blocks && blocks[n].node == o && o != self && blocks[n].phase != Quarantined
  {
    var byOwner := ByOwner(blocks, self);
    routes, problems := [], {};
    var todo := byOwner.Keys;
    while todo != {}
      invariant todo <= byOwner.Keys
      invariant RoutesFor(blocks, self, ips, byOwner.Keys - todo, routes)
      invariant problems == NoIp(ips, byOwner.Keys - todo)
    {
      var owner :| owner in todo;
      ghost var done := byOwner.Keys - todo;
      todo := todo - {owner};
      assert byOwner.Keys - todo == done + {owner};
      routes, problems := AddRoutes(self, ips, blocks, owner, byOwner[owner], routes, problems, done);
    }
    assert byOwner.Keys - {} == byOwner.Keys;
    OwnersAre(blocks, self);
  }

  /** Blocks on their way into service and out of it are routed. */
  lemma OwnersAre(blocks: Objects, self: string)
    ensures forall o :: o in OwnersOf(blocks, self) <==> exists n ::
      n in blocks && blocks[n].node == o && o != self && blocks[n].phase != Quarantined
  {
    forall o ensures o in OwnersOf(blocks, self) <==> exists n ::
      n in blocks && blocks[n].node == o && o != self && blocks[n].phase != Quarantined
    {
      if n :| n in blocks && blocks[n].node == o && o != self && blocks[n].phase != Quarantined {
        assert Foreign(blocks[n], self);
      }
      if o in OwnersOf(blocks, self) {
        var n :| n in blocks && Foreign(blocks[n], self) && blocks[n].node == o;
      }
    }
  }

  lemma OwnCidrs(blocks: Objects, self: string, owner: string)
    requires ObjectsAligned(blocks)
    ensures AllAligned(CidrsOf(blocks, self, owner))
    ensures BlocksApart(blocks) ==> AllApart(CidrsOf(blocks, self, owner))
  {
  }

  /** Blocks of different owners share no address. */
  lemma OwnersApart(blocks: Objects, self: string, owner: string, other: string, c: Cidr, d: Cidr)
    requires BlocksApart(blocks) && owner != other
    requires CoversAll(CidrsOf(blocks, self, owner), c) && CoversAll(CidrsOf(blocks, self, other), d)
    ensures Disjoint(c, d)
  {
    var a := if c.base < d.base then d.base else c.base;
    if c.Contains(a) && d.Contains(a) {
      assert Covers(CidrsOf(blocks, self, owner), a) && Covers(CidrsOf(blocks, self, other), a);
      OneOwner(blocks, self, owner, other, a);
    }
  }

  lemma OneOwner(blocks: Objects, self: string, owner: string, other: string, a: nat)
    requires BlocksApart(blocks)
    requires Covers(CidrsOf(blocks, self, owner), a) && Covers(CidrsOf(blocks, self, other), a)
    ensures owner == other
  {
    var n :| n in blocks && Foreign(blocks[n], self) && blocks[n].node == owner && blocks[n].cidr.Contains(a);
    var m :| m in blocks && Foreign(blocks[m], self) && blocks[m].node == other && blocks[m].cidr.Contains(a);
    SameBlock(blocks, n, m, a);
  }

  lemma SameBlock(blocks: Objects, n: Cidr, m: Cidr, a: nat)
    requires BlocksApart(blocks) && n in blocks && m in blocks && blocks[n].cidr.Contains(a)
    requires blocks[m].cidr.Contains(a)
    ensures n == m
  {
  }

  lemma AddOwner(blocks: Objects, self: string, ips: map<string, Option<Ip>>, done: set<string>, owner: string,
                 routes: seq<Route>, more: seq<Route>)
    requires RoutesFor(blocks, self, ips, done, routes) && owner !in done && IpOf(ips, owner).Some?
    requires forall r :: r in more ==>
      r.gateway == IpOf(ips, owner).value && Aligned(r.dst) && CoversAll(CidrsOf(blocks, self, owner), r.dst)
    requires forall a :: Covers(CidrsOf(blocks, self, owner), a) ==> Reaches(more, IpOf(ips, owner).value, a)
    requires BlocksApart(blocks) ==> DstsApart(more)
    ensures RoutesFor(blocks, self, ips, done + {owner}, routes + more)
  {
    var all := routes + more;
    forall r | r in all ensures exists o :: o in done + {owner} && LeadsTo(blocks, self, ips, r, o) {
      if r in more { assert LeadsTo(blocks, self, ips, r, owner); }
    }
    forall o, a | o in done + {owner} && IpOf(ips, o).Some? && Covers(CidrsOf(blocks, self, o), a)
      ensures Reaches(all, IpOf(ips, o).value, a)
    {
      assert Reaches(routes, IpOf(ips, o).value, a) || Reaches(more, IpOf(ips, o).value, a);
    }
    if BlocksApart(blocks) {
      forall i, j | 0 <= i < |routes| <= j < |all| ensures Disjoint(all[i].dst, all[j].dst) {
        assert all[i] in routes && all[j] in more;
        var o :| o in done && LeadsTo(blocks, self, ips, all[i], o);
        OwnersApart(blocks, self, o, owner, all[i].dst, all[j].dst);
      }
    }
  }

  // ---- routes and ownership ----

  ghost function AsTable(routes: seq<Route>): Table
    requires DstsApart(routes)
  {
    map c | c in Dsts(routes) :: GatewayOf(routes, c)
  }

  ghost function Dsts(routes: seq<Route>): set<Cidr> {
    set r | r in routes :: r.dst
  }

  ghost function GatewayOf(routes: seq<Route>, c: Cidr): Ip
    requires c in Dsts(routes)
  {
    var i :| 0 <= i < |routes| && routes[i].dst == c;
    routes[i].gateway
  }

  /** The table is one that SyncRoutes can install. */
  lemma TableIsApart(blocks: Objects, self: string, ips: map<string, Option<Ip>>, routes: seq<Route>)
    requires BlocksApart(blocks) && RoutesFor(blocks, self, ips, OwnersOf(blocks, self), routes)
    ensures TableOk(AsTable(routes)) && AllApart(AsTable(routes).Keys)
  {
    forall c, d | c in Dsts(routes) && d in Dsts(routes) && c != d ensures Disjoint(c, d) {
      var i, j :| 0 <= i < |routes| && 0 <= j < |routes| && routes[i].dst == c && routes[j].dst == d;
      assert i < j ==> Disjoint(routes[i].dst, routes[j].dst);
      assert j < i ==> Disjoint(routes[j].dst, routes[i].dst);
    }
  }

  lemma RouteOf(routes: seq<Route>, c: Cidr) returns (r: Route)
    requires DstsApart(routes) && c in AsTable(routes)
    ensures r in routes && r.dst == c && r.gateway == AsTable(routes)[c]
  {
    var i :| 0 <= i < |routes| && routes[i].dst == c && routes[i].gateway == AsTable(routes)[c];
    r := routes[i];
  }

  /** What the table answers is the gateway of an owner of the address. */
  lemma AnswerIsOwner(blocks: Objects, self: string, ips: map<string, Option<Ip>>, routes: seq<Route>, a: nat)
    returns (owner: string)
    requires BlocksApart(blocks) && RoutesFor(blocks, self, ips, OwnersOf(blocks, self), routes)
    requires Lookup(AsTable(routes), a).Some?
    ensures IpOf(ips, owner) == Lookup(AsTable(routes), a) && Covers(CidrsOf(blocks, self, owner), a)
  {
    TableIsApart(blocks, self, ips, routes);
    var c := Match(AsTable(routes), a);
    var r := RouteOf(routes, c);
    owner :| owner in OwnersOf(blocks, self) && LeadsTo(blocks, self, ips, r, owner);
  }

  lemma Match(t: Table, a: nat) returns (c: Cidr)
    requires TableOk(t) && AllApart(t.Keys) && Lookup(t, a).Some?
    ensures c in t && c.Contains(a) && Lookup(t, a) == Some(t[c])
  {
    LookupFinds(t, a);
    c :| c in t && c.Contains(a);
    OnlyMatch(t, a, c);
    LookupIs(t, a, c);
  }

  /** Looking up an address of a block of another node gives the InternalIP of that node, if it has one, from
      when the block is created until it is quarantined. */
  lemma RouteLeadsToOwner(blocks: Objects, self: string, ips: map<string, Option<Ip>>, routes: seq<Route>, n: Cidr,
                          a: nat)
    requires BlocksApart(blocks) && RoutesFor(blocks, self, ips, OwnersOf(blocks, self), routes)
    requires n in blocks && blocks[n].node != self && blocks[n].phase != Quarantined && blocks[n].cidr.Contains(a)
    ensures Lookup(AsTable(routes), a) == IpOf(ips, blocks[n].node)
  {
    var t, ip := AsTable(routes), IpOf(ips, blocks[n].node);
    assert Foreign(blocks[n], self) && blocks[n].cidr in CidrsOf(blocks, self, blocks[n].node);
    if ip.Some? {
      assert Reaches(routes, ip.value, a);
      var r :| r in routes && r.gateway == ip.value && r.dst.Contains(a);
      assert r.dst in t;
      TableIsApart(blocks, self, ips, routes);
      LookupFinds(t, a);
    }
    if Lookup(t, a).Some? {
      var owner := AnswerIsOwner(blocks, self, ips, routes, a);
      OneOwner(blocks, self, owner, blocks[n].node, a);
    }
  }

  /** No other address has a route. */
  lemma NothingElseRouted(blocks: Objects, self: string, ips: map<string, Option<Ip>>, routes: seq<Route>, a: nat)
    requires BlocksApart(blocks) && RoutesFor(blocks, self, ips, OwnersOf(blocks, self), routes)
    requires forall n {:trigger blocks[n]} ::
      n in blocks && blocks[n].cidr.Contains(a) ==> blocks[n].node == self || blocks[n].phase == Quarantined
    ensures Lookup(AsTable(routes), a) == None
  {
    forall owner ensures !Covers(CidrsOf(blocks, self, owner), a) {}
    if Lookup(AsTable(routes), a).Some? {
      var owner := AnswerIsOwner(blocks, self, ips, routes, a);
    }
  }

  // ---- routes and leases ----

  /** In every world that a careful run leads to, whatever address a pod of another node has, or can get from the
      config of that node, is routed to that node. */
  lemma PodsAreRouted(w: Protocol.World, self: string, ips: map<string, Option<Ip>>, routes: seq<Route>, node: string,
                      a: nat)
    requires ProtocolSafety.Inv(w) && node != self && RoutesFor(w.blocks, self, ips, OwnersOf(w.blocks, self), routes)
    requires Protocol.Lease(node, a) in w.net.leases || Covers(Protocol.Config(w.net, node), a)
    ensures BlocksApart(w.blocks) && Lookup(AsTable(routes), a) == IpOf(ips, node)
  {
    ProtocolSafety.InvIsSafe(w);
    assert Protocol.OwnedAddress(w, node, a);
    var n :| n in w.blocks && w.blocks[n].node == node && w.blocks[n].cidr.Contains(a)
      && w.blocks[n].phase != Quarantined;
    RouteLeadsToOwner(w.blocks, self, ips, routes, n, a);
  }
}
