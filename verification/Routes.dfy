/** The routes of a node to the blocks of the others: which ones it wants, and what its table answers while
    the old ones are replaced. */
module Routes {
  import opened Options
  import opened Cidrs
  import opened NodeBlocks
  import opened Aggregation

  type Ip = nat

  /** A table holds one gateway per destination. */
  type Table = map<Cidr, Ip>

  ghost predicate TableOk(t: Table) {
    AllAligned(t.Keys)
  }

  // ---- looking an address up ----

  ghost predicate Longest(t: Table, a: nat, c: Cidr) {
    c in t && c.Contains(a) && forall d :: d in t && d.Contains(a) ==> d.prefix <= c.prefix
  }

  /** The gateway for an address by the longest matching prefix, as in section 5.1 of RFC 4632. */
  ghost function Lookup(t: Table, a: nat): Option<Ip> {
    if c :| Longest(t, a, c) then Some(t[c]) else None
  }

  /** A longest match exists if anything matches. */
  lemma {:induction false} LongestExists(t: Table, a: nat, c: Cidr) returns (d: Cidr)
    requires TableOk(t) && c in t && c.Contains(a)
    ensures Longest(t, a, d)
    decreases 32 - c.prefix
  {
    if Longest(t, a, c) {
      d := c;
    } else {
      var e :| e in t && e.Contains(a) && e.prefix > c.prefix;
      d := LongestExists(t, a, e);
    }
  }

  lemma LookupIs(t: Table, a: nat, c: Cidr)
    requires TableOk(t) && Longest(t, a, c)
    ensures Lookup(t, a) == Some(t[c])
  {
    forall d | Longest(t, a, d) ensures d == c { SharedAddress(c, d, a); }
  }

  lemma LookupFinds(t: Table, a: nat)
    requires TableOk(t)
    ensures Lookup(t, a).Some? <==> Covers(t.Keys, a)
  {
    if Covers(t.Keys, a) {
      var c :| c in t && c.Contains(a);
      var d := LongestExists(t, a, c);
    }
  }

  /** In a table of disjoint destinations the one that contains the address is the longest match. */
  lemma OnlyMatch(t: Table, a: nat, c: Cidr)
    requires AllApart(t.Keys) && c in t && c.Contains(a)
    ensures Longest(t, a, c)
  {
  }

  // ---- replacing a table ----

  /** While new routes go in and stale ones come out: nothing but old and new routes, and all of the
      old ones or all of the new ones but those that could not be installed. */
  ghost predicate Between(was: Table, want: Table, uninstalled: set<Cidr>, t: Table) {
    && (forall c :: c in t ==> (c in was && t[c] == was[c]) || (c in want && t[c] == want[c]))
    && (was.Keys <= t.Keys || forall c :: c in want && c !in uninstalled ==> c in t && t[c] == want[c])
  }

  /** The table answers the address as the old table or the new one does, or not at all. */
  ghost predicate OldOrNew(was: Table, want: Table, t: Table, a: nat) {
    Lookup(t, a) == None || Lookup(t, a) == Lookup(was, a) || Lookup(t, a) == Lookup(want, a)
  }

  /** An address routed in both tables, whose new route could be installed, is never without a route. And unless
      failed deletes have left old destinations that overlap, every table in between answers as old or new. */
  ghost predicate NoGap(was: Table, want: Table, uninstalled: set<Cidr>, t: Table) {
    && (forall a :: Covers(was.Keys, a) && Covers(want.Keys - uninstalled, a) ==> Lookup(t, a).Some?)
    && (AllApart(was.Keys) ==> forall a :: OldOrNew(was, want, t, a))
  }

  lemma BetweenHasNoGap(was: Table, want: Table, uninstalled: set<Cidr>, t: Table)
    requires TableOk(was) && TableOk(want) && AllApart(want.Keys) && Between(was, want, uninstalled, t)
    ensures NoGap(was, want, uninstalled, t)
  {
    assert TableOk(t);
    if AllApart(was.Keys) {
      forall a ensures OldOrNew(was, want, t, a) { BetweenAnswers(was, want, uninstalled, t, a); }
    }
    forall a | Covers(was.Keys, a) && Covers(want.Keys - uninstalled, a) ensures Lookup(t, a).Some? {
      var c :| c in was && c.Contains(a);
      var d :| d in want && d !in uninstalled && d.Contains(a);
      assert c in t || d in t;
      LookupFinds(t, a);
    }
  }

  lemma BetweenAnswers(was: Table, want: Table, uninstalled: set<Cidr>, t: Table, a: nat)
    requires TableOk(was) && TableOk(want) && TableOk(t) && AllApart(was.Keys) && AllApart(want.Keys)
    requires Between(was, want, uninstalled, t)
    ensures OldOrNew(was, want, t, a)
  {
    if Lookup(t, a).Some? {
      LookupFinds(t, a);
      var c :| c in t && c.Contains(a);
      var d := LongestExists(t, a, c);
      LookupIs(t, a, d);
      if d in was && t[d] == was[d] {
        OnlyMatch(was, a, d);
        LookupIs(was, a, d);
      } else {
        OnlyMatch(want, a, d);
        LookupIs(want, a, d);
      }
    }
  }

  /** The calls of a pass that fail: Replace for some wanted destinations, Delete for some old ones. */
  datatype Failures = Failures(installs: set<Cidr>, deletes: set<Cidr>)

  /** The route to c is to stay as it is, so that no call is made for it. */
  predicate Kept(was: Table, want: Table, c: Cidr) {
    c in was && c in want && was[c] == want[c]
  }

  /** The table at the end of a pass. */
  function Final(was: Table, want: Table, failed: Failures): Table {
    (map c | c in was && c in failed.deletes :: was[c])
      + map c | c in want && (c !in failed.installs || Kept(was, want, c)) :: want[c]
  }

  lemma InFinal(was: Table, want: Table, failed: Failures, c: Cidr)
    ensures c in Final(was, want, failed) <==>
      (c in was && c in failed.deletes) || (c in want && (c !in failed.installs || Kept(was, want, c)))
  {
  }

  /** An old route is deleted: it has another destination or another gateway than the new one, and its delete does
      not fail. */
  predicate Deleted(was: Table, want: Table, failed: Failures, c: Cidr) {
    c in was && c !in failed.deletes && !Kept(was, want, c)
  }

  /** The deletes go ahead although an install failed: an address that had a route, and is to have one, ends
      without any exactly if its new route could not be installed and every old one was deleted. */
  lemma GapAfterFailure(was: Table, want: Table, failed: Failures, a: nat, new_: Cidr)
    requires TableOk(was) && TableOk(want) && AllApart(want.Keys)
    requires Covers(was.Keys, a) && new_ in want && new_.Contains(a)
    ensures Lookup(Final(was, want, failed), a) == None <==>
      new_ in failed.installs && forall c :: c in was && c.Contains(a) ==> Deleted(was, want, failed, c)
  {
    var t := Final(was, want, failed);
    assert TableOk(t);
    LookupFinds(t, a);
    InFinal(was, want, failed, new_);
    if c :| c in was && c.Contains(a) && !Deleted(was, want, failed, c) {
      InFinal(was, want, failed, c);
      KeptIsNew(was, want, a, c, new_);
    }
    if c :| c in t && c.Contains(a) {
      InFinal(was, want, failed, c);
      assert c in want ==> c == new_;
    }
  }

  lemma KeptIsNew(was: Table, want: Table, a: nat, c: Cidr, new_: Cidr)
    requires AllApart(want.Keys) && c.Contains(a) && new_ in want && new_.Contains(a)
    ensures Kept(was, want, c) ==> c == new_
  {
  }

  /** The gateway of one destination changes: its Replace fails, and the Delete of its old route does not. */
  lemma GapForNewGateway(c: Cidr, a: nat, gateway: Ip, next: Ip)
    requires Aligned(c) && c.Contains(a) && gateway != next
    ensures var was, want, failed := map[c := gateway], map[c := next], Failures({c}, {});
      && Lookup(was, a) == Some(gateway) && Lookup(want, a) == Some(next)
      && Final(was, want, failed) == map[] && Lookup(Final(was, want, failed), a) == None
  {
    LookupIs(map[c := gateway], a, c);
    LookupIs(map[c := next], a, c);
    GapAfterFailure(map[c := gateway], map[c := next], Failures({c}, {}), a, c);
  }

  /** The host's routes that the agent manages, with every table there has been. */
  class RouteTable {
    var table: Table
    ghost var trace: seq<Table>

    constructor ()
      ensures table == map[] && trace == []
    {
      table, trace := map[], [];
    }

    /** Installs or updates a route, unless that fails. */
    method Replace(c: Cidr, gateway: Ip, fails: bool) returns (ok: bool)
      modifies this
      ensures ok == !fails && table == (if ok then old(table)[c := gateway] else old(table))
      ensures trace == old(trace) + [table]
    {
      ok := !fails;
      if ok { table := table[c := gateway]; }
      trace := trace + [table];
    }

    /** Removes a route. It fails if the table has no such route through this gateway. */
    method Delete(c: Cidr, gateway: Ip, fails: bool) returns (ok: bool)
      modifies this
      ensures ok == (!fails && c in old(table) && old(table)[c] == gateway)
      ensures table == (if ok then old(table) - {c} else old(table))
      ensures trace == old(trace) + [table]
    {
      ok := !fails && c in table && table[c] == gateway;
      if ok { table := table - {c}; }
      trace := trace + [table];
    }

    ghost predicate Traced(from: nat, was: Table, want: Table, uninstalled: set<Cidr>)
      reads this
    {
      from <= |trace| && forall i :: from <= i < |trace| ==> Between(was, want, uninstalled, trace[i])
    }

    /** Installs what is missing, then deletes what is stale. Each of the calls may fail. A route that gets another
        gateway counts as failed: there is nothing left to delete when its turn comes. */
    method SyncRoutes(want: Table, failed: Failures) returns (ok: bool)
      requires TableOk(table) && TableOk(want) && AllApart(want.Keys)
      modifies this
      ensures |old(trace)| <= |trace| && old(trace) == trace[..|old(trace)|]
      ensures forall i :: |old(trace)| <= i < |trace| ==> NoGap(old(table), want, failed.installs, trace[i])
      ensures table == Final(old(table), want, failed)
      ensures ok ==> table == want
      ensures ok <==>
        && (forall c :: c in want && !(c in old(table) && old(table)[c] == want[c]) ==> c !in failed.installs)
        && (forall c :: c in old(table) && c !in want ==> c !in failed.deletes)
        && (forall c :: c in old(table) && c in want ==> old(table)[c] == want[c])
    {
      ghost var before, from := trace, |trace|;
      var have := table;
      ok := Install(want, have, failed.installs);
      ghost var between := trace;
      var removed := Remove(want, have, failed);
      assert before == between[..from] == trace[..|between|][..from] == trace[..from];
      TraceHasNoGap(from, have, want, failed.installs);
      if ok && removed { AllDone(have, want, failed); }
      ok := ok && removed;
    }

    lemma TraceHasNoGap(from: nat, was: Table, want: Table, uninstalled: set<Cidr>)
      requires Traced(from, was, want, uninstalled) && TableOk(was) && TableOk(want) && AllApart(want.Keys)
      ensures forall i :: from <= i < |trace| ==> NoGap(was, want, uninstalled, trace[i])
    {
      forall i | from <= i < |trace| ensures NoGap(was, want, uninstalled, trace[i]) {
        BetweenHasNoGap(was, want, uninstalled, trace[i]);
      }
    }

    lemma AllDone(was: Table, want: Table, failed: Failures)
      requires forall c :: c in want && c in failed.installs ==> Kept(was, want, c)
      requires forall c :: c in was && c !in want ==> c !in failed.deletes
      ensures Final(was, want, failed) == want
    {
      forall c ensures c in Final(was, want, failed) <==> c in want { InFinal(was, want, failed, c); }
    }

    method Install(want: Table, have: Table, failing: set<Cidr>) returns (ok: bool)
      requires table == have
      modifies this
      ensures |old(trace)| <= |trace| && old(trace) == trace[..|old(trace)|]
      ensures Traced(|old(trace)|, have, want, failing)
      ensures table == Installed(have, want, failing, {})
      ensures ok <==> forall c :: c in want && c in failing ==> Kept(have, want, c)
    {
      ok := true;
      var todo := want.Keys;
      assert Installed(have, want, failing, todo) == have;
      while todo != {}
        invariant todo <= want.Keys && |old(trace)| <= |trace| && old(trace) == trace[..|old(trace)|]
        invariant Traced(|old(trace)|, have, want, failing) && table == Installed(have, want, failing, todo)
        invariant ok <==> forall c :: c in want && c !in todo && c in failing ==> Kept(have, want, c)
      {
        var c :| c in todo;
        InstallStep(have, want, failing, todo, c);
        if !Kept(have, want, c) {
          var done := Replace(c, want[c], c in failing);
          ok := ok && done;
        }
        todo := todo - {c};
      }
    }

    method Remove(want: Table, have: Table, failed: Failures) returns (ok: bool)
      requires table == Installed(have, want, failed.installs, {})
      modifies this
      ensures |old(trace)| <= |trace| && old(trace) == trace[..|old(trace)|]
      ensures Traced(|old(trace)|, have, want, failed.installs)
      ensures table == Final(have, want, failed)
      ensures ok <==> forall c :: c in have ==> Goes(have, want, failed, c)
    {
      ok := true;
      var todo := have.Keys;
      StripEnds(have, want, failed);
      while todo != {}
        invariant todo <= have.Keys && |old(trace)| <= |trace| && old(trace) == trace[..|old(trace)|]
        invariant Traced(|old(trace)|, have, want, failed.installs) && table == Stripped(have, want, failed, todo)
        invariant ok <==> forall c :: c in have && c !in todo ==> Goes(have, want, failed, c)
      {
        var c :| c in todo;
        StripStep(have, want, failed, todo, c);
        if !Kept(have, want, c) {
          var done := Delete(c, have[c], c in failed.deletes);
          ok := ok && done;
        }
        todo := todo - {c};
      }
    }
  }

  /** The route stays as it is, or is still there when its turn comes and can be deleted. */
  predicate Goes(have: Table, want: Table, failed: Failures, c: Cidr) {
    Kept(have, want, c) || (c !in failed.deletes && (c in want ==> c in failed.installs))
  }

  /** The old table with the new routes but those still to do. */
  function Installed(have: Table, want: Table, failing: set<Cidr>, todo: set<Cidr>): Table {
    have + map c | c in want && c !in todo && c !in failing :: want[c]
  }

  lemma InstallStep(have: Table, want: Table, failing: set<Cidr>, todo: set<Cidr>, c: Cidr)
    requires c in todo && c in want
    ensures var t := Installed(have, want, failing, todo);
      Installed(have, want, failing, todo - {c}) == if c in failing || Kept(have, want, c) then t else t[c := want[c]]
    ensures Between(have, want, failing, Installed(have, want, failing, todo - {c}))
  {
    var t, u := Installed(have, want, failing, todo), Installed(have, want, failing, todo - {c});
    assert u == if c in failing || Kept(have, want, c) then t else t[c := want[c]];
  }

  /** The new routes, and the old ones that are still to do or stay. */
  function Stripped(have: Table, want: Table, failed: Failures, todo: set<Cidr>): Table {
    (map c | c in have && (c in todo || c in failed.deletes) :: have[c])
      + map c | c in want && (c !in failed.installs || Kept(have, want, c)) :: want[c]
  }

  lemma StripEnds(have: Table, want: Table, failed: Failures)
    ensures Stripped(have, want, failed, have.Keys) == Installed(have, want, failed.installs, {})
    ensures Stripped(have, want, failed, {}) == Final(have, want, failed)
  {
  }

  /** Deleting an old route takes effect unless it fails or has been replaced by a new one. */
  lemma StripStep(have: Table, want: Table, failed: Failures, todo: set<Cidr>, c: Cidr)
    requires c in todo && c in have
    ensures var t, stays := Stripped(have, want, failed, todo),
        c in want && (c !in failed.installs || Kept(have, want, c));
      && Stripped(have, want, failed, todo - {c}) == (if c in failed.deletes || stays then t else t - {c})
      && c in t && t[c] == if stays then want[c] else have[c]
    ensures Between(have, want, failed.installs, Stripped(have, want, failed, todo - {c}))
  {
    var t, u := Stripped(have, want, failed, todo), Stripped(have, want, failed, todo - {c});
    var stays := c in want && (c !in failed.installs || Kept(have, want, c));
    assert u == if c in failed.deletes || stays then t else t - {c};
  }
}
