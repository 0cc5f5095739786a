/** The blocks of a buddy tree on the heap and the two indexes over them. */
module BuddyBlocks {
  import opened Cidrs
  import opened Shapes

  datatype BlockState = BlockFree | BlockAllocated | BlockSplit | BlockQuarantined

  class Block {
    const base: nat
    const prefixLen: nat
    const parent: Block?
    var state: BlockState
    var nodeName: string
    var releaseAt: int
    var left: Block?
    var right: Block?

    constructor (base: nat, prefixLen: nat, parent: Block?)
      ensures this.base == base && this.prefixLen == prefixLen && this.parent == parent
      ensures Pos() == Cidr(base, prefixLen) && Kind() == Free
      ensures state == BlockFree && left == null && right == null
    {
      this.base, this.prefixLen, this.parent := base, prefixLen, parent;
      state, nodeName, releaseAt, left, right := BlockFree, "", 0, null, null;
    }

    function Pos(): Cidr { Cidr(base, prefixLen) }

    /** Gives a block two new free halves. */
    method Halve() returns (l: Block, r: Block)
      requires prefixLen < 32
      modifies this
      ensures state == BlockSplit && left == l && right == r
      ensures fresh(l) && fresh(r) && l != r && l.parent == this && r.parent == this
      ensures l.Pos() == LowerHalf(Pos()) && r.Pos() == UpperHalf(Pos())
      ensures l.Kind() == Free && l.left == null && l.right == null
      ensures r.Kind() == Free && r.left == null && r.right == null
    {
      l := new Block(base, prefixLen + 1, this);
      r := new Block(base + Size(prefixLen + 1), prefixLen + 1, this);
      state, left, right := BlockSplit, l, r;
    }

    /** Takes the two halves away again. */
    method Unsplit()
      modifies this
      ensures state == BlockFree && left == null && right == null
    {
      state, left, right := BlockFree, null, null;
    }

    /** The sibling of a block, or null for the root. */
    function Buddy(): Block?
      reads parent
    {
      if parent == null then null
      else if parent.left == this then parent.right
      else parent.left
    }

    function Kind(): Kind
      reads this
    {
      match state
      case BlockFree => Free
      case BlockSplit => Split
      case BlockAllocated => Allocated(nodeName)
      case BlockQuarantined => Quarantined(releaseAt)
    }
  }

  /** Blocks hang below strictly larger blocks. */
  ghost predicate Chained(b: Block)
    decreases b.prefixLen
  {
    b.parent != null ==> b.parent.prefixLen < b.prefixLen && Chained(b.parent)
  }

  ghost function Top(b: Block): Block
    requires Chained(b)
    decreases b.prefixLen
  {
    if b.parent == null then b else Top(b.parent)
  }

  type Blocks = map<Cidr, Block>
  type FreeLevels = map<nat, set<Block>>

  ghost predicate SubMap(m: Blocks, n: Blocks) {
    forall c {:trigger m[c]} {:trigger c in m} :: c in m ==> c in n && m[c] == n[c]
  }

  /** Every block that was handed out is still handed out, to the same node, as the same object. */
  ghost predicate StillHands(s: Shape, m: Blocks, t: Shape, n: Blocks) {
    forall c {:trigger s[c]} {:trigger t[c]} :: c in s && s[c].Allocated? && c in m ==>
      c in t && t[c] == s[c] && c in n && n[c] == m[c]
  }

  /** The block at c says what the shape says and points at its neighbours in the tree. */
  ghost predicate BlockOk(m: Blocks, s: Shape, root: Cidr, c: Cidr)
    requires c in m && c in s
    reads m[c]
  {
    var b := m[c];
    && b.Pos() == c && b.Kind() == s[c]
    && (s[c] == Split ==>
      LowerHalf(c) in m && b.left == m[LowerHalf(c)] && UpperHalf(c) in m && b.right == m[UpperHalf(c)])
    && (s[c] != Split ==> b.left == null && b.right == null)
    && ParentOk(m, root, c)
  }

  ghost predicate ParentOk(m: Blocks, root: Cidr, c: Cidr)
    requires c in m
  {
    && (c == root ==> m[c].parent == null)
    && (c != root ==> c.prefix > 0 && Parent(c) in m && m[c].parent == m[Parent(c)])
  }

  ghost predicate Links(m: Blocks, s: Shape, root: Cidr)
    reads m.Values
  {
    && m.Keys == s.Keys && Tree(s, root)
    && forall c {:trigger BlockOk(m, s, root, c)} :: c in m ==> BlockOk(m, s, root, c)
  }

  /** Everything but the block at c still stands as in shape s. */
  ghost predicate LinksBut(m: Blocks, s: Shape, root: Cidr, c: Cidr)
    reads m.Values
  {
    && m.Keys == s.Keys && Tree(s, root) && c in m && m[c].Pos() == c && ParentOk(m, root, c)
    && forall d {:trigger BlockOk(m, s, root, d)} :: d in m && d != c ==> BlockOk(m, s, root, d)
  }

  function Level(free: FreeLevels, prefix: nat): set<Block> {
    if prefix in free then free[prefix] else {}
  }

  function AddLevel(free: FreeLevels, b: Block): FreeLevels {
    free[b.prefixLen := Level(free, b.prefixLen) + {b}]
  }

  function RemoveLevel(free: FreeLevels, b: Block): FreeLevels {
    free[b.prefixLen := Level(free, b.prefixLen) - {b}]
  }

  ghost predicate Listed(m: Blocks, b: Block) {
    b.Pos() in m && m[b.Pos()] == b
  }

  ghost predicate Indexed(free: FreeLevels, quarantined: set<Block>, m: Blocks, s: Shape, c: Cidr)
    requires c in m && c in s
  {
    && m[c].Pos() == c
    && (s[c] == Free <==> m[c] in Level(free, c.prefix))
    && (s[c].Quarantined? <==> m[c] in quarantined)
  }

  /** The free index lists exactly the free blocks, each at its own level, and the quarantine
      index exactly the quarantined ones. */
  ghost predicate Index(free: FreeLevels, quarantined: set<Block>, m: Blocks, s: Shape) {
    && m.Keys == s.Keys
    && (forall c {:trigger Indexed(free, quarantined, m, s, c)} :: c in m ==> Indexed(free, quarantined, m, s, c))
    && (forall p: nat, b {:trigger b in Level(free, p)} :: b in Level(free, p) ==> Listed(m, b) && p == b.prefixLen)
    && (forall b :: b in quarantined ==> Listed(m, b))
  }

  // ---- how the indexes follow the steps ----

  lemma IndexTake(free: FreeLevels, quarantined: set<Block>, m: Blocks, s: Shape, c: Cidr, kind: Kind)
    requires Index(free, quarantined, m, s) && c in m && s[c] == Free && (kind == Split || kind.Allocated?)
    ensures Index(RemoveLevel(free, m[c]), quarantined, m, s[c := kind])
  {
    var free', s' := RemoveLevel(free, m[c]), s[c := kind];
    assert Indexed(free, quarantined, m, s, c);
    forall d | d in m ensures Indexed(free', quarantined, m, s', d) { assert Indexed(free, quarantined, m, s, d); }
    forall p: nat, b | b in Level(free', p) ensures b in Level(free, p) {}
  }

  lemma IndexQuarantine(free: FreeLevels, quarantined: set<Block>, m: Blocks, s: Shape, c: Cidr, kind: Kind)
    requires Index(free, quarantined, m, s) && c in m && s[c].Allocated? && kind.Quarantined?
    ensures Index(free, quarantined + {m[c]}, m, s[c := kind])
  {
    var s' := s[c := kind];
    assert Indexed(free, quarantined, m, s, c);
    forall d | d in m
      ensures Indexed(free, quarantined + {m[c]}, m, s', d)
    {
      assert Indexed(free, quarantined, m, s, d);
    }
  }

  lemma IndexFree(free: FreeLevels, quarantined: set<Block>, m: Blocks, s: Shape, c: Cidr)
    requires Index(free, quarantined, m, s) && c in m && s[c] != Free
    ensures Index(AddLevel(free, m[c]), quarantined - {m[c]}, m, s[c := Free])
  {
    var free', s' := AddLevel(free, m[c]), s[c := Free];
    assert Indexed(free, quarantined, m, s, c);
    forall d | d in m
      ensures Indexed(free', quarantined - {m[c]}, m, s', d)
    {
      assert Indexed(free, quarantined, m, s, d);
    }
    forall p: nat, b | b in Level(free', p) ensures b in Level(free, p) || (b == m[c] && p == b.prefixLen) {}
  }

  lemma IndexGrow(free: FreeLevels, quarantined: set<Block>, m: Blocks, s: Shape, c: Cidr, b: Block)
    requires Index(free, quarantined, m, s) && c !in m && b.Pos() == c
    ensures Index(AddLevel(free, b), quarantined, m[c := b], s[c := Free])
  {
    var free', m', s' := AddLevel(free, b), m[c := b], s[c := Free];
    forall d | d in m' ensures Indexed(free', quarantined, m', s', d) {
      if d in m { assert Indexed(free, quarantined, m, s, d); }
    }
    forall p: nat, x | x in Level(free', p) ensures x in Level(free, p) || (x == b && p == b.prefixLen) {}
  }

  lemma IndexDrop(free: FreeLevels, quarantined: set<Block>, m: Blocks, s: Shape, c: Cidr)
    requires Index(free, quarantined, m, s) && c in m && s[c] == Free
    ensures Index(RemoveLevel(free, m[c]), quarantined, m - {c}, s - {c})
  {
    var free', m', s' := RemoveLevel(free, m[c]), m - {c}, s - {c};
    assert Indexed(free, quarantined, m, s, c);
    forall d | d in m' ensures Indexed(free', quarantined, m', s', d) { assert Indexed(free, quarantined, m, s, d); }
    forall p: nat, x | x in Level(free', p) ensures x in Level(free, p) && x != m[c] {}
  }

  lemma IndexSplit(free: FreeLevels, quarantined: set<Block>, m: Blocks, s: Shape, c: Cidr, l: Block, r: Block)
    requires Index(free, quarantined, m, s) && c in m && s[c] == Free
    requires l.Pos() == LowerHalf(c) && r.Pos() == UpperHalf(c) && LowerHalf(c) !in m && UpperHalf(c) !in m
    ensures Index(AddLevel(AddLevel(RemoveLevel(free, m[c]), l), r), quarantined,
                  m[LowerHalf(c) := l][UpperHalf(c) := r], SplitAt(s, c))
  {
    IndexTake(free, quarantined, m, s, c, Split);
    var free1 := RemoveLevel(free, m[c]);
    IndexGrow(free1, quarantined, m, s[c := Split], LowerHalf(c), l);
    IndexGrow(AddLevel(free1, l), quarantined, m[LowerHalf(c) := l], s[c := Split][LowerHalf(c) := Free],
              UpperHalf(c), r);
  }

  lemma IndexJoin(free: FreeLevels, quarantined: set<Block>, m: Blocks, s: Shape, p: Cidr)
    requires Index(free, quarantined, m, s) && p in m && s[p] == Split
    requires LowerHalf(p) in m && s[LowerHalf(p)] == Free && UpperHalf(p) in m && s[UpperHalf(p)] == Free
    ensures Index(AddLevel(RemoveLevel(RemoveLevel(free, m[LowerHalf(p)]), m[UpperHalf(p)]), m[p]), quarantined,
                  m - {LowerHalf(p)} - {UpperHalf(p)}, (s - {LowerHalf(p)} - {UpperHalf(p)})[p := Free])
  {
    var l, u := LowerHalf(p), UpperHalf(p);
    IndexDrop(free, quarantined, m, s, l);
    var free1 := RemoveLevel(free, m[l]);
    IndexDrop(free1, quarantined, m - {l}, s - {l}, u);
    var free2 := RemoveLevel(free1, m[u]);
    IndexFree(free2, quarantined, m - {l} - {u}, s - {l} - {u}, p);
    assert Indexed(free, quarantined, m, s, p);
    assert quarantined - {m[p]} == quarantined;
  }
}
