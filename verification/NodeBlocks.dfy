/** NodeBlock objects and the decisions that a node's agent takes about its own blocks in one
    pass. A missing phase counts as Pending, as everywhere in the program, and nothing in it ever
    sets the phase Released: a block that goes back to the pool is deleted. */
module NodeBlocks {
  import opened Options
  import opened Cidrs

  datatype Phase = Pending | Active | Draining | Quarantined

  /** The spec (node, cidr, drain, release) is written by the controller, the status (phase, ready,
      since) mostly by the agent of the node. since is the time of the last phase change. */
  datatype NodeBlock = NodeBlock(node: string, cidr: Cidr, drain: bool, release: Option<Cidr>,
                                 phase: Phase, ready: Option<Cidr>, since: int)

  /** Which half is being given back, and since when the CNI config has left it out. */
  datatype Mark = Mark(half: Cidr, since: int)

  type Marks = map<Cidr, Mark>

  /** NodeBlocks by object name, the name being the CIDR that it encodes. */
  type Objects = map<Cidr, NodeBlock>

  ghost predicate BlocksApart(blocks: Objects) {
    forall n, m :: n in blocks && m in blocks && n != m ==> Disjoint(blocks[n].cidr, blocks[m].cidr)
  }

  function OtherHalf(c: Cidr, half: Cidr): (other: Option<Cidr>)
    ensures other.Some? <==> IsHalf(half, c)
    ensures other.Some? ==> IsHalf(other.value, c) && other.value != half
  {
    if c.prefix >= 32 then None
    else if half == LowerHalf(c) then (HalvesDiffer(c); Some(UpperHalf(c)))
    else if half == UpperHalf(c) then (HalvesDiffer(c); Some(LowerHalf(c)))
    else None
  }

  lemma HalvesDiffer(c: Cidr)
    ensures LowerHalf(c) != UpperHalf(c)
  {
    assert LowerHalf(c).base < UpperHalf(c).base;
  }

  /** The part of a block that its owner hands out. A release of something that is not a half is ignored. */
  function Served(b: NodeBlock): Cidr {
    if b.release.None? then b.cidr
    else match OtherHalf(b.cidr, b.release.value)
      case None => b.cidr
      case Some(keep) => keep
  }

  predicate InConfig(b: NodeBlock, promoted: bool) {
    !b.drain && (b.phase == Active || b.phase == Draining || (b.phase == Pending && promoted))
  }

  /** The ranges of the CNI config, before buddies are joined. */
  function Ranges(own: Objects, promote: set<Cidr>): set<Cidr> {
    set name | name in own && InConfig(own[name], name in promote) :: Served(own[name])
  }

  /** One half of the block is being given back. */
  predicate Releasing(b: NodeBlock) {
    b.release.Some? && !b.drain && b.phase == Active && Served(b) != b.cidr
  }

  /** The mark of a block whose half is being given back. */
  function MarkOf(marks: Marks, name: Cidr, half: Cidr, configOK: bool, now: int): Option<Mark> {
    if name in marks && marks[name].half == half then Some(marks[name])
    else if configOK then Some(Mark(half, now))
    else if name in marks then Some(marks[name])
    else None
  }

  /** The half of a block that can be given back: left out of the config long enough, and empty. */
  function ReadyHalf(marks: Marks, name: Cidr, b: NodeBlock, halfUnused: bool, configOK: bool, now: int,
                     settle: int): Option<Cidr> {
    if !Releasing(b) then None
    else
      var m := MarkOf(marks, name, b.release.value, configOK, now);
      if m.Some? && m.value.half == b.release.value && halfUnused && now - m.value.since >= settle
      then b.release else None
  }

  /** The phase a block moves to, if any. */
  function NextPhase(b: NodeBlock, promoting: bool, unused: bool, configOK: bool, now: int,
                     settle: int): Option<Phase> {
    if promoting && b.phase == Pending then Some(Active)
    else if b.phase == Active && b.drain && configOK then Some(Draining)
    else if b.phase == Draining && !b.drain then Some(Active)
    else if b.phase == Pending && b.drain && unused && now - b.since >= settle then Some(Quarantined)
    else if b.phase == Draining && unused && configOK && now - b.since >= settle then Some(Quarantined)
    else None
  }

  /** The status that a pass writes. */
  function StatusAfter(b: NodeBlock, ready: Option<Cidr>, phase: Option<Phase>, now: int): NodeBlock {
    var c := b.(ready := ready);
    match phase case None => c case Some(p) => c.(phase := p, since := now)
  }
}
