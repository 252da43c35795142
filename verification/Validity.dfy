/** Nothing enters the chain that its proposer was not entitled to make. */
module Validity {
  import opened Blocks
  import opened ForkTree
  import opened Consensus
  import opened Invariants
  import opened Adoption

  /** The block is signed by a validator that may take part. */
  predicate ValidBlock(g: Config, h: Hash) {
    h.Of? && g.MayTakePart(h.block.proposer) && g.blockSigned(h.block)
  }

  predicate Attached(s: Chain, h: Hash) {
    h in s.nodes || h == s.finalized
  }

  /** The block is signed by a staking validator and higher than the finalized block. */
  predicate Entitled(g: Config, s: Chain, b: Block) {
    ValidBlock(g, Of(b)) && b.height > Height(s.finalized)
  }

  /** The block fits on a parent that is there, and the virtual machine accepts it on the parent's state. */
  predicate Runs(g: Config, s: Chain, b: Block) {
    && Attached(s, b.parent) && b.height == Height(b.parent) + 1
    && g.execute(ViewAt(s.nodes, s.store, b.parent), b).Some?
  }

  /** The outcome of the attempt and the forest after it. */
  ghost predicate Outcome(g: Config, s: Chain, b: Block, entitled: bool, s': Chain, attempt: Attempt) {
    var h := Of(b);
    && (attempt.Consumed? <==> entitled && (h in s.nodes || Runs(g, s, b)))
    && (attempt.Orphaned? <==> entitled && h !in s.nodes && !Attached(s, b.parent))
    && (!attempt.Consumed? ==> s' == s)
    && (attempt.Consumed? && h in s.nodes ==> s'.nodes == s.nodes)
    && (attempt.Consumed? && h !in s.nodes ==>
          && s'.nodes.Keys == s.nodes.Keys + {h}
          && s'.nodes[h] == Node(g.execute(ViewAt(s.nodes, s.store, b.parent), b).value, 0, {}, []))
  }

  lemma TryOutcome(g: Config, s: Chain, b: Block)
    requires b.height > Height(s.finalized)
    ensures Outcome(g, s, b, true, TryInclude(g, s, b).0, TryInclude(g, s, b).1)
  {
    hide ViewAt;
  }

  /** Exactly when an offer is consumed, orphaned or rejected, and what it adds to the forest. */
  lemma OfferOutcome(g: Config, s: Chain, b: Block)
    requires g.epochBlocks > 0
    ensures Outcome(g, s, b, Entitled(g, s, b), Offer(g, s, b).0, Offer(g, s, b).1)
  {
    hide TryInclude, HeadHash, MayVote, ViewAt, Runs, Attached;
    if b.height > Height(s.finalized) { TryOutcome(g, s, b); }
  }

  ghost predicate OnlyValid(g: Config, s: Chain) {
    && (forall h | h in s.nodes :: ValidBlock(g, h))
    && (forall h: Hash | h.Of? && Extends(s.finalized, h) :: ValidBlock(g, h))
  }

  lemma {:induction false} AncestorsAreKnown(nodes: Nodes, roots: seq<Hash>, finalized: Hash, h: Hash, x: Hash)
    requires Linked(nodes, roots, finalized) && h in nodes && Extends(h, x)
    ensures x in nodes || Extends(finalized, x)
  {
    if h == x {
    } else {
      if h.block.parent in nodes { AncestorsAreKnown(nodes, roots, finalized, h.block.parent, x); }
    }
  }

  lemma OfferValid(g: Config, s: Chain, b: Block)
    requires g.Valid() && OnlyValid(g, s)
    ensures OnlyValid(g, Offer(g, s, b).0)
  {
    OfferEffect(g, s, b);
    assert !Offer(g, s, b).1.Rejected? ==> ValidBlock(g, Of(b));
    hide Offer, Extends, ValidBlock;
  }

  lemma StepValid(g: Config, s: Chain, a: Action)
    requires g.Valid() && Inv(g, s) && OnlyValid(g, s)
    ensures OnlyValid(g, Step(g, s, a))
  {
    match a
    case OfferBlock(b) =>
      hide Inv, Offer;
      OfferValid(g, s, b);
    case PollEvent(missing) =>
      PollShrinks(g, s, missing);
      hide Poll;
      var f := Poll(g, s, missing).finalized;
      forall h: Hash | h.Of? && Extends(f, h) ensures ValidBlock(g, h) {
        if f in s.nodes { AncestorsAreKnown(s.nodes, s.roots, s.finalized, f, h); }
      }
  }

  /** In every run, every block in the forest and every finalized block after genesis was signed by a
      validator with enough stake to take part. */
  lemma {:induction false} OnlyValidBlocks(g: Config, actions: seq<Action>)
    requires g.Valid()
    ensures OnlyValid(g, Run(g, actions))
  {
    hide Inv, Step, ValidBlock;
    if actions == [] {
    } else {
      RunInv(g, actions[..|actions| - 1]);
      OnlyValidBlocks(g, actions[..|actions| - 1]);
      StepValid(g, Run(g, actions[..|actions| - 1]), actions[|actions| - 1]);
    }
  }
}
