/** What the delivery of one event does, step by step (src/consensus/chain.rs:747-821): first the votes of an
    included block and those parked for it, then finalization. */
module Polling {
  import opened Blocks
  import opened ForkTree
  import opened Consensus
  import opened Invariants

  /** The same blocks with the same diffs on the same store. */
  ghost predicate SameDiffs(s: Chain, s': Chain) {
    && s'.store == s.store && s'.finalized == s.finalized && s'.nodes.Keys == s.nodes.Keys
    && (forall h | h in s.nodes :: s'.nodes[h].diff == s.nodes[h].diff)
  }

  predicate SameForest(s: Chain, s': Chain) {
    s'.nodes == s.nodes && s'.roots == s.roots && s'.store == s.store && s'.finalized == s.finalized
  }

  /** At most tallies, parked votes, pending events and the counted votes differ. */
  ghost predicate OnlyVotes(s: Chain, s': Chain) {
    && s' == s.(nodes := s'.nodes, waiting := s'.waiting, queue := s'.queue, counted := s'.counted)
    && s'.nodes.Keys == s.nodes.Keys
    && (forall h | h in s.nodes :: SameBlock(s.nodes[h], s'.nodes[h]))
  }

  predicate SameBlock(n: Node, n': Node) {
    n'.diff == n.diff && n'.children == n.children
  }

  lemma TalliesOnly(s: Chain, s': Chain)
    requires OnlyVotes(s, s') || OnlyVotes(Popped(s), s')
    ensures SameDiffs(s, s')
  {
  }

  lemma OnlyVotesTransitive(s: Chain, s1: Chain, s2: Chain)
    requires OnlyVotes(s, s1) && OnlyVotes(s1, s2)
    ensures OnlyVotes(s, s2)
  {
  }

  lemma OneVoteOnly(g: Config, s: Chain, v: Vote)
    ensures OnlyVotes(s, IngestVote(g, s, v))
  {
    hide InFinalizedHistory, IsDescendantOf;
  }

  lemma {:induction false} VotesOnly(g: Config, s: Chain, vs: seq<Vote>)
    ensures OnlyVotes(s, IngestVotes(g, s, vs))
    decreases |vs|
  {
    hide IngestVote, OnlyVotes;
    if vs == [] {
      Unchanged(s);
    } else {
      OneVoteOnly(g, s, vs[0]);
      VotesOnly(g, IngestVote(g, s, vs[0]), vs[1..]);
      OnlyVotesTransitive(s, IngestVote(g, s, vs[0]), IngestVotes(g, s, vs));
    }
  }

  lemma Unchanged(s: Chain)
    ensures OnlyVotes(s, s)
  {
  }

  /** The state once the oldest event is taken off the queue. */
  function Popped(s: Chain): Chain {
    if s.queue == [] then s else s.(queue := s.queue[1..], popped := s.popped + [s.queue[0]])
  }

  function VotesIn(h: Hash): seq<Vote> {
    if h.Of? then h.block.votes else []
  }

  /** The state once the votes that the oldest event releases are ingested. */
  function AfterVotes(g: Config, s: Chain): Chain {
    if s.queue != [] && s.queue[0].Included? then
      var h := s.queue[0].hash;
      IngestWaiting(g, IngestVotes(g, Popped(s), VotesIn(h)), h)
    else Popped(s)
  }

  lemma AfterVotesOnly(g: Config, s: Chain)
    requires g.Valid() && Inv(g, s)
    ensures Inv(g, AfterVotes(g, s)) && OnlyVotes(Popped(s), AfterVotes(g, s))
  {
    var s' := Popped(s);
    hide Inv, IngestVotes, OnlyVotes;
    SameInv(g, s, s');
    if s.queue != [] && s.queue[0].Included? {
      var h := s.queue[0].hash;
      var s1 := IngestVotes(g, s', VotesIn(h));
      var s2 := s1.(waiting := s1.waiting - {h});
      IngestAllInv(g, s', VotesIn(h));
      SameInv(g, s1, s2);
      IngestAllInv(g, s2, Waiting(s1.waiting, h));
      VotesOnly(g, s', VotesIn(h));
      VotesOnly(g, s2, Waiting(s1.waiting, h));
      Unparked(s1, h);
      OnlyVotesTransitive(s', s1, s2);
      OnlyVotesTransitive(s', s2, AfterVotes(g, s));
    } else {
      Unchanged(s');
    }
  }

  lemma Unparked(s: Chain, h: Hash)
    ensures OnlyVotes(s, s.(waiting := s.waiting - {h}))
  {
  }

  /** A poll ingests votes and then, when it delivers an inclusion, finalizes what it can. */
  lemma PollFinalizes(g: Config, s: Chain, missing: seq<Hash>)
    requires g.Valid() && Inv(g, s)
    ensures Inv(g, AfterVotes(g, s)) && OnlyVotes(Popped(s), AfterVotes(g, s))
    ensures if s.queue != [] && s.queue[0].Included?
            then SameForest(FinalizeAll(g, AfterVotes(g, s)), Poll(g, s, missing))
            else SameForest(s, Poll(g, s, missing)) && SameForest(AfterVotes(g, s), Poll(g, s, missing))
  {
    hide Inv, IngestVotes, IngestWaiting, FinalizeAll;
    AfterVotesOnly(g, s);
  }

  // ----- offers

  /** An offer does nothing, or what the attempt to include the block does, or that and a vote. */
  lemma OfferSplits(g: Config, s: Chain, b: Block)
    requires g.epochBlocks > 0
    ensures var s1, s' := TryInclude(g, s, b).0, Offer(g, s, b).0;
            s' == s || s' == s1
            || s' == s1.(ownVotes := s'.ownVotes, queue := s1.queue + [Voted(Of(b), s1.finalized)])
  {
    hide TryInclude, HeadHash, MayVote;
  }

  lemma TrySplits(g: Config, s: Chain, b: Block)
    ensures var s1 := TryInclude(g, s, b).0;
            s1 == s.(nodes := s1.nodes, roots := s1.roots, queue := s1.queue)
  {
    hide ViewAt, AddLeaf;
  }
}
