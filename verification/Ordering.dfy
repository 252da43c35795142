/** The order in which blocks are listed and reported: siblings in the order of their inclusion, confirmations
    and discards with every block after its ancestors. */
module Ordering {
  import opened State
  import opened Blocks
  import opened ForkTree
  import opened Consensus
  import opened Invariants
  import opened Polling

  // ----- siblings

  /** The blocks on p that the stream reports as included, in order. */
  function IncludedOn(evs: seq<Event>, p: Hash): seq<Hash> {
    if evs == [] then [] else
    var e := evs[|evs| - 1];
    IncludedOn(evs[..|evs| - 1], p) + (if e.Included? && e.hash.Of? && e.hash.block.parent == p then [e.hash] else [])
  }

  /** Every list of children, and the list of the roots, is the list of the blocks included on the same parent. */
  ghost predicate InOrder(s: Chain) {
    s.roots == IncludedOn(Stream(s), s.finalized)
    && forall h | h in s.nodes :: s.nodes[h].children == IncludedOn(Stream(s), h)
  }

  lemma {:induction false} IncludedConcat(a: seq<Event>, b: seq<Event>, p: Hash)
    ensures IncludedOn(a + b, p) == IncludedOn(a, p) + IncludedOn(b, p)
  {
    if b == [] {
      assert a + b == a;
    } else {
      assert (a + b)[..|a + b| - 1] == a + b[..|b| - 1];
      IncludedConcat(a, b[..|b| - 1], p);
    }
  }

  lemma {:induction false} NothingOn(evs: seq<Event>, p: Hash)
    requires forall e | e in evs :: !(e.Included? && e.hash.Of? && e.hash.block.parent == p)
    ensures IncludedOn(evs, p) == []
  {
    if evs == [] {
    } else {
      assert evs[|evs| - 1] in evs;
      NothingOn(evs[..|evs| - 1], p);
    }
  }

  /** Events that report no inclusion, put anywhere into the stream. */
  lemma OtherEvents(a: seq<Event>, b: seq<Event>, c: seq<Event>, p: Hash)
    requires forall e | e in b :: !e.Included?
    ensures IncludedOn(a + b + c, p) == IncludedOn(a + c, p)
  {
    IncludedConcat(a + b, c, p);
    IncludedConcat(a, b, p);
    IncludedConcat(a, c, p);
    NothingOn(b, p);
  }

  lemma {:induction false} Counted(evs: seq<Event>, e: Event)
    requires e in evs && e.Included?
    ensures Count(evs, KIncluded, e.hash) > 0
  {
    if evs[|evs| - 1] == e {
    } else {
      assert e in evs[..|evs| - 1];
      Counted(evs[..|evs| - 1], e);
    }
  }

  /** Nothing was ever included on a block that was not. */
  lemma NothingAbove(g: Config, s: Chain, h: Hash)
    requires g.epochBlocks > 0 && Inv(g, s) && h.Of? && Count(Stream(s), KIncluded, h) == 0
    ensures IncludedOn(Stream(s), h) == []
  {
    hide Linked, AllTallied, AllCounted, FinalityOk, OwnVotesOk, Stream, ConfirmedOk, Descends;
    forall e | e in Stream(s) ensures !(e.Included? && e.hash.Of? && e.hash.block.parent == h) {
      if e.Included? {
        Counted(Stream(s), e);
        assert PlaceOk(g, s.nodes, s.finalized, Stream(s), e.hash);
      }
    }
    NothingOn(Stream(s), h);
  }

  lemma NeverThere(g: Config, s: Chain, h: Hash)
    requires g.Valid() && Inv(g, s) && Fits(s.nodes, s.finalized, h)
    ensures IncludedOn(Stream(s), h) == [] && h != s.finalized && h != h.block.parent && s.finalized !in s.nodes
  {
    hide AllTallied, AllCounted, FinalityOk, OwnVotesOk, IncludedOn, Stream;
    NeverIncluded(g, s.nodes, s.roots, s.finalized, Stream(s), h);
    NothingAbove(g, s, h);
    FinalizedNotANode(s.nodes, s.roots, s.finalized);
    if Descends(h, h) { DescendsDeeper(h, h); }
    hide Linked;
    assert Descends(h, h.block.parent);
    if h.block.parent in s.nodes { assert h != s.finalized by { ParentAbove(g, s, h); } }
  }

  lemma ParentAbove(g: Config, s: Chain, h: Hash)
    requires g.epochBlocks > 0 && Inv(g, s) && h.Of? && h.block.parent in s.nodes
    ensures h != s.finalized
  {
    FinalizedNotANode(s.nodes, s.roots, s.finalized);
  }

  lemma InsertInOrder(g: Config, s: Chain, h: Hash, diff: StateDiff)
    requires g.Valid() && Inv(g, s) && InOrder(s) && Fits(s.nodes, s.finalized, h)
    ensures InOrder(InsertBlock(s, h, diff))
  {
    hide Inv, IncludedOn, Stream;
    NeverThere(g, s, h);
    var s' := InsertBlock(s, h, diff);
    InsertStream(s, h, diff);
    forall p ensures IncludedOn(Stream(s'), p) == IncludedOn(Stream(s), p) + if p == h.block.parent then [h] else [] {
      IncludedConcat(Stream(s), [Included(h)], p);
      OnePut(h, p);
    }
  }

  lemma InsertStream(s: Chain, h: Hash, diff: StateDiff)
    requires h.Of?
    ensures Stream(InsertBlock(s, h, diff)) == Stream(s) + [Included(h)]
  {
    hide AddLeaf;
  }

  lemma OnePut(h: Hash, p: Hash)
    requires h.Of?
    ensures IncludedOn([Included(h)], p) == if p == h.block.parent then [h] else []
  {
    assert [Included(h)][..0] == [];
  }

  lemma SameOrder(s: Chain, s': Chain)
    requires InOrder(s) && s'.finalized == s.finalized && s'.roots == s.roots && s'.nodes.Keys == s.nodes.Keys
    requires forall h | h in s.nodes :: s'.nodes[h].children == s.nodes[h].children
    requires forall p :: IncludedOn(Stream(s'), p) == IncludedOn(Stream(s), p)
    ensures InOrder(s')
  {
    hide IncludedOn, Stream;
  }

  lemma VoteStream(g: Config, s: Chain, v: Vote) returns (batch: seq<Event>)
    ensures forall e | e in batch :: e.Confirmed?
    ensures Stream(IngestVote(g, s, v)) == s.popped + batch + s.queue
  {
    var s' := IngestVote(g, s, v);
    hide InFinalizedHistory, IsDescendantOf, AddVotes;
    if s'.queue == s.queue && s'.popped == s.popped {
      batch := [];
      assert s.popped + [] == s.popped;
    } else {
      batch := NewlyConfirmed(s.nodes, s'.nodes, v.target, g.quorum);
      BatchIsConfirmations(s.nodes, s'.nodes, v.target, g.quorum);
      assert s.popped + (batch + s.queue) == s.popped + batch + s.queue;
    }
  }

  lemma VoteInOrder(g: Config, s: Chain, v: Vote)
    requires InOrder(s)
    ensures InOrder(IngestVote(g, s, v))
  {
    hide IngestVote, IncludedOn;
    var s' := IngestVote(g, s, v);
    OneVoteOnly(g, s, v);
    var batch := VoteStream(g, s, v);
    forall p ensures IncludedOn(Stream(s'), p) == IncludedOn(Stream(s), p) {
      OtherEvents(s.popped, batch, s.queue, p);
    }
    assert forall h | h in s.nodes :: SameBlock(s.nodes[h], s'.nodes[h]);
    SameOrder(s, s');
  }

  lemma {:induction false} VotesInOrder(g: Config, s: Chain, vs: seq<Vote>)
    requires InOrder(s)
    ensures InOrder(IngestVotes(g, s, vs))
    decreases |vs|
  {
    hide IngestVote, InOrder;
    if vs == [] {
    } else {
      VoteInOrder(g, s, vs[0]);
      VotesInOrder(g, IngestVote(g, s, vs[0]), vs[1..]);
    }
  }

  lemma RootInOrder(g: Config, s: Chain, i: nat)
    requires g.Valid() && Inv(g, s) && InOrder(s) && i < |s.roots| && s.roots[i] in s.nodes
    ensures InOrder(FinalizeRoot(g, s, i))
  {
    hide Inv, IncludedOn, Sweep, DiscardEvents, Descends, Without, Stream;
    var s', r := FinalizeRoot(g, s, i), s.roots[i];
    var gone := DiscardEvents(Sweep(s.nodes, Without(s.roots, i)));
    var last := Finalized(r, s.nodes[r].diff, s.nodes[r].votes);
    FinalizeStream(g, s, i);
    DiscardCounts(Sweep(s.nodes, Without(s.roots, i)), KDiscarded, r);
    forall p ensures IncludedOn(Stream(s'), p) == IncludedOn(Stream(s), p) {
      assert Stream(s) + gone + [last] == Stream(s) + (gone + [last]) + [];
      OtherEvents(Stream(s), gone + [last], [], p);
      assert Stream(s) + [] == Stream(s);
    }
  }

  lemma {:induction false} FinalizingInOrder(g: Config, s: Chain)
    requires g.Valid() && Inv(g, s) && InOrder(s)
    ensures InOrder(FinalizeAll(g, s))
    decreases |s.nodes|
  {
    hide Inv, InOrder;
    var i := FindFinalizable(g, s.nodes, s.roots);
    if i < |s.roots| && s.roots[i] in s.nodes {
      FinalizeInv(g, s, i);
      PromoteShrinks(s.nodes, s.roots[i]);
      RootInOrder(g, s, i);
      FinalizingInOrder(g, FinalizeRoot(g, s, i));
    }
  }

  lemma AfterVotesInOrder(g: Config, s: Chain)
    requires InOrder(s)
    ensures InOrder(AfterVotes(g, s))
  {
    hide IngestVotes;
    var s' := Popped(s);
    if s.queue != [] { assert Stream(s') == Stream(s); }
    if s.queue != [] && s.queue[0].Included? {
      var h := s.queue[0].hash;
      VotesInOrder(g, s', VotesIn(h));
      var s1 := IngestVotes(g, s', VotesIn(h));
      VotesInOrder(g, s1.(waiting := s1.waiting - {h}), Waiting(s1.waiting, h));
    }
  }

  lemma PollStream(g: Config, s: Chain, missing: seq<Hash>)
    requires g.epochBlocks > 0
    ensures var s' := Poll(g, s, missing);
            if s.queue != [] && s.queue[0].Included?
            then Stream(s') == Stream(FinalizeAll(g, AfterVotes(g, s))) + MissingEvents(missing)
            else Stream(s') == Stream(s)
  {
    hide IngestVotes, IngestWaiting, FinalizeAll, MissingEvents;
  }

  lemma PollInOrder(g: Config, s: Chain, missing: seq<Hash>)
    requires g.Valid() && Inv(g, s) && InOrder(s)
    ensures InOrder(Poll(g, s, missing))
  {
    hide Inv, InOrder, Poll, AfterVotes, FinalizeAll, IncludedOn, Stream, MissingEvents, OnlyVotes;
    AfterVotesInOrder(g, s);
    PollFinalizes(g, s, missing);
    PollStream(g, s, missing);
    MissingEventsOnly(missing);
    var s', final := Poll(g, s, missing), FinalizeAll(g, AfterVotes(g, s));
    if s.queue != [] && s.queue[0].Included? {
      FinalizingInOrder(g, AfterVotes(g, s));
      forall p ensures IncludedOn(Stream(s'), p) == IncludedOn(Stream(final), p) {
        assert Stream(s') == Stream(final) + MissingEvents(missing) + [];
        OtherEvents(Stream(final), MissingEvents(missing), [], p);
        assert Stream(final) + [] == Stream(final);
      }
      SameOrder(final, s');
    } else {
      SameOrder(s, s');
    }
  }

  lemma {:induction false} MissingEventsOnly(hs: seq<Hash>)
    ensures forall e | e in MissingEvents(hs) :: e.Missing?
  {
    if hs == [] {
    } else {
      MissingEventsOnly(hs[1..]);
    }
  }

  lemma OfferAppends(g: Config, s: Chain, b: Block)
    requires g.epochBlocks > 0
    ensures var s1, s' := TryInclude(g, s, b).0, Offer(g, s, b).0;
            s' == s || s' == s1
            || (SameForest(s1, s') && Stream(s') == Stream(s1) + [Voted(Of(b), s1.finalized)])
  {
    hide Offer, TryInclude;
    OfferSplits(g, s, b);
    var s1 := TryInclude(g, s, b).0;
    assert s1.popped + (s1.queue + [Voted(Of(b), s1.finalized)]) == Stream(s1) + [Voted(Of(b), s1.finalized)];
  }

  lemma OfferInOrder(g: Config, s: Chain, b: Block)
    requires g.Valid() && Inv(g, s) && InOrder(s)
    ensures InOrder(Offer(g, s, b).0)
  {
    hide Inv, InOrder, TryInclude, Offer, IncludedOn, Stream;
    TryInOrder(g, s, b);
    OfferAppends(g, s, b);
    var s1, s' := TryInclude(g, s, b).0, Offer(g, s, b).0;
    if s' != s && s' != s1 {
      forall p ensures IncludedOn(Stream(s'), p) == IncludedOn(Stream(s1), p) {
        var vote := [Voted(Of(b), s1.finalized)];
        assert Stream(s') == Stream(s1) + vote + [];
        OtherEvents(Stream(s1), vote, [], p);
        assert Stream(s1) + [] == Stream(s1);
      }
      SameOrder(s1, s');
    }
  }

  lemma TryInOrder(g: Config, s: Chain, b: Block)
    requires g.Valid() && Inv(g, s) && InOrder(s)
    ensures InOrder(TryInclude(g, s, b).0)
  {
    hide Inv, InOrder, ViewAt;
    if TryInclude(g, s, b).0 != s {
      InsertInOrder(g, s, Of(b), g.execute(ViewAt(s.nodes, s.store, b.parent), b).value);
    }
  }

  /** In every run siblings are listed in the order of their inclusion: the roots and the children of every
      block are all the blocks ever included there, first come first listed. */
  lemma {:induction false} SiblingsInOrder(g: Config, actions: seq<Action>)
    requires g.Valid()
    ensures InOrder(Run(g, actions))
  {
    hide Inv, InOrder, Offer, Poll;
    if actions == [] {
      NothingListed(g);
    } else {
      var n := |actions| - 1;
      SiblingsInOrder(g, actions[..n]);
      RunInv(g, actions[..n]);
      match actions[n]
      case OfferBlock(b) => OfferInOrder(g, Run(g, actions[..n]), b);
      case PollEvent(missing) => PollInOrder(g, Run(g, actions[..n]), missing);
    }
  }

  lemma NothingListed(g: Config)
    ensures InOrder(Start(g))
  {
  }

  // ----- confirmations

  /** The confirmations of one vote report tallies above the quorum, every block after its ancestors. */
  lemma {:induction false} ConfirmedInOrder(before: Nodes, after: Nodes, h: Hash, quorum: nat)
    ensures var batch := NewlyConfirmed(before, after, h, quorum);
            && (forall e | e in batch :: e.Confirmed? && e.hash in after && Extends(h, e.hash)
                  && e.votes == after[e.hash].votes >= quorum)
            && (forall i, j | 0 <= i < j < |batch| :: Descends(batch[j].hash, batch[i].hash))
  {
    if h in before && h in after && h.Of? {
      var p := h.block.parent;
      ConfirmedInOrder(before, after, p, quorum);
      var below, batch := NewlyConfirmed(before, after, p, quorum), NewlyConfirmed(before, after, h, quorum);
      forall i, j | 0 <= i < j < |batch| ensures Descends(batch[j].hash, batch[i].hash) {
        if j < |below| {
          assert batch[j] == below[j] && batch[i] == below[i];
        } else {
          assert batch[i] == below[i] && below[i] in below && batch[j].hash == h;
        }
      }
    }
  }

  // ----- discards

  /** No block is listed before one of its ancestors. */
  ghost predicate AncestorsFirst(hs: seq<Hash>) {
    forall i, j | 0 <= i < j < |hs| :: !Descends(hs[i], hs[j])
  }

  lemma ListedBelow(nodes: Nodes, roots: seq<Hash>, finalized: Hash, h: Hash, x: Hash)
    requires Linked(nodes, roots, finalized) && h in nodes
    ensures x in Preorder(nodes, h) <==> x in nodes && Extends(x, h)
  {
    PreorderCounts(nodes, roots, finalized, h, x);
    hide Preorder;
    assert x in Preorder(nodes, h) <==> x in multiset(Preorder(nodes, h));
  }

  /** Blocks under two siblings do not descend from each other. */
  lemma Unrelated(nodes: Nodes, roots: seq<Hash>, finalized: Hash, a: Hash, b: Hash, x: Hash, y: Hash)
    requires Linked(nodes, roots, finalized) && {a, b, x, y} <= nodes.Keys
    requires a != b && a.block.parent == b.block.parent && Extends(x, a) && Extends(y, b)
    ensures !Descends(x, y)
  {
    if Descends(x, y) {
      ExtendsTransitive(x, y, b);
      AncestorAtHeight(x, a, b);
    }
  }

  /** The walk over several subtrees under one parent. */
  ghost predicate Siblings(nodes: Nodes, cs: seq<Hash>, p: Hash) {
    Distinct(cs) && forall c | c in cs :: c in nodes && c.Of? && c.block.parent == p
  }

  lemma Joined(walk: seq<Hash>, tree: seq<Hash>)
    requires AncestorsFirst(walk) && AncestorsFirst(tree)
    requires forall x, y | x in walk && y in tree :: !Descends(x, y)
    ensures AncestorsFirst(walk + tree)
  {
    hide Descends;
    var all := walk + tree;
    forall i, j | 0 <= i < j < |all| ensures !Descends(all[i], all[j]) {
      if i < |walk| <= j { assert all[i] in walk && all[j] in tree; }
      if i >= |walk| { assert all[i] == tree[i - |walk|] && all[j] == tree[j - |walk|]; }
    }
  }

  lemma JoinedFirst(nodes: Nodes, roots: seq<Hash>, finalized: Hash, cs: seq<Hash>, p: Hash, walk: seq<Hash>)
    requires Linked(nodes, roots, finalized) && cs != [] && Siblings(nodes, cs, p)
    requires AncestorsFirst(walk) && AncestorsFirst(Preorder(nodes, cs[|cs| - 1]))
    requires forall x | x in walk :: UnderOne(nodes, cs[..|cs| - 1], x)
    ensures AncestorsFirst(walk + Preorder(nodes, cs[|cs| - 1]))
    ensures forall x | x in walk + Preorder(nodes, cs[|cs| - 1]) :: UnderOne(nodes, cs, x)
  {
    hide Linked, Preorder, Descends, AncestorsFirst;
    var n := |cs| - 1;
    var last, tree := cs[n], Preorder(nodes, cs[n]);
    assert last in cs;
    forall x | x in tree ensures x in nodes && Extends(x, last) { ListedBelow(nodes, roots, finalized, last, x); }
    forall x, y | x in walk && y in tree ensures !Descends(x, y) {
      var c :| c in cs[..n] && Extends(x, c);
      assert c in cs;
      Unrelated(nodes, roots, finalized, c, last, x, y);
    }
    Joined(walk, tree);
    assert forall c | c in cs[..n] :: c in cs;
  }

  /** What lies under children of h is not above h. */
  lemma NotAbove(nodes: Nodes, cs: seq<Hash>, h: Hash, x: Hash)
    requires Siblings(nodes, cs, h) && UnderOne(nodes, cs, x)
    ensures !Descends(h, x)
  {
    var c :| c in cs && Extends(x, c);
    DescendsDeeper(c, h);
    if x != c { DescendsDeeper(x, c); }
    if Descends(h, x) { DescendsDeeper(h, x); }
  }

  lemma ChildrenAreSiblings(nodes: Nodes, roots: seq<Hash>, finalized: Hash, h: Hash)
    requires Linked(nodes, roots, finalized) && h in nodes
    ensures Siblings(nodes, nodes[h].children, h)
  {
    assert ChildrenOk(nodes, h);
  }

  lemma {:induction false} PreorderFirst(nodes: Nodes, roots: seq<Hash>, finalized: Hash, h: Hash)
    requires Linked(nodes, roots, finalized) && h in nodes
    ensures AncestorsFirst(Preorder(nodes, h))
    decreases Subtree(nodes, h), 1, 0
  {
    hide Linked, Descends, UnderOne, PreorderOf, Siblings, Subtree;
    var cs := nodes[h].children;
    ChildrenAreSiblings(nodes, roots, finalized, h);
    PreorderOfFirst(nodes, roots, finalized, h, cs);
    var below := PreorderOf(nodes, h, cs);
    forall x | x in below ensures !Descends(h, x) { NotAbove(nodes, cs, h, x); }
    Joined([h], below);
  }

  lemma {:induction false} PreorderOfFirst(nodes: Nodes, roots: seq<Hash>, finalized: Hash, h: Hash, cs: seq<Hash>)
    requires Linked(nodes, roots, finalized) && h in nodes && Siblings(nodes, cs, h)
    ensures AncestorsFirst(PreorderOf(nodes, h, cs))
    ensures forall x | x in PreorderOf(nodes, h, cs) :: UnderOne(nodes, cs, x)
    decreases Subtree(nodes, h), 0, |cs|
  {
    hide Linked, Descends, AncestorsFirst, UnderOne, Preorder, Subtree;
    if cs == [] {
      NoneFirst();
    } else {
      var n := |cs| - 1;
      assert cs[n] in cs;
      ChildBelow(nodes, cs, h);
      PreorderOfFirst(nodes, roots, finalized, h, cs[..n]);
      SubtreeShrinks(nodes, h, cs[n]);
      PreorderFirst(nodes, roots, finalized, cs[n]);
      JoinedFirst(nodes, roots, finalized, cs, h, PreorderOf(nodes, h, cs[..n]));
    }
  }

  lemma NoneFirst()
    ensures AncestorsFirst([])
  {
  }

  lemma ChildBelow(nodes: Nodes, cs: seq<Hash>, p: Hash)
    requires cs != [] && Siblings(nodes, cs, p)
    ensures Descends(cs[|cs| - 1], p) && Siblings(nodes, cs[..|cs| - 1], p)
  {
    assert cs[|cs| - 1] in cs;
  }

  lemma {:induction false} SweepFirst(nodes: Nodes, roots: seq<Hash>, finalized: Hash, trees: seq<Hash>)
    requires Linked(nodes, roots, finalized) && Siblings(nodes, trees, finalized)
    ensures AncestorsFirst(Sweep(nodes, trees))
    ensures forall x | x in Sweep(nodes, trees) :: UnderOne(nodes, trees, x)
  {
    if trees == [] {
    } else {
      var n := |trees| - 1;
      assert trees[n] in trees;
      SweepFirst(nodes, roots, finalized, trees[..n]);
      PreorderFirst(nodes, roots, finalized, trees[n]);
      JoinedFirst(nodes, roots, finalized, trees, finalized, Sweep(nodes, trees[..n]));
    }
  }

  /** Finalizing a root reports the discarded blocks, every block after its ancestors. */
  lemma DiscardsInOrder(g: Config, s: Chain, i: nat)
    requires g.Valid() && Inv(g, s) && i < |s.roots|
    ensures AncestorsFirst(Sweep(s.nodes, Without(s.roots, i)))
  {
    hide AllTallied, AllCounted, AllPlaced, FinalityOk, OwnVotesOk;
    SweepFirst(s.nodes, s.roots, s.finalized, Without(s.roots, i));
  }
}
