/** What every step of the consensus state machine keeps, and so what holds after every run. */
module Invariants {
  import opened Primitives
  import opened State
  import opened Blocks
  import opened Stakes
  import opened ForkTree
  import opened Consensus

  // ----- observations on an event stream

  datatype Kind = KIncluded | KConfirmed | KFinalized | KDiscarded

  predicate Matches(e: Event, k: Kind, h: Hash) {
    match k
    case KIncluded => e.Included? && e.hash == h
    case KConfirmed => e.Confirmed? && e.hash == h
    case KFinalized => e.Finalized? && e.hash == h
    case KDiscarded => e.Discarded? && e.hash == h
  }

  /** How often a stream reports something about a block. */
  function Count(evs: seq<Event>, k: Kind, h: Hash): nat {
    if evs == [] then 0
    else Count(evs[..|evs| - 1], k, h) + (if Matches(evs[|evs| - 1], k, h) then 1 else 0)
  }

  lemma {:induction false} CountConcat(a: seq<Event>, b: seq<Event>, k: Kind, h: Hash)
    ensures Count(a + b, k, h) == Count(a, k, h) + Count(b, k, h)
  {
    if b == [] {
      assert a + b == a;
    } else {
      assert (a + b)[..|a + b| - 1] == a + b[..|b| - 1];
      CountConcat(a, b[..|b| - 1], k, h);
    }
  }

  /** The finalized blocks of a stream and their diffs, in stream order. */
  function FinalizedOrder(evs: seq<Event>): seq<Hash> {
    if evs == [] then [] else
    var e := evs[|evs| - 1];
    FinalizedOrder(evs[..|evs| - 1]) + (if e.Finalized? then [e.hash] else [])
  }

  function FinalizedDiffs(evs: seq<Event>): seq<StateDiff> {
    if evs == [] then [] else
    var e := evs[|evs| - 1];
    FinalizedDiffs(evs[..|evs| - 1]) + (if e.Finalized? then [e.diff] else [])
  }

  lemma {:induction false} FinalizedConcat(a: seq<Event>, b: seq<Event>)
    ensures FinalizedOrder(a + b) == FinalizedOrder(a) + FinalizedOrder(b)
    ensures FinalizedDiffs(a + b) == FinalizedDiffs(a) + FinalizedDiffs(b)
  {
    if b == [] {
      assert a + b == a;
    } else {
      assert (a + b)[..|a + b| - 1] == a + b[..|b| - 1];
      FinalizedConcat(a, b[..|b| - 1]);
    }
  }

  lemma {:induction false} FinalizedCount(evs: seq<Event>, h: Hash)
    ensures Count(evs, KFinalized, h) == multiset(FinalizedOrder(evs))[h]
  {
    if evs == [] {
    } else {
      FinalizedCount(evs[..|evs| - 1], h);
    }
  }

  /** Every finalization in the stream comes after the confirmation of the same block. */
  ghost predicate Announced(evs: seq<Event>) {
    forall i | 0 <= i < |evs| && evs[i].Finalized? :: Count(evs[..i], KConfirmed, evs[i].hash) >= 1
  }

  /** The vote of an epoch that still binds this node: the last one since a block of the epoch was
      finalized. */
  function LastBallot(g: Config, evs: seq<Event>, epoch: nat): Option<(Hash, Hash)>
    requires g.epochBlocks > 0
  {
    if evs == [] then None else
    match evs[|evs| - 1]
    case Voted(t, j) => if g.Epoch(t) == epoch then Some((j, t)) else LastBallot(g, evs[..|evs| - 1], epoch)
    case Finalized(h, _, _) => if g.Epoch(h) == epoch then None else LastBallot(g, evs[..|evs| - 1], epoch)
    case _ => LastBallot(g, evs[..|evs| - 1], epoch)
  }

  /** Every vote descends from its justification and from the vote that bound the node before. */
  ghost predicate BallotsOk(g: Config, evs: seq<Event>)
    requires g.epochBlocks > 0
  {
    evs == [] ||
    var rest, e := evs[..|evs| - 1], evs[|evs| - 1];
    && BallotsOk(g, rest)
    && (e.Voted? ==>
          && Descends(e.target, e.justification)
          && (forall f | f in rest && f.Voted? :: Extends(e.justification, f.justification))
          && var last := LastBallot(g, rest, g.Epoch(e.target));
             (last.Some? ==> Descends(e.target, last.value.1)))
  }

  // ----- the invariant

  /** Validators with a counted vote on h or on a descendant of h. */
  ghost function Supporters(counted: set<Vote>, h: Hash): set<Pubkey> {
    set v | v in counted && Extends(v.target, h) :: v.validator
  }

  ghost predicate TallyOk(g: Config, nodes: Nodes, counted: set<Vote>, h: Hash)
    requires h in nodes
  {
    && nodes[h].voters == Supporters(counted, h)
    && nodes[h].votes == Weight(g.stakes, nodes[h].voters)
  }

  ghost predicate CountedOk(g: Config, evs: seq<Event>, v: Vote) {
    g.MayTakePart(v.validator) && g.voteSigned(v) && Count(evs, KIncluded, v.target) == 1
  }

  /** Where a block is, as told by the stream: an included block is a node, or was finalized, or was
      discarded, and never two of these; it was confirmed when its tally says so. */
  ghost predicate PlaceOk(g: Config, nodes: Nodes, finalized: Hash, evs: seq<Event>, h: Hash) {
    var inc, fin, dis := Count(evs, KIncluded, h), Count(evs, KFinalized, h), Count(evs, KDiscarded, h);
    && inc <= 1
    && inc == (if h in nodes then 1 else 0) + fin + dis
    && fin == (if h.Of? && Extends(finalized, h) then 1 else 0)
    && (dis > 0 ==> !Extends(finalized, h) && !Extends(h, finalized))
    && (inc > 0 ==> h.Of? && (h.block.parent == Genesis || Count(evs, KIncluded, h.block.parent) > 0))
    && ConfirmedOk(g, nodes, evs, h)
  }

  ghost predicate ConfirmedOk(g: Config, nodes: Nodes, evs: seq<Event>, h: Hash) {
    var con := Count(evs, KConfirmed, h);
    g.quorum > 0 ==>
      && con <= Count(evs, KIncluded, h)
      && (h in nodes ==> con == if nodes[h].votes >= g.quorum then 1 else 0)
      && (Count(evs, KFinalized, h) > 0 ==> con == 1)
  }

  ghost predicate AllTallied(g: Config, nodes: Nodes, counted: set<Vote>) {
    forall h | h in nodes :: TallyOk(g, nodes, counted, h)
  }

  ghost predicate AllCounted(g: Config, counted: set<Vote>, evs: seq<Event>) {
    forall v | v in counted :: CountedOk(g, evs, v)
  }

  ghost predicate AllPlaced(g: Config, nodes: Nodes, finalized: Hash, evs: seq<Event>) {
    forall h :: PlaceOk(g, nodes, finalized, evs, h)
  }

  type OwnVotes = map<nat, (Hash, Hash)>

  ghost predicate OwnVotesOk(g: Config, finalized: Hash, own: OwnVotes, evs: seq<Event>)
    requires g.epochBlocks > 0
  {
    && BallotsOk(g, evs)
    && (forall e | e in evs && e.Voted? :: Extends(finalized, e.justification))
    && (forall epoch: nat :: BallotOk(g, own, evs, epoch))
  }

  ghost predicate BallotOk(g: Config, own: OwnVotes, evs: seq<Event>, epoch: nat)
    requires g.epochBlocks > 0
  {
    LastBallot(g, evs, epoch) == if epoch in own then Some(own[epoch]) else None
  }

  /** The finalized events spell out the finalized block's lineage and the persisted store, and each
      was backed by a quorum. */
  ghost predicate FinalityOk(g: Config, finalized: Hash, store: Accounts, counted: set<Vote>, evs: seq<Event>) {
    && FinalizedOrder(evs) == Lineage(finalized)
    && store == ApplyAll(g.accounts, FinalizedDiffs(evs))
    && (g.quorum > 0 ==> Announced(evs))
    && (forall h: Hash | h.Of? && Extends(finalized, h) :: Backed(g, counted, h))
  }

  /** Validators holding a quorum had a vote counted on h or above it. */
  ghost predicate Backed(g: Config, counted: set<Vote>, h: Hash) {
    Weight(g.stakes, Supporters(counted, h)) >= g.quorum
  }

  ghost predicate Inv(g: Config, s: Chain)
    requires g.epochBlocks > 0
  {
    && Linked(s.nodes, s.roots, s.finalized)
    && AllTallied(g, s.nodes, s.counted)
    && AllCounted(g, s.counted, Stream(s))
    && AllPlaced(g, s.nodes, s.finalized, Stream(s))
    && FinalityOk(g, s.finalized, s.store, s.counted, Stream(s))
    && OwnVotesOk(g, s.finalized, s.ownVotes, Stream(s))
  }

  lemma StartInv(g: Config)
    requires g.Valid()
    ensures Inv(g, Start(g))
  {
    var s := Start(g);
    assert Stream(s) == [];
    forall h ensures PlaceOk(g, s.nodes, s.finalized, Stream(s), h) {}
    forall epoch: nat ensures BallotOk(g, s.ownVotes, Stream(s), epoch) {}
  }

  // ----- how a stream grows

  /** Events other than votes, confirmations and finalizations. */
  predicate Plain(e: Event) {
    e.Missing? || e.Discarded? || e.Included?
  }

  lemma {:induction false} BallotsTail(g: Config, evs: seq<Event>, tail: seq<Event>)
    requires g.epochBlocks > 0
    requires forall e | e in tail :: Plain(e)
    ensures BallotsOk(g, evs) ==> BallotsOk(g, evs + tail)
    ensures forall epoch: nat :: LastBallot(g, evs + tail, epoch) == LastBallot(g, evs, epoch)
  {
    if tail == [] {
      assert evs + tail == evs;
    } else {
      var init, all := tail[..|tail| - 1], evs + tail;
      assert all[..|all| - 1] == evs + init;
      assert Plain(tail[|tail| - 1]) && all[|all| - 1] == tail[|tail| - 1];
      BallotsTail(g, evs, init);
    }
  }

  lemma {:induction false} FinalityTail(evs: seq<Event>, tail: seq<Event>)
    requires forall e | e in tail :: !e.Finalized?
    ensures FinalizedOrder(evs + tail) == FinalizedOrder(evs) && FinalizedDiffs(evs + tail) == FinalizedDiffs(evs)
    ensures Announced(evs) ==> Announced(evs + tail)
  {
    if tail == [] {
      assert evs + tail == evs;
    } else {
      var init, all := tail[..|tail| - 1], evs + tail;
      assert all[..|all| - 1] == evs + init;
      assert tail[|tail| - 1] in tail && all[|all| - 1] == tail[|tail| - 1];
      FinalityTail(evs, init);
      assert forall i | 0 <= i < |all| - 1 :: all[i] == (evs + init)[i] && all[..i] == (evs + init)[..i];
    }
  }

  /** Confirmations delivered before the pending events disturb neither ballots nor finality. */
  lemma {:induction false} ConfirmedInside(g: Config, a: seq<Event>, batch: seq<Event>, b: seq<Event>)
    requires g.epochBlocks > 0
    requires forall e | e in batch :: e.Confirmed?
    ensures FinalizedOrder(a + batch + b) == FinalizedOrder(a + b)
      && FinalizedDiffs(a + batch + b) == FinalizedDiffs(a + b)
    ensures forall epoch: nat :: LastBallot(g, a + batch + b, epoch) == LastBallot(g, a + b, epoch)
    ensures BallotsOk(g, a + b) ==> BallotsOk(g, a + batch + b)
    decreases |b|, |batch|
  {
    var all := a + batch + b;
    if b == [] && batch == [] {
      assert all == a + b;
    } else if b == [] {
      var init := batch[..|batch| - 1];
      assert all[..|all| - 1] == a + init + b && all[|all| - 1] == batch[|batch| - 1];
      assert batch[|batch| - 1] in batch && a + b == a;
      ConfirmedInside(g, a, init, b);
    } else {
      var init := b[..|b| - 1];
      assert all[..|all| - 1] == a + batch + init && all[|all| - 1] == b[|b| - 1];
      assert (a + b)[..|a + b| - 1] == a + init && (a + b)[|a + b| - 1] == b[|b| - 1];
      ConfirmedInside(g, a, batch, init);
      assert forall e: Event :: e in a + init ==> e in a + batch + init;
      assert forall e: Event :: e in a + batch + init && e.Voted? ==> e in a + init;
    }
  }

  lemma AnnouncedInside(a: seq<Event>, batch: seq<Event>, b: seq<Event>)
    requires forall e | e in batch :: e.Confirmed?
    requires Announced(a + b)
    ensures Announced(a + batch + b)
  {
    var all, old_ := a + batch + b, a + b;
    assert forall j | |a| <= j < |a| + |batch| :: all[j] == batch[j - |a|] && all[j].Confirmed?;
    forall i | 0 <= i < |all| && all[i].Finalized?
      ensures Count(all[..i], KConfirmed, all[i].hash) >= 1
    {
      var h := all[i].hash;
      if i < |a| {
        assert all[..i] == old_[..i] && all[i] == old_[i];
      } else {
        var k := i - |batch|;
        assert all[i] == old_[k];
        assert all[..i] == a + batch + b[..k - |a|] && old_[..k] == a + b[..k - |a|];
        CountConcat(a + batch, b[..k - |a|], KConfirmed, h);
        CountConcat(a, batch, KConfirmed, h);
        CountConcat(a, b[..k - |a|], KConfirmed, h);
      }
    }
  }

  lemma OneMore(evs: seq<Event>, e: Event)
    ensures forall k, h :: Count(evs + [e], k, h) == Count(evs, k, h) + (if Matches(e, k, h) then 1 else 0)
  {
    assert (evs + [e])[..|evs + [e]| - 1] == evs;
  }

  /** Counted votes notice only inclusions of their targets. */
  lemma CountedKept(g: Config, counted: set<Vote>, evs: seq<Event>, evs': seq<Event>)
    requires AllCounted(g, counted, evs)
    requires forall v | v in counted :: Count(evs', KIncluded, v.target) == Count(evs, KIncluded, v.target)
    ensures AllCounted(g, counted, evs')
  {
    forall v | v in counted ensures CountedOk(g, evs', v) { assert CountedOk(g, evs, v); }
  }

  // ----- inserting a block

  lemma {:induction false} InclusionClosed(g: Config, nodes: Nodes, finalized: Hash, evs: seq<Event>, t: Hash, h: Hash)
    requires AllPlaced(g, nodes, finalized, evs)
    requires Count(evs, KIncluded, t) > 0 && Extends(t, h) && h.Of?
    ensures Count(evs, KIncluded, h) > 0
  {
    assert PlaceOk(g, nodes, finalized, evs, t);
    if t == h {
    } else {
      assert Extends(t.block.parent, h);
      InclusionClosed(g, nodes, finalized, evs, t.block.parent, h);
    }
  }

  /** h may be inserted: its parent is there and h is not. */
  predicate Fits(nodes: Nodes, finalized: Hash, h: Hash) {
    h.Of? && h !in nodes && (h.block.parent == finalized || h.block.parent in nodes)
  }

  /** A block that fits was never included before: finalized and discarded blocks do not come back. */
  lemma NeverIncluded(g: Config, nodes: Nodes, roots: seq<Hash>, finalized: Hash, evs: seq<Event>, h: Hash)
    requires Linked(nodes, roots, finalized) && AllPlaced(g, nodes, finalized, evs)
    requires Fits(nodes, finalized, h)
    ensures Count(evs, KIncluded, h) == 0
    ensures h.block.parent == Genesis || Count(evs, KIncluded, h.block.parent) > 0
  {
    assert PlaceOk(g, nodes, finalized, evs, h);
    assert PlaceOk(g, nodes, finalized, evs, h.block.parent);
    assert Descends(h, finalized);
    DescendsDeeper(h, finalized);
    if Descends(finalized, h) { DescendsDeeper(finalized, h); }
  }

  lemma Unsupported(g: Config, nodes: Nodes, finalized: Hash, counted: set<Vote>, evs: seq<Event>, h: Hash)
    requires AllPlaced(g, nodes, finalized, evs) && AllCounted(g, counted, evs)
    requires h.Of? && Count(evs, KIncluded, h) == 0
    ensures Supporters(counted, h) == {}
    ensures forall v | v in counted :: v.target != h
  {
    forall v | v in counted ensures !Extends(v.target, h) {
      assert CountedOk(g, evs, v);
      if Extends(v.target, h) { InclusionClosed(g, nodes, finalized, evs, v.target, h); }
    }
  }

  lemma InsertPlaces(g: Config, nodes: Nodes, nodes': Nodes, finalized: Hash, evs: seq<Event>, h: Hash)
    requires AllPlaced(g, nodes, finalized, evs)
    requires h.Of? && h !in nodes && nodes'.Keys == nodes.Keys + {h} && nodes'[h].votes == 0
    requires forall x | x in nodes :: nodes'[x].votes == nodes[x].votes
    requires Count(evs, KIncluded, h) == 0
    requires h.block.parent == Genesis || Count(evs, KIncluded, h.block.parent) > 0
    ensures AllPlaced(g, nodes', finalized, evs + [Included(h)])
  {
    OneMore(evs, Included(h));
    assert PlaceOk(g, nodes, finalized, evs, h);
    forall x ensures PlaceOk(g, nodes', finalized, evs + [Included(h)], x) {
      assert PlaceOk(g, nodes, finalized, evs, x);
    }
  }

  lemma InsertTallies(g: Config, nodes: Nodes, counted: set<Vote>, h: Hash, diff: StateDiff)
    requires h.Of? && h !in nodes && Supporters(counted, h) == {}
    requires AllTallied(g, nodes, counted)
    ensures AllTallied(g, AddLeaf(nodes, h, diff), counted)
  {
    var nodes' := AddLeaf(nodes, h, diff);
    forall x | x in nodes' ensures TallyOk(g, nodes', counted, x) {
      if x != h { assert TallyOk(g, nodes, counted, x); }
    }
  }

  lemma InsertInv(g: Config, s: Chain, h: Hash, diff: StateDiff)
    requires g.Valid() && Inv(g, s)
    requires Fits(s.nodes, s.finalized, h) && h.block.height == Height(h.block.parent) + 1
    ensures Inv(g, InsertBlock(s, h, diff))
  {
    var evs, tail := Stream(s), [Included(h)];
    hide Linked, AllTallied, AllCounted, AllPlaced, FinalityOk, OwnVotesOk;
    assert Stream(InsertBlock(s, h, diff)) == evs + tail;
    LinkedAddLeaf(s.nodes, s.roots, s.finalized, h, diff);
    NeverIncluded(g, s.nodes, s.roots, s.finalized, evs, h);
    Unsupported(g, s.nodes, s.finalized, s.counted, evs, h);
    InsertPlaces(g, s.nodes, AddLeaf(s.nodes, h, diff), s.finalized, evs, h);
    InsertTallies(g, s.nodes, s.counted, h, diff);
    OneMore(evs, Included(h));
    CountedKept(g, s.counted, evs, evs + tail);
    FinalityOkTail(g, s.finalized, s.store, s.counted, evs, tail);
    OwnVotesTail(g, s.finalized, s.ownVotes, evs, tail);
  }

  lemma FinalityOkTail(g: Config, finalized: Hash, store: Accounts, counted: set<Vote>, evs: seq<Event>,
        tail: seq<Event>)
    requires FinalityOk(g, finalized, store, counted, evs)
    requires forall e | e in tail :: !e.Finalized?
    ensures FinalityOk(g, finalized, store, counted, evs + tail)
  {
    FinalityTail(evs, tail);
  }

  lemma OwnVotesTail(g: Config, finalized: Hash, own: OwnVotes, evs: seq<Event>, tail: seq<Event>)
    requires g.epochBlocks > 0 && OwnVotesOk(g, finalized, own, evs)
    requires forall e | e in tail :: Plain(e)
    ensures OwnVotesOk(g, finalized, own, evs + tail)
  {
    BallotsTail(g, evs, tail);
    forall epoch: nat ensures BallotOk(g, own, evs + tail, epoch) { assert BallotOk(g, own, evs, epoch); }
  }

  // ----- casting an own vote

  lemma LastBallotVoted(g: Config, evs: seq<Event>, target: Hash, justification: Hash, epoch: nat)
    requires g.epochBlocks > 0
    ensures LastBallot(g, evs + [Voted(target, justification)], epoch)
         == if g.Epoch(target) == epoch then Some((justification, target)) else LastBallot(g, evs, epoch)
  {
    var all := evs + [Voted(target, justification)];
    assert all[..|all| - 1] == evs;
  }

  lemma BallotsVoted(g: Config, evs: seq<Event>, target: Hash, justification: Hash)
    requires g.epochBlocks > 0 && BallotsOk(g, evs) && Descends(target, justification)
    requires forall f | f in evs && f.Voted? :: Extends(justification, f.justification)
    requires LastBallot(g, evs, g.Epoch(target)).Some? ==> Descends(target, LastBallot(g, evs, g.Epoch(target)).value.1)
    ensures BallotsOk(g, evs + [Voted(target, justification)])
  {
    hide Descends, LastBallot;
    var all := evs + [Voted(target, justification)];
    assert all[..|all| - 1] == evs;
  }

  lemma VoteBallots(g: Config, s: Chain, target: Hash)
    requires g.epochBlocks > 0 && OwnVotesOk(g, s.finalized, s.ownVotes, Stream(s))
    requires Linked(s.nodes, s.roots, s.finalized)
    requires target in s.nodes && MayVote(g, s, target)
    ensures OwnVotesOk(g, s.finalized, s.ownVotes[g.Epoch(target) := (s.finalized, target)],
      Stream(s) + [Voted(target, s.finalized)])
  {
    assert Descends(target, s.finalized);
    hide Linked, Stream, Descends, LastBallot, BallotsOk;
    var evs, own := Stream(s), s.ownVotes[g.Epoch(target) := (s.finalized, target)];
    assert BallotOk(g, s.ownVotes, evs, g.Epoch(target));
    if g.Epoch(target) in s.ownVotes {
      DescendantMeansDescends(s.nodes, s.roots, s.finalized, target, s.ownVotes[g.Epoch(target)].1);
    }
    BallotsVoted(g, evs, target, s.finalized);
    forall epoch: nat ensures BallotOk(g, own, evs + [Voted(target, s.finalized)], epoch) {
      assert BallotOk(g, s.ownVotes, evs, epoch);
      LastBallotVoted(g, evs, target, s.finalized, epoch);
    }
  }

  /** Events that report nothing about blocks leave their places as they are. */
  lemma PlacesTail(g: Config, nodes: Nodes, finalized: Hash, evs: seq<Event>, tail: seq<Event>)
    requires AllPlaced(g, nodes, finalized, evs)
    requires forall e | e in tail :: e.Voted? || e.Missing?
    ensures AllPlaced(g, nodes, finalized, evs + tail)
    ensures forall k, h :: Count(evs + tail, k, h) == Count(evs, k, h)
  {
    forall k, h ensures Count(evs + tail, k, h) == Count(evs, k, h) {
      CountConcat(evs, tail, k, h);
      NoMatch(tail, k, h);
    }
    forall x ensures PlaceOk(g, nodes, finalized, evs + tail, x) {
      assert PlaceOk(g, nodes, finalized, evs, x);
    }
  }

  lemma {:induction false} NoMatch(evs: seq<Event>, k: Kind, h: Hash)
    requires forall e | e in evs :: !Matches(e, k, h)
    ensures Count(evs, k, h) == 0
  {
    if evs == [] {
    } else {
      NoMatch(evs[..|evs| - 1], k, h);
    }
  }

  lemma VoteInv(g: Config, s: Chain, target: Hash)
    requires g.Valid() && Inv(g, s)
    ensures Inv(g, CommitAndVote(g, s, target))
  {
    hide MayVote;
    if target in s.nodes && MayVote(g, s, target) {
      var evs, tail := Stream(s), [Voted(target, s.finalized)];
      var s' := s.(ownVotes := s.ownVotes[g.Epoch(target) := (s.finalized, target)], queue := s.queue + tail);
      assert CommitAndVote(g, s, target) == s' && Stream(s') == evs + tail;
      hide Config.Valid, CommitAndVote, Stream, Linked, AllTallied, AllCounted, AllPlaced, FinalityOk, OwnVotesOk,
        Count;
      VoteBallots(g, s, target);
      PlacesTail(g, s.nodes, s.finalized, evs, tail);
      CountedKept(g, s.counted, evs, evs + tail);
      FinalityOkTail(g, s.finalized, s.store, s.counted, evs, tail);
    }
  }

  // ----- counting a vote

  lemma {:induction false} BatchIsConfirmations(before: Nodes, after: Nodes, h: Hash, quorum: nat)
    ensures forall e | e in NewlyConfirmed(before, after, h, quorum) :: e.Confirmed?
  {
    if h in before && h in after && h.Of? {
      BatchIsConfirmations(before, after, h.block.parent, quorum);
    }
  }

  ghost predicate Crosses(before: Nodes, after: Nodes, x: Hash, quorum: nat) {
    x in before && x in after && before[x].votes < quorum <= after[x].votes
  }

  lemma CountOne(e: Event, k: Kind, x: Hash)
    ensures Count([e], k, x) == if Matches(e, k, x) then 1 else 0
  {
    assert [e][..0] == [];
  }

  /** The batch confirms, once each, the blocks on the voted path that the vote lifted over the quorum. */
  lemma {:induction false} BatchCounts(before: Nodes, roots: seq<Hash>, finalized: Hash, after: Nodes, h: Hash,
        quorum: nat, x: Hash)
    requires Linked(before, roots, finalized) && after.Keys == before.Keys && (h in before || h == finalized)
    ensures Count(NewlyConfirmed(before, after, h, quorum), KConfirmed, x)
         == if Extends(h, x) && Crosses(before, after, x, quorum) then 1 else 0
  {
    FinalizedNotANode(before, roots, finalized);
    if h !in before {
    } else {
      hide Linked, Grounded;
      var p := h.block.parent;
      BatchCounts(before, roots, finalized, after, p, quorum, x);
      if Extends(p, h) { DescendsDeeper(p, h); }
      var own := if before[h].votes < quorum <= after[h].votes then [Confirmed(h, after[h].votes)] else [];
      assert NewlyConfirmed(before, after, h, quorum) == NewlyConfirmed(before, after, p, quorum) + own;
      CountConcat(NewlyConfirmed(before, after, p, quorum), own, KConfirmed, x);
      CountOne(Confirmed(h, after[h].votes), KConfirmed, x);
    }
  }

  lemma VoteTallies(g: Config, nodes: Nodes, counted: set<Vote>, v: Vote)
    requires AllTallied(g, nodes, counted)
    ensures AllTallied(g, AddVotes(nodes, v.target, v.validator, StakeOf(g.stakes, v.validator)), counted + {v})
  {
    var after := AddVotes(nodes, v.target, v.validator, StakeOf(g.stakes, v.validator));
    forall h | h in after ensures TallyOk(g, after, counted + {v}, h) {
      assert TallyOk(g, nodes, counted, h);
      assert Supporters(counted + {v}, h)
        == Supporters(counted, h) + (if Extends(v.target, h) then {v.validator} else {});
      if v.validator !in nodes[h].voters {
        WeightAdd(g.stakes, nodes[h].voters, v.validator);
      }
    }
  }

  /** Counts in a stream with a batch of confirmations put before the pending events. */
  lemma InsideCounts(a: seq<Event>, batch: seq<Event>, b: seq<Event>, k: Kind, h: Hash)
    requires forall e | e in batch :: e.Confirmed?
    ensures Count(a + batch + b, k, h) == Count(a + b, k, h) + (if k.KConfirmed? then Count(batch, k, h) else 0)
  {
    CountConcat(a + batch, b, k, h);
    CountConcat(a, batch, k, h);
    CountConcat(a, b, k, h);
    if !k.KConfirmed? { NoMatch(batch, k, h); }
  }

  lemma VotePlaces(g: Config, s: Chain, v: Vote)
    requires Linked(s.nodes, s.roots, s.finalized) && AllPlaced(g, s.nodes, s.finalized, Stream(s))
    requires v.target in s.nodes
    ensures var s' := CountVote(g, s, v);
            AllPlaced(g, s'.nodes, s.finalized, Stream(s'))
            && forall h :: Count(Stream(s'), KIncluded, h) == Count(Stream(s), KIncluded, h)
  {
    var s' := CountVote(g, s, v);
    var batch := NewlyConfirmed(s.nodes, s'.nodes, v.target, g.quorum);
    assert Stream(s') == s.popped + batch + s.queue;
    BatchIsConfirmations(s.nodes, s'.nodes, v.target, g.quorum);
    forall x ensures PlaceOk(g, s'.nodes, s.finalized, Stream(s'), x)
      ensures Count(Stream(s'), KIncluded, x) == Count(Stream(s), KIncluded, x)
    {
      VotePlace(g, s, v, batch, x);
    }
  }

  lemma VotesRise(nodes: Nodes, target: Hash, voter: Pubkey, stake: nat)
    ensures var after := AddVotes(nodes, target, voter, stake);
            && after.Keys == nodes.Keys
            && (forall h | h in nodes ::
              after[h].votes >= nodes[h].votes && (after[h].votes == nodes[h].votes || Extends(target, h)))
  {
  }

  /** Where x stands once the events in between only add the confirmations of a rise in votes. */
  lemma PlaceRisen(g: Config, nodes: Nodes, after: Nodes, finalized: Hash, evs: seq<Event>, evs': seq<Event>,
        target: Hash, x: Hash)
    requires PlaceOk(g, nodes, finalized, evs, x) && after.Keys == nodes.Keys
    requires x in nodes ==> after[x].votes >= nodes[x].votes && (after[x].votes == nodes[x].votes || Extends(target, x))
    requires forall k: Kind | !k.KConfirmed? :: Count(evs', k, x) == Count(evs, k, x)
    requires x.Of? ==> Count(evs', KIncluded, x.block.parent) == Count(evs, KIncluded, x.block.parent)
    requires Count(evs', KConfirmed, x)
          == Count(evs, KConfirmed, x) + (if Extends(target, x) && Crosses(nodes, after, x, g.quorum) then 1 else 0)
    ensures PlaceOk(g, after, finalized, evs', x)
  {
    hide Count, Extends;
    assert Count(evs', KIncluded, x) == Count(evs, KIncluded, x);
  }

  lemma VotePlace(g: Config, s: Chain, v: Vote, batch: seq<Event>, x: Hash)
    requires Linked(s.nodes, s.roots, s.finalized) && PlaceOk(g, s.nodes, s.finalized, Stream(s), x)
    requires v.target in s.nodes
    requires batch == NewlyConfirmed(s.nodes, CountVote(g, s, v).nodes, v.target, g.quorum)
    ensures PlaceOk(g, CountVote(g, s, v).nodes, s.finalized, s.popped + batch + s.queue, x)
    ensures Count(s.popped + batch + s.queue, KIncluded, x) == Count(Stream(s), KIncluded, x)
  {
    hide Linked, PlaceOk, Count, NewlyConfirmed, AddVotes, Extends, Crosses;
    var after := CountVote(g, s, v).nodes;
    VotesRise(s.nodes, v.target, v.validator, StakeOf(g.stakes, v.validator));
    BatchIsConfirmations(s.nodes, after, v.target, g.quorum);
    BatchCounts(s.nodes, s.roots, s.finalized, after, v.target, g.quorum, x);
    forall k: Kind
      ensures Count(s.popped + batch + s.queue, k, x)
        == Count(Stream(s), k, x) + (if k.KConfirmed? then Count(batch, k, x) else 0)
    {
      InsideCounts(s.popped, batch, s.queue, k, x);
    }
    if x.Of? { InsideCounts(s.popped, batch, s.queue, KIncluded, x.block.parent); }
    PlaceRisen(g, s.nodes, after, s.finalized, Stream(s), s.popped + batch + s.queue, v.target, x);
  }

  lemma VoteFinality(g: Config, finalized: Hash, store: Accounts, counted: set<Vote>, v: Vote, a: seq<Event>,
        batch: seq<Event>, b: seq<Event>)
    requires g.epochBlocks > 0
    requires FinalityOk(g, finalized, store, counted, a + b)
    requires forall e | e in batch :: e.Confirmed?
    ensures FinalityOk(g, finalized, store, counted + {v}, a + batch + b)
  {
    ConfirmedInside(g, a, batch, b);
    if g.quorum > 0 { AnnouncedInside(a, batch, b); }
    forall h: Hash | h.Of? && Extends(finalized, h) ensures Backed(g, counted + {v}, h) {
      assert Backed(g, counted, h);
      WeightMonotone(g.stakes, Supporters(counted, h), Supporters(counted + {v}, h));
    }
  }

  lemma OwnVotesInside(g: Config, finalized: Hash, own: OwnVotes, a: seq<Event>, batch: seq<Event>, b: seq<Event>)
    requires g.epochBlocks > 0 && OwnVotesOk(g, finalized, own, a + b)
    requires forall e | e in batch :: e.Confirmed?
    ensures OwnVotesOk(g, finalized, own, a + batch + b)
  {
    ConfirmedInside(g, a, batch, b);
    forall e | e in a + batch + b && e.Voted? ensures e in a + b {}
    forall epoch: nat ensures BallotOk(g, own, a + batch + b, epoch) { assert BallotOk(g, own, a + b, epoch); }
  }

  lemma CountInv(g: Config, s: Chain, v: Vote)
    requires g.Valid() && Inv(g, s)
    requires v.target in s.nodes && g.MayTakePart(v.validator) && g.voteSigned(v)
    ensures Inv(g, CountVote(g, s, v))
  {
    hide Linked, AllTallied, FinalityOk, OwnVotesOk;
    var s' := CountVote(g, s, v);
    var batch := NewlyConfirmed(s.nodes, s'.nodes, v.target, g.quorum);
    assert Stream(s') == s.popped + batch + s.queue;
    BatchIsConfirmations(s.nodes, s'.nodes, v.target, g.quorum);
    LinkedAddVotes(s.nodes, s.roots, s.finalized, v.target, v.validator, StakeOf(g.stakes, v.validator));
    VoteTallies(g, s.nodes, s.counted, v);
    VotePlaces(g, s, v);
    CountedKept(g, s.counted, Stream(s), Stream(s'));
    assert CountedOk(g, Stream(s'), v) by { assert PlaceOk(g, s'.nodes, s.finalized, Stream(s'), v.target); }
    VoteFinality(g, s.finalized, s.store, s.counted, v, s.popped, batch, s.queue);
    OwnVotesInside(g, s.finalized, s.ownVotes, s.popped, batch, s.queue);
  }

  lemma IngestInv(g: Config, s: Chain, v: Vote)
    requires g.Valid() && Inv(g, s)
    ensures Inv(g, IngestVote(g, s, v))
  {
    if g.MayTakePart(v.validator) && g.voteSigned(v) {
      if v.target in s.nodes {
        CountInv(g, s, v);
      } else {
        assert Stream(IngestVote(g, s, v)) == Stream(s);
      }
    }
  }

  lemma {:induction false} IngestAllInv(g: Config, s: Chain, vs: seq<Vote>)
    requires g.Valid() && Inv(g, s)
    ensures Inv(g, IngestVotes(g, s, vs))
    decreases |vs|
  {
    if vs == [] {
    } else {
      IngestInv(g, s, vs[0]);
      IngestAllInv(g, IngestVote(g, s, vs[0]), vs[1..]);
    }
  }

  // ----- finalizing a root

  lemma {:induction false} DiscardCounts(hs: seq<Hash>, k: Kind, x: Hash)
    ensures Count(DiscardEvents(hs), k, x) == if k.KDiscarded? then multiset(hs)[x] else 0
    ensures forall e | e in DiscardEvents(hs) :: e.Discarded?
  {
    if hs == [] {
    } else {
      DiscardCounts(hs[1..], k, x);
      CountConcat([Discarded(hs[0])], DiscardEvents(hs[1..]), k, x);
      assert hs == [hs[0]] + hs[1..];
      assert Count([Discarded(hs[0])], k, x) == if k.KDiscarded? && x == hs[0] then 1 else 0;
    }
  }

  lemma RootIsNode(nodes: Nodes, roots: seq<Hash>, finalized: Hash, i: nat)
    requires Linked(nodes, roots, finalized) && i < |roots|
    ensures roots[i] in nodes && roots[i].Of? && roots[i].block.parent == finalized
    ensures Height(roots[i]) == Height(finalized) + 1
  {
    assert roots[i] in roots;
    assert Grounded(roots[i]);
  }

  lemma FinalizeStream(g: Config, s: Chain, i: nat)
    requires g.epochBlocks > 0 && i < |s.roots| && s.roots[i] in s.nodes
    ensures var node := s.nodes[s.roots[i]];
            Stream(FinalizeRoot(g, s, i)) == Stream(s) + DiscardEvents(Sweep(s.nodes, Without(s.roots, i)))
                                             + [Finalized(s.roots[i], node.diff, node.votes)]
  {
  }

  /** What one finalization adds to the stream, block by block. */
  lemma FinalizeCounts(g: Config, s: Chain, i: nat, k: Kind, x: Hash)
    requires g.epochBlocks > 0 && Linked(s.nodes, s.roots, s.finalized) && i < |s.roots| && s.roots[i] in s.nodes
    ensures Count(Stream(FinalizeRoot(g, s, i)), k, x) == Count(Stream(s), k, x)
         + (if k.KDiscarded? && x in s.nodes && !Extends(x, s.roots[i]) then 1
            else if k.KFinalized? && x == s.roots[i] then 1 else 0)
  {
    hide Linked, Stream, FinalizeRoot, Sweep, Without, Extends;
    var node := s.nodes[s.roots[i]];
    FinalizeStream(g, s, i);
    DiscardsCount(s.nodes, s.roots, s.finalized, i, x);
    TailCounts(Stream(s), Sweep(s.nodes, Without(s.roots, i)), Finalized(s.roots[i], node.diff, node.votes), k, x);
  }

  lemma TailCounts(evs: seq<Event>, gone: seq<Hash>, last: Event, k: Kind, x: Hash)
    requires last.Finalized?
    ensures Count(evs + DiscardEvents(gone) + [last], k, x) == Count(evs, k, x)
         + (if k.KDiscarded? then multiset(gone)[x] else if k.KFinalized? && x == last.hash then 1 else 0)
  {
    OneMore(evs + DiscardEvents(gone), last);
    CountConcat(evs, DiscardEvents(gone), k, x);
    DiscardCounts(gone, k, x);
  }

  /** Moving r from the forest to the finalized chain, and the other trees to the discarded set. */
  lemma PlaceMoves(g: Config, nodes: Nodes, finalized: Hash, r: Hash, evs: seq<Event>, evs': seq<Event>, x: Hash)
    requires PlaceOk(g, nodes, finalized, evs, x) && r in nodes && nodes[r].votes >= g.quorum
    requires Count(evs', KIncluded, x) == Count(evs, KIncluded, x)
      && Count(evs', KConfirmed, x) == Count(evs, KConfirmed, x)
    requires Count(evs', KDiscarded, x) == Count(evs, KDiscarded, x) + (if x in nodes && !Extends(x, r) then 1 else 0)
    requires Count(evs', KFinalized, x) == Count(evs, KFinalized, x) + (if x == r then 1 else 0)
    requires x.Of? ==> Count(evs', KIncluded, x.block.parent) == Count(evs, KIncluded, x.block.parent)
    requires x.Of? ==> (Extends(r, x) <==> x == r || Extends(finalized, x))
    requires x in nodes ==> (Extends(r, x) <==> x == r)
    requires Extends(x, r) ==> Extends(x, finalized)
    requires !Descends(r, r) && r.Of?
    ensures PlaceOk(g, Promote(nodes, r), r, evs', x)
  {
    hide Descends;
  }

  lemma FinalizePlace(g: Config, s: Chain, i: nat, x: Hash)
    requires g.epochBlocks > 0 && Linked(s.nodes, s.roots, s.finalized) && i < |s.roots|
    requires s.roots[i] in s.nodes && s.nodes[s.roots[i]].votes >= g.quorum
    requires PlaceOk(g, s.nodes, s.finalized, Stream(s), x)
    ensures PlaceOk(g, Promote(s.nodes, s.roots[i]), s.roots[i], Stream(FinalizeRoot(g, s, i)), x)
  {
    RootIsNode(s.nodes, s.roots, s.finalized, i);
    FinalizeGeometry(s.nodes, s.roots, s.finalized, s.roots[i], x);
    hide Linked, Stream, FinalizeRoot, PlaceOk, Descends, Promote;
    FinalizeCounts(g, s, i, KDiscarded, x);
    FinalizeCounts(g, s, i, KFinalized, x);
    FinalizeCounts(g, s, i, KIncluded, x);
    FinalizeCounts(g, s, i, KConfirmed, x);
    if x.Of? { FinalizeCounts(g, s, i, KIncluded, x.block.parent); }
    PlaceMoves(g, s.nodes, s.finalized, s.roots[i], Stream(s), Stream(FinalizeRoot(g, s, i)), x);
  }

  /** Where x stands before and after root r becomes the finalized block. */
  lemma FinalizeGeometry(nodes: Nodes, roots: seq<Hash>, finalized: Hash, r: Hash, x: Hash)
    requires Linked(nodes, roots, finalized) && r in roots
    ensures x.Of? ==> (Extends(r, x) <==> x == r || Extends(finalized, x))
    ensures x in nodes ==> (Extends(r, x) <==> x == r)
    ensures Extends(x, r) ==> Extends(x, finalized)
    ensures !Descends(r, r)
  {
    FinalizedNotANode(nodes, roots, finalized);
    if Descends(r, r) { DescendsDeeper(r, r); }
    if Extends(x, r) { ExtendsTransitive(x, r, finalized); }
  }

  /** One finality event after some discards. */
  lemma FinalEvent(evs: seq<Event>, gone: seq<Event>, r: Hash, diff: StateDiff, votes: nat)
    requires forall e | e in gone :: e.Discarded?
    ensures var all := evs + gone + [Finalized(r, diff, votes)];
            && FinalizedOrder(all) == FinalizedOrder(evs) + [r]
            && FinalizedDiffs(all) == FinalizedDiffs(evs) + [diff]
            && (Announced(evs) && Count(evs, KConfirmed, r) == 1 ==> Announced(all))
  {
    var most := evs + gone;
    var all := most + [Finalized(r, diff, votes)];
    FinalityTail(evs, gone);
    assert all[..|all| - 1] == most;
    assert FinalizedOrder(all) == FinalizedOrder(most) + [r] && FinalizedDiffs(all) == FinalizedDiffs(most) + [diff];
    CountConcat(evs, gone, KConfirmed, r);
    hide Count, FinalizedOrder, FinalizedDiffs;
    assert forall j | 0 <= j < |most| :: all[j] == most[j] && all[..j] == most[..j];
  }

  lemma FinalizeFinality(g: Config, s: Chain, i: nat, gone: seq<Event>)
    requires g.Valid() && i < |s.roots| && s.roots[i] in s.nodes && s.roots[i].Of?
      && s.roots[i].block.parent == s.finalized
    requires FinalityOk(g, s.finalized, s.store, s.counted, Stream(s))
    requires TallyOk(g, s.nodes, s.counted, s.roots[i]) && s.nodes[s.roots[i]].votes >= g.quorum
    requires g.quorum > 0 ==> Count(Stream(s), KConfirmed, s.roots[i]) == 1
    requires forall e | e in gone :: e.Discarded?
    ensures var node := s.nodes[s.roots[i]];
            FinalityOk(g, s.roots[i], node.diff.ApplyTo(s.store), s.counted,
              Stream(s) + gone + [Finalized(s.roots[i], node.diff, node.votes)])
  {
    hide FinalizedOrder, FinalizedDiffs, Announced, Count, StateDiff.ApplyTo, ApplyAll, Stream, Backed, Descends;
    var r, node, evs := s.roots[i], s.nodes[s.roots[i]], Stream(s);
    FinalEvent(evs, gone, r, node.diff, node.votes);
    AppliedNext(g.accounts, FinalizedDiffs(evs), node.diff);
    LineageNext(r);
    hide Lineage;
    RootBacked(g, s.nodes, s.counted, r);
    forall h: Hash | h.Of? && Extends(r, h) ensures Backed(g, s.counted, h) {
      if h != r { ParentExtends(r, h); }
    }
  }

  lemma AppliedNext(base: Accounts, diffs: seq<StateDiff>, d: StateDiff)
    ensures ApplyAll(base, diffs + [d]) == d.ApplyTo(ApplyAll(base, diffs))
  {
    assert (diffs + [d])[..|diffs|] == diffs;
  }

  lemma LineageNext(r: Hash)
    requires r.Of?
    ensures Lineage(r) == Lineage(r.block.parent) + [r]
  {
  }

  lemma ParentExtends(r: Hash, h: Hash)
    requires r.Of? && Extends(r, h) && h != r
    ensures Extends(r.block.parent, h)
  {
  }

  lemma RootBacked(g: Config, nodes: Nodes, counted: set<Vote>, r: Hash)
    requires r in nodes && TallyOk(g, nodes, counted, r) && nodes[r].votes >= g.quorum
    ensures Backed(g, counted, r)
  {
  }

  lemma FinalizeBallots(g: Config, s: Chain, r: Hash, gone: seq<Event>, last: Event)
    requires g.Valid() && OwnVotesOk(g, s.finalized, s.ownVotes, Stream(s))
    requires Descends(r, s.finalized) && last.Finalized? && last.hash == r
    requires forall e | e in gone :: e.Discarded?
    ensures OwnVotesOk(g, r, s.ownVotes - {g.Epoch(r)}, Stream(s) + gone + [last])
  {
    var most, all, own := Stream(s) + gone, Stream(s) + gone + [last], s.ownVotes - {g.Epoch(r)};
    OwnVotesTail(g, s.finalized, s.ownVotes, Stream(s), gone);
    assert all[..|all| - 1] == most;
    forall e | e in all && e.Voted? ensures Extends(r, e.justification) {
      assert e in most;
      ExtendsTransitive(r, s.finalized, e.justification);
    }
    forall epoch: nat ensures BallotOk(g, own, all, epoch) { assert BallotOk(g, s.ownVotes, most, epoch); }
  }

  lemma FinalizeInv(g: Config, s: Chain, i: nat)
    requires g.Valid() && Inv(g, s)
    requires i < |s.roots| && s.roots[i] in s.nodes && VotesOf(s.nodes, s.roots[i]) >= g.quorum
    ensures Inv(g, FinalizeRoot(g, s, i))
  {
    hide Linked, FinalityOk, OwnVotesOk, AllCounted, Sweep, DiscardEvents, Supporters, Descends;
    var s', r := FinalizeRoot(g, s, i), s.roots[i];
    var node := s.nodes[r];
    var gone := DiscardEvents(Sweep(s.nodes, Without(s.roots, i)));
    var last := Finalized(r, node.diff, node.votes);
    assert Stream(s') == Stream(s) + gone + [last];
    RootIsNode(s.nodes, s.roots, s.finalized, i);
    DiscardCounts(Sweep(s.nodes, Without(s.roots, i)), KDiscarded, r);
    LinkedPromote(s.nodes, s.roots, s.finalized, r);
    forall h | h in s'.nodes ensures TallyOk(g, s'.nodes, s.counted, h) { assert TallyOk(g, s.nodes, s.counted, h); }
    assert PlaceOk(g, s.nodes, s.finalized, Stream(s), r);
    FinalizeFinality(g, s, i, gone);
    FinalizeBallots(g, s, r, gone, last);
    forall x ensures PlaceOk(g, s'.nodes, r, Stream(s'), x)
      ensures Count(Stream(s'), KIncluded, x) == Count(Stream(s), KIncluded, x)
    {
      assert PlaceOk(g, s.nodes, s.finalized, Stream(s), x);
      FinalizePlace(g, s, i, x);
      FinalizeCounts(g, s, i, KIncluded, x);
    }
    CountedKept(g, s.counted, Stream(s), Stream(s'));
  }

  lemma {:induction false} FinalizeAllInv(g: Config, s: Chain)
    requires g.Valid() && Inv(g, s)
    ensures Inv(g, FinalizeAll(g, s))
    decreases |s.nodes|
  {
    var i := FindFinalizable(g, s.nodes, s.roots);
    if i < |s.roots| && s.roots[i] in s.nodes {
      FinalizeInv(g, s, i);
      PromoteShrinks(s.nodes, s.roots[i]);
      FinalizeAllInv(g, FinalizeRoot(g, s, i));
    }
  }

  // ----- every step and every run

  lemma MissingInv(g: Config, s: Chain, missing: seq<Hash>)
    requires g.Valid() && Inv(g, s)
    ensures Inv(g, s.(queue := s.queue + MissingEvents(missing)))
  {
    hide Linked, AllTallied, AllCounted, AllPlaced, FinalityOk, OwnVotesOk;
    var evs, tail := Stream(s), MissingEvents(missing);
    OnlyMissing(missing);
    assert Stream(s.(queue := s.queue + tail)) == evs + tail;
    PlacesTail(g, s.nodes, s.finalized, evs, tail);
    CountedKept(g, s.counted, evs, evs + tail);
    FinalityOkTail(g, s.finalized, s.store, s.counted, evs, tail);
    OwnVotesTail(g, s.finalized, s.ownVotes, evs, tail);
  }

  lemma {:induction false} OnlyMissing(missing: seq<Hash>)
    ensures forall e | e in MissingEvents(missing) :: e.Missing?
  {
    if missing == [] {
    } else {
      OnlyMissing(missing[1..]);
    }
  }

  lemma TryIncludeInv(g: Config, s: Chain, b: Block)
    requires g.Valid() && Inv(g, s)
    ensures Inv(g, TryInclude(g, s, b).0)
  {
    hide Inv;
    if TryInclude(g, s, b).0 != s {
      InsertInv(g, s, Of(b), g.execute(ViewAt(s.nodes, s.store, b.parent), b).value);
    }
  }

  lemma OfferInv(g: Config, s: Chain, b: Block)
    requires g.Valid() && Inv(g, s)
    ensures Inv(g, Offer(g, s, b).0)
  {
    hide Inv, TryInclude, CommitAndVote, HeadHash;
    TryIncludeInv(g, s, b);
    VoteInv(g, TryInclude(g, s, b).0, Of(b));
  }

  /** The invariant does not read the waiting votes or the history window, nor where in the stream the
      queue begins. */
  lemma SameInv(g: Config, s: Chain, s': Chain)
    requires g.Valid() && Inv(g, s) && Stream(s') == Stream(s)
    requires s'.(waiting := s.waiting, history := s.history, queue := s.queue, popped := s.popped) == s
    ensures Inv(g, s')
  {
  }

  lemma PollInv(g: Config, s: Chain, missing: seq<Hash>)
    requires g.Valid() && Inv(g, s)
    ensures Inv(g, Poll(g, s, missing))
  {
    hide Inv, IngestVotes, FinalizeAll;
    if s.queue == [] {
    } else {
      var s' := s.(queue := s.queue[1..], popped := s.popped + [s.queue[0]]);
      SameInv(g, s, s');
      match s.queue[0]
      case Included(h) =>
        var s1 := IngestVotes(g, s', if h.Of? then h.block.votes else []);
        IngestAllInv(g, s', if h.Of? then h.block.votes else []);
        SameInv(g, s1, s1.(waiting := s1.waiting - {h}));
        IngestAllInv(g, s1.(waiting := s1.waiting - {h}), Waiting(s1.waiting, h));
        FinalizeAllInv(g, IngestWaiting(g, s1, h));
        MissingInv(g, FinalizeAll(g, IngestWaiting(g, s1, h)), missing);
      case Finalized(h, _, _) =>
        SameInv(g, s', PostBlockFinalized(g, s', h));
      case _ =>
    }
  }

  lemma StepInv(g: Config, s: Chain, a: Action)
    requires g.Valid() && Inv(g, s)
    ensures Inv(g, Step(g, s, a))
  {
    match a
    case OfferBlock(b) => OfferInv(g, s, b);
    case PollEvent(missing) => PollInv(g, s, missing);
  }

  /** The invariant holds after every run. */
  lemma {:induction false} RunInv(g: Config, actions: seq<Action>)
    requires g.Valid()
    ensures Inv(g, Run(g, actions))
  {
    if actions == [] {
      StartInv(g);
    } else {
      var before := actions[..|actions| - 1];
      RunInv(g, before);
      StepInv(g, Run(g, before), actions[|actions| - 1]);
    }
  }
}
