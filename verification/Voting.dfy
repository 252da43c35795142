/** Which votes are counted, which are parked, and when a node votes itself (src/consensus/chain.rs:317-394 and
    558-600). */
module Voting {
  import opened Primitives
  import opened Blocks
  import opened ForkTree
  import opened Consensus
  import opened Invariants
  import opened Polling

  // ----- votes of others

  /** A vote may refer to the finalized block, to a block of the window, or to genesis while the window has
      fewer epochs than it holds. */
  ghost predicate Justified(g: Config, s: Chain, justification: Hash) {
    || justification == s.finalized
    || (exists e :: e in s.history && justification in s.history[e])
    || (justification == Genesis && |s.history| < g.maxJustificationAge)
  }

  predicate Genuine(g: Config, v: Vote) {
    g.MayTakePart(v.validator) && g.voteSigned(v)
  }

  /** The vote counts: its target is in the forest and its justification is known or below the target there. */
  ghost predicate Acceptable(g: Config, s: Chain, v: Vote) {
    && Genuine(g, v) && v.target in s.nodes
    && (Justified(g, s, v.justification) || (v.justification in s.nodes && Descends(v.target, v.justification)))
  }

  /** The vote waits for its target. */
  predicate Parks(g: Config, s: Chain, v: Vote) {
    Genuine(g, v) && v.target !in s.nodes
  }

  /** Events were put in front of the pending ones, and all of them are confirmations. */
  ghost predicate ConfirmsFirst(before: seq<Event>, after: seq<Event>) {
    && |after| >= |before| && after[|after| - |before|..] == before
    && (forall e | e in after[..|after| - |before|] :: e.Confirmed?)
  }

  lemma BatchFirst(nodes: Nodes, after: Nodes, target: Hash, quorum: nat, queue: seq<Event>)
    ensures ConfirmsFirst(queue, NewlyConfirmed(nodes, after, target, quorum) + queue)
  {
    BatchIsConfirmations(nodes, after, target, quorum);
    var batch := NewlyConfirmed(nodes, after, target, quorum);
    assert (batch + queue)[..|batch|] == batch && (batch + queue)[|batch|..] == queue;
  }

  /** Exactly which vote is counted and which is parked; any other changes nothing. The confirmations of a counted
      vote are delivered before everything that was pending. */
  lemma VoteIngested(g: Config, s: Chain, v: Vote)
    requires Linked(s.nodes, s.roots, s.finalized)
    ensures var s' := IngestVote(g, s, v);
            && s'.counted == s.counted + (if Acceptable(g, s, v) then {v} else {})
            && (forall k :: Waiting(s'.waiting, k)
                  == Waiting(s.waiting, k) + (if Parks(g, s, v) && k == v.target then [v] else []))
            && (!Acceptable(g, s, v) && !Parks(g, s, v) ==> s' == s)
            && (Parks(g, s, v) ==> s' == s.(waiting := s'.waiting))
            && (Acceptable(g, s, v) ==>
                  && s' == s.(nodes := s'.nodes, queue := s'.queue, counted := s'.counted)
                  && ConfirmsFirst(s.queue, s'.queue))
  {
    hide ConfirmsFirst;
    BatchFirst(s.nodes, IngestVote(g, s, v).nodes, v.target, g.quorum, s.queue);
    hide Linked, IsDescendantOf, AddVotes, NewlyConfirmed;
    if v.target in s.nodes {
      DescendantMeansDescends(s.nodes, s.roots, s.finalized, v.target, v.justification);
    }
  }

  /** Ingesting votes does not change which votes are acceptable. */
  lemma SameVotes(g: Config, s: Chain, s': Chain, v: Vote)
    requires OnlyVotes(s, s')
    ensures Acceptable(g, s', v) <==> Acceptable(g, s, v)
    ensures Parks(g, s', v) <==> Parks(g, s, v)
  {
  }

  /** What a list of votes adds to the parked ones of a target. */
  function Parked(g: Config, s: Chain, vs: seq<Vote>, k: Hash): seq<Vote>
    decreases |vs|
  {
    if vs == [] then [] else
    (if Parks(g, s, vs[0]) && k == vs[0].target then [vs[0]] else []) + Parked(g, s, vs[1..], k)
  }

  lemma {:induction false} SameParked(g: Config, s: Chain, s': Chain, vs: seq<Vote>, k: Hash)
    requires OnlyVotes(s, s')
    ensures Parked(g, s', vs, k) == Parked(g, s, vs, k)
    decreases |vs|
  {
    hide OnlyVotes, Parks;
    if vs == [] {
    } else {
      SameVotes(g, s, s', vs[0]);
      SameParked(g, s, s', vs[1..], k);
    }
  }

  /** Of a list of votes exactly the acceptable ones are counted, and exactly those without a target in the
      forest are parked, in order. */
  lemma {:induction false} VotesIngested(g: Config, s: Chain, vs: seq<Vote>)
    requires g.Valid() && Inv(g, s)
    ensures var s' := IngestVotes(g, s, vs);
            && (forall v :: v in s'.counted <==> v in s.counted || (v in vs && Acceptable(g, s, v)))
            && (forall k :: Waiting(s'.waiting, k) == Waiting(s.waiting, k) + Parked(g, s, vs, k))
    decreases |vs|
  {
    hide Inv, OnlyVotes, Acceptable, Parks, IngestVote, Waiting, Genuine;
    if vs == [] {
    } else {
      var s1 := IngestVote(g, s, vs[0]);
      ForestLinked(g, s);
      VoteIngested(g, s, vs[0]);
      IngestInv(g, s, vs[0]);
      OneVoteOnly(g, s, vs[0]);
      VotesIngested(g, s1, vs[1..]);
      forall v ensures Acceptable(g, s1, v) <==> Acceptable(g, s, v) { SameVotes(g, s, s1, v); }
      var s' := IngestVotes(g, s, vs);
      forall k ensures Waiting(s'.waiting, k) == Waiting(s.waiting, k) + Parked(g, s, vs, k) {
        SameParked(g, s, s1, vs[1..], k);
      }
      assert forall v :: v in vs <==> v == vs[0] || v in vs[1..];
    }
  }

  lemma ForestLinked(g: Config, s: Chain)
    requires g.epochBlocks > 0 && Inv(g, s)
    ensures Linked(s.nodes, s.roots, s.finalized)
  {
  }

  /** The votes that the delivery of the oldest event brings in: those of an included block and those parked
      for it. */
  ghost predicate BringsIn(s: Chain, v: Vote) {
    s.queue != [] && s.queue[0].Included? && (v in VotesIn(s.queue[0].hash) || v in Waiting(s.waiting, s.queue[0].hash))
  }

  /** Parked votes wait under their target. */
  ghost predicate ParkedOk(g: Config, s: Chain) {
    forall k, v | v in Waiting(s.waiting, k) :: v.target == k && Genuine(g, v)
  }

  lemma {:induction false} ParkedIs(g: Config, s: Chain, vs: seq<Vote>, k: Hash, v: Vote)
    ensures v in Parked(g, s, vs, k) <==> v in vs && Parks(g, s, v) && v.target == k
    decreases |vs|
  {
    if vs == [] {
    } else {
      ParkedIs(g, s, vs[1..], k, v);
    }
  }

  lemma PoppedSame(g: Config, s: Chain, v: Vote)
    ensures Acceptable(g, Popped(s), v) <==> Acceptable(g, s, v)
    ensures Parks(g, Popped(s), v) <==> Parks(g, s, v)
  {
  }

  /** The poll delivers the inclusion of k. */
  predicate Releases(s: Chain, k: Hash) {
    s.queue != [] && s.queue[0].Included? && s.queue[0].hash == k
  }

  /** The two lists of votes, one after the other. */
  lemma BothIngested(g: Config, s: Chain, v: Vote, k: Hash)
    requires g.Valid() && Inv(g, s) && s.queue != [] && s.queue[0].Included?
    ensures var s', h := AfterVotes(g, s), s.queue[0].hash;
            var late := Waiting(s.waiting, h) + Parked(g, s, VotesIn(h), h);
            && (v in s'.counted <==>
                  v in s.counted || ((v in VotesIn(h) || v in late) && Acceptable(g, s, v)))
            && Waiting(s'.waiting, k)
               == (if k == h then [] else Waiting(s.waiting, k) + Parked(g, s, VotesIn(h), k)) + Parked(g, s, late, k)
  {
    hide Inv, IngestVotes, Parked, Acceptable, Parks, OnlyVotes, Waiting, VotesIn;
    var h, s0 := s.queue[0].hash, Popped(s);
    SameInv(g, s, s0);
    var s1 := IngestVotes(g, s0, VotesIn(h));
    var s2 := s1.(waiting := s1.waiting - {h});
    IngestAllInv(g, s0, VotesIn(h));
    SameInv(g, s1, s2);
    VotesIngested(g, s0, VotesIn(h));
    VotesOnly(g, s0, VotesIn(h));
    Unparked(s1, h);
    OnlyVotesTransitive(s0, s1, s2);
    PoppedParked(g, s, VotesIn(h), h);
    PoppedParked(g, s, VotesIn(h), k);
    var late := Waiting(s1.waiting, h);
    VotesIngested(g, s2, late);
    SameVotes(g, s0, s2, v);
    PoppedSame(g, s, v);
    SameParked(g, s0, s2, late, k);
    PoppedParked(g, s, late, k);
    Released(s1.waiting, h, k);
  }

  lemma {:induction false} PoppedParked(g: Config, s: Chain, vs: seq<Vote>, k: Hash)
    ensures Parked(g, Popped(s), vs, k) == Parked(g, s, vs, k)
    decreases |vs|
  {
    hide Popped, Parks;
    if vs == [] {
    } else {
      PoppedSame(g, s, vs[0]);
      PoppedParked(g, s, vs[1..], k);
    }
  }

  /** One poll counts exactly the acceptable votes among those that it brings in, and afterwards exactly those
      votes are parked that were and are not released, or that it brings in without their target. */
  lemma PollVotes(g: Config, s: Chain, missing: seq<Hash>, v: Vote, k: Hash)
    requires g.Valid() && Inv(g, s) && ParkedOk(g, s)
    ensures var s' := Poll(g, s, missing);
            && (v in s'.counted <==> v in s.counted || (BringsIn(s, v) && Acceptable(g, s, v)))
            && (v in Waiting(s'.waiting, k) <==>
                  || (v in Waiting(s.waiting, k) && !Releases(s, k))
                  || (k == v.target && BringsIn(s, v) && Parks(g, s, v)))
  {
    hide Inv, IngestVotes, Parked, Acceptable, Parks, Waiting, VotesIn, FinalizeAll, AfterVotes;
    SamePoll(g, s, missing);
    if s.queue != [] && s.queue[0].Included? {
      var h := s.queue[0].hash;
      BothIngested(g, s, v, k);
      var late := Waiting(s.waiting, h) + Parked(g, s, VotesIn(h), h);
      ParkedIs(g, s, VotesIn(h), h, v);
      ParkedIs(g, s, VotesIn(h), k, v);
      ParkedIs(g, s, late, k, v);
    }
  }

  lemma SamePoll(g: Config, s: Chain, missing: seq<Hash>)
    requires g.epochBlocks > 0
    ensures var s' := Poll(g, s, missing);
            if s.queue != [] && s.queue[0].Included?
            then s'.counted == AfterVotes(g, s).counted && s'.waiting == AfterVotes(g, s).waiting
            else s'.counted == s.counted && s'.waiting == s.waiting
  {
    hide IngestVotes, IngestWaiting, FinalizeAll;
    FinalizeKeepsVotes(g, AfterVotes(g, s));
  }

  lemma Released(waiting: map<Hash, seq<Vote>>, h: Hash, k: Hash)
    ensures Waiting(waiting - {h}, k) == if k == h then [] else Waiting(waiting, k)
  {
  }

  lemma {:induction false} FinalizeKeepsVotes(g: Config, s: Chain)
    requires g.epochBlocks > 0
    ensures FinalizeAll(g, s).counted == s.counted && FinalizeAll(g, s).waiting == s.waiting
    decreases |s.nodes|
  {
    var i := FindFinalizable(g, s.nodes, s.roots);
    if i < |s.roots| && s.roots[i] in s.nodes {
      PromoteShrinks(s.nodes, s.roots[i]);
      FinalizeKeepsVotes(g, FinalizeRoot(g, s, i));
    }
  }

  // ----- votes over whole runs

  lemma OfferKeepsVotes(g: Config, s: Chain, b: Block)
    requires g.epochBlocks > 0
    ensures Offer(g, s, b).0.counted == s.counted && Offer(g, s, b).0.waiting == s.waiting
    ensures Offer(g, s, b).0.history == s.history && Offer(g, s, b).0.finalized == s.finalized
    ensures Offer(g, s, b).0.popped == s.popped
  {
    hide Offer, TryInclude;
    OfferSplits(g, s, b);
    TrySplits(g, s, b);
  }

  lemma {:induction false} RunParks(g: Config, actions: seq<Action>)
    requires g.Valid()
    ensures ParkedOk(g, Run(g, actions))
  {
    hide Inv, Offer, Poll, BringsIn, Acceptable, Waiting;
    if actions == [] {
      NothingParked(g);
    } else {
      var n := |actions| - 1;
      var s := Run(g, actions[..n]);
      RunParks(g, actions[..n]);
      RunInv(g, actions[..n]);
      match actions[n]
      case OfferBlock(b) => OfferKeepsVotes(g, s, b);
      case PollEvent(missing) =>
        forall k, v | v in Waiting(Run(g, actions).waiting, k) ensures v.target == k && Genuine(g, v) {
          PollVotes(g, s, missing, v, k);
        }
    }
  }

  lemma NothingParked(g: Config)
    ensures ParkedOk(g, Start(g))
  {
  }

  /** The i-th action brings in the vote while it is acceptable. */
  ghost predicate CountsAt(g: Config, actions: seq<Action>, i: nat, v: Vote)
    requires g.epochBlocks > 0
  {
    && i < |actions| && actions[i].PollEvent?
    && BringsIn(Run(g, actions[..i]), v) && Acceptable(g, Run(g, actions[..i]), v)
  }

  /** In every run the counted votes are exactly those that some poll brought in while they were acceptable. */
  lemma {:induction false} RunCounts(g: Config, actions: seq<Action>, v: Vote)
    requires g.Valid()
    ensures v in Run(g, actions).counted <==> exists i: nat :: CountsAt(g, actions, i, v)
  {
    hide Inv, Offer, Poll, BringsIn, Acceptable;
    if actions == [] {
    } else {
      var n := |actions| - 1;
      var s := Run(g, actions[..n]);
      RunCounts(g, actions[..n], v);
      RunInv(g, actions[..n]);
      RunParks(g, actions[..n]);
      match actions[n] {
        case OfferBlock(b) => OfferKeepsVotes(g, s, b);
        case PollEvent(missing) => PollVotes(g, s, missing, v, v.target);
      }
      forall i: nat | i < n ensures CountsAt(g, actions, i, v) <==> CountsAt(g, actions[..n], i, v) {
        assert actions[..n][..i] == actions[..i];
      }
      assert CountsAt(g, actions, n, v) <==> actions[n].PollEvent? && BringsIn(s, v) && Acceptable(g, s, v);
    }
  }

  // ----- own votes

  /** The votes that bind the node are for blocks of their epoch above the finalized one. */
  ghost predicate OwnAbove(g: Config, s: Chain)
    requires g.epochBlocks > 0
  {
    forall e | e in s.ownVotes :: g.Epoch(s.ownVotes[e].1) == e && !Extends(s.finalized, s.ownVotes[e].1)
  }

  /** The node has cast no vote in the epoch of the target that still binds it, or the one that does has a
      justification that is still known, and the target descends from its target. */
  ghost predicate MayCast(g: Config, s: Chain, target: Hash)
    requires g.epochBlocks > 0
  {
    var last := LastBallot(g, Stream(s), g.Epoch(target));
    last.Some? ==> Justified(g, s, last.value.0) && Descends(target, last.value.1)
  }

  /** What descends into the forest from above the finalized block comes from the forest. */
  lemma {:induction false} BelowIsNode(nodes: Nodes, roots: seq<Hash>, finalized: Hash, h: Hash, t: Hash)
    requires Linked(nodes, roots, finalized) && h in nodes && Descends(h, t) && !Extends(finalized, t)
    ensures t in nodes
  {
    var p := h.block.parent;
    if p == t {
    } else if p in nodes {
      BelowIsNode(nodes, roots, finalized, p, t);
    }
  }

  lemma CastIsAllowed(g: Config, s: Chain, target: Hash)
    requires g.Valid() && Inv(g, s) && OwnAbove(g, s) && target in s.nodes
    ensures MayVote(g, s, target) <==> MayCast(g, s, target)
  {
    hide AllTallied, AllCounted, AllPlaced, FinalityOk, Stream, LastBallot, BallotsOk, Linked, IsDescendantOf;
    var e := g.Epoch(target);
    assert BallotOk(g, s.ownVotes, Stream(s), e);
    if e in s.ownVotes {
      var t := s.ownVotes[e].1;
      DescendantMeansDescends(s.nodes, s.roots, s.finalized, target, t);
      if Descends(target, t) { BelowIsNode(s.nodes, s.roots, s.finalized, target, t); }
    }
  }

  /** Exactly when a vote is cast; it is for the target, refers to the finalized block, and binds from then on. */
  lemma VoteCast(g: Config, s: Chain, target: Hash)
    requires g.Valid() && Inv(g, s) && OwnAbove(g, s)
    ensures var s' := CommitAndVote(g, s, target);
            if target in s.nodes && MayCast(g, s, target) then
              && s' == s.(ownVotes := s'.ownVotes, queue := s.queue + [Voted(target, s.finalized)])
              && (forall e :: LastBallot(g, Stream(s'), e)
                    == if e == g.Epoch(target) then Some((s.finalized, target)) else LastBallot(g, Stream(s), e))
            else s' == s
  {
    hide Inv, MayVote, MayCast, LastBallot;
    if target in s.nodes {
      CastIsAllowed(g, s, target);
      var s' := CommitAndVote(g, s, target);
      if MayCast(g, s, target) {
        assert Stream(s') == Stream(s) + [Voted(target, s.finalized)];
        forall e ensures LastBallot(g, Stream(s'), e)
                         == if e == g.Epoch(target) then Some((s.finalized, target)) else LastBallot(g, Stream(s), e)
        {
          LastBallotVoted(g, Stream(s), target, s.finalized, e);
        }
      }
    }
  }

  lemma IncludedBindsNothing(g: Config, evs: seq<Event>, h: Hash, epoch: nat)
    requires g.epochBlocks > 0
    ensures LastBallot(g, evs + [Included(h)], epoch) == LastBallot(g, evs, epoch)
  {
    var all := evs + [Included(h)];
    assert all[..|all| - 1] == evs;
  }

  lemma TryInserts(g: Config, s: Chain, b: Block)
    requires b.height > Height(s.finalized)
    ensures var (s1, attempt) := TryInclude(g, s, b);
            && s1 == s.(nodes := s1.nodes, roots := s1.roots, queue := s1.queue)
            && s1.queue == s.queue + (if Of(b) !in s.nodes && Of(b) in s1.nodes then [Included(Of(b))] else [])
            && (attempt.Consumed? ==> Of(b) in s1.nodes)
  {
    hide ViewAt;
  }

  /** What an attempt to include a block leaves for the vote. */
  lemma TryKeepsOwn(g: Config, s: Chain, b: Block)
    requires g.Valid() && Inv(g, s) && OwnAbove(g, s) && b.height > Height(s.finalized)
    ensures var s1 := TryInclude(g, s, b).0;
            && Inv(g, s1) && OwnAbove(g, s1)
            && Stream(s1) == Stream(s) + (if Of(b) !in s.nodes && Of(b) in s1.nodes then [Included(Of(b))] else [])
            && (MayCast(g, s1, Of(b)) <==> MayCast(g, s, Of(b)))
  {
    hide Inv, TryInclude, LastBallot, Descends;
    TryIncludeInv(g, s, b);
    TryInserts(g, s, b);
    var s1 := TryInclude(g, s, b).0;
    IncludedBindsNothing(g, Stream(s), Of(b), g.Epoch(Of(b)));
    assert Stream(s1) == Stream(s) + (if Of(b) !in s.nodes && Of(b) in s1.nodes then [Included(Of(b))] else []);
    assert Stream(s) + [] == Stream(s);
  }

  /** An offer reports the block if it is new in the forest, and then the node's vote for it exactly if the
      block is the head of the chain afterwards and the node may cast the vote; nothing else. */
  lemma OfferCasts(g: Config, s: Chain, b: Block)
    requires g.Valid() && Inv(g, s) && OwnAbove(g, s)
    ensures OwnAbove(g, Offer(g, s, b).0)
    ensures var (s', attempt) := Offer(g, s, b);
            var added := Of(b) !in s.nodes && Of(b) in s'.nodes;
            var casts := attempt.Consumed? && HeadHash(s') == Of(b) && MayCast(g, s, Of(b));
            Stream(s') == Stream(s) + (if added then [Included(Of(b))] else [])
                          + (if casts then [Voted(Of(b), s.finalized)] else [])
  {
    hide Inv, TryInclude, CommitAndVote, MayCast, BestHead, Linked;
    if b.height > Height(s.finalized) {
      TryKeepsOwn(g, s, b);
      TryInserts(g, s, b);
      var s1 := TryInclude(g, s, b).0;
      VoteCast(g, s1, Of(b));
      CastKeepsOwn(g, s1, Of(b));
    }
  }

  lemma CastKeepsOwn(g: Config, s: Chain, target: Hash)
    requires g.Valid() && Inv(g, s) && OwnAbove(g, s)
    ensures OwnAbove(g, CommitAndVote(g, s, target))
  {
    hide MayVote, AllTallied, AllCounted, AllPlaced, FinalityOk, OwnVotesOk;
    FinalizedNotANode(s.nodes, s.roots, s.finalized);
  }

  lemma RootKeepsOwn(g: Config, s: Chain, i: nat)
    requires g.Valid() && Inv(g, s) && OwnAbove(g, s) && i < |s.roots| && s.roots[i] in s.nodes
    ensures OwnAbove(g, FinalizeRoot(g, s, i))
  {
    hide AllTallied, AllCounted, AllPlaced, FinalityOk, OwnVotesOk, ChildrenOk, Sweep, DiscardEvents;
    var r, s' := s.roots[i], FinalizeRoot(g, s, i);
    forall e | e in s'.ownVotes ensures !Extends(r, s.ownVotes[e].1) {
      if Extends(r, s.ownVotes[e].1) && r != s.ownVotes[e].1 { ParentExtends(r, s.ownVotes[e].1); }
    }
  }

  lemma {:induction false} FinalizingKeepsOwn(g: Config, s: Chain)
    requires g.Valid() && Inv(g, s) && OwnAbove(g, s)
    ensures OwnAbove(g, FinalizeAll(g, s))
    decreases |s.nodes|
  {
    hide Inv, OwnAbove;
    var i := FindFinalizable(g, s.nodes, s.roots);
    if i < |s.roots| && s.roots[i] in s.nodes {
      FinalizeInv(g, s, i);
      PromoteShrinks(s.nodes, s.roots[i]);
      RootKeepsOwn(g, s, i);
      FinalizingKeepsOwn(g, FinalizeRoot(g, s, i));
    }
  }

  lemma OwnKept(g: Config, s: Chain, s': Chain)
    requires g.epochBlocks > 0 && OwnAbove(g, s)
    ensures s'.ownVotes == s.ownVotes && s'.finalized == s.finalized ==> OwnAbove(g, s')
  {
  }

  lemma PollKeepsOwn(g: Config, s: Chain, missing: seq<Hash>)
    requires g.Valid() && Inv(g, s) && OwnAbove(g, s)
    ensures OwnAbove(g, Poll(g, s, missing))
  {
    hide Inv, OwnAbove, IngestVotes, IngestWaiting, FinalizeAll;
    PollFinalizes(g, s, missing);
    OwnKept(g, s, AfterVotes(g, s));
    FinalizingKeepsOwn(g, AfterVotes(g, s));
    OwnKept(g, s, Poll(g, s, missing));
    OwnKept(g, FinalizeAll(g, AfterVotes(g, s)), Poll(g, s, missing));
  }

  lemma {:induction false} RunOwnAbove(g: Config, actions: seq<Action>)
    requires g.Valid()
    ensures OwnAbove(g, Run(g, actions))
  {
    hide Inv, OwnAbove, Offer, Poll;
    if actions == [] {
      NoOwnVotes(g);
    } else {
      var n := |actions| - 1;
      RunOwnAbove(g, actions[..n]);
      RunInv(g, actions[..n]);
      match actions[n]
      case OfferBlock(b) => OfferCasts(g, Run(g, actions[..n]), b);
      case PollEvent(missing) => PollKeepsOwn(g, Run(g, actions[..n]), missing);
    }
  }

  lemma NoOwnVotes(g: Config)
    requires g.epochBlocks > 0
    ensures OwnAbove(g, Start(g))
  {
  }

  /** In every run, what an offer reports. */
  lemma RunCasts(g: Config, actions: seq<Action>, b: Block)
    requires g.Valid()
    ensures var s, s' := Run(g, actions), Run(g, actions + [OfferBlock(b)]);
            var added := Of(b) !in s.nodes && Of(b) in s'.nodes;
            var casts := Offer(g, s, b).1.Consumed? && HeadHash(s') == Of(b) && MayCast(g, s, Of(b));
            Stream(s') == Stream(s) + (if added then [Included(Of(b))] else [])
                          + (if casts then [Voted(Of(b), s.finalized)] else [])
  {
    hide Inv, OwnAbove, Offer, HeadHash, MayCast, Stream;
    var all := actions + [OfferBlock(b)];
    assert all[..|all| - 1] == actions;
    RunInv(g, actions);
    RunOwnAbove(g, actions);
    OfferCasts(g, Run(g, actions), b);
  }

  // ----- the window of justifications

  predicate Recorded(s: Chain, e: nat, h: Hash) {
    e in s.history && h in s.history[e]
  }

  /** The i-th action delivers the finalization of h while the finalized block is in epoch e. */
  ghost predicate RecordsAt(g: Config, actions: seq<Action>, i: nat, e: nat, h: Hash)
    requires g.epochBlocks > 0
  {
    && i < |actions| && DeliversFinality(g, actions, i) && Run(g, actions[..i]).queue[0].hash == h
    && g.Epoch(Run(g, actions[..i]).finalized) == e
  }

  ghost predicate DeliversFinality(g: Config, actions: seq<Action>, i: nat)
    requires g.epochBlocks > 0 && i < |actions|
  {
    var s := Run(g, actions[..i]);
    actions[i].PollEvent? && s.queue != [] && s.queue[0].Finalized?
  }

  /** From the i-th action on, no finalization is delivered when epoch e has left the window. */
  ghost predicate StaysInWindow(g: Config, actions: seq<Action>, i: nat, e: nat)
    requires g.epochBlocks > 0
  {
    forall k | i <= k < |actions| && DeliversFinality(g, actions, k) ::
      e + g.maxJustificationAge >= g.Epoch(Run(g, actions[..k]).finalized)
  }

  ghost predicate StillRecorded(g: Config, actions: seq<Action>, i: nat, e: nat, h: Hash)
    requires g.epochBlocks > 0
  {
    RecordsAt(g, actions, i, e, h) && StaysInWindow(g, actions, i, e)
  }

  lemma WindowStep(g: Config, s: Chain, missing: seq<Hash>, e: nat, h: Hash)
    requires g.Valid() && Inv(g, s)
    ensures var s' := Poll(g, s, missing);
            if s.queue != [] && s.queue[0].Finalized? then
              Recorded(s', e, h) <==>
                && (Recorded(s, e, h) || (h == s.queue[0].hash && e == g.Epoch(s.finalized)))
                && e + g.maxJustificationAge >= g.Epoch(s.finalized)
            else s'.history == s.history
  {
    hide Inv, IngestVotes, IngestWaiting, FinalizeAll;
    if s.queue != [] && s.queue[0].Included? {
      AfterVotesOnly(g, s);
      FinalizeKeepsWindow(g, AfterVotes(g, s));
    }
  }

  lemma {:induction false} FinalizeKeepsWindow(g: Config, s: Chain)
    requires g.epochBlocks > 0
    ensures FinalizeAll(g, s).history == s.history
    decreases |s.nodes|
  {
    var i := FindFinalizable(g, s.nodes, s.roots);
    if i < |s.roots| && s.roots[i] in s.nodes {
      PromoteShrinks(s.nodes, s.roots[i]);
      FinalizeKeepsWindow(g, FinalizeRoot(g, s, i));
    }
  }

  lemma StepWindow(g: Config, actions: seq<Action>, e: nat, h: Hash)
    requires g.Valid() && actions != []
    ensures var n := |actions| - 1;
            var s, s' := Run(g, actions[..n]), Run(g, actions);
            if DeliversFinality(g, actions, n) then
              Recorded(s', e, h) <==>
                && (Recorded(s, e, h) || (h == s.queue[0].hash && e == g.Epoch(s.finalized)))
                && e + g.maxJustificationAge >= g.Epoch(s.finalized)
            else s'.history == s.history
  {
    hide Inv, Offer, Poll;
    var n := |actions| - 1;
    RunInv(g, actions[..n]);
    match actions[n]
    case OfferBlock(b) => OfferKeepsVotes(g, Run(g, actions[..n]), b);
    case PollEvent(missing) => WindowStep(g, Run(g, actions[..n]), missing, e, h);
  }

  lemma SamePrefixes(g: Config, actions: seq<Action>, i: nat, e: nat, h: Hash)
    requires g.epochBlocks > 0 && i < |actions| - 1
    ensures RecordsAt(g, actions[..|actions| - 1], i, e, h) <==> RecordsAt(g, actions, i, e, h)
    ensures var n := |actions| - 1;
            StaysInWindow(g, actions, i, e) <==>
              && StaysInWindow(g, actions[..n], i, e)
              && (DeliversFinality(g, actions, n) ==>
                    e + g.maxJustificationAge >= g.Epoch(Run(g, actions[..n]).finalized))
  {
    hide Run;
    var n := |actions| - 1;
    forall k | 0 <= k < n
      ensures actions[..n][..k] == actions[..k]
      ensures DeliversFinality(g, actions[..n], k) <==> DeliversFinality(g, actions, k)
    {
      assert actions[..n][..k] == actions[..k];
    }
  }

  /** In every run a justification is in the window, under some epoch, exactly when its finalization was
      delivered while the chain was in that epoch and the epoch was young enough at every such delivery since. */
  lemma {:induction false} RunWindow(g: Config, actions: seq<Action>, e: nat, h: Hash)
    requires g.Valid()
    ensures Recorded(Run(g, actions), e, h) <==> exists i: nat :: StillRecorded(g, actions, i, e, h)
  {
    hide RecordsAt, StaysInWindow, DeliversFinality, Run, StillRecorded;
    if actions == [] {
      NothingRecorded(g, e, h);
    } else {
      RunWindow(g, actions[..|actions| - 1], e, h);
      StepWindow(g, actions, e, h);
      LastRecorded(g, actions, e, h);
    }
  }

  /** Recorded by the last action, or before it and not cut by it. */
  lemma LastRecorded(g: Config, actions: seq<Action>, e: nat, h: Hash)
    requires g.epochBlocks > 0 && actions != []
    ensures var n := |actions| - 1;
            var s, cut := Run(g, actions[..n]), e + g.maxJustificationAge < g.Epoch(Run(g, actions[..n]).finalized);
            (exists i: nat :: StillRecorded(g, actions, i, e, h)) <==>
              || ((exists i: nat :: StillRecorded(g, actions[..n], i, e, h))
                  && !(DeliversFinality(g, actions, n) && cut))
              || (DeliversFinality(g, actions, n) && s.queue[0].hash == h && e == g.Epoch(s.finalized))
  {
    hide RecordsAt, StaysInWindow, DeliversFinality, Run;
    var n := |actions| - 1;
    forall i: nat | i < n
      ensures StillRecorded(g, actions, i, e, h) <==>
                && StillRecorded(g, actions[..n], i, e, h)
                && (DeliversFinality(g, actions, n) ==>
                      e + g.maxJustificationAge >= g.Epoch(Run(g, actions[..n]).finalized))
    {
      SamePrefixes(g, actions, i, e, h);
    }
    LastRecords(g, actions, e, h);
    OnlyActions(g, actions[..n], e, h);
    OnlyActions(g, actions, e, h);
    hide StillRecorded;
  }

  lemma NothingRecorded(g: Config, e: nat, h: Hash)
    requires g.epochBlocks > 0
    ensures !Recorded(Run(g, []), e, h) && forall i: nat :: !StillRecorded(g, [], i, e, h)
  {
  }

  lemma OnlyActions(g: Config, actions: seq<Action>, e: nat, h: Hash)
    requires g.epochBlocks > 0
    ensures forall i: nat | StillRecorded(g, actions, i, e, h) :: i < |actions|
  {
  }

  lemma LastRecords(g: Config, actions: seq<Action>, e: nat, h: Hash)
    requires g.epochBlocks > 0 && actions != []
    ensures var n := |actions| - 1;
            StillRecorded(g, actions, n, e, h) <==>
              && DeliversFinality(g, actions, n) && Run(g, actions[..n]).queue[0].hash == h
              && g.Epoch(Run(g, actions[..n]).finalized) == e
  {
    hide Run;
  }

  /** No epoch of the window is empty. */
  lemma {:induction false} RunWindowFilled(g: Config, actions: seq<Action>)
    requires g.Valid()
    ensures forall e | e in Run(g, actions).history :: Run(g, actions).history[e] != {}
  {
    hide Inv, Offer, IngestVotes, IngestWaiting, FinalizeAll;
    if actions == [] {
    } else {
      var n := |actions| - 1;
      var s := Run(g, actions[..n]);
      RunWindowFilled(g, actions[..n]);
      RunInv(g, actions[..n]);
      match actions[n]
      case OfferBlock(b) => OfferKeepsVotes(g, s, b);
      case PollEvent(missing) => WindowStep(g, s, missing, 0, Genesis);
    }
  }
}
