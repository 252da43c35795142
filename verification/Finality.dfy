/** The promises of the consensus engine, for every run: linear and accountable finality, block
    conservation, exact tallies, the finalization rule, fork choice and consistent own votes. */
module Finality {
  import opened Primitives
  import opened State
  import opened Blocks
  import opened Stakes
  import opened ForkTree
  import opened Consensus
  import opened Invariants

  // ----- finality is linear and final

  /** The finalized events of a run are the lineage of its finalized block: parents before children,
      heights one apart, from the first block after genesis, each preceded by its one confirmation. */
  lemma LinearFinality(g: Config, actions: seq<Action>)
    requires g.Valid()
    ensures var s := Run(g, actions);
            && FinalizedOrder(Stream(s)) == Lineage(s.finalized)
            && Grounded(s.finalized)
            && (forall r | r in s.roots ::
              r in s.nodes && r.Of? && r.block.parent == s.finalized && Height(r) == Height(s.finalized) + 1)
    ensures var s := Run(g, actions);
            g.quorum > 0 ==> forall i | 0 <= i < |Stream(s)| && Stream(s)[i].Finalized? ::
              Count(Stream(s)[..i], KConfirmed, Stream(s)[i].hash) == 1
                == Count(Stream(s), KConfirmed, Stream(s)[i].hash)
  {
    var s := Run(g, actions);
    var evs := Stream(s);
    RunInv(g, actions);
    forall r | r in s.roots ensures r in s.nodes && Height(r) == Height(s.finalized) + 1 {
      var i :| 0 <= i < |s.roots| && s.roots[i] == r;
      RootIsNode(s.nodes, s.roots, s.finalized, i);
    }
    if g.quorum > 0 {
      forall i | 0 <= i < |evs| && evs[i].Finalized?
        ensures Count(evs[..i], KConfirmed, evs[i].hash) == 1 == Count(evs, KConfirmed, evs[i].hash)
      {
        assert evs == evs[..i] + evs[i..];
        CountConcat(evs[..i], evs[i..], KConfirmed, evs[i].hash);
        assert PlaceOk(g, s.nodes, s.finalized, evs, evs[i].hash);
      }
    }
  }

  lemma {:induction false} FinalizeAllAdvances(g: Config, s: Chain)
    requires g.Valid() && Inv(g, s)
    ensures Extends(FinalizeAll(g, s).finalized, s.finalized)
    decreases |s.nodes|
  {
    var i := FindFinalizable(g, s.nodes, s.roots);
    if i < |s.roots| && s.roots[i] in s.nodes {
      FinalizeInv(g, s, i);
      PromoteShrinks(s.nodes, s.roots[i]);
      var s' := FinalizeRoot(g, s, i);
      FinalizeAllAdvances(g, s');
      RootIsNode(s.nodes, s.roots, s.finalized, i);
      ExtendsTransitive(FinalizeAll(g, s').finalized, s'.finalized, s.finalized);
    }
  }

  lemma {:induction false} VotesKeepFinalized(g: Config, s: Chain, vs: seq<Vote>)
    ensures IngestVotes(g, s, vs).finalized == s.finalized
    decreases |vs|
  {
    if vs == [] {
    } else {
      VotesKeepFinalized(g, IngestVote(g, s, vs[0]), vs[1..]);
    }
  }

  lemma PollAdvances(g: Config, s: Chain, missing: seq<Hash>)
    requires g.Valid() && Inv(g, s)
    ensures Extends(Poll(g, s, missing).finalized, s.finalized)
  {
    hide Inv, IngestVotes, FinalizeAll, Descends, Config.Valid;
    if s.queue != [] && s.queue[0].Included? {
      var h := s.queue[0].hash;
      var s' := s.(queue := s.queue[1..], popped := s.popped + [s.queue[0]]);
      SameInv(g, s, s');
      var vs := if h.Of? then h.block.votes else [];
      var s1 := IngestVotes(g, s', vs);
      IngestAllInv(g, s', vs);
      VotesKeepFinalized(g, s', vs);
      SameInv(g, s1, s1.(waiting := s1.waiting - {h}));
      IngestAllInv(g, s1.(waiting := s1.waiting - {h}), Waiting(s1.waiting, h));
      VotesKeepFinalized(g, s1.(waiting := s1.waiting - {h}), Waiting(s1.waiting, h));
      FinalizeAllAdvances(g, IngestWaiting(g, s1, h));
    }
  }

  lemma StepAdvances(g: Config, s: Chain, a: Action)
    requires g.Valid() && Inv(g, s)
    ensures Extends(Step(g, s, a).finalized, s.finalized)
  {
    if a.PollEvent? {
      hide Inv, Poll;
      PollAdvances(g, s, a.missing);
    } else {
      hide Inv, HeadHash, AddLeaf;
    }
  }

  /** Finality is never reverted: later finalized blocks extend earlier ones. */
  lemma {:induction false} FinalityAdvances(g: Config, actions: seq<Action>, more: seq<Action>)
    requires g.Valid()
    ensures Extends(Run(g, actions + more).finalized, Run(g, actions).finalized)
  {
    hide Inv, Step;
    if more == [] {
      assert actions + more == actions;
    } else {
      var init, a := more[..|more| - 1], more[|more| - 1];
      var all := actions + more;
      assert all[..|all| - 1] == actions + init && all[|all| - 1] == a;
      FinalityAdvances(g, actions, init);
      RunInv(g, actions + init);
      var s := Run(g, actions + init);
      StepAdvances(g, s, a);
      ExtendsTransitive(Run(g, all).finalized, s.finalized, Run(g, actions).finalized);
    }
  }

  // ----- conservation of blocks

  /** Every block ever included is in exactly one place: the forest, the finalized chain, or the
      discarded set, and each of these is reported at most once. */
  lemma BlockConservation(g: Config, actions: seq<Action>, h: Hash)
    requires g.Valid()
    ensures var s := Run(g, actions);
            && Count(Stream(s), KIncluded, h) <= 1
            && Count(Stream(s), KIncluded, h)
               == (if h in s.nodes then 1 else 0) + Count(Stream(s), KFinalized, h) + Count(Stream(s), KDiscarded, h)
            && (Count(Stream(s), KFinalized, h) == 1 <==> h in Lineage(s.finalized))
  {
    RunInv(g, actions);
    var s := Run(g, actions);
    assert PlaceOk(g, s.nodes, s.finalized, Stream(s), h);
    InLineage(s.finalized, h);
  }

  /** A block that left the forest never comes back, whatever is offered afterwards. */
  lemma NeverReturns(g: Config, actions: seq<Action>, more: seq<Action>, h: Hash)
    requires g.Valid()
    requires Count(Stream(Run(g, actions)), KFinalized, h) > 0 || Count(Stream(Run(g, actions)), KDiscarded, h) > 0
    ensures h !in Run(g, actions + more).nodes
  {
    RunInv(g, actions);
    RunInv(g, actions + more);
    FinalityAdvances(g, actions, more);
    var s, s' := Run(g, actions), Run(g, actions + more);
    assert PlaceOk(g, s.nodes, s.finalized, Stream(s), h);
    if h in s'.nodes {
      ExtendsTransitive(h, s'.finalized, s.finalized);
      DescendsDeeper(h, s'.finalized);
      if Extends(s.finalized, h) {
        ExtendsTransitive(s'.finalized, s.finalized, h);
        if s'.finalized != h { DescendsDeeper(s'.finalized, h); }
      }
    }
  }

  // ----- exact tallies

  /** A node's voters are the validators with a counted vote on it or on a descendant, its votes are
      their stake, at most the total, and every counted vote is signed by a staking validator. */
  lemma ExactTally(g: Config, actions: seq<Action>, h: Hash)
    requires g.Valid() && h in Run(g, actions).nodes
    ensures var s := Run(g, actions);
            && s.nodes[h].voters == Supporters(s.counted, h) <= g.Validators()
            && s.nodes[h].votes == Weight(g.stakes, Supporters(s.counted, h)) <= g.TotalStake()
            && (forall v | v in s.counted :: g.voteSigned(v) && g.MayTakePart(v.validator))
  {
    RunInv(g, actions);
    var s := Run(g, actions);
    assert TallyOk(g, s.nodes, s.counted, h);
    assert forall v | v in s.counted :: CountedOk(g, Stream(s), v);
    WeightMonotone(g.stakes, Supporters(s.counted, h), g.Validators());
  }

  /** Tallies only depend on which votes were counted, not on their order, repetition or the node. */
  lemma TallyOrderIndependent(g: Config, a: seq<Action>, b: seq<Action>, h: Hash)
    requires g.Valid() && h in Run(g, a).nodes && h in Run(g, b).nodes
    requires Run(g, a).counted == Run(g, b).counted
    ensures Run(g, a).nodes[h].voters == Run(g, b).nodes[h].voters
    ensures Run(g, a).nodes[h].votes == Run(g, b).nodes[h].votes
  {
    ExactTally(g, a, h);
    ExactTally(g, b, h);
  }

  /** Voters shrink and votes fall going down any path. */
  lemma TallyFalls(g: Config, s: Chain, x: Hash, a: Hash)
    requires g.epochBlocks > 0 && AllTallied(g, s.nodes, s.counted)
    requires x in s.nodes && a in s.nodes && Extends(x, a)
    ensures s.nodes[x].voters <= s.nodes[a].voters
    ensures s.nodes[x].votes <= s.nodes[a].votes
  {
    assert TallyOk(g, s.nodes, s.counted, x) && TallyOk(g, s.nodes, s.counted, a);
    forall v | v in s.counted && Extends(v.target, x) ensures Extends(v.target, a) {
      ExtendsTransitive(v.target, x, a);
    }
    WeightMonotone(g.stakes, s.nodes[x].voters, s.nodes[a].voters);
  }

  // ----- accountable safety

  /** The validators with votes counted for x by one node and for y by another. */
  ghost function Culprits(s: Chain, x: Hash, t: Chain, y: Hash): set<Pubkey> {
    Supporters(s.counted, x) * Supporters(t.counted, y)
  }

  /** Two signed votes of one validator, one counted by each node, on branches that exclude each other. */
  ghost predicate Conflict(g: Config, a: Vote, s: Chain, x: Hash, b: Vote, t: Chain, y: Hash) {
    && a in s.counted && b in t.counted && a.validator == b.validator
    && g.voteSigned(a) && g.voteSigned(b)
    && Extends(a.target, x) && Extends(b.target, y)
    && !Extends(a.target, b.target) && !Extends(b.target, a.target)
  }

  lemma BranchesExclude(x: Hash, y: Hash, a: Hash, b: Hash)
    requires Grounded(x) && Grounded(y) && x != y && Height(x) == Height(y)
    requires Extends(a, x) && Extends(b, y)
    ensures !Extends(a, b)
  {
    if Extends(a, b) {
      ExtendsTransitive(a, b, y);
      AncestorsComparable(a, x, y);
      if Descends(x, y) { GroundedAncestor(x, y); } else { GroundedAncestor(y, x); }
    }
  }

  /** Whatever two nodes with the same genesis are fed, if they finalize different blocks at one
      height then validators with more than a third of the stake signed conflicting votes. */
  lemma AccountableSafety(g: Config, a: seq<Action>, b: seq<Action>, x: Hash, y: Hash)
    requires g.Valid() && g.TotalStake() > 0
    requires x in Lineage(Run(g, a).finalized) && y in Lineage(Run(g, b).finalized)
    requires Height(x) == Height(y) && x != y
    ensures var s, t := Run(g, a), Run(g, b);
            && 3 * Weight(g.stakes, Culprits(s, x, t, y)) > g.TotalStake()
            && (forall c | c in Culprits(s, x, t, y) :: exists v: Vote, w: Vote ::
              v.validator == c && Conflict(g, v, s, x, w, t, y))
  {
    var s, t := Run(g, a), Run(g, b);
    RunInv(g, a);
    RunInv(g, b);
    InLineage(s.finalized, x);
    InLineage(t.finalized, y);
    if s.finalized != x { GroundedAncestor(s.finalized, x); }
    if t.finalized != y { GroundedAncestor(t.finalized, y); }
    assert Backed(g, s.counted, x) && Backed(g, t.counted, y);
    SupportersStake(g, s, x);
    SupportersStake(g, t, y);
    QuorumsOverlap(g.stakes, g.Validators(), Supporters(s.counted, x), Supporters(t.counted, y), g.quorum);
    forall c | c in Culprits(s, x, t, y)
      ensures exists v: Vote, w: Vote :: v.validator == c && Conflict(g, v, s, x, w, t, y)
    {
      var v :| v in s.counted && Extends(v.target, x) && v.validator == c;
      var w :| w in t.counted && Extends(w.target, y) && w.validator == c;
      assert CountedOk(g, Stream(s), v) && CountedOk(g, Stream(t), w);
      BranchesExclude(x, y, v.target, w.target);
      BranchesExclude(y, x, w.target, v.target);
      assert Conflict(g, v, s, x, w, t, y);
    }
  }

  lemma SupportersStake(g: Config, s: Chain, h: Hash)
    requires g.epochBlocks > 0 && Inv(g, s)
    ensures Supporters(s.counted, h) <= g.Validators()
  {
    assert forall v | v in s.counted :: CountedOk(g, Stream(s), v);
  }

  // ----- state

  /** The persisted store is the genesis state under the one merged diff of all finalized blocks. */
  lemma PersistedState(g: Config, actions: seq<Action>)
    requires g.Valid()
    ensures var s := Run(g, actions);
            s.store == MergeAll(FinalizedDiffs(Stream(s))).ApplyTo(g.accounts)
  {
    RunInv(g, actions);
    ApplyAllIsOneMerge(g.accounts, FinalizedDiffs(Stream(Run(g, actions))));
  }

  lemma {:induction false} PathAfterPromotion(nodes: Nodes, roots: seq<Hash>, finalized: Hash, r: Hash, h: Hash)
    requires Linked(nodes, roots, finalized) && r in roots && h in nodes && Extends(h, r)
    ensures PathDiffs(nodes, h) == [nodes[r].diff] + PathDiffs(Promote(nodes, r), h)
  {
    FinalizedNotANode(nodes, roots, finalized);
    if Descends(r, r) { DescendsDeeper(r, r); }
    if h == r {
      assert PathDiffs(nodes, finalized) == [];
    } else {
      assert !Extends(finalized, r);
      PathAfterPromotion(nodes, roots, finalized, r, h.block.parent);
    }
  }

  /** Finalizing a root changes what a surviving block's children read exactly at the addresses the
      root deleted and no younger block on the path wrote. */
  lemma SurvivingView(g: Config, s: Chain, i: nat, h: Hash, address: Pubkey)
    requires g.Valid() && Inv(g, s) && i < |s.roots| && s.roots[i] in s.nodes
    requires h in s.nodes && Extends(h, s.roots[i])
    ensures var s' := FinalizeRoot(g, s, i);
            var root, above := s.nodes[s.roots[i]].diff, PathDiffs(s'.nodes, h);
            Get(ViewAt(s.nodes, s.store, h), address) != Get(ViewAt(s'.nodes, s'.store, h), address)
            <==> address in root.deletes && (address in s.store || address in root.data)
                 && (forall k | 0 <= k < |above| :: address !in above[k].data)
  {
    var s' := FinalizeRoot(g, s, i);
    var root, above := s.nodes[s.roots[i]].diff, PathDiffs(s'.nodes, h);
    PathAfterPromotion(s.nodes, s.roots, s.finalized, s.roots[i], h);
    ViewIsOverAll(s.nodes, s.store, h);
    ViewIsOverAll(s'.nodes, s'.store, h);
    AllConcat(s.store, [root], above);
    assert OverAll(s.store, [root]) == root.Over(s.store);
    FinalizingUnderView(s.store, root, above, address);
  }

  /** What is read at h is what would be persisted if the path of h were finalized, except at the
      addresses whose last change on the path is a delete. */
  lemma ReadsMatchFinality(nodes: Nodes, store: Accounts, h: Hash, address: Pubkey)
    requires address !in MergeAll(PathDiffs(nodes, h)).deletes
    ensures Get(ViewAt(nodes, store, h), address) == Get(ApplyAll(store, PathDiffs(nodes, h)), address)
  {
    ViewIsOverAll(nodes, store, h);
    ViewVersusApplied(store, PathDiffs(nodes, h), address);
  }
}
