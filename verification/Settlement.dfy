/** Coins in every run of the consensus engine: whatever is finalized when, all readers and the store
    agree on them, and they are conserved when the blocks are safe where they are included. */
module Settlement {
  import opened Primitives
  import opened State
  import opened Blocks
  import opened ForkTree
  import opened Consensus
  import opened Invariants
  import opened Finality
  import opened Polling
  import opened Unit
  import opened BlockMachine
  import opened Conservation
  import opened Ledger
  import opened Circulation

  /** Blocks carry transactions, and the engine executes them. */
  ghost predicate RunsOn(g: Config, vm: Machine, txs: Block -> seq<Transaction>, fuel: nat) {
    forall view, b | g.execute(view, b).Some? :: g.execute(view, b).value == ExecuteTxs(vm, view, txs(b), fuel).0
  }

  predicate Reachable(s: Chain, h: Hash) {
    h in s.nodes || h == s.finalized
  }

  /** What the store would hold if the path of h were finalized. */
  function SettledAt(s: Chain, h: Hash): Accounts {
    ApplyAll(s.store, PathDiffs(s.nodes, h))
  }

  /** The block was executed on a state with the coins that the store would hold, and what it deletes
      holds none. */
  ghost predicate Clean(cur: Pubkey, s: Chain, h: Hash)
    requires h in s.nodes && h.Of?
  {
    exists view ::
      && Vacant(cur, s.nodes[h].diff.Over(view), s.nodes[h].diff.deletes)
      && Neutral(cur, view, SettledAt(s, h.block.parent))
  }

  /** All blocks are clean and, when `strict`, coins are conserved wherever a path may be finalized. */
  ghost predicate Settled(cur: Pubkey, s: Chain, strict: bool) {
    && (forall h | h in s.nodes :: h.Of? && Clean(cur, s, h))
    && (strict ==> forall h | Reachable(s, h) :: Conserved(cur, SettledAt(s, h)))
  }

  lemma PathGrows(s: Chain, h: Hash)
    requires h in s.nodes && h.Of?
    ensures SettledAt(s, h) == s.nodes[h].diff.ApplyTo(SettledAt(s, h.block.parent))
    ensures ViewAt(s.nodes, s.store, h) == s.nodes[h].diff.Over(ViewAt(s.nodes, s.store, h.block.parent))
  {
    var all := PathDiffs(s.nodes, h);
    assert all[..|all| - 1] == PathDiffs(s.nodes, h.block.parent);
  }

  lemma FinalizedIsSettled(s: Chain)
    requires s.finalized !in s.nodes
    ensures SettledAt(s, s.finalized) == s.store == ViewAt(s.nodes, s.store, s.finalized)
  {
  }

  /** Readers above any block see the coins that finalizing its path would leave in the store. */
  lemma {:induction false} ReadersSettled(cur: Pubkey, s: Chain, h: Hash, strict: bool)
    requires Linked(s.nodes, s.roots, s.finalized) && Settled(cur, s, strict) && Reachable(s, h)
    ensures Neutral(cur, ViewAt(s.nodes, s.store, h), SettledAt(s, h))
    decreases h
  {
    FinalizedNotANode(s.nodes, s.roots, s.finalized);
    hide Vacant, Neutral, Conserved, ViewAt, SettledAt;
    if h in s.nodes {
      var p := h.block.parent;
      ReadersSettled(cur, s, p, strict);
      assert Clean(cur, s, h);
      var view :| Vacant(cur, s.nodes[h].diff.Over(view), s.nodes[h].diff.deletes)
        && Neutral(cur, view, SettledAt(s, p));
      DustIsNeutral(cur, view, ViewAt(s.nodes, s.store, p), SettledAt(s, p), s.nodes[h].diff);
      PathGrows(s, h);
    } else {
      FinalizedIsSettled(s);
      NeutralToItself(cur, s.store);
    }
  }

  // ----- steps that leave the diffs alone

  lemma {:induction false} SamePath(s: Chain, s': Chain, h: Hash)
    requires SameDiffs(s, s')
    ensures PathDiffs(s'.nodes, h) == PathDiffs(s.nodes, h)
    decreases h
  {
    if h in s.nodes && h.Of? { SamePath(s, s', h.block.parent); }
  }

  lemma SettledSame(cur: Pubkey, s: Chain, s': Chain, strict: bool)
    requires Settled(cur, s, strict) && SameDiffs(s, s')
    ensures Settled(cur, s', strict)
  {
    hide Vacant, Neutral, Conserved, ApplyAll, PathDiffs;
    forall h ensures SettledAt(s', h) == SettledAt(s, h) { SamePath(s, s', h); }
    forall h | h in s'.nodes ensures h.Of? && Clean(cur, s', h) { assert Clean(cur, s, h); }
    assert forall h :: Reachable(s', h) <==> Reachable(s, h);
  }

  // ----- finalizing

  lemma SettledThroughPromotion(g: Config, s: Chain, i: nat, h: Hash)
    requires g.epochBlocks > 0 && Linked(s.nodes, s.roots, s.finalized) && i < |s.roots| && s.roots[i] in s.nodes
    requires Reachable(FinalizeRoot(g, s, i), h)
    ensures SettledAt(FinalizeRoot(g, s, i), h) == SettledAt(s, h)
  {
    var r, s' := s.roots[i], FinalizeRoot(g, s, i);
    var root := s.nodes[r].diff;
    PathAfterPromotion(s.nodes, s.roots, s.finalized, r, h);
    AllConcat(s.store, [root], PathDiffs(s'.nodes, h));
    assert [root][..0] == [] && ApplyAll(s.store, [root]) == root.ApplyTo(s.store);
  }

  lemma SettledFinalize(g: Config, cur: Pubkey, s: Chain, i: nat, strict: bool)
    requires g.Valid() && Inv(g, s) && Settled(cur, s, strict)
    requires i < |s.roots| && s.roots[i] in s.nodes && VotesOf(s.nodes, s.roots[i]) >= g.quorum
    ensures Settled(cur, FinalizeRoot(g, s, i), strict)
  {
    hide AllTallied, AllCounted, AllPlaced, FinalityOk, OwnVotesOk, Vacant, Neutral, Conserved, SettledAt;
    hide RootsOk, ChildrenOk, Grounded, Descends;
    var s' := FinalizeRoot(g, s, i);
    LinkedPromote(s.nodes, s.roots, s.finalized, s.roots[i]);
    forall h | Reachable(s', h) ensures SettledAt(s', h) == SettledAt(s, h) && Reachable(s, h) {
      SettledThroughPromotion(g, s, i, h);
    }
    forall h | h in s'.nodes ensures h.Of? && Clean(cur, s', h) {
      assert Clean(cur, s, h) && s'.nodes[h] == s.nodes[h];
      assert Reachable(s', h.block.parent);
    }
  }

  lemma {:induction false} SettledFinalizeAll(g: Config, cur: Pubkey, s: Chain, strict: bool)
    requires g.Valid() && Inv(g, s) && Settled(cur, s, strict)
    ensures Settled(cur, FinalizeAll(g, s), strict)
    decreases |s.nodes|
  {
    hide Settled, Inv;
    var i := FindFinalizable(g, s.nodes, s.roots);
    if i < |s.roots| && s.roots[i] in s.nodes {
      FinalizeInv(g, s, i);
      PromoteShrinks(s.nodes, s.roots[i]);
      SettledFinalize(g, cur, s, i, strict);
      SettledFinalizeAll(g, cur, FinalizeRoot(g, s, i), strict);
    }
  }

  lemma SettledPoll(g: Config, cur: Pubkey, s: Chain, missing: seq<Hash>, strict: bool)
    requires g.Valid() && Inv(g, s) && Settled(cur, s, strict)
    ensures Settled(cur, Poll(g, s, missing), strict)
  {
    hide Inv, Poll, FinalizeAll, Settled;
    var s3 := AfterVotes(g, s);
    PollFinalizes(g, s, missing);
    TalliesOnly(s, s3);
    SettledSame(cur, s, s3, strict);
    SettledFinalizeAll(g, cur, s3, strict);
    if SameForest(s3, Poll(g, s, missing)) {
      SettledSame(cur, s3, Poll(g, s, missing), strict);
    } else {
      SettledSame(cur, FinalizeAll(g, s3), Poll(g, s, missing), strict);
    }
  }

  // ----- including a block

  /** An offer of the block adds it to the forest. */
  predicate Enters(g: Config, s: Chain, b: Block)
    requires g.epochBlocks > 0
  {
    Offer(g, s, b).0.nodes != s.nodes
  }

  lemma {:induction false} OldPathsStay(s: Chain, h: Hash, diff: StateDiff, x: Hash)
    requires forall y | y in s.nodes :: y.Of? && Reachable(s, y.block.parent)
    requires h.Of? && h !in s.nodes && h != s.finalized && s.finalized !in s.nodes && Reachable(s, x)
    ensures PathDiffs(AddLeaf(s.nodes, h, diff), x) == PathDiffs(s.nodes, x)
    decreases x
  {
    if x !in s.nodes {
    } else {
      OldPathsStay(s, h, diff, x.block.parent);
    }
  }

  /** A block that is executed on what its readers see keeps everything settled. */
  lemma SettledInsert(g: Config, vm: Machine, cur: Pubkey, txs: Block -> seq<Transaction>, s: Chain, b: Block,
        diff: StateDiff, fuel: nat, strict: bool)
    requires Hosts(vm, cur) && Linked(s.nodes, s.roots, s.finalized) && Settled(cur, s, strict)
    requires Fits(s.nodes, s.finalized, Of(b)) && Of(b) != s.finalized
    requires diff == ExecuteTxs(vm, ViewAt(s.nodes, s.store, b.parent), txs(b), fuel).0
    requires strict ==> SafeTxs(vm, cur, ViewAt(s.nodes, s.store, b.parent), txs(b), fuel)
    ensures Settled(cur, InsertBlock(s, Of(b), diff), strict)
  {
    hide Vacant, Neutral, Conserved, SafeTxs, ExecuteTxs, ViewAt, SettledAt, RootsOk, ChildrenOk, Grounded, Descends;
    FinalizedNotANode(s.nodes, s.roots, s.finalized);
    var h, view, s' := Of(b), ViewAt(s.nodes, s.store, b.parent), InsertBlock(s, Of(b), diff);
    assert Reachable(s, b.parent);
    forall x | Reachable(s, x) ensures SettledAt(s', x) == SettledAt(s, x) { OldSettled(s, h, diff, x); }
    ReadersSettled(cur, s, b.parent, strict);
    BlockVacant(vm, cur, view, txs(b), fuel);
    assert s'.nodes[h].diff == diff && Clean(cur, s', h);
    forall x | x in s'.nodes ensures x.Of? && Clean(cur, s', x) {
      if x != h { assert Clean(cur, s, x) && s'.nodes[x].diff == s.nodes[x].diff && Reachable(s, x.block.parent); }
    }
    if strict { InsertConserves(vm, cur, txs, s, b, diff, fuel); }
  }

  lemma OldSettled(s: Chain, h: Hash, diff: StateDiff, x: Hash)
    requires forall y | y in s.nodes :: y.Of? && Reachable(s, y.block.parent)
    requires h.Of? && h !in s.nodes && h != s.finalized && s.finalized !in s.nodes && Reachable(s, x)
    ensures SettledAt(InsertBlock(s, h, diff), x) == SettledAt(s, x)
  {
    OldPathsStay(s, h, diff, x);
  }

  lemma InsertConserves(vm: Machine, cur: Pubkey, txs: Block -> seq<Transaction>, s: Chain, b: Block, diff: StateDiff,
        fuel: nat)
    requires Hosts(vm, cur) && Linked(s.nodes, s.roots, s.finalized) && Settled(cur, s, true)
    requires Fits(s.nodes, s.finalized, Of(b)) && Of(b) != s.finalized
    requires diff == ExecuteTxs(vm, ViewAt(s.nodes, s.store, b.parent), txs(b), fuel).0
    requires SafeTxs(vm, cur, ViewAt(s.nodes, s.store, b.parent), txs(b), fuel)
    ensures Conserved(cur, SettledAt(InsertBlock(s, Of(b), diff), Of(b)))
  {
    hide Vacant, Neutral, Conserved, SafeTxs, ExecuteTxs, ViewAt, SettledAt, RootsOk, ChildrenOk, Grounded, Descends,
      Clean;
    FinalizedNotANode(s.nodes, s.roots, s.finalized);
    var h, view, s' := Of(b), ViewAt(s.nodes, s.store, b.parent), InsertBlock(s, Of(b), diff);
    assert Reachable(s, b.parent);
    ReadersSettled(cur, s, b.parent, true);
    NeutralConserves(cur, view, SettledAt(s, b.parent));
    SafeTxsConserve(vm, cur, view, txs(b), fuel);
    BlockView(vm, view, txs(b), fuel);
    BlockVacant(vm, cur, view, txs(b), fuel);
    DustIsNeutral(cur, view, view, SettledAt(s, b.parent), diff);
    NeutralConserves(cur, diff.Over(view), diff.ApplyTo(SettledAt(s, b.parent)));
    PathGrows(s', h);
    OldSettled(s, h, diff, b.parent);
  }

  lemma SettledOffer(g: Config, vm: Machine, cur: Pubkey, txs: Block -> seq<Transaction>, s: Chain, b: Block,
        fuel: nat, strict: bool)
    requires g.Valid() && RunsOn(g, vm, txs, fuel) && Hosts(vm, cur) && Inv(g, s) && Settled(cur, s, strict)
    requires strict && Enters(g, s, b) ==> SafeTxs(vm, cur, ViewAt(s.nodes, s.store, b.parent), txs(b), fuel)
    ensures Settled(cur, Offer(g, s, b).0, strict)
  {
    hide TryInclude, HeadHash, MayVote, Settled, SafeTxs, ExecuteTxs, ViewAt, AllTallied, AllCounted, AllPlaced,
      FinalityOk, OwnVotesOk;
    var s' := Offer(g, s, b).0;
    if s'.nodes != s.nodes {
      OfferIsInsert(g, s, b);
      var diff := g.execute(ViewAt(s.nodes, s.store, b.parent), b).value;
      SettledInsert(g, vm, cur, txs, s, b, diff, fuel, strict);
      SettledSame(cur, InsertBlock(s, Of(b), diff), s', strict);
    } else {
      OfferKeepsStore(g, s, b);
      SettledSame(cur, s, s', strict);
    }
  }

  lemma OfferTries(g: Config, s: Chain, b: Block)
    requires g.epochBlocks > 0
    ensures SameForest(s, Offer(g, s, b).0) || SameForest(TryInclude(g, s, b).0, Offer(g, s, b).0)
  {
    hide TryInclude, HeadHash, MayVote;
  }

  lemma OfferKeepsStore(g: Config, s: Chain, b: Block)
    requires g.epochBlocks > 0
    ensures Offer(g, s, b).0.store == s.store && Offer(g, s, b).0.finalized == s.finalized
  {
    hide Offer, ViewAt, AddLeaf;
    OfferTries(g, s, b);
  }

  lemma OfferIsInsert(g: Config, s: Chain, b: Block)
    requires g.epochBlocks > 0 && Offer(g, s, b).0.nodes != s.nodes
    ensures Of(b) != s.finalized && Fits(s.nodes, s.finalized, Of(b))
    ensures g.execute(ViewAt(s.nodes, s.store, b.parent), b).Some?
    ensures SameDiffs(InsertBlock(s, Of(b), g.execute(ViewAt(s.nodes, s.store, b.parent), b).value), Offer(g, s, b).0)
  {
    hide HeadHash, MayVote, ViewAt, AddLeaf;
  }

  // ----- runs

  /** Every block that an offer includes carries only transactions that are safe where it is included. */
  ghost predicate SafeRun(g: Config, vm: Machine, cur: Pubkey, txs: Block -> seq<Transaction>, actions: seq<Action>,
        fuel: nat)
    requires g.epochBlocks > 0
  {
    forall i | 0 <= i < |actions| && actions[i].OfferBlock? ::
      var s := Run(g, actions[..i]);
      Enters(g, s, actions[i].block) ==>
        SafeTxs(vm, cur, ViewAt(s.nodes, s.store, actions[i].block.parent), txs(actions[i].block), fuel)
  }

  lemma {:induction false} SettledRun(g: Config, vm: Machine, cur: Pubkey, txs: Block -> seq<Transaction>,
        actions: seq<Action>, fuel: nat, strict: bool)
    requires g.Valid() && RunsOn(g, vm, txs, fuel) && Hosts(vm, cur)
    requires strict ==> Conserved(cur, g.accounts) && SafeRun(g, vm, cur, txs, actions, fuel)
    ensures Settled(cur, Run(g, actions), strict)
  {
    hide Inv, Offer, Poll, Enters, Settled, SafeTxs, Conserved, RunsOn, Hosts;
    if actions == [] {
      SettledStart(g, cur, strict);
    } else {
      var n := |actions| - 1;
      if strict {
        forall i | 0 <= i < n && actions[..n][i].OfferBlock?
          ensures var s := Run(g, actions[..n][..i]);
                  Enters(g, s, actions[..n][i].block) ==>
                    SafeTxs(vm, cur, ViewAt(s.nodes, s.store, actions[..n][i].block.parent),
                      txs(actions[..n][i].block), fuel)
        {
          assert actions[..n][..i] == actions[..i];
        }
      }
      SettledRun(g, vm, cur, txs, actions[..n], fuel, strict);
      RunInv(g, actions[..n]);
      match actions[n]
      case OfferBlock(b) => SettledOffer(g, vm, cur, txs, Run(g, actions[..n]), b, fuel, strict);
      case PollEvent(missing) => SettledPoll(g, cur, Run(g, actions[..n]), missing, strict);
    }
  }

  lemma SettledStart(g: Config, cur: Pubkey, strict: bool)
    requires strict ==> Conserved(cur, g.accounts)
    ensures Settled(cur, Start(g), strict)
  {
    hide Conserved;
    assert PathDiffs(map[], Genesis) == [];
  }

  /** In every run, what is read above any block has the coins that the store would have if the block's
      path were finalized, whatever was finalized before, between and after the block's execution. */
  lemma RunReadersAgree(g: Config, vm: Machine, cur: Pubkey, txs: Block -> seq<Transaction>, actions: seq<Action>,
        h: Hash, fuel: nat)
    requires g.Valid() && RunsOn(g, vm, txs, fuel) && Hosts(vm, cur) && Reachable(Run(g, actions), h)
    ensures var s := Run(g, actions);
            Neutral(cur, ViewAt(s.nodes, s.store, h), ApplyAll(s.store, PathDiffs(s.nodes, h)))
  {
    hide Settled, Neutral, AllTallied, AllCounted, AllPlaced, FinalityOk, OwnVotesOk;
    RunInv(g, actions);
    SettledRun(g, vm, cur, txs, actions, fuel, false);
    ReadersSettled(cur, Run(g, actions), h, false);
  }

  /** In every run that includes only safe blocks, the store and every reader have conserved coins. */
  lemma RunCoinsConserved(g: Config, vm: Machine, cur: Pubkey, txs: Block -> seq<Transaction>, actions: seq<Action>,
        h: Hash, fuel: nat)
    requires g.Valid() && RunsOn(g, vm, txs, fuel) && Hosts(vm, cur) && Reachable(Run(g, actions), h)
    requires Conserved(cur, g.accounts) && SafeRun(g, vm, cur, txs, actions, fuel)
    ensures var s := Run(g, actions);
            Conserved(cur, s.store) && Conserved(cur, ViewAt(s.nodes, s.store, h))
  {
    hide Neutral, Conserved, SafeRun, AllTallied, AllCounted, AllPlaced, FinalityOk, OwnVotesOk, RunsOn, Hosts;
    var s := Run(g, actions);
    RunInv(g, actions);
    SettledRun(g, vm, cur, txs, actions, fuel, true);
    ReadersSettled(cur, s, h, true);
    NeutralConserves(cur, ViewAt(s.nodes, s.store, h), SettledAt(s, h));
    FinalizedNotANode(s.nodes, s.roots, s.finalized);
    FinalizedIsSettled(s);
    assert Reachable(s, s.finalized);
  }
}
