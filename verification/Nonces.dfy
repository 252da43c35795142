/** Nonces in every run of the consensus engine: they count the transactions of the chain exactly when no
    block is finalized that deletes an account with a nonce, and then nothing is replayed. */
module Nonces {
  import opened Primitives
  import opened State
  import opened Blocks
  import opened ForkTree
  import opened Consensus
  import opened Invariants
  import opened Finality
  import opened Polling
  import opened Unit
  import opened BlockMachine
  import opened Settlement
  import opened NestedCalls

  // ----- finalizing moves a path into the store

  /** What s' finalized since s is a path of s, and what hangs on it is as before. */
  ghost predicate Promoted(s: Chain, s': Chain) {
    && Reachable(s, s'.finalized)
    && s'.store == ApplyAll(s.store, PathDiffs(s.nodes, s'.finalized))
    && (forall h | Reachable(s', h) :: Follows(s, s', h))
  }

  ghost predicate Follows(s: Chain, s': Chain, h: Hash) {
    Reachable(s, h) && PathDiffs(s.nodes, h) == PathDiffs(s.nodes, s'.finalized) + PathDiffs(s'.nodes, h)
  }

  lemma SamePromoted(s: Chain, s': Chain)
    requires SameDiffs(s, s') && s.finalized !in s.nodes
    ensures Promoted(s, s')
  {
    assert PathDiffs(s.nodes, s.finalized) == [];
    forall h | Reachable(s', h) ensures Follows(s, s', h) {
      SamePath(s, s', h);
      assert [] + PathDiffs(s'.nodes, h) == PathDiffs(s'.nodes, h);
    }
  }

  lemma RootPromoted(g: Config, s: Chain, i: nat)
    requires g.epochBlocks > 0 && Linked(s.nodes, s.roots, s.finalized) && i < |s.roots| && s.roots[i] in s.nodes
    ensures Promoted(s, FinalizeRoot(g, s, i))
  {
    var r, s' := s.roots[i], FinalizeRoot(g, s, i);
    var root := s.nodes[r].diff;
    forall h | Reachable(s', h)
      ensures Reachable(s, h) && PathDiffs(s.nodes, h) == [root] + PathDiffs(s'.nodes, h)
    {
      PathAfterPromotion(s.nodes, s.roots, s.finalized, r, h);
    }
    if Descends(r, r) { DescendsDeeper(r, r); }
    assert Reachable(s', r) && PathDiffs(s'.nodes, r) == [];
    assert PathDiffs(s.nodes, r) == [root] && [root][..0] == [];
    assert ApplyAll(s.store, [root]) == root.ApplyTo(s.store);
    assert forall h | Reachable(s', h) :: Follows(s, s', h);
  }

  lemma PromotedTransitive(s: Chain, s1: Chain, s2: Chain)
    requires Promoted(s, s1) && Promoted(s1, s2)
    ensures Promoted(s, s2)
  {
    hide PathDiffs, ApplyAll;
    var f := s2.finalized;
    assert Follows(s, s1, f);
    AllConcat(s.store, PathDiffs(s.nodes, s1.finalized), PathDiffs(s1.nodes, f));
    forall h | Reachable(s2, h) ensures Follows(s, s2, h) {
      assert Follows(s1, s2, h) && Follows(s, s1, h);
      var a, b, c := PathDiffs(s.nodes, s1.finalized), PathDiffs(s1.nodes, f), PathDiffs(s2.nodes, h);
      assert a + (b + c) == (a + b) + c;
    }
  }

  lemma {:induction false} AllPromoted(g: Config, s: Chain)
    requires g.Valid() && Inv(g, s)
    ensures Promoted(s, FinalizeAll(g, s))
    decreases |s.nodes|
  {
    hide AllTallied, AllCounted, AllPlaced, FinalityOk, OwnVotesOk, Promoted;
    var i := FindFinalizable(g, s.nodes, s.roots);
    if i < |s.roots| && s.roots[i] in s.nodes {
      FinalizeInv(g, s, i);
      PromoteShrinks(s.nodes, s.roots[i]);
      RootPromoted(g, s, i);
      AllPromoted(g, FinalizeRoot(g, s, i));
      PromotedTransitive(s, FinalizeRoot(g, s, i), FinalizeAll(g, s));
    } else {
      FinalizedNotANode(s.nodes, s.roots, s.finalized);
      SamePromoted(s, s);
    }
  }

  lemma PollPromoted(g: Config, s: Chain, missing: seq<Hash>)
    requires g.Valid() && Inv(g, s)
    ensures Promoted(s, Poll(g, s, missing))
  {
    hide Inv, Poll, FinalizeAll, Promoted;
    var s3 := AfterVotes(g, s);
    PollFinalizes(g, s, missing);
    TalliesOnly(s, s3);
    NotANode(g, s);
    SamePromoted(s, s3);
    if SameForest(s3, Poll(g, s, missing)) {
      PromotedLike(s, s3, Poll(g, s, missing));
    } else {
      AllPromoted(g, s3);
      PromotedTransitive(s, s3, FinalizeAll(g, s3));
      PromotedLike(s, FinalizeAll(g, s3), Poll(g, s, missing));
    }
  }

  lemma NotANode(g: Config, s: Chain)
    requires g.epochBlocks > 0 && Inv(g, s)
    ensures s.finalized !in s.nodes
  {
    FinalizedNotANode(s.nodes, s.roots, s.finalized);
  }

  lemma PromotedLike(s: Chain, s1: Chain, s2: Chain)
    requires Promoted(s, s1) && SameForest(s1, s2)
    ensures Promoted(s, s2)
  {
    hide PathDiffs, ApplyAll;
    forall h | Reachable(s2, h) ensures Follows(s, s2, h) { assert Follows(s, s1, h); }
  }

  // ----- what becomes of a nonce

  function NonceAt(s: Chain, h: Hash, a: Pubkey): nat {
    NonceOf(ViewAt(s.nodes, s.store, h), a)
  }

  /** What is finalized between s and s' deletes a, which carries a nonce. */
  ghost predicate Forgets(s: Chain, s': Chain, a: Pubkey) {
    a in MergeAll(PathDiffs(s.nodes, s'.finalized)).deletes && NonceAt(s, s'.finalized, a) > 0
  }

  lemma {:induction false} SameNonceAbove(base: Accounts, base': Accounts, above: seq<StateDiff>, a: Pubkey)
    requires NonceOf(base, a) == NonceOf(base', a)
    ensures NonceOf(OverAll(base, above), a) == NonceOf(OverAll(base', above), a)
  {
    if above == [] {
    } else {
      SameNonceAbove(base, base', above[..|above| - 1], a);
    }
  }

  lemma NonceOfGet(s: Accounts, t: Accounts, a: Pubkey)
    ensures Get(s, a) == Get(t, a) ==> NonceOf(s, a) == NonceOf(t, a)
    ensures Get(s, a) == None ==> NonceOf(s, a) == 0
  {
  }

  /** Whatever is finalized, a nonce that is not forgotten is read as before, and one that is forgotten is
      gone from the store. */
  lemma PromotedNonce(s: Chain, s': Chain, h: Hash, a: Pubkey)
    requires Promoted(s, s') && Reachable(s', h) && s'.finalized !in s'.nodes
    ensures !Forgets(s, s', a) ==> NonceAt(s', h, a) == NonceAt(s, h, a)
    ensures Forgets(s, s', a) ==> NonceAt(s', s'.finalized, a) == 0 < NonceAt(s, s'.finalized, a)
  {
    hide ApplyAll, OverAll, MergeAll, NonceOf, Get;
    var p, above := PathDiffs(s.nodes, s'.finalized), PathDiffs(s'.nodes, h);
    assert Follows(s, s', h);
    ViewIsOverAll(s.nodes, s.store, h);
    ViewIsOverAll(s'.nodes, s'.store, h);
    ViewIsOverAll(s.nodes, s.store, s'.finalized);
    AllConcat(s.store, p, above);
    ViewVersusApplied(s.store, p, a);
    NonceOfGet(ApplyAll(s.store, p), OverAll(s.store, p), a);
    if !Forgets(s, s', a) { SameNonceAbove(OverAll(s.store, p), ApplyAll(s.store, p), above, a); }
  }

  lemma OfferKeepsNonce(g: Config, s: Chain, b: Block, h: Hash, a: Pubkey)
    requires g.Valid() && Inv(g, s) && Reachable(s, h)
    ensures NonceAt(Offer(g, s, b).0, h, a) == NonceAt(s, h, a)
    ensures Reachable(Offer(g, s, b).0, h)
  {
    hide TryInclude, HeadHash, MayVote, ViewAt, NonceOf, AllTallied, AllCounted, AllPlaced, FinalityOk, OwnVotesOk;
    FinalizedNotANode(s.nodes, s.roots, s.finalized);
    OfferKeepsStore(g, s, b);
    var s' := Offer(g, s, b).0;
    if s'.nodes != s.nodes {
      OfferIsInsert(g, s, b);
      var diff := g.execute(ViewAt(s.nodes, s.store, b.parent), b).value;
      assert Reachable(s, b.parent);
      OldPathsStay(s, Of(b), diff, h);
      SamePath(InsertBlock(s, Of(b), diff), s', h);
      ViewIsOverAll(s.nodes, s.store, h);
      ViewIsOverAll(s'.nodes, s'.store, h);
    }
  }

  // ----- nonces that count

  /** Transactions that a pays for on the chain from genesis to h. */
  function Spent(txs: Block -> seq<Transaction>, h: Hash, a: Pubkey): nat {
    if h.Of? then Spent(txs, h.block.parent, a) + Paid(txs(h.block), a) else 0
  }

  lemma {:induction false} SpentGrows(txs: Block -> seq<Transaction>, h: Hash, x: Hash, a: Pubkey)
    requires Extends(h, x)
    ensures Spent(txs, h, a) >= Spent(txs, x, a)
  {
    if h == x {
    } else {
      SpentGrows(txs, h.block.parent, x, a);
    }
  }

  /** Above every block, every nonce counts the transactions of the chain up to that block. */
  ghost predicate Counting(g: Config, txs: Block -> seq<Transaction>, s: Chain) {
    forall h, a | Reachable(s, h) :: NonceAt(s, h, a) == NonceOf(g.accounts, a) + Spent(txs, h, a)
  }

  /** No nonce that is read above a block is ever read smaller there. */
  ghost predicate NoneFalls(s: Chain, s': Chain) {
    forall h, a | Reachable(s, h) && Reachable(s', h) :: NonceAt(s', h, a) >= NonceAt(s, h, a)
  }

  ghost predicate NoneForgotten(s: Chain, s': Chain) {
    forall a :: !Forgets(s, s', a)
  }

  /** What is read above a block that enters the forest. */
  lemma NewView(g: Config, s: Chain, b: Block)
    requires g.Valid() && Inv(g, s) && Enters(g, s, b)
    ensures Reachable(s, b.parent) && g.execute(ViewAt(s.nodes, s.store, b.parent), b).Some?
    ensures var view, s' := ViewAt(s.nodes, s.store, b.parent), Offer(g, s, b).0;
            ViewAt(s'.nodes, s'.store, Of(b)) == g.execute(view, b).value.Over(view)
  {
    hide TryInclude, HeadHash, MayVote, AllTallied, AllCounted, AllPlaced, FinalityOk, OwnVotesOk;
    FinalizedNotANode(s.nodes, s.roots, s.finalized);
    OfferIsInsert(g, s, b);
    OfferKeepsStore(g, s, b);
    hide Offer, ViewAt, Descends;
    var view, s' := ViewAt(s.nodes, s.store, b.parent), Offer(g, s, b).0;
    var diff := g.execute(view, b).value;
    OldPathsStay(s, Of(b), diff, b.parent);
    SamePath(InsertBlock(s, Of(b), diff), s', b.parent);
    ViewIsOverAll(s.nodes, s.store, b.parent);
    ViewIsOverAll(s'.nodes, s'.store, Of(b));
    var path := PathDiffs(s'.nodes, Of(b));
    assert path[..|path| - 1] == PathDiffs(s'.nodes, b.parent) && path[|path| - 1] == diff;
  }

  lemma NewNonce(g: Config, vm: Machine, txs: Block -> seq<Transaction>, s: Chain, b: Block, a: Pubkey, fuel: nat)
    requires g.Valid() && RunsOn(g, vm, txs, fuel) && Inv(g, s) && Enters(g, s, b)
    ensures Reachable(s, b.parent)
    ensures NonceAt(Offer(g, s, b).0, Of(b), a) == NonceAt(s, b.parent, a) + Paid(txs(b), a)
  {
    hide Inv, Offer, ViewAt, NonceOf, ExecuteTxs, ViewsAfter, Paid, StateDiff.Over;
    NewView(g, s, b);
    var view := ViewAt(s.nodes, s.store, b.parent);
    BlockView(vm, view, txs(b), fuel);
    ExactNonces(vm, view, txs(b), fuel, a);
  }

  lemma OfferCounts(g: Config, vm: Machine, txs: Block -> seq<Transaction>, s: Chain, b: Block, fuel: nat)
    requires g.Valid() && RunsOn(g, vm, txs, fuel) && Inv(g, s)
    ensures NoneFalls(s, Offer(g, s, b).0) && NoneForgotten(s, Offer(g, s, b).0)
    ensures Counting(g, txs, s) ==> Counting(g, txs, Offer(g, s, b).0)
  {
    hide Inv, Offer, NonceAt, Paid;
    var s' := Offer(g, s, b).0;
    forall h, a | Reachable(s, h) ensures NonceAt(s', h, a) == NonceAt(s, h, a) { OfferKeepsNonce(g, s, b, h, a); }
    NotANode(g, s);
    OfferKeepsStore(g, s, b);
    assert PathDiffs(s.nodes, s'.finalized) == [];
    if Counting(g, txs, s) {
      forall h, a | Reachable(s', h) ensures NonceAt(s', h, a) == NonceOf(g.accounts, a) + Spent(txs, h, a) {
        OfferReaches(g, s, b, h);
        if !Reachable(s, h) { NewNonce(g, vm, txs, s, b, a, fuel); }
      }
    }
  }

  lemma OfferReaches(g: Config, s: Chain, b: Block, h: Hash)
    requires g.epochBlocks > 0 && Reachable(Offer(g, s, b).0, h)
    ensures Reachable(s, h) || (h == Of(b) && Enters(g, s, b))
  {
    hide Offer, ViewAt;
    OfferTries(g, s, b);
  }

  lemma PollCounts(g: Config, txs: Block -> seq<Transaction>, s: Chain, missing: seq<Hash>)
    requires g.Valid() && Inv(g, s)
    ensures var s' := Poll(g, s, missing);
            && (NoneFalls(s, s') <==> NoneForgotten(s, s'))
            && (Counting(g, txs, s) ==> (Counting(g, txs, s') <==> NoneForgotten(s, s')))
  {
    var s' := Poll(g, s, missing);
    PollInv(g, s, missing);
    NotANode(g, s');
    PollPromoted(g, s, missing);
    hide Inv, Poll, NonceAt, Spent, Forgets;
    forall h, a | Reachable(s', h)
      ensures Reachable(s, h)
      ensures !Forgets(s, s', a) ==> NonceAt(s', h, a) == NonceAt(s, h, a)
      ensures Forgets(s, s', a) ==> NonceAt(s', s'.finalized, a) == 0 < NonceAt(s, s'.finalized, a)
    {
      assert Follows(s, s', h);
      PromotedNonce(s, s', h, a);
    }
    assert Reachable(s', s'.finalized);
    if a :| Forgets(s, s', a) {
      assert NonceAt(s', s'.finalized, a) < NonceAt(s, s'.finalized, a);
    }
  }

  // ----- runs

  /** All along the run, every nonce counts the transactions of the chain. */
  ghost predicate AlwaysCounting(g: Config, txs: Block -> seq<Transaction>, actions: seq<Action>)
    requires g.epochBlocks > 0
  {
    forall i: nat | i <= |actions| :: Counting(g, txs, Run(g, actions[..i]))
  }

  ghost predicate NeverFalling(g: Config, actions: seq<Action>)
    requires g.epochBlocks > 0
  {
    forall i: nat | i < |actions| :: NoneFalls(Run(g, actions[..i]), Run(g, actions[..i + 1]))
  }

  /** No step finalizes blocks that together delete an address while it carries a nonce. */
  ghost predicate NeverForgotten(g: Config, actions: seq<Action>)
    requires g.epochBlocks > 0
  {
    forall i: nat | i < |actions| :: NoneForgotten(Run(g, actions[..i]), Run(g, actions[..i + 1]))
  }

  lemma StepCounts(g: Config, vm: Machine, txs: Block -> seq<Transaction>, actions: seq<Action>, i: nat, fuel: nat)
    requires g.Valid() && RunsOn(g, vm, txs, fuel) && i < |actions|
    ensures var s, s' := Run(g, actions[..i]), Run(g, actions[..i + 1]);
            && (NoneFalls(s, s') <==> NoneForgotten(s, s'))
            && (Counting(g, txs, s) ==> (Counting(g, txs, s') <==> NoneForgotten(s, s')))
  {
    hide Inv, Offer, Poll, NoneFalls, NoneForgotten, Counting, RunsOn;
    assert actions[..i + 1][..i] == actions[..i];
    RunInv(g, actions[..i]);
    match actions[i]
    case OfferBlock(b) => OfferCounts(g, vm, txs, Run(g, actions[..i]), b, fuel);
    case PollEvent(missing) => PollCounts(g, txs, Run(g, actions[..i]), missing);
  }

  lemma StartCounts(g: Config, txs: Block -> seq<Transaction>)
    ensures Counting(g, txs, Start(g))
  {
  }

  lemma {:induction false} CountsUpTo(g: Config, vm: Machine, txs: Block -> seq<Transaction>, actions: seq<Action>,
        i: nat, fuel: nat)
    requires g.Valid() && RunsOn(g, vm, txs, fuel) && i <= |actions| && NeverForgotten(g, actions)
    ensures Counting(g, txs, Run(g, actions[..i]))
  {
    hide Counting, NoneForgotten, NoneFalls, RunsOn, Run;
    if i == 0 {
      assert actions[..0] == [];
      RunStart(g);
      StartCounts(g, txs);
    } else {
      CountsUpTo(g, vm, txs, actions, i - 1, fuel);
      StepCounts(g, vm, txs, actions, i - 1, fuel);
    }
  }

  lemma RunStart(g: Config)
    requires g.epochBlocks > 0
    ensures Run(g, []) == Start(g)
  {
  }

  /** In every run: nonces never fall, and they count the transactions of every chain since genesis, exactly
      when what is finalized never deletes an address that carries a nonce. */
  lemma RunNonces(g: Config, vm: Machine, txs: Block -> seq<Transaction>, actions: seq<Action>, fuel: nat)
    requires g.Valid() && RunsOn(g, vm, txs, fuel)
    ensures NeverFalling(g, actions) <==> NeverForgotten(g, actions)
    ensures AlwaysCounting(g, txs, actions) <==> NeverForgotten(g, actions)
  {
    hide Counting, NoneForgotten, NoneFalls, RunsOn, Run;
    forall i: nat | i < |actions|
      ensures var s, s' := Run(g, actions[..i]), Run(g, actions[..i + 1]);
              && (NoneFalls(s, s') <==> NoneForgotten(s, s'))
              && (Counting(g, txs, s) ==> (Counting(g, txs, s') <==> NoneForgotten(s, s')))
    {
      StepCounts(g, vm, txs, actions, i, fuel);
    }
    if NeverForgotten(g, actions) {
      forall i: nat | i <= |actions| ensures Counting(g, txs, Run(g, actions[..i])) {
        CountsUpTo(g, vm, txs, actions, i, fuel);
      }
    }
    if AlwaysCounting(g, txs, actions) {
      forall i: nat | i < |actions| ensures NoneForgotten(Run(g, actions[..i]), Run(g, actions[..i + 1])) {
        assert Counting(g, txs, Run(g, actions[..i])) && Counting(g, txs, Run(g, actions[..i + 1]));
      }
    }
  }

  /** The k-th transaction of block b succeeds where the i-th action includes the block. */
  ghost predicate Succeeds(g: Config, vm: Machine, txs: Block -> seq<Transaction>, actions: seq<Action>, i: nat,
        b: Block, k: nat, fuel: nat)
    requires g.epochBlocks > 0
  {
    && i < |actions| && actions[i] == OfferBlock(b) && k < |txs(b)|
    && var s := Run(g, actions[..i]);
       Enters(g, s, b) && OutcomeAt(vm, ViewAt(s.nodes, s.store, b.parent), txs(b), k, fuel).Ok?
  }

  lemma SuccessCounts(g: Config, vm: Machine, txs: Block -> seq<Transaction>, actions: seq<Action>, i: nat,
        b: Block, k: nat, fuel: nat)
    requires g.Valid() && RunsOn(g, vm, txs, fuel) && NeverForgotten(g, actions)
    requires Succeeds(g, vm, txs, actions, i, b, k, fuel)
    ensures var tx := txs(b)[k];
            tx.nonce == NonceOf(g.accounts, tx.payer) + Spent(txs, b.parent, tx.payer) + Paid(txs(b)[..k], tx.payer) + 1
  {
    var s, payer := Run(g, actions[..i]), txs(b)[k].payer;
    hide Run, Offer, ViewAt, NeverForgotten, OutcomeAt, RunsOn, Inv, Enters, NonceOf;
    CountsUpTo(g, vm, txs, actions, i, fuel);
    RunInv(g, actions[..i]);
    NewNonce(g, vm, txs, s, b, payer, fuel);
    assert NonceAt(s, b.parent, payer) == NonceOf(g.accounts, payer) + Spent(txs, b.parent, payer);
    SuccessNonce(vm, ViewAt(s.nodes, s.store, b.parent), txs(b), k, fuel);
  }

  lemma {:induction false} PaidPrefix(txs: seq<Transaction>, k: nat, a: Pubkey)
    requires k <= |txs|
    ensures Paid(txs[..k], a) <= Paid(txs, a)
    decreases |txs| - k
  {
    if k == |txs| {
      assert txs[..k] == txs;
    } else {
      assert txs[..k + 1][..k] == txs[..k];
      PaidPrefix(txs, k + 1, a);
    }
  }

  lemma ParentBelow(c: Block, h: Hash)
    requires Descends(Of(c), h)
    ensures Extends(c.parent, h)
  {
  }

  lemma SpentNext(txs: Block -> seq<Transaction>, b: Block, a: Pubkey)
    ensures Spent(txs, Of(b), a) == Spent(txs, b.parent, a) + Paid(txs(b), a)
  {
  }

  /** No replay in a run that forgets no nonce: of two transactions of one payer that succeed on one chain,
      in whatever order and on whatever finalized state their blocks were included, the one in the higher
      block, or the later one in the same block, has the larger nonce. */
  lemma NoReplayInRuns(g: Config, vm: Machine, txs: Block -> seq<Transaction>, actions: seq<Action>, i: nat, b: Block,
        k: nat, j: nat, c: Block, l: nat, fuel: nat)
    requires g.Valid() && RunsOn(g, vm, txs, fuel) && NeverForgotten(g, actions)
    requires Succeeds(g, vm, txs, actions, i, b, k, fuel) && Succeeds(g, vm, txs, actions, j, c, l, fuel)
    requires Descends(Of(c), Of(b)) || (b == c && k < l)
    ensures txs(b)[k].payer != txs(c)[l].payer || txs(b)[k].nonce < txs(c)[l].nonce
  {
    hide NeverForgotten, RunsOn, Run, OutcomeAt, Enters, NonceOf, Spent, Paid, ViewAt, Offer, Descends;
    var payer := txs(b)[k].payer;
    SuccessCounts(g, vm, txs, actions, i, b, k, fuel);
    SuccessCounts(g, vm, txs, actions, j, c, l, fuel);
    if payer == txs(c)[l].payer {
      if b == c && k < l {
        PaidGrows(txs(b), k, l);
      } else {
        PaidGrows(txs(b), k, k + 1);
        PaidPrefix(txs(b), k + 1, payer);
        ParentBelow(c, Of(b));
        SpentGrows(txs, c.parent, Of(b), payer);
        SpentNext(txs, b, payer);
      }
    }
  }

  // ----- a nonce that is forgotten

  const PAYER := Curve(5)

  /** One deployed contract, which deletes the payer's account when it is told to. */
  function Keeper(): Machine {
    Host([]).(external := (code, env, params) => if params == Raw([]) then Ok([]) else Ok([DeleteOwnedAccount(PAYER)]))
  }

  /** A wallet whose account belongs to that contract. */
  function Owned(): Accounts {
    map[PAYER := Account(false, 0, Some(DEPLOYED), None), DEPLOYED := Account(true, 0, Some(WASM), Some(Bytes([])))]
  }

  function Pay(): Transaction {
    Transaction(DEPLOYED, 1, PAYER, [], Raw([]), 0)
  }

  function Quit(): Transaction {
    Transaction(DEPLOYED, 2, PAYER, [AccountRef(PAYER, true, true)], Raw([1]), 1)
  }

  lemma PayRuns(s: Accounts)
    requires DEPLOYED in s && s[DEPLOYED] == Owned()[DEPLOYED] && NonceOf(s, PAYER) == 1
    ensures ExecuteTransaction(Keeper(), s, Pay(), 0) == Ok(NO_OUTPUT)
  {
  }

  lemma QuitRuns(s: Accounts)
    requires DEPLOYED in s && s[DEPLOYED] == Owned()[DEPLOYED]
    requires PAYER in s && s[PAYER] == Account(false, 2, Some(DEPLOYED), None)
    ensures ExecuteTransaction(Keeper(), s, Quit(), 0).Ok?
    ensures ExecuteTransaction(Keeper(), s, Quit(), 0).value.diff == StateDiff(map[], {PAYER})
  {
    var unit := NewUnit(Keeper(), s, Quit()).value;
    var o := DeleteOwnedAccount(PAYER);
    assert unit.env.accounts[0] == ViewOf(s, DEPLOYED, AccountRef(PAYER, true, true));
    assert RunContract(Keeper(), unit) == Ok([o]);
    var out := ProcessOutput(Keeper(), s, unit, o, 0).value;
    assert out.diff == StateDiff(map[], {PAYER}) && out.logs == [];
    assert NO_OUTPUT.Merge(out).diff == out.diff && NO_OUTPUT.Merge(out).logs == [];
    assert [o][..0] == [] && ProcessOutputs(Keeper(), s, unit, [o][..0], 0) == Ok(NO_OUTPUT);
    assert ProcessOutputs(Keeper(), s, unit, [o], 0) == Ok(NO_OUTPUT.Merge(out));
  }

  /** A wallet pays for one transaction, and with a second one deletes its account. Readers see nonce 2, but
      once both blocks are finalized the nonce is gone, and the first transaction succeeds again. */
  lemma ForgottenNonceReplays()
    ensures var vm, s := Keeper(), Owned();
            var path := PathExecution(vm, s, [[Pay()], [Quit()]], 0);
            && NonceOf(OverAll(s, path), PAYER) == 2 && NonceOf(ApplyAll(s, path), PAYER) == 0
            && OutcomeAt(vm, s, [Pay()], 0, 0).Ok? && OutcomeAt(vm, ApplyAll(s, path), [Pay()], 0, 0).Ok?
  {
    var vm, s := Keeper(), Owned();
    hide Keeper, ExecuteTransaction;
    var s1 := s[PAYER := Account(false, 1, Some(DEPLOYED), None)];
    PayRuns(s1);
    OneTx(vm, s, Pay());
    var d1 := ExecuteTxs(vm, s, [Pay()], 0).0;
    var b1 := NO_CHANGE.Set(PAYER, s1[PAYER]);
    assert b1.Over(s) == s1;
    MergeOne(b1, PAYER, s1[PAYER]);
    assert d1 == b1 == StateDiff(map[PAYER := s1[PAYER]], {});
    assert d1.Over(s) == s1 == d1.ApplyTo(s);
    var s2 := s1[PAYER := Account(false, 2, Some(DEPLOYED), None)];
    QuitRuns(s2);
    OneTx(vm, s1, Quit());
    var b2 := NO_CHANGE.Set(PAYER, s2[PAYER]);
    assert b2.Over(s1) == s2;
    var d2 := ExecuteTxs(vm, s1, [Quit()], 0).0;
    assert d2 == StateDiff(map[PAYER := s2[PAYER]], {PAYER});
    TwoBlocks(vm, s, [Pay()], [Quit()]);
    assert d2.Over(s1) == s2;
    var t := d2.ApplyTo(s1);
    assert PAYER !in t && t[DEPLOYED] == s[DEPLOYED];
    PayRuns(t[PAYER := Bumped(t, PAYER)]);
  }

  lemma OneTx(vm: Machine, s: Accounts, tx: Transaction)
    ensures ExecuteTxs(vm, s, [tx], 0).0 == StepTx(vm, s, NO_CHANGE, tx, 0).0
    ensures NO_CHANGE.Over(s) == s
  {
    assert [tx][..0] == [];
    assert s + map[] == s;
  }

  lemma TwoBlocks(vm: Machine, s: Accounts, a: seq<Transaction>, b: seq<Transaction>)
    ensures var d := ExecuteTxs(vm, s, a, 0).0;
            var e := ExecuteTxs(vm, d.Over(s), b, 0).0;
            var path := PathExecution(vm, s, [a, b], 0);
            path == [d, e] && OverAll(s, path) == e.Over(d.Over(s)) && ApplyAll(s, path) == e.ApplyTo(d.ApplyTo(s))
  {
    hide ExecuteTxs, StateDiff.Over, StateDiff.ApplyTo;
    var d := ExecuteTxs(vm, s, a, 0).0;
    assert [a, b][..1] == [a] && [a][..0] == [];
    assert PathExecution(vm, s, [a], 0) == [d];
    assert [d][..0] == [] && OverAll(s, [d]) == d.Over(s) && ApplyAll(s, [d]) == d.ApplyTo(s);
    var e := ExecuteTxs(vm, d.Over(s), b, 0).0;
    assert [d, e][..1] == [d];
  }
}
