/** The `Chain` object itself (src/consensus/chain.rs): its methods mutate the forest, the orphan pool
    and the event queue in place, and every state they leave behind is one of `Consensus.Run`. */
module Engine {
  import opened Primitives
  import opened State
  import opened Blocks
  import opened Stakes
  import opened ForkTree
  import C = Consensus
  import opened Invariants
  import opened Adoption
  import O = Orphans
  import F = Forests

  class ChainEngine {
    const g: C.Config
    const forest: F.Forest
    const orphans: O.Pool
    var finalized: Hash
    var store: Accounts
    var ownVotes: map<nat, (Hash, Hash)>
    var history: map<nat, set<Hash>>
    /** Pending events in delivery order: the back of the deque comes first. */
    var events: seq<C.Event>

    ghost var popped: seq<C.Event>
    ghost var counted: set<Vote>
    ghost var trace: seq<C.Action>

    ghost function Core(): C.Chain
      reads this, forest, orphans
    {
      C.Chain(finalized, store, forest.roots, forest.nodes, orphans.votes, ownVotes, history, events, popped, counted)
    }

    ghost function TheWorld(): World
      reads this, forest, orphans
    {
      World(Core(), orphans.blocks)
    }

    /** Reachable by the actions recorded in the trace. */
    ghost predicate Valid()
      reads this, forest, orphans
    {
      && g.Valid() && Core() == C.Run(g, trace)
      && O.TreesOk(orphans.blocks) && PoolOk(Core(), orphans.blocks)
    }

    constructor (g: C.Config)
      requires g.Valid()
      ensures Valid() && fresh(forest) && fresh(orphans) && this.g == g && trace == []
    {
      this.g := g;
      forest := new F.Forest();
      orphans := new O.Pool();
      finalized, store := Genesis, g.accounts;
      ownVotes, history, events := map[], map[], [];
      popped, counted, trace := [], {}, [];
    }

    // ----- queries

    /** `total_stake`: the stake of the validators above the minimum. */
    method TotalStake() returns (total: nat)
      ensures total == g.TotalStake()
    {
      total := 0;
      var todo := g.stakes.Keys;
      while todo != {}
        invariant todo <= g.stakes.Keys
        invariant total == Weight(g.stakes, g.Validators() - todo)
        decreases todo
      {
        var v :| v in todo;
        if g.stakes[v] >= g.minimumStake {
          WeightAdd(g.stakes, g.Validators() - todo, v);
          assert g.Validators() - (todo - {v}) == g.Validators() - todo + {v};
          total := total + g.stakes[v];
        } else {
          assert g.Validators() - (todo - {v}) == g.Validators() - todo;
        }
        todo := todo - {v};
      }
      assert g.Validators() - {} == g.Validators();
    }

    /** `in_finalized_history`: the loop over the epochs of the window. */
    method InFinalizedHistory(h: Hash) returns (found: bool)
      ensures found == C.InFinalizedHistory(g, Core(), h)
    {
      if h == finalized { return true; }
      var todo := history.Keys;
      while todo != {}
        invariant todo <= history.Keys
        invariant forall e | e in history && e !in todo :: h !in history[e]
        decreases todo
      {
        var e :| e in todo;
        if h in history[e] { return true; }
        todo := todo - {e};
      }
      return |history| < g.maxJustificationAge && h == Genesis;
    }

    /** `with_head`: of the heads of all trees, the last one of the most votes and then depth. */
    method HeadBlock() returns (head: Hash)
      requires Linked(forest.nodes, forest.roots, finalized)
      ensures head == C.HeadHash(Core())
    {
      hide Linked, C.PathDepth, Head;
      if forest.roots == [] { return finalized; }
      RootIsNode(forest.nodes, forest.roots, finalized, 0);
      head := forest.HeadOf(forest.roots[0], finalized);
      assert forest.roots[..1] == [forest.roots[0]];
      for i := 1 to |forest.roots|
        invariant head == C.BestHead(forest.nodes, forest.roots[..i])
      {
        RootIsNode(forest.nodes, forest.roots, finalized, i);
        var candidate := forest.HeadOf(forest.roots[i], finalized);
        var d := forest.DepthOf(head);
        var c := forest.DepthOf(candidate);
        assert forest.roots[..i + 1][..i] == forest.roots[..i];
        var hv, cv := VotesOf(forest.nodes, head), VotesOf(forest.nodes, candidate);
        if !(hv > cv || (hv == cv && d > c)) { head := candidate; }
      }
      assert forest.roots[..|forest.roots|] == forest.roots;
    }

    // ----- inclusion

    /** `try_include`. */
    method TryInclude(b: Block) returns (attempt: C.Attempt)
      requires Linked(forest.nodes, forest.roots, finalized)
      modifies this`events, forest
      ensures (Core(), attempt) == C.TryInclude(g, old(Core()), b)
    {
      FinalizedNotANode(forest.nodes, forest.roots, finalized);
      hide Linked;
      var h := Of(b);
      if h in forest.nodes || h == finalized { return C.Consumed; }
      var view := store;
      if b.parent == finalized {
        if b.height != Height(finalized) + 1 { return C.Rejected; }
      } else if b.parent in forest.nodes {
        if b.height != Height(b.parent) + 1 { return C.Rejected; }
        view := ViewAt(forest.nodes, store, b.parent);
      } else {
        return C.Orphaned;
      }
      var executed := g.execute(view, b);
      if executed.None? { return C.Rejected; }
      forest.AddBlock(h, executed.value, finalized);
      events := events + [C.Included(h)];
      return C.Consumed;
    }

    /** `commit_and_vote`: never vote against a justification or a vote of the same epoch. */
    method CommitAndVote(target: Hash)
      requires g.epochBlocks > 0 && Linked(forest.nodes, forest.roots, finalized)
      modifies this`events, this`ownVotes
      ensures Core() == C.CommitAndVote(g, old(Core()), target)
    {
      hide Linked;
      if target !in forest.nodes { return; }
      F.ParentCases(forest.nodes, forest.roots, finalized, target);
      var epoch := g.Epoch(target);
      if epoch in ownVotes {
        var (j, t) := ownVotes[epoch];
        var known := InFinalizedHistory(j);
        if j != finalized && !known { return; }
        var descends := forest.DescendsFrom(target, t);
        if !descends { return; }
      }
      ownVotes := ownVotes[epoch := (finalized, target)];
      events := events + [C.Voted(target, finalized)];
    }

    /** `include` before the adoption of orphans. */
    method OfferBlock(b: Block) returns (attempt: C.Attempt)
      requires g.Valid() && Core() == C.Run(g, trace)
      modifies this, forest
      ensures (Core(), attempt) == C.Offer(g, old(Core()), b)
      ensures trace == old(trace) + [C.OfferBlock(b)] && Core() == C.Run(g, trace)
    {
      RunInv(g, trace);
      hide AllTallied, AllCounted, AllPlaced, FinalityOk, OwnVotesOk, C.TryInclude, C.CommitAndVote, C.HeadHash, C.Poll;
      ghost var before := Core();
      ghost var actions := trace;
      trace := trace + [C.OfferBlock(b)];
      assert trace[..|trace| - 1] == actions;
      if !g.MayTakePart(b.proposer) || b.height <= Height(finalized) || !g.blockSigned(b) { return C.Rejected; }
      attempt := TryInclude(b);
      TryIncludeInv(g, before, b);
      if attempt.Consumed? {
        var head := HeadBlock();
        if head == Of(b) { CommitAndVote(head); }
      }
    }

    /** The match of `include` on the outcome: an unmatched block joins the orphans, a consumed one
        releases the tree that waited for it. */
    method Sort(b: Block, attempt: C.Attempt) returns (adopted: seq<Block>)
      requires O.TreesOk(orphans.blocks)
      modifies orphans`blocks
      ensures O.TreesOk(orphans.blocks) && Sorted(old(orphans.blocks), b, attempt, orphans.blocks, adopted)
      ensures |Waits(orphans.blocks)| + |adopted| <= |Waits(old(orphans.blocks))| + if adopted == [] then 1 else 0
    {
      hide O.TreesOk, O.IsFlat, O.Added, Waits;
      adopted := [];
      if attempt.Orphaned? {
        orphans.AddBlock(b);
        AddedWaits(old(orphans.blocks), b, orphans.blocks);
      } else if attempt.Consumed? {
        var taken := orphans.ConsumeBlocks(Of(b));
        if taken.Some? {
          adopted := taken.value;
          RemovedWaits(old(orphans.blocks), Of(b), adopted);
        } else {
          assert old(orphans.blocks) - {Of(b)} == old(orphans.blocks);
        }
      }
    }

    method Settle(b: Block) returns (adopted: seq<Block>)
      requires Valid()
      modifies this, forest, orphans
      ensures Valid() && trace == old(trace) + [C.OfferBlock(b)]
      ensures Processed(g, old(TheWorld()), b, TheWorld(), adopted)
      ensures |Waits(orphans.blocks)| + |adopted| <= |Waits(old(orphans.blocks))| + if adopted == [] then 1 else 0
    {
      ghost var w := TheWorld();
      var attempt := OfferBlock(b);
      hide C.Offer, C.Run, O.TreesOk, O.IsFlat, O.Added, Waits, PoolOk, Sorted;
      adopted := Sort(b, attempt);
      ProcessedPool(g, w, b, TheWorld(), adopted);
    }

    /** `include`: adopted orphans are included one after the other, each with what it releases. The
        recursion ends because the adopted tree has left the pool and each block returns at most once. */
    method Include(b: Block)
      requires Valid()
      modifies this, forest, orphans
      ensures Valid() && old(trace) <= trace
      ensures exists n :: Drains(g, old(TheWorld()), [b], TheWorld(), n)
      ensures |Waits(orphans.blocks)| <= |Waits(old(orphans.blocks))| + 1
      decreases |Waits(orphans.blocks)|
    {
      hide Processed, PoolOk, Drains, C.Run, Waits;
      ghost var w := TheWorld();
      var adopted := Settle(b);
      ghost var w1 := TheWorld();
      ghost var m: nat := 0;
      NothingToDrain(g, w1);
      for i := 0 to |adopted|
        invariant Valid() && old(trace) <= trace
        invariant Drains(g, w1, adopted[..i], TheWorld(), m)
        invariant |Waits(orphans.blocks)| <= |Waits(w1.trees)| + i
      {
        ghost var before := TheWorld();
        Include(adopted[i]);
        ghost var n :| Drains(g, before, [adopted[i]], TheWorld(), n);
        assert adopted[..i + 1] == adopted[..i] + [adopted[i]];
        DrainsConcat(g, w1, adopted[..i], before, m, [adopted[i]], TheWorld(), n);
        m := m + n;
      }
      assert adopted[..|adopted|] == adopted;
      StepThenDrain(g, w, b, w1, adopted, TheWorld(), m);
    }

    // ----- votes

    method IsConfirmed(h: Hash) returns (yes: bool)
      requires h in forest.nodes
      ensures yes == (forest.nodes[h].votes >= g.quorum)
    {
      yes := forest.nodes[h].votes >= g.quorum;
    }

    /** The blocks on the path of the target that are not confirmed yet, youngest first. */
    method CollectUnconfirmed(target: Hash) returns (us: seq<Hash>)
      requires target in forest.nodes && target.Of? && forall h | h in forest.nodes :: h.Of?
      ensures us == Unconfirmed(forest.nodes, target, g.quorum)
    {
      hide Unconfirmed;
      UnconfirmedHere(forest.nodes, target, g.quorum);
      var confirmed := IsConfirmed(target);
      us := if confirmed then [] else [target];
      var current := target;
      while current.block.parent in forest.nodes
        invariant current.Of?
        invariant us + Unconfirmed(forest.nodes, current.block.parent, g.quorum)
          == Unconfirmed(forest.nodes, target, g.quorum)
        decreases current
      {
        current := current.block.parent;
        UnconfirmedHere(forest.nodes, current, g.quorum);
        confirmed := IsConfirmed(current);
        if !confirmed {
          assert us + ([current] + Unconfirmed(forest.nodes, current.block.parent, g.quorum))
              == (us + [current]) + Unconfirmed(forest.nodes, current.block.parent, g.quorum);
          us := us + [current];
        }
      }
      NoneUnconfirmed(forest.nodes, current.block.parent, g.quorum);
    }

    /** Confirmation events for the blocks that the vote lifted over the quorum. */
    method ConfirmationBatch(unconfirmed: seq<Hash>) returns (batch: seq<C.Event>)
      requires forall u | u in unconfirmed :: u in forest.nodes
      ensures batch == Announce(forest.nodes, unconfirmed, g.quorum)
    {
      batch := [];
      for i := 0 to |unconfirmed|
        invariant Announce(forest.nodes, unconfirmed, g.quorum)
          == Announce(forest.nodes, unconfirmed[i..], g.quorum) + batch
      {
        var u := unconfirmed[i];
        assert u in unconfirmed;
        assert unconfirmed[i..][1..] == unconfirmed[i + 1..];
        var confirmed := IsConfirmed(u);
        if confirmed { batch := [C.Confirmed(u, forest.nodes[u].votes)] + batch; }
      }
    }

    /** `injest_vote`: path, tally, then confirmation events at the back of the deque. */
    method IngestVote(v: Vote)
      requires Linked(forest.nodes, forest.roots, finalized) && orphans.Valid()
      modifies this`events, this`counted, forest`nodes, orphans`votes
      ensures Core() == C.IngestVote(g, old(Core()), v) && orphans.Valid()
    {
      hide Linked;
      if !g.MayTakePart(v.validator) || !g.voteSigned(v) { return; }
      if v.target !in forest.nodes {
        orphans.AddVote(v);
        return;
      }
      F.ParentCases(forest.nodes, forest.roots, finalized, v.target);
      var known := InFinalizedHistory(v.justification);
      var descends := forest.DescendsFrom(v.target, v.justification);
      if !known && !descends { return; }
      AllAreBlocks(forest.nodes, forest.roots, finalized);
      ghost var before := forest.nodes;
      var unconfirmed := CollectUnconfirmed(v.target);
      UnconfirmedAreNodes(before, v.target, g.quorum);
      forest.AddVotes(v.target, g.stakes[v.validator], v.validator, finalized);
      counted := counted + {v};
      BatchIsAnnounced(before, forest.nodes, v.target, g.quorum);
      var batch := ConfirmationBatch(unconfirmed);
      events := batch + events;
    }

    /** `count_votes` and the late votes of a block. */
    method IngestVotes(votes: seq<Vote>)
      requires g.Valid() && Inv(g, Core()) && orphans.Valid()
      modifies this`events, this`counted, forest`nodes, orphans`votes
      ensures Core() == C.IngestVotes(g, old(Core()), votes) && Inv(g, Core()) && orphans.Valid()
    {
      for i := 0 to |votes|
        invariant C.IngestVotes(g, Core(), votes[i..]) == C.IngestVotes(g, old(Core()), votes)
        invariant Inv(g, Core()) && orphans.Valid()
      {
        IngestInv(g, Core(), votes[i]);
        assert votes[i..][0] == votes[i] && votes[i..][1..] == votes[i + 1..];
        hide AllTallied, AllCounted, AllPlaced, FinalityOk, OwnVotesOk, Linked, C.IngestVote;
        IngestVote(votes[i]);
      }
    }

    // ----- finality

    /** `path().nth(1)` of an epoch start, and its epoch start. */
    method CheckpointOf(h: Hash) returns (c: Option<Hash>)
      requires g.epochBlocks > 0
      ensures c == C.Checkpoint(g, forest.nodes, h)
    {
      var start := forest.EpochStartOf(h, g.epochBlocks);
      if start.Of? && start.block.parent in forest.nodes {
        var needle := forest.EpochStartOf(start.block.parent, g.epochBlocks);
        c := Some(needle);
      } else {
        c := None;
      }
    }

    /** The rule for one root: it, and the checkpoints of the two epochs before its head's, are confirmed. */
    method IsFinalizable(root: Hash) returns (yes: bool)
      requires g.epochBlocks > 0 && Linked(forest.nodes, forest.roots, finalized) && root in forest.nodes
      ensures yes == C.Finalizable(g, forest.nodes, root)
    {
      hide Linked, C.Checkpoint;
      if forest.nodes[root].votes >= g.quorum {
        var head := forest.HeadOf(root, finalized);
        var first := CheckpointOf(head);
        if first.Some? && VotesOf(forest.nodes, first.value) >= g.quorum {
          var second := CheckpointOf(first.value);
          if second.Some? && VotesOf(forest.nodes, second.value) >= g.quorum {
            return true;
          }
        }
      }
      return false;
    }

    /** `find_finalizable_root`: the first root that satisfies the rule. */
    method FindFinalizableRoot() returns (index: Option<nat>)
      requires g.epochBlocks > 0 && Linked(forest.nodes, forest.roots, finalized)
      ensures var i := C.FindFinalizable(g, forest.nodes, forest.roots);
              index == if i < |forest.roots| then Some(i) else None
    {
      hide Linked, C.Finalizable;
      for i := 0 to |forest.roots|
        invariant forall j | 0 <= j < i :: !C.Finalizable(g, forest.nodes, forest.roots[j])
      {
        RootIsNode(forest.nodes, forest.roots, finalized, i);
        var found := IsFinalizable(forest.roots[i]);
        if found { return Some(i); }
      }
      return None;
    }

    /** The nodes of some trees, tree by tree. */
    method SweepTrees(trees: seq<Hash>) returns (gone: seq<Hash>)
      requires Linked(forest.nodes, forest.roots, finalized) && forall r | r in trees :: r in forest.nodes
      ensures gone == Sweep(forest.nodes, trees)
    {
      hide Linked;
      gone := [];
      for k := 0 to |trees|
        invariant gone == Sweep(forest.nodes, trees[..k])
      {
        assert trees[..k + 1][..k] == trees[..k];
        var visited := forest.Visit(trees[k], finalized);
        gone := gone + visited;
      }
      assert trees[..|trees|] == trees;
    }

    /** `finalize_root`: apply the diff, report the other trees, promote the children. */
    method FinalizeRoot(i: nat)
      requires g.epochBlocks > 0 && Linked(forest.nodes, forest.roots, finalized) && i < |forest.roots|
      modifies this`finalized, this`store, this`events, this`ownVotes, forest
      ensures old(forest.roots[i]) in old(forest.nodes)
      ensures Core() == C.FinalizeRoot(g, old(Core()), i)
    {
      RootIsNode(forest.nodes, forest.roots, finalized, i);
      WithoutAreRoots(forest.nodes, forest.roots, finalized, i);
      hide Linked, Without;
      var r, node := forest.roots[i], forest.nodes[forest.roots[i]];
      var others := Without(forest.roots, i);
      assert r.block.parent == finalized;
      var gone := SweepTrees(others);
      finalized, store := r, node.diff.ApplyTo(store);
      forest.PromoteRoot(r, r.block.parent);
      ownVotes := ownVotes - {g.Epoch(r)};
      events := events + C.DiscardEvents(gone) + [C.Finalized(r, node.diff, node.votes)];
    }

    /** `try_finalize_roots` until it finds nothing. */
    method FinalizeRoots()
      requires g.Valid() && Inv(g, Core())
      modifies this`finalized, this`store, this`events, this`ownVotes, forest
      ensures Core() == C.FinalizeAll(g, old(Core()))
    {
      hide AllTallied, AllCounted, AllPlaced, FinalityOk, OwnVotesOk, Linked, C.FinalizeRoot, C.FindFinalizable,
        C.Finalizable;
      var index := FindFinalizableRoot();
      while index.Some?
        invariant Inv(g, Core())
        invariant var i := C.FindFinalizable(g, forest.nodes, forest.roots);
                  index == if i < |forest.roots| then Some(i) else None
        invariant C.FinalizeAll(g, Core()) == C.FinalizeAll(g, old(Core()))
        decreases |forest.nodes|
      {
        ghost var before := Core();
        NextFinalization(g, before);
        FinalizeRoot(index.value);
        index := FindFinalizableRoot();
      }
    }

    // ----- polling

    /** `post_block_included`. `expired` are the missing parents whose timer ran out. */
    method PostBlockIncluded(h: Hash, expired: set<Hash>) returns (ghost missing: seq<Hash>)
      requires g.Valid() && Inv(g, Core()) && orphans.Valid() && h.Of?
      modifies this`finalized, this`store, this`events, this`ownVotes, this`counted, forest, orphans
      ensures Core() == C.PostBlockIncluded(g, old(Core()), h, missing)
      ensures orphans.Valid() && O.Pruned(old(orphans.blocks), orphans.blocks, Height(finalized), expired, missing)
    {
      hide Inv, C.IngestVotes, C.FinalizeAll, O.Pruned;
      IngestVotes(h.block.votes);
      ghost var counting := Core();
      SameInv(g, counting, counting.(waiting := counting.waiting - {h}));
      var late := orphans.ConsumeVotes(h);
      assert Core() == counting.(waiting := counting.waiting - {h});
      if late.Some? { IngestVotes(late.value); } else { NoLateVotes(g, Core()); }
      assert Core() == C.IngestWaiting(g, counting, h);
      FinalizeRoots();
      var wanted := orphans.MissingBlocks(Height(finalized), expired);
      events := events + C.MissingEvents(wanted);
      missing := wanted;
    }

    /** `post_block_finalized`: the window of justifications. */
    method PostBlockFinalized(h: Hash)
      requires g.epochBlocks > 0
      modifies this`history
      ensures Core() == C.PostBlockFinalized(g, old(Core()), h)
    {
      var epoch := g.Epoch(finalized);
      if epoch in history {
        history := history[epoch := history[epoch] + {h}];
      } else {
        history := history[epoch := {h}];
        assert {} + {h} == {h};
      }
      var oldest := if epoch < g.maxJustificationAge then 0 else epoch - g.maxJustificationAge;
      history := map e | e in history && e >= oldest :: history[e];
      assert history == C.PostBlockFinalized(g, old(Core()), h).history;
    }

    /** `poll_next`: deliver the oldest event, after acting on inclusions and finalizations. */
    method PollNext(expired: set<Hash>) returns (event: Option<C.Event>)
      requires Valid()
      modifies this, forest, orphans
      ensures Valid()
      ensures old(events) == [] ==> event == None && trace == old(trace)
      ensures old(events) != [] ==>
                && event == Some(old(events)[0]) && popped == old(popped) + [old(events)[0]]
                && exists missing ::
                     && trace == old(trace) + [C.PollEvent(missing)]
                     && (if event.value.Included? then O.Pruned(old(orphans.blocks), orphans.blocks, Height(finalized),
                       expired, missing)
                         else missing == [] && orphans.blocks == old(orphans.blocks))
    {
      if events == [] { return None; }
      hide Inv, C.Run, C.Poll, C.Step, PoolOk, O.TreesOk, C.Config.Valid, O.Pruned;
      ghost var before, trees, actions := Core(), orphans.blocks, trace;
      event := Some(events[0]);
      Popping(g, trace, before);
      events := events[1..];
      popped := popped + [event.value];
      ghost var missing := React(event.value, before, expired);
      if event.value.Included? { PrunedIsSubset(trees, orphans.blocks, Height(finalized), expired, missing); }
      PollPool(g, before, missing, trees, trees.Keys - orphans.blocks.Keys);
      assert orphans.blocks == trees - (trees.Keys - orphans.blocks.Keys);
      trace := trace + [C.PollEvent(missing)];
      RunStep(g, actions, C.PollEvent(missing));
    }

    /** The reactions of `poll_next` to the event it is about to return. */
    method React(event: C.Event, ghost before: C.Chain, expired: set<Hash>) returns (ghost missing: seq<Hash>)
      requires g.Valid() && Inv(g, Core()) && O.TreesOk(orphans.blocks)
      requires before.queue != [] && event == before.queue[0] && (event.Included? ==> event.hash.Of?)
      requires Core() == before.(queue := before.queue[1..], popped := before.popped + [event])
      modifies this`finalized, this`store, this`events, this`ownVotes, this`counted, this`history, forest, orphans
      ensures Core() == C.Poll(g, before, missing) && O.TreesOk(orphans.blocks)
      ensures if event.Included? then O.Pruned(old(orphans.blocks), orphans.blocks, Height(finalized), expired, missing)
              else missing == [] && orphans.blocks == old(orphans.blocks)
    {
      hide Inv, C.PostBlockIncluded, C.PostBlockFinalized, O.Pruned;
      missing := [];
      match event {
        case Included(h) => missing := PostBlockIncluded(h, expired);
        case Finalized(h, _, _) => PostBlockFinalized(h);
        case _ =>
      }
    }
  }

  lemma PrunedIsSubset(before: O.Trees, after: O.Trees, minHeight: nat, expired: set<Hash>, missing: seq<Hash>)
    requires O.Pruned(before, after, minHeight, expired, missing)
    ensures after.Keys <= before.Keys && after == before - (before.Keys - after.Keys)
  {
  }

  /** Taking an event out of the queue keeps the invariant; an inclusion names a block. */
  lemma Popping(g: C.Config, actions: seq<C.Action>, s: C.Chain)
    requires g.Valid() && s == C.Run(g, actions) && s.queue != []
    ensures Inv(g, s.(queue := s.queue[1..], popped := s.popped + [s.queue[0]]))
    ensures s.queue[0].Included? ==> s.queue[0].hash.Of?
  {
    hide C.Run, Linked, AllTallied, AllCounted, AllPlaced, FinalityOk, OwnVotesOk;
    RunInv(g, actions);
    if s.queue[0].Included? { IncludedIsBlock(g, s); }
    SameInv(g, s, s.(queue := s.queue[1..], popped := s.popped + [s.queue[0]]));
  }

  lemma IncludedIsBlock(g: C.Config, s: C.Chain)
    requires g.epochBlocks > 0 && AllPlaced(g, s.nodes, s.finalized, C.Stream(s)) && s.queue != []
      && s.queue[0].Included?
    ensures s.queue[0].hash.Of?
  {
    var h := s.queue[0].hash;
    assert PlaceOk(g, s.nodes, s.finalized, C.Stream(s), h);
    hide PlaceOk;
    CountConcat(s.popped, s.queue, KIncluded, h);
    CountConcat([s.queue[0]], s.queue[1..], KIncluded, h);
    assert s.queue == [s.queue[0]] + s.queue[1..];
    assert Count([s.queue[0]], KIncluded, h) == 1;
  }

  lemma RunStep(g: C.Config, actions: seq<C.Action>, a: C.Action)
    requires g.epochBlocks > 0
    ensures C.Run(g, actions + [a]) == C.Step(g, C.Run(g, actions), a)
  {
    assert (actions + [a])[..|actions + [a]| - 1] == actions;
  }

  lemma NoLateVotes(g: C.Config, s: C.Chain)
    ensures C.IngestVotes(g, s, []) == s
  {
  }

  /** Finalizing the root that was found is the next step of `FinalizeAll`. */
  lemma NextFinalization(g: C.Config, s: C.Chain)
    requires g.Valid() && Inv(g, s)
    ensures var i := C.FindFinalizable(g, s.nodes, s.roots);
            i < |s.roots| ==>
              && s.roots[i] in s.nodes
              && Inv(g, C.FinalizeRoot(g, s, i))
              && |C.FinalizeRoot(g, s, i).nodes| < |s.nodes|
              && C.FinalizeAll(g, s) == C.FinalizeAll(g, C.FinalizeRoot(g, s, i))
  {
    var i := C.FindFinalizable(g, s.nodes, s.roots);
    if i < |s.roots| {
      RootIsNode(s.nodes, s.roots, s.finalized, i);
      FinalizeInv(g, s, i);
      C.PromoteShrinks(s.nodes, s.roots[i]);
    }
  }

  lemma AllAreBlocks(nodes: Nodes, roots: seq<Hash>, finalized: Hash)
    requires Linked(nodes, roots, finalized)
    ensures forall h | h in nodes :: h.Of?
  {
  }

  lemma WithoutAreRoots(nodes: Nodes, roots: seq<Hash>, finalized: Hash, i: nat)
    requires Linked(nodes, roots, finalized) && i < |roots|
    ensures forall h | h in Without(roots, i) :: h in nodes
  {
  }

  function Unconfirmed(nodes: Nodes, h: Hash, quorum: nat): seq<Hash> {
    if h !in nodes then [] else
    (if nodes[h].votes < quorum then [h] else []) + (if h.Of? then Unconfirmed(nodes, h.block.parent, quorum) else [])
  }

  lemma UnconfirmedHere(nodes: Nodes, h: Hash, quorum: nat)
    requires h in nodes && h.Of?
    ensures var above := Unconfirmed(nodes, h.block.parent, quorum);
            Unconfirmed(nodes, h, quorum) == if nodes[h].votes < quorum then [h] + above else above
  {
  }

  lemma NoneUnconfirmed(nodes: Nodes, h: Hash, quorum: nat)
    requires h !in nodes
    ensures Unconfirmed(nodes, h, quorum) == []
  {
  }

  /** Confirmations for those of the given blocks that reached the quorum, the last one first. */
  function Announce(nodes: Nodes, us: seq<Hash>, quorum: nat): seq<C.Event> {
    if us == [] then [] else
    Announce(nodes, us[1..], quorum)
    + (if VotesOf(nodes, us[0]) >= quorum then [C.Confirmed(us[0], VotesOf(nodes, us[0]))] else [])
  }

  lemma {:induction false} BatchIsAnnounced(before: Nodes, after: Nodes, h: Hash, quorum: nat)
    requires before.Keys == after.Keys
    ensures Announce(after, Unconfirmed(before, h, quorum), quorum) == C.NewlyConfirmed(before, after, h, quorum)
  {
    if h !in before {
    } else {
      var rest := if h.Of? then Unconfirmed(before, h.block.parent, quorum) else [];
      if h.Of? { BatchIsAnnounced(before, after, h.block.parent, quorum); }
      if before[h].votes < quorum {
        assert ([h] + rest)[1..] == rest;
      } else {
        assert [] + rest == rest;
      }
    }
  }

  lemma {:induction false} UnconfirmedAreNodes(nodes: Nodes, h: Hash, quorum: nat)
    ensures forall u | u in Unconfirmed(nodes, h, quorum) :: u in nodes
  {
    if h in nodes && h.Of? { UnconfirmedAreNodes(nodes, h.block.parent, quorum); }
  }
}
