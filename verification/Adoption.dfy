/** `include` with its adoption of waiting orphans (src/consensus/chain.rs:470-548): termination, and
    the separation of the orphan pool from the chain. */
module Adoption {
  import opened Blocks
  import opened ForkTree
  import opened Consensus
  import opened Orphans

  datatype World = World(chain: Chain, trees: Trees)

  /** What becomes of the orphans after an attempt to include b: an unmatched block joins them, a
      consumed one releases the tree that waited for it. */
  ghost predicate Sorted(before: Trees, b: Block, attempt: Attempt, after: Trees, more: seq<Block>) {
    match attempt
    case Rejected => after == before && more == []
    case Orphaned => Added(before, b, after) && more == []
    case Consumed => after == before - {Of(b)} && if Of(b) in before then IsFlat(before[Of(b)], more) else more == []
  }

  /** One call of `include` up to its loop over adopted orphans: `more` are the blocks that were
      waiting for b, in an order in which parents come first. */
  ghost predicate Processed(g: Config, w: World, b: Block, w': World, more: seq<Block>)
    requires g.epochBlocks > 0
  {
    var (s', attempt) := Offer(g, w.chain, b);
    w'.chain == s' && Sorted(w.trees, b, attempt, w'.trees, more)
  }

  /** Working through a list of blocks, each with everything it releases before the next, in n calls
      of `include`. */
  ghost predicate Drains(g: Config, w: World, work: seq<Block>, w': World, n: nat)
    requires g.epochBlocks > 0
    decreases n
  {
    if n == 0 then work == [] && w' == w
    else
      work != [] && exists w1, more :: Processed(g, w, work[0], w1, more) && Drains(g, w1, more + work[1..], w', n - 1)
  }

  lemma {:induction false} DrainsConcat(g: Config, w: World, a: seq<Block>, w1: World, m: nat, b: seq<Block>,
        w2: World, n: nat)
    requires g.epochBlocks > 0 && Drains(g, w, a, w1, m) && Drains(g, w1, b, w2, n)
    ensures Drains(g, w, a + b, w2, m + n)
    decreases m
  {
    hide Processed;
    if m == 0 {
      assert a + b == b;
    } else {
      var w0, more :| Processed(g, w, a[0], w0, more) && Drains(g, w0, more + a[1..], w1, m - 1);
      DrainsConcat(g, w0, more + a[1..], w1, m - 1, b, w2, n);
      assert more + a[1..] + b == more + (a + b)[1..];
      assert Processed(g, w, (a + b)[0], w0, more) && Drains(g, w0, more + (a + b)[1..], w2, m + n - 1);
    }
  }

  /** A call of `include` is its own step and then the drain of what it releases. */
  lemma StepThenDrain(g: Config, w: World, b: Block, w1: World, more: seq<Block>, w2: World, m: nat)
    requires g.epochBlocks > 0 && Processed(g, w, b, w1, more) && Drains(g, w1, more, w2, m)
    ensures Drains(g, w, [b], w2, m + 1)
  {
    hide Processed;
    assert more + [b][1..] == more;
    assert Processed(g, w, [b][0], w1, more) && Drains(g, w1, more + [b][1..], w2, m);
  }

  lemma NothingToDrain(g: Config, w: World)
    requires g.epochBlocks > 0
    ensures Drains(g, w, [], w, 0)
  {
  }

  /** The offers that a drain makes, in order. */
  lemma {:induction false} DrainIsOffers(g: Config, w: World, work: seq<Block>, w': World, n: nat,
        before: seq<Action>)
    returns (offers: seq<Action>)
    requires g.epochBlocks > 0 && Drains(g, w, work, w', n) && w.chain == Run(g, before)
    ensures |offers| == n && w'.chain == Run(g, before + offers)
    ensures forall a | a in offers :: a.OfferBlock?
    decreases n
  {
    hide Offer, Sorted;
    if n == 0 {
      offers := [];
      assert before + [] == before;
    } else {
      var w1, more :| Processed(g, w, work[0], w1, more) && Drains(g, w1, more + work[1..], w', n - 1);
      var first := [OfferBlock(work[0])];
      assert (before + first)[..|before + first| - 1] == before;
      var rest := DrainIsOffers(g, w1, more + work[1..], w', n - 1, before + first);
      offers := first + rest;
      assert before + offers == before + first + rest;
    }
  }

  // ----- termination

  /** The waiting blocks, each with the tree it waits in. */
  ghost function Waits(trees: Trees): set<(Hash, Block)> {
    set k, x | k in trees && x in trees[k].Members() :: (k, x)
  }

  ghost function Tagged(k: Hash, xs: set<Block>): set<(Hash, Block)> {
    set x | x in xs :: (k, x)
  }

  lemma {:induction false} TaggedSize(k: Hash, xs: set<Block>)
    ensures |Tagged(k, xs)| == |xs|
  {
    if xs == {} {
    } else {
      var x :| x in xs;
      TaggedSize(k, xs - {x});
      assert Tagged(k, xs) == Tagged(k, xs - {x}) + {(k, x)};
    }
  }

  lemma WaitsGrown(trees: Trees, k: Hash, b: Block, tree: OrphanTree)
    requires k in trees && tree.Members() == trees[k].Members() + {b}
    ensures Waits(trees[k := tree]) == Waits(trees) + {(k, b)}
  {
    hide OrphanTree.Members;
  }

  lemma WaitsNew(trees: Trees, k: Hash, b: Block)
    requires k !in trees
    ensures Waits(trees[k := OrphanTree(b, map[])]) == Waits(trees) + {(k, b)}
  {
    var tree := OrphanTree(b, map[]);
    assert tree.Members() == {b};
    hide OrphanTree.Members;
    assert forall j | j in trees :: trees[k := tree][j] == trees[j];
  }

  lemma AddedWaits(trees: Trees, b: Block, after: Trees)
    requires Added(trees, b, after)
    ensures |Waits(after)| <= |Waits(trees)| + 1
    ensures Waits(trees) <= Waits(after)
    ensures exists k :: Waits(after) <= Waits(trees) + {(k, b)}
  {
    hide Waits, OrphanTree.Members;
    ghost var k: Hash := b.parent;
    if SomeTakes(trees, b) {
      k :| k in trees && trees[k].Takes(b) && k in after && trees[k].Grown(b, after[k])
        && after == trees[k := after[k]];
      WaitsGrown(trees, k, b, after[k]);
    } else if b.parent !in trees {
      WaitsNew(trees, k, b);
    }
    assert Waits(after) <= Waits(trees) + {(k, b)};
    SubsetSize(Waits(after), Waits(trees) + {(k, b)});
  }

  lemma WaitsWithout(trees: Trees, h: Hash)
    requires h in trees
    ensures Waits(trees) == Waits(trees - {h}) + Tagged(h, trees[h].Members())
    ensures Waits(trees - {h}) !! Tagged(h, trees[h].Members())
  {
  }

  lemma RemovedWaits(trees: Trees, h: Hash, flat: seq<Block>)
    requires h in trees && IsFlat(trees[h], flat)
    ensures |Waits(trees - {h})| + |flat| == |Waits(trees)|
  {
    var members := trees[h].Members();
    var gone := Tagged(h, members);
    TaggedSize(h, members);
    WaitsWithout(trees, h);
    hide Waits, Tagged;
    FlatSize(flat);
    assert (set x | x in flat) == members;
  }

  lemma {:induction false} FlatSize(flat: seq<Block>)
    requires forall i, j | 0 <= i < j < |flat| :: flat[i] != flat[j]
    ensures |set x | x in flat| == |flat|
  {
    if flat == [] {
    } else {
      var init, last := flat[..|flat| - 1], flat[|flat| - 1];
      FlatSize(init);
      assert flat == init + [last];
      assert (set x | x in flat) == (set x | x in init) + {last};
    }
  }

  /** Each call shrinks (waiting + pending, pending) lexicographically, so adoption terminates. */
  lemma AdoptionTerminates(g: Config, w: World, work: seq<Block>, w1: World, more: seq<Block>)
    requires g.epochBlocks > 0 && work != [] && Processed(g, w, work[0], w1, more)
    ensures var pending := more + work[1..];
            || |Waits(w1.trees)| + |pending| < |Waits(w.trees)| + |work|
            || (|Waits(w1.trees)| + |pending| == |Waits(w.trees)| + |work| && |pending| < |work|)
  {
    match Offer(g, w.chain, work[0]).1
    case Rejected =>
    case Orphaned => AddedWaits(w.trees, work[0], w1.trees);
    case Consumed =>
      var h := Of(work[0]);
      if h in w.trees { RemovedWaits(w.trees, h, more); } else { assert w.trees - {h} == w.trees; }
  }

  // ----- what the pool keeps

  /** No tree waits on a block that is there, and no waiting block is in the forest or finalized. */
  ghost predicate PoolOk(s: Chain, trees: Trees) {
    && TreesOk(trees)
    && (forall k | k in trees :: k !in s.nodes && k != s.finalized)
    && (forall k, x | k in trees && x in trees[k].Members() :: Of(x) !in s.nodes && Of(x) != s.finalized)
  }

  /** A waiting block's parent is missing: it is the key of the tree or another waiting block. */
  lemma ParentMissing(s: Chain, trees: Trees, k: Hash, x: Block)
    requires PoolOk(s, trees) && k in trees && x in trees[k].Members()
    ensures x.parent !in s.nodes && x.parent != s.finalized
  {
    trees[k].MembersDescend(x);
    if x != trees[k].block {
      var y :| y in trees[k].Members() && Of(y) == x.parent;
    }
  }

  ghost predicate Effect(s: Chain, b: Block, s': Chain, attempt: Attempt) {
    && s'.finalized == s.finalized && s'.store == s.store
    && (attempt.Consumed? ==>
          && s'.nodes.Keys == s.nodes.Keys + {Of(b)}
          && (Of(b) !in s.nodes ==> b.parent == s.finalized || b.parent in s.nodes))
    && (!attempt.Consumed? ==> s' == s)
    && (attempt.Orphaned? ==> b.parent != s.finalized && b.parent !in s.nodes && Of(b) !in s.nodes)
    && (!attempt.Rejected? ==> Of(b) != s.finalized)
  }

  lemma TryIncludeEffect(g: Config, s: Chain, b: Block)
    requires Of(b) != s.finalized
    ensures Effect(s, b, TryInclude(g, s, b).0, TryInclude(g, s, b).1)
  {
    hide ViewAt;
  }

  lemma OfferEffect(g: Config, s: Chain, b: Block)
    requires g.epochBlocks > 0
    ensures Effect(s, b, Offer(g, s, b).0, Offer(g, s, b).1)
  {
    hide TryInclude, HeadHash, MayVote;
    if b.height > Height(s.finalized) {
      TryIncludeEffect(g, s, b);
    }
  }

  lemma AddedContents(trees: Trees, b: Block, after: Trees)
    requires TreesOk(trees) && Added(trees, b, after)
    ensures TreesOk(after)
    ensures forall k | k in after :: k in trees || k == b.parent
    ensures forall k, x | k in after && x in after[k].Members() :: x == b || (k in trees && x in trees[k].Members())
  {
    hide OrphanTree.Takes;
    if SomeTakes(trees, b) {
      var k :| k in trees && trees[k].Takes(b) && k in after && trees[k].Grown(b, after[k])
        && after == trees[k := after[k]];
      hide SomeTakes, OrphanTree.Members;
    }
  }

  lemma AddedPool(s: Chain, trees: Trees, b: Block, after: Trees)
    requires PoolOk(s, trees) && Added(trees, b, after)
    requires b.parent != s.finalized && b.parent !in s.nodes && Of(b) !in s.nodes && Of(b) != s.finalized
    ensures PoolOk(s, after)
  {
    hide Added, TreesOk, OrphanTree.Members;
    AddedContents(trees, b, after);
  }

  lemma ProcessedPool(g: Config, w: World, b: Block, w': World, more: seq<Block>)
    requires g.epochBlocks > 0 && PoolOk(w.chain, w.trees) && Processed(g, w, b, w', more)
    ensures PoolOk(w'.chain, w'.trees)
  {
    hide Offer;
    OfferEffect(g, w.chain, b);
    var (s', attempt) := Offer(g, w.chain, b);
    if attempt.Orphaned? {
      AddedPool(w.chain, w.trees, b, w'.trees);
    } else if attempt.Consumed? {
      forall k, x | k in w'.trees && x in w'.trees[k].Members() ensures Of(x) != Of(b) || Of(b) in w.chain.nodes {
        ParentMissing(w.chain, w.trees, k, x);
      }
    }
  }

  lemma {:induction false} DrainsPool(g: Config, w: World, work: seq<Block>, w': World, n: nat)
    requires g.epochBlocks > 0 && PoolOk(w.chain, w.trees) && Drains(g, w, work, w', n)
    ensures PoolOk(w'.chain, w'.trees)
    decreases n
  {
    if n == 0 {
    } else {
      var w1, more :| Processed(g, w, work[0], w1, more) && Drains(g, w1, more + work[1..], w', n - 1);
      ProcessedPool(g, w, work[0], w1, more);
      DrainsPool(g, w1, more + work[1..], w', n - 1);
    }
  }

  // ----- every list of deliveries can be worked through

  lemma AddedExists(trees: Trees, b: Block) returns (after: Trees)
    requires TreesOk(trees)
    ensures Added(trees, b, after)
  {
    if SomeTakes(trees, b) {
      var k :| k in trees && trees[k].Takes(b);
      var tree := GrowthExists(trees[k], b);
      hide OrphanTree.Takes, OrphanTree.Grown;
      after := trees[k := tree];
    } else {
      after := if b.parent in trees then trees else trees[b.parent := OrphanTree(b, map[])];
    }
  }

  lemma ProcessedExists(g: Config, w: World, b: Block) returns (w1: World, more: seq<Block>)
    requires g.epochBlocks > 0 && TreesOk(w.trees)
    ensures Processed(g, w, b, w1, more)
  {
    hide Offer, TreesOk, Added, IsFlat;
    var (s', attempt) := Offer(g, w.chain, b);
    more := [];
    var trees := w.trees;
    if attempt.Orphaned? {
      trees := AddedExists(w.trees, b);
    } else if attempt.Consumed? {
      trees := w.trees - {Of(b)};
      if Of(b) in w.trees {
        TreeOk(w.trees, Of(b));
        more := FlatExists(w.trees[Of(b)]);
      }
    }
    w1 := World(s', trees);
  }

  lemma TreeOk(trees: Trees, k: Hash)
    requires TreesOk(trees) && k in trees
    ensures trees[k].Ok()
  {
  }

  /** Whatever is delivered, adoption comes to an end. */
  lemma {:induction false} DrainExists(g: Config, w: World, work: seq<Block>) returns (w': World, n: nat)
    requires g.epochBlocks > 0 && PoolOk(w.chain, w.trees)
    ensures Drains(g, w, work, w', n)
    decreases |Waits(w.trees)| + |work|, |work|
  {
    hide Processed, PoolOk, Waits;
    if work == [] {
      w', n := w, 0;
    } else {
      PoolTrees(w.chain, w.trees);
      var w1, more := ProcessedExists(g, w, work[0]);
      AdoptionTerminates(g, w, work, w1, more);
      ProcessedPool(g, w, work[0], w1, more);
      var m;
      w', m := DrainExists(g, w1, more + work[1..]);
      n := m + 1;
    }
  }

  lemma PoolTrees(s: Chain, trees: Trees)
    requires PoolOk(s, trees)
    ensures TreesOk(trees)
  {
  }

  // ----- polling

  lemma {:induction false} VotesKeepForest(g: Config, s: Chain, vs: seq<Vote>)
    ensures IngestVotes(g, s, vs).nodes.Keys == s.nodes.Keys && IngestVotes(g, s, vs).finalized == s.finalized
    decreases |vs|
  {
    if vs == [] {
    } else {
      VotesKeepForest(g, IngestVote(g, s, vs[0]), vs[1..]);
    }
  }

  lemma {:induction false} FinalizingShrinks(g: Config, s: Chain)
    requires g.epochBlocks > 0
    ensures FinalizeAll(g, s).nodes.Keys <= s.nodes.Keys
    ensures FinalizeAll(g, s).finalized == s.finalized || FinalizeAll(g, s).finalized in s.nodes
    decreases |s.nodes|
  {
    var i := FindFinalizable(g, s.nodes, s.roots);
    if i < |s.roots| && s.roots[i] in s.nodes {
      PromoteShrinks(s.nodes, s.roots[i]);
      FinalizingShrinks(g, FinalizeRoot(g, s, i));
    }
  }

  lemma PollShrinks(g: Config, s: Chain, missing: seq<Hash>)
    requires g.epochBlocks > 0
    ensures Poll(g, s, missing).nodes.Keys <= s.nodes.Keys
    ensures Poll(g, s, missing).finalized == s.finalized || Poll(g, s, missing).finalized in s.nodes
  {
    hide IngestVotes, FinalizeAll;
    if s.queue != [] && s.queue[0].Included? {
      var h := s.queue[0].hash;
      var s' := s.(queue := s.queue[1..], popped := s.popped + [s.queue[0]]);
      var vs := if h.Of? then h.block.votes else [];
      VotesKeepForest(g, s', vs);
      var s1 := IngestVotes(g, s', vs);
      VotesKeepForest(g, s1.(waiting := s1.waiting - {h}), Waiting(s1.waiting, h));
      FinalizingShrinks(g, IngestWaiting(g, s1, h));
    }
  }

  /** Polling, which may also prune trees, keeps the pool apart from the chain. */
  lemma PollPool(g: Config, s: Chain, missing: seq<Hash>, trees: Trees, pruned: set<Hash>)
    requires g.epochBlocks > 0 && PoolOk(s, trees)
    ensures PoolOk(Poll(g, s, missing), trees - pruned)
  {
    hide Poll;
    PollShrinks(g, s, missing);
  }
}
