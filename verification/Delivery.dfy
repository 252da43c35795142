/** A line of valid blocks ends up in the fork tree whatever the order in which it is delivered. */
module Delivery {
  import opened Primitives
  import opened State
  import opened Blocks
  import opened ForkTree
  import opened Consensus
  import opened Finality
  import opened Invariants
  import opened Orphans
  import opened Adoption

  /** What the i-th block of the line executes on. */
  ghost function ViewBefore(g: Config, s: Chain, line: seq<Block>, i: nat): Accounts
    requires i <= |line|
  {
    if i == 0 then s.store else
    var before, h := ViewBefore(g, s, line, i - 1), Of(line[i - 1]);
    if h in s.nodes then s.nodes[h].diff.Over(before)
    else match g.execute(before, line[i - 1]) case Some(diff) => diff.Over(before) case None => before
  }

  /** Blocks on top of the finalized block, each the parent of the next, that a proposer with stake
      signed and that the virtual machine accepts where they belong. */
  ghost predicate ValidLine(g: Config, s: Chain, line: seq<Block>) {
    forall i | 0 <= i < |line| :: ValidAt(g, s, line, i)
  }

  ghost predicate ValidAt(g: Config, s: Chain, line: seq<Block>, i: nat)
    requires i < |line|
  {
    && line[i].parent == (if i == 0 then s.finalized else Of(line[i - 1]))
    && line[i].height == Height(s.finalized) + 1 + i
    && g.MayTakePart(line[i].proposer) && g.blockSigned(line[i])
    && (Of(line[i]) in s.nodes || g.execute(ViewBefore(g, s, line, i), line[i]).Some?)
  }

  /** Since s0 nothing was finalized, and the line's blocks executed where they belong. */
  ghost predicate OnTrack(g: Config, s0: Chain, line: seq<Block>, s: Chain) {
    && s.finalized == s0.finalized && s.store == s0.store && s0.nodes.Keys <= s.nodes.Keys
    && (forall i | 0 <= i < |line| && Of(line[i]) in s.nodes :: ReadsAsPlanned(g, s0, line, s, i))
  }

  ghost predicate ReadsAsPlanned(g: Config, s0: Chain, line: seq<Block>, s: Chain, i: nat)
    requires i < |line|
  {
    ViewAt(s.nodes, s.store, Of(line[i])) == ViewBefore(g, s0, line, i + 1)
  }

  lemma {:induction false} StartsOnTrack(g: Config, s: Chain, line: seq<Block>, i: nat)
    requires forall y | y in s.nodes :: y.Of? && (y.block.parent == s.finalized || y.block.parent in s.nodes)
    requires s.finalized !in s.nodes && ValidLine(g, s, line)
    requires i < |line| && Of(line[i]) in s.nodes
    ensures ReadsAsPlanned(g, s, line, s, i)
  {
    assert ValidAt(g, s, line, i);
    if i == 0 {
    } else {
      assert ValidAt(g, s, line, i - 1);
      StartsOnTrack(g, s, line, i - 1);
    }
  }

  lemma {:induction false} OldViewsStay(nodes: Nodes, finalized: Hash, base: Accounts, h: Hash, diff: StateDiff,
        x: Hash)
    requires forall y | y in nodes :: y.Of? && (y.block.parent == finalized || y.block.parent in nodes)
    requires h.Of? && h !in nodes && h != finalized && finalized !in nodes && (x in nodes || x == finalized)
    ensures ViewAt(AddLeaf(nodes, h, diff), base, x) == ViewAt(nodes, base, x)
  {
    if x !in nodes {
    } else {
      OldViewsStay(nodes, finalized, base, h, diff, x.block.parent);
    }
  }

  /** Where the parent of a line's block is in the chain, its view is the one the line prescribes. */
  lemma ParentView(g: Config, s0: Chain, line: seq<Block>, s: Chain, j: nat)
    requires Linked(s.nodes, s.roots, s.finalized) && ValidLine(g, s0, line) && OnTrack(g, s0, line, s) && j < |line|
    requires line[j].parent == s.finalized || line[j].parent in s.nodes
    ensures ViewAt(s.nodes, s.store, line[j].parent) == ViewBefore(g, s0, line, j)
  {
    FinalizedNotANode(s.nodes, s.roots, s.finalized);
    assert ValidAt(g, s0, line, j);
    if j > 0 {
      assert ValidAt(g, s0, line, j - 1);
      assert ReadsAsPlanned(g, s0, line, s, j - 1);
    }
  }

  /** `include` has no reason to reject b. */
  ghost predicate Admissible(g: Config, s: Chain, b: Block) {
    && g.MayTakePart(b.proposer) && g.blockSigned(b) && b.height > Height(s.finalized)
    && (Of(b) !in s.nodes && (b.parent == s.finalized || b.parent in s.nodes) ==>
          b.height == Height(b.parent) + 1 && g.execute(ViewAt(s.nodes, s.store, b.parent), b).Some?)
  }

  lemma LineAdmissible(g: Config, s0: Chain, line: seq<Block>, s: Chain, j: nat)
    requires Linked(s.nodes, s.roots, s.finalized) && ValidLine(g, s0, line) && OnTrack(g, s0, line, s) && j < |line|
    ensures Admissible(g, s, line[j])
  {
    assert ValidAt(g, s0, line, j);
    if j > 0 { assert ValidAt(g, s0, line, j - 1); }
    if line[j].parent == s.finalized || line[j].parent in s.nodes {
      ParentView(g, s0, line, s, j);
    }
    hide Linked, ViewAt, ViewBefore;
  }

  /** A block of the line is consumed when its parent is there, and orphaned otherwise. */
  lemma NotRejected(g: Config, s: Chain, b: Block)
    requires g.epochBlocks > 0 && Admissible(g, s, b)
    ensures !Offer(g, s, b).1.Rejected?
  {
    hide HeadHash, ViewAt, AddLeaf, MayVote;
  }

  lemma InsertOnTrack(g: Config, s0: Chain, line: seq<Block>, s: Chain, b: Block, diff: StateDiff, i: nat)
    requires Linked(s.nodes, s.roots, s.finalized) && ValidLine(g, s0, line) && OnTrack(g, s0, line, s) && i < |line|
    requires Fits(s.nodes, s.finalized, Of(b)) && Of(b) != s.finalized
    requires g.execute(ViewAt(s.nodes, s.store, b.parent), b) == Some(diff)
    requires Of(line[i]) in AddLeaf(s.nodes, Of(b), diff)
    ensures ViewAt(AddLeaf(s.nodes, Of(b), diff), s.store, Of(line[i])) == ViewBefore(g, s0, line, i + 1)
  {
    hide RootsOk, ChildrenOk, Grounded, Descends, ValidLine;
    FinalizedNotANode(s.nodes, s.roots, s.finalized);
    if line[i] == b {
      ParentView(g, s0, line, s, i);
      OldViewsStay(s.nodes, s.finalized, s.store, Of(b), diff, b.parent);
    } else {
      assert ReadsAsPlanned(g, s0, line, s, i);
      OldViewsStay(s.nodes, s.finalized, s.store, Of(b), diff, Of(line[i]));
    }
  }

  lemma OfferInserts(g: Config, s: Chain, b: Block)
    requires g.epochBlocks > 0 && Offer(g, s, b).0.nodes != s.nodes
    ensures Of(b) != s.finalized && Fits(s.nodes, s.finalized, Of(b))
    ensures g.execute(ViewAt(s.nodes, s.store, b.parent), b).Some?
    ensures Offer(g, s, b).0.nodes == AddLeaf(s.nodes, Of(b), g.execute(ViewAt(s.nodes, s.store, b.parent), b).value)
  {
    hide HeadHash, MayVote, ViewAt, AddLeaf;
  }

  lemma OfferOnTrack(g: Config, s0: Chain, line: seq<Block>, s: Chain, b: Block)
    requires g.epochBlocks > 0
    requires Linked(s.nodes, s.roots, s.finalized) && ValidLine(g, s0, line) && OnTrack(g, s0, line, s)
    ensures OnTrack(g, s0, line, Offer(g, s, b).0)
  {
    hide Linked, ValidLine, ViewBefore, ViewAt, AddLeaf, Fits, Offer;
    OfferEffect(g, s, b);
    var (s', attempt) := Offer(g, s, b);
    if s'.nodes != s.nodes {
      OfferInserts(g, s, b);
      var diff := g.execute(ViewAt(s.nodes, s.store, b.parent), b).value;
      forall i | 0 <= i < |line| && Of(line[i]) in s'.nodes ensures ReadsAsPlanned(g, s0, line, s', i) {
        InsertOnTrack(g, s0, line, s, b, diff, i);
      }
    } else {
      forall i | 0 <= i < |line| && Of(line[i]) in s'.nodes ensures ReadsAsPlanned(g, s0, line, s', i) {
        assert ReadsAsPlanned(g, s0, line, s, i);
      }
    }
  }

  // ----- what a step does to the pool

  lemma AddedKeeps(trees: Trees, b: Block, after: Trees, x: Block)
    requires Added(trees, b, after)
    ensures Pooled(trees, x) ==> Pooled(after, x)
    ensures Pooled(after, x) ==> Pooled(trees, x) || x == b
    ensures SomeTakes(trees, b) || b.parent !in trees ==> Pooled(after, b)
  {
    if SomeTakes(trees, b) {
      var k :| k in trees && trees[k].Takes(b) && k in after && trees[k].Grown(b, after[k])
        && after == trees[k := after[k]];
      if Pooled(trees, x) {
        var j :| j in trees && x in trees[j].Members();
        assert j in after && x in after[j].Members();
      }
      if Pooled(after, x) {
        var j :| j in after && x in after[j].Members();
        assert j in trees;
      }
      assert b in after[k].Members();
    } else if b.parent !in trees {
      assert after[b.parent].Members() == {b};
      assert b in after[b.parent].Members();
      if Pooled(trees, x) {
        var j :| j in trees && x in trees[j].Members();
        assert j in after && x in after[j].Members();
      }
      if Pooled(after, x) {
        var j :| j in after && x in after[j].Members();
        assert j != b.parent ==> j in trees;
      }
    }
  }

  lemma RemovedKeeps(trees: Trees, h: Hash, x: Block)
    ensures Pooled(trees, x) <==> Pooled(trees - {h}, x) || (h in trees && x in trees[h].Members())
  {
    if Pooled(trees, x) {
      var k :| k in trees && x in trees[k].Members();
      if k != h { assert k in trees - {h} && x in (trees - {h})[k].Members(); }
    }
    if Pooled(trees - {h}, x) {
      var k :| k in trees - {h} && x in (trees - {h})[k].Members();
      assert k in trees && x in trees[k].Members();
    }
  }

  lemma Consuming(g: Config, s: Chain, b: Block)
    requires g.epochBlocks > 0
    ensures Offer(g, s, b).1.Consumed? ==> Of(b) in Offer(g, s, b).0.nodes
    ensures s.nodes.Keys <= Offer(g, s, b).0.nodes.Keys
  {
    hide Offer;
    OfferEffect(g, s, b);
  }

  /** A waiting block waits on or is handed out, and nothing else comes up. */
  lemma StepKeeps(g: Config, w: World, b: Block, w1: World, more: seq<Block>, x: Block)
    requires g.epochBlocks > 0 && Processed(g, w, b, w1, more)
    ensures Pooled(w.trees, x) ==> Pooled(w1.trees, x) || x in more
    ensures Pooled(w1.trees, x) || x in more ==> Pooled(w.trees, x) || (x == b && Offer(g, w.chain, b).1.Orphaned?)
    ensures w1.chain.finalized == w.chain.finalized && w.chain.nodes.Keys <= w1.chain.nodes.Keys
  {
    hide Offer, OrphanTree.Members;
    OfferEffect(g, w.chain, b);
    match Offer(g, w.chain, b).1
    case Rejected =>
    case Orphaned => AddedKeeps(w.trees, b, w1.trees, x);
    case Consumed => RemovedKeeps(w.trees, Of(b), x);
  }

  // ----- a block of the line that is secure

  predicate Known(s: Chain, h: Hash) {
    h == s.finalized || h in s.nodes
  }

  /** The block passes the checks that `include` makes before it looks for the parent. */
  predicate Admitted(g: Config, s: Chain, x: Block) {
    g.MayTakePart(x.proposer) && g.blockSigned(x) && x.height > Height(s.finalized)
  }

  predicate Competes(x: Block, c: Block) {
    x != c && x.parent == c.parent
  }

  ghost predicate InPool(trees: Trees, h: Hash) {
    h.Of? && Pooled(trees, h.block)
  }

  /** The block with hash p is dealt with before any copy of c. */
  ghost predicate Ahead(work: seq<Block>, p: Hash, c: Block) {
    exists k :: 0 < k <= |work| && Of(work[k - 1]) == p && c !in work[..k]
  }

  /** Nothing waits on c's parent, and no admitted competitor of c is dealt with before c. */
  ghost predicate Clear(g: Config, w: World, work: seq<Block>, c: Block) {
    && c.parent !in w.trees
    && (forall j | 0 <= j < |work| && Competes(work[j], c) && Admitted(g, w.chain, work[j]) :: c in work[..j])
  }

  /** c is in the chain or waits for its parent, or it is still to be dealt with and will find its
      parent or a free place to wait for it. */
  ghost predicate Secure(g: Config, w: World, work: seq<Block>, c: Block) {
    || Of(c) in w.chain.nodes
    || Pooled(w.trees, c)
    || (c in work
        && (Known(w.chain, c.parent) || InPool(w.trees, c.parent) || Ahead(work, c.parent, c) || Clear(g, w, work, c)))
  }

  /** Everything the delivery argument keeps while the work list shrinks. */
  ghost predicate Underway(g: Config, s0: Chain, line: seq<Block>, w: World, work: seq<Block>)
    requires g.epochBlocks > 0
  {
    && Inv(g, w.chain) && PoolOk(w.chain, w.trees) && ValidLine(g, s0, line) && OnTrack(g, s0, line, w.chain)
    && (forall i | 0 <= i < |line| :: Secure(g, w, work, line[i]))
  }

  lemma LineFacts(g: Config, s0: Chain, line: seq<Block>, w: World, work: seq<Block>, i: nat)
    requires g.epochBlocks > 0 && Underway(g, s0, line, w, work) && i < |line|
    ensures line[i].parent == (if i == 0 then w.chain.finalized else Of(line[i - 1]))
    ensures i > 0 ==> line[i - 1].height < line[i].height
    ensures Admitted(g, w.chain, line[i]) && Secure(g, w, work, line[i]) && (i > 0 ==> Secure(g, w, work, line[i - 1]))
    ensures !Offer(g, w.chain, line[i]).1.Rejected? && PoolOk(w.chain, w.trees)
  {
    assert ValidAt(g, s0, line, i);
    if i > 0 { assert ValidAt(g, s0, line, i - 1); }
    LineAdmissible(g, s0, line, w.chain, i);
    NotRejected(g, w.chain, line[i]);
  }

  /** Dealing with a block of the line puts it into the chain or the pool. */
  lemma LineSettles(g: Config, s0: Chain, line: seq<Block>, w: World, work: seq<Block>, w1: World, more: seq<Block>,
        i: nat)
    requires g.epochBlocks > 0 && Underway(g, s0, line, w, work) && i < |line|
    requires work != [] && work[0] == line[i] && Processed(g, w, work[0], w1, more)
    ensures Of(line[i]) in w1.chain.nodes || Pooled(w1.trees, line[i])
  {
    var c := line[i];
    LineFacts(g, s0, line, w, work, i);
    OfferEffect(g, w.chain, c);
    Consuming(g, w.chain, c);
    hide Underway, Offer, OrphanTree.Members;
    if Offer(g, w.chain, c).1.Orphaned? {
      AddedKeeps(w.trees, c, w1.trees, c);
      FirstIsNotBehind(work, c.parent);
      if InPool(w.trees, c.parent) {
        ParentTakes(w.trees, c.parent.block, c);
      }
    }
  }

  lemma FirstIsNotBehind(work: seq<Block>, p: Hash)
    requires work != []
    ensures !Ahead(work, p, work[0])
  {
    forall k | 0 < k <= |work| ensures work[0] in work[..k] {
      assert work[..k][0] == work[0];
    }
  }

  lemma ParentTakes(trees: Trees, p: Block, c: Block)
    requires Pooled(trees, p) && Of(p) == c.parent && p.height < c.height
    ensures SomeTakes(trees, c)
  {
    var k :| k in trees && p in trees[k].Members();
    assert trees[k].Takes(c);
  }

  /** A waiting block that is handed out follows its parent. */
  lemma HandedOut(g: Config, w: World, b: Block, w1: World, more: seq<Block>, rest: seq<Block>, c: Block)
    requires g.epochBlocks > 0 && PoolOk(w.chain, w.trees) && Processed(g, w, b, w1, more) && c in more
    ensures Known(w1.chain, c.parent) || (Ahead(more + rest, c.parent, c) && InPool(w.trees, c.parent))
  {
    hide Offer, OrphanTree.Members;
    OfferEffect(g, w.chain, b);
    Consuming(g, w.chain, b);
    var q :| 0 <= q < |more| && more[q] == c;
    if q > 0 {
      var j :| 0 <= j < q && Of(more[j]) == more[q].parent;
      assert (more + rest)[j] == more[j] && (more + rest)[..j + 1] == more[..j + 1];
      assert more[j] in more && Pooled(w.trees, more[j]);
    }
  }

  lemma StillAhead(work: seq<Block>, more: seq<Block>, p: Hash, c: Block)
    requires work != [] && Ahead(work, p, c) && c !in more && Of(work[0]) != p
    ensures Ahead(more + work[1..], p, c)
  {
    var k :| 0 < k <= |work| && Of(work[k - 1]) == p && c !in work[..k];
    var work1 := more + work[1..];
    assert work1[|more| + k - 2] == work[k - 1];
    PrefixAfterFirst(work, more, k);
  }

  lemma NowAhead(more: seq<Block>, rest: seq<Block>, p: Block, c: Block)
    requires p in more && c !in more
    ensures Ahead(more + rest, Of(p), c)
  {
    var i :| 0 <= i < |more| && more[i] == p;
    assert (more + rest)[i] == p && (more + rest)[..i + 1] == more[..i + 1];
  }

  lemma PrefixAfterFirst(work: seq<Block>, more: seq<Block>, k: nat)
    requires 0 < k <= |work|
    ensures (more + work[1..])[..|more| + k - 1] == more + work[..k][1..]
    ensures work[..k] == [work[0]] + work[..k][1..]
  {
  }

  /** A free place stays free until c comes to take it. */
  lemma StillClear(g: Config, w: World, work: seq<Block>, w1: World, more: seq<Block>, c: Block)
    requires g.epochBlocks > 0 && PoolOk(w.chain, w.trees) && work != [] && Processed(g, w, work[0], w1, more)
    requires work[0] != c && c !in more && Clear(g, w, work, c) && !InPool(w.trees, c.parent)
    ensures Clear(g, w1, more + work[1..], c)
  {
    hide Offer, OrphanTree.Members, PoolOk, InPool, SomeTakes;
    var b, rest := work[0], work[1..];
    OfferEffect(g, w.chain, b);
    assert Competes(b, c) ==> !Admitted(g, w.chain, b) by { assert work[..0] == []; }
    if Offer(g, w.chain, b).1.Orphaned? {
      OrphanedIsAdmitted(g, w.chain, b);
      PoolTrees(w.chain, w.trees);
      AddedContents(w.trees, b, w1.trees);
    }
    forall j | 0 <= j < |more + rest| && Competes((more + rest)[j], c) && Admitted(g, w1.chain, (more + rest)[j])
      ensures c in (more + rest)[..j]
    {
      if j < |more| {
        NoCompetitorHandedOut(g, w, b, w1, more, c, j);
        assert false;
      } else {
        var k := j - |more| + 1;
        assert (more + rest)[j] == work[k];
        PrefixAfterFirst(work, more, k);
      }
    }
  }

  lemma OrphanedIsAdmitted(g: Config, s: Chain, b: Block)
    requires g.epochBlocks > 0 && Offer(g, s, b).1.Orphaned?
    ensures Admitted(g, s, b)
  {
    hide TryInclude, HeadHash;
  }

  lemma NoCompetitorHandedOut(g: Config, w: World, b: Block, w1: World, more: seq<Block>, c: Block, j: nat)
    requires g.epochBlocks > 0 && PoolOk(w.chain, w.trees) && Processed(g, w, b, w1, more)
    requires c.parent !in w.trees && !InPool(w.trees, c.parent) && j < |more|
    ensures !Competes(more[j], c)
  {
    hide Offer, OrphanTree.Members;
    if j > 0 {
      var i :| 0 <= i < j && Of(more[i]) == more[j].parent;
      assert more[i] in more && Pooled(w.trees, more[i]);
    }
  }

  /** A block of the line that is still to come stays secure. */
  lemma StillComing(g: Config, s0: Chain, line: seq<Block>, w: World, work: seq<Block>, w1: World, more: seq<Block>,
        i: nat)
    requires g.epochBlocks > 0 && Underway(g, s0, line, w, work) && i < |line|
    requires work != [] && Processed(g, w, work[0], w1, more)
    requires work[0] != line[i] && line[i] !in more && line[i] in work && !Pooled(w.trees, line[i])
      && Of(line[i]) !in w.chain.nodes
    ensures Secure(g, w1, more + work[1..], line[i])
  {
    hide Underway, PoolOk, Processed, Offer, Pooled, Ahead, Clear;
    var b, rest, c, p := work[0], work[1..], line[i], line[i].parent;
    LineFacts(g, s0, line, w, work, i);
    StepKeeps(g, w, b, w1, more, c);
    assert c in more + rest;
    if Known(w.chain, p) {
      assert Known(w1.chain, p);
    } else if InPool(w.trees, p) {
      StepKeeps(g, w, b, w1, more, p.block);
      if p.block in more { NowAhead(more, rest, p.block, c); }
    } else if Ahead(work, p, c) {
      if Of(b) == p {
        LineSettles(g, s0, line, w, work, w1, more, i - 1);
      } else {
        StillAhead(work, more, p, c);
      }
    } else {
      StillClear(g, w, work, w1, more, c);
    }
  }

  /** One step keeps a block of the line secure. */
  lemma SecureStep(g: Config, s0: Chain, line: seq<Block>, w: World, work: seq<Block>, w1: World, more: seq<Block>,
        i: nat)
    requires g.epochBlocks > 0 && Underway(g, s0, line, w, work) && i < |line|
    requires work != [] && Processed(g, w, work[0], w1, more)
    ensures Secure(g, w1, more + work[1..], line[i])
  {
    hide Underway, PoolOk, Processed, Offer, Pooled, Ahead, Clear;
    var b, rest, c := work[0], work[1..], line[i];
    LineFacts(g, s0, line, w, work, i);
    StepKeeps(g, w, b, w1, more, c);
    if b == c {
      LineSettles(g, s0, line, w, work, w1, more, i);
    } else if c in more {
      HandedOut(g, w, b, w1, more, rest, c);
    } else if Of(c) !in w1.chain.nodes && !Pooled(w1.trees, c) {
      StillComing(g, s0, line, w, work, w1, more, i);
    }
  }

  lemma UnderwayStep(g: Config, s0: Chain, line: seq<Block>, w: World, work: seq<Block>, w1: World, more: seq<Block>)
    requires g.Valid() && Underway(g, s0, line, w, work)
    requires work != [] && Processed(g, w, work[0], w1, more)
    ensures Underway(g, s0, line, w1, more + work[1..])
  {
    OfferInv(g, w.chain, work[0]);
    OfferOnTrack(g, s0, line, w.chain, work[0]);
    ProcessedPool(g, w, work[0], w1, more);
    hide Inv, PoolOk, OnTrack, ValidLine, Secure, Offer;
    forall i | 0 <= i < |line| ensures Secure(g, w1, more + work[1..], line[i]) {
      SecureStep(g, s0, line, w, work, w1, more, i);
    }
  }

  lemma {:induction false} DrainsKeep(g: Config, s0: Chain, line: seq<Block>, w: World, work: seq<Block>, w': World,
        n: nat)
    requires g.Valid() && Underway(g, s0, line, w, work) && Drains(g, w, work, w', n)
    ensures Underway(g, s0, line, w', [])
    decreases n
  {
    hide Underway, Processed;
    if n == 0 {
    } else {
      var w1, more :| Processed(g, w, work[0], w1, more) && Drains(g, w1, more + work[1..], w', n - 1);
      UnderwayStep(g, s0, line, w, work, w1, more);
      DrainsKeep(g, s0, line, w1, more + work[1..], w', n - 1);
    }
  }

  lemma PooledParentMissing(w: World, c: Block)
    requires PoolOk(w.chain, w.trees) && Pooled(w.trees, c)
    ensures !Known(w.chain, c.parent)
  {
    hide OrphanTree.Members;
    var k :| k in w.trees && c in w.trees[k].Members();
    ParentMissing(w.chain, w.trees, k, c);
  }

  lemma {:induction false} AllArrived(g: Config, s0: Chain, line: seq<Block>, w: World, i: nat)
    requires g.epochBlocks > 0 && Underway(g, s0, line, w, []) && i < |line|
    ensures Of(line[i]) in w.chain.nodes
  {
    hide Underway, PoolOk, Pooled, Ahead, Clear, Offer;
    LineFacts(g, s0, line, w, [], i);
    if i == 0 {
    } else {
      AllArrived(g, s0, line, w, i - 1);
    }
    if Pooled(w.trees, line[i]) { PooledParentMissing(w, line[i]); }
  }

  // ----- the exact condition

  function Elements(ds: seq<Block>): set<Block> {
    set x | x in ds
  }

  /** Among these deliveries c cannot be lost: it is in the chain or in the pool already, or it is delivered
      and its parent is in one of them already, or it is delivered and no waiting tree and no admitted
      block among the deliveries competes with it for the place to wait for its parent. */
  ghost predicate Assured(g: Config, w: World, delivered: set<Block>, c: Block) {
    || Of(c) in w.chain.nodes
    || Pooled(w.trees, c)
    || (c in delivered
        && (|| Known(w.chain, c.parent)
            || InPool(w.trees, c.parent)
            || (c.parent !in w.trees && forall x | x in delivered && Competes(x, c) :: !Admitted(g, w.chain, x))))
  }

  /** Whatever the order and the repetitions, the whole line ends up in the fork tree. */
  ghost predicate AlwaysArrives(g: Config, w: World, line: seq<Block>, delivered: set<Block>)
    requires g.epochBlocks > 0
  {
    forall ds, w', n | Elements(ds) == delivered && Drains(g, w, ds, w', n) ::
      forall c | c in line :: Of(c) in w'.chain.nodes
  }

  lemma AssuredIsSecure(g: Config, w: World, ds: seq<Block>, c: Block)
    requires Assured(g, w, Elements(ds), c)
    ensures Secure(g, w, ds, c)
  {
    hide Pooled, Ahead, Admitted;
  }

  lemma DeliveryStarts(g: Config, w: World, line: seq<Block>, ds: seq<Block>)
    requires g.Valid() && Inv(g, w.chain) && PoolOk(w.chain, w.trees) && ValidLine(g, w.chain, line)
    requires forall c | c in line :: Assured(g, w, Elements(ds), c)
    ensures Underway(g, w.chain, line, w, ds)
  {
    hide PoolOk, ValidLine, AllTallied, AllCounted, AllPlaced, FinalityOk, OwnVotesOk, Secure, Assured;
    FinalizedNotANode(w.chain.nodes, w.chain.roots, w.chain.finalized);
    forall i | 0 <= i < |line| && Of(line[i]) in w.chain.nodes ensures ReadsAsPlanned(g, w.chain, line, w.chain, i) {
      StartsOnTrack(g, w.chain, line, i);
    }
    hide ReadsAsPlanned, RootsOk, ChildrenOk;
    forall i | 0 <= i < |line| ensures Secure(g, w, ds, line[i]) {
      AssuredIsSecure(g, w, ds, line[i]);
    }
  }

  lemma AssuredArrives(g: Config, w: World, line: seq<Block>, ds: seq<Block>, w': World, n: nat)
    requires g.Valid() && Inv(g, w.chain) && PoolOk(w.chain, w.trees) && ValidLine(g, w.chain, line)
    requires forall c | c in line :: Assured(g, w, Elements(ds), c)
    requires Drains(g, w, ds, w', n)
    ensures forall c | c in line :: Of(c) in w'.chain.nodes
  {
    hide Inv, PoolOk, ValidLine, Drains, Assured, Underway, Elements;
    DeliveryStarts(g, w, line, ds);
    DrainsKeep(g, w.chain, line, w, ds, w', n);
    forall c | c in line ensures Of(c) in w'.chain.nodes {
      var i :| 0 <= i < |line| && line[i] == c;
      AllArrived(g, w.chain, line, w', i);
    }
  }

  // ----- how a block is lost

  /** c is nowhere: not in the forest, not waiting, not to come. */
  ghost predicate Gone(w: World, work: seq<Block>, c: Block) {
    Of(c) !in w.chain.nodes && !Pooled(w.trees, c) && c !in work
  }

  lemma GoneStep(g: Config, w: World, work: seq<Block>, w1: World, more: seq<Block>, c: Block)
    requires g.epochBlocks > 0 && work != [] && Processed(g, w, work[0], w1, more) && Gone(w, work, c)
    ensures Gone(w1, more + work[1..], c)
  {
    hide Offer, Pooled;
    StepKeeps(g, w, work[0], w1, more, c);
    OfferEffect(g, w.chain, work[0]);
  }

  /** What is gone does not come back by itself. */
  lemma {:induction false} GoneForGood(g: Config, w: World, work: seq<Block>, w': World, n: nat, c: Block)
    requires g.epochBlocks > 0 && Drains(g, w, work, w', n) && Gone(w, work, c)
    ensures Of(c) !in w'.chain.nodes
    decreases n
  {
    hide Processed, Pooled;
    if n == 0 {
    } else {
      var w1, more :| Processed(g, w, work[0], w1, more) && Drains(g, w1, more + work[1..], w', n - 1);
      GoneStep(g, w, work, w1, more, c);
      GoneForGood(g, w1, more + work[1..], w', n - 1, c);
    }
  }

  lemma TakerIsThere(trees: Trees, b: Block)
    requires SomeTakes(trees, b)
    ensures InPool(trees, b.parent)
  {
    hide OrphanTree.Members;
    var k :| k in trees && trees[k].Takes(b);
    var p :| p in trees[k].Members() && Of(p) == b.parent && p.height < b.height;
    assert Pooled(trees, p);
  }

  /** An admitted block without a parent that is there or waits becomes an orphan that no tree takes. */
  lemma BecomesOrphan(g: Config, w: World, b: Block)
    requires g.epochBlocks > 0 && Admitted(g, w.chain, b) && Of(b) !in w.chain.nodes
    requires !Known(w.chain, b.parent) && !InPool(w.trees, b.parent)
    ensures Offer(g, w.chain, b) == (w.chain, Orphaned) && !SomeTakes(w.trees, b)
  {
    hide HeadHash, ViewAt, OrphanTree.Members;
    if SomeTakes(w.trees, b) { TakerIsThere(w.trees, b); }
  }

  /** While a tree waits for its parent, another orphan with that parent is dropped. */
  lemma CompetitorIsDropped(g: Config, w: World, c: Block, rest: seq<Block>, w': World, n: nat)
    requires g.epochBlocks > 0 && Admitted(g, w.chain, c) && Of(c) !in w.chain.nodes && !Pooled(w.trees, c)
    requires !Known(w.chain, c.parent) && !InPool(w.trees, c.parent) && c.parent in w.trees && c !in rest
    requires Drains(g, w, [c] + rest, w', n)
    ensures Of(c) !in w'.chain.nodes
  {
    hide Offer, Pooled, Admitted, Known, InPool;
    BecomesOrphan(g, w, c);
    var w1, more :| Processed(g, w, ([c] + rest)[0], w1, more) && Drains(g, w1, more + ([c] + rest)[1..], w', n - 1);
    assert w1 == w && more + ([c] + rest)[1..] == rest;
    GoneForGood(g, w, rest, w', n - 1, c);
  }

  /** A competitor that comes first takes the place to wait for the parent, and the block is lost,
      although the parent may come later. */
  lemma CompetitorWins(g: Config, w: World, x: Block, c: Block, rest: seq<Block>, w': World, n: nat)
    requires g.epochBlocks > 0 && Admitted(g, w.chain, c) && Of(c) !in w.chain.nodes && !Pooled(w.trees, c)
    requires !Known(w.chain, c.parent) && !InPool(w.trees, c.parent) && c.parent !in w.trees && c !in rest
    requires Admitted(g, w.chain, x) && Of(x) !in w.chain.nodes && Competes(x, c)
    requires Drains(g, w, [x, c] + rest, w', n)
    ensures Of(c) !in w'.chain.nodes
  {
    hide Offer, Admitted, Known, OrphanTree.Members;
    BecomesOrphan(g, w, x);
    var work := [x, c] + rest;
    var w1, more :| Processed(g, w, work[0], w1, more) && Drains(g, w1, more + work[1..], w', n - 1);
    assert more + work[1..] == [c] + rest && w1 == World(w.chain, w.trees[x.parent := OrphanTree(x, map[])]);
    AddedKeeps(w.trees, x, w1.trees, c);
    if InPool(w1.trees, c.parent) {
      AddedKeeps(w.trees, x, w1.trees, c.parent.block);
      DescendsDeeper(Of(x), Of(x));
    }
    CompetitorIsDropped(g, w1, c, rest, w', n - 1);
  }

  lemma ElementsCons(b: Block, rest: seq<Block>)
    ensures Elements([b] + rest) == {b} + Elements(rest)
  {
    assert b in [b] + rest;
  }

  lemma {:induction false} Listing(xs: set<Block>) returns (ds: seq<Block>)
    ensures Elements(ds) == xs
  {
    if xs == {} {
      ds := [];
    } else {
      var x :| x in xs;
      var rest := Listing(xs - {x});
      ds := [x] + rest;
      ElementsCons(x, rest);
    }
  }

  /** A block that is not assured is lost in some order. */
  lemma LosingOrder(g: Config, w: World, delivered: set<Block>, c: Block) returns (ds: seq<Block>)
    requires g.Valid() && Inv(g, w.chain) && Admitted(g, w.chain, c) && !Assured(g, w, delivered, c)
    ensures Elements(ds) == delivered
    ensures forall w', n | Drains(g, w, ds, w', n) :: Of(c) !in w'.chain.nodes
  {
    hide Drains, Admitted, Pooled, AllTallied, AllCounted, AllPlaced, FinalityOk, OwnVotesOk;
    if c !in delivered {
      ds := Listing(delivered);
      forall w', n | Drains(g, w, ds, w', n) ensures Of(c) !in w'.chain.nodes { GoneForGood(g, w, ds, w', n, c); }
    } else {
      var rest := Listing(delivered - {c});
      assert c !in Elements(rest);
      ElementsCons(c, rest);
      if c.parent in w.trees {
        ds := [c] + rest;
        forall w', n | Drains(g, w, ds, w', n) ensures Of(c) !in w'.chain.nodes {
          CompetitorIsDropped(g, w, c, rest, w', n);
        }
      } else {
        var x :| x in delivered && Competes(x, c) && Admitted(g, w.chain, x);
        ds := [x, c] + rest;
        assert ds == [x] + ([c] + rest);
        ElementsCons(x, [c] + rest);
        forall w', n | Drains(g, w, ds, w', n) ensures Of(c) !in w'.chain.nodes {
          CompetitorWins(g, w, x, c, rest, w', n);
        }
      }
    }
  }

  lemma LineIsAdmitted(g: Config, s: Chain, line: seq<Block>, i: nat)
    requires ValidLine(g, s, line) && i < |line|
    ensures Admitted(g, s, line[i])
  {
    assert ValidAt(g, s, line, i);
  }

  /** Delivery-order independence, exactly: a line of valid blocks ends up in the fork tree under every
      order and repetition of a set of deliveries, with no event polled in between, if and only if each
      of its blocks is assured among them. */
  lemma DeliveryOrderIndependent(g: Config, w: World, line: seq<Block>, delivered: set<Block>)
    requires g.Valid() && Inv(g, w.chain) && PoolOk(w.chain, w.trees) && ValidLine(g, w.chain, line)
    ensures AlwaysArrives(g, w, line, delivered) <==> forall c | c in line :: Assured(g, w, delivered, c)
  {
    hide Inv, PoolOk, ValidLine, Drains, Assured, Admitted, Elements;
    if forall c | c in line :: Assured(g, w, delivered, c) {
      forall ds, w', n | Elements(ds) == delivered && Drains(g, w, ds, w', n)
        ensures forall c | c in line :: Of(c) in w'.chain.nodes
      {
        AssuredArrives(g, w, line, ds, w', n);
      }
    } else {
      var i :| 0 <= i < |line| && !Assured(g, w, delivered, line[i]);
      LineIsAdmitted(g, w.chain, line, i);
      var ds := LosingOrder(g, w, delivered, line[i]);
      var w', n := DrainExists(g, w, ds);
      assert line[i] in line;
    }
  }

  // ----- a delivery that loses a block

  function Demo(): Config {
    Config(10, map[Curve(0) := 1], 1, 1, 1, map[], v => true, b => true, (s, b) => Some(NO_CHANGE))
  }

  function DemoBlock(parent: Hash, height: nat, payload: seq<nat>): Block {
    Block(parent, height, Curve(0), 0, payload, [])
  }

  /** On a new chain, block c and its competitor x arrive before their parent a. All three are valid, but c
      is lost; delivered after a it is not. */
  lemma LosingDelivery()
    ensures var g, a := Demo(), DemoBlock(Genesis, 1, []);
            var c, x := DemoBlock(Of(a), 2, []), DemoBlock(Of(a), 2, [1]);
            var w := World(Start(g), map[]);
            && ValidLine(g, w.chain, [a, c]) && ValidLine(g, w.chain, [a, x])
            && (exists w', n :: Drains(g, w, [x, c, a], w', n))
            && (forall w', n | Drains(g, w, [x, c, a], w', n) :: Of(c) !in w'.chain.nodes)
  {
    var g, a := Demo(), DemoBlock(Genesis, 1, []);
    var c, x := DemoBlock(Of(a), 2, []), DemoBlock(Of(a), 2, [1]);
    var w := World(Start(g), map[]);
    forall b | b in {c, x} ensures ValidLine(g, w.chain, [a, b]) {
      assert ValidAt(g, w.chain, [a, b], 0) && ValidAt(g, w.chain, [a, b], 1);
    }
    var w', n := DrainExists(g, w, [x, c, a]);
    forall w', n | Drains(g, w, [x, c, a], w', n) ensures Of(c) !in w'.chain.nodes {
      assert [x, c, a] == [x, c] + [a];
      CompetitorWins(g, w, x, c, [a], w', n);
    }
  }

  /** What pruning drops is lost for good anyway: from then on `include` rejects every block of it. */
  lemma PrunedIsRejected(g: Config, actions: seq<Action>, more: seq<Action>, before: Trees, after: Trees,
        expired: set<Hash>, missing: seq<Hash>, k: Hash, x: Block)
    requires g.Valid() && Pruned(before, after, Height(Run(g, actions).finalized), expired, missing)
    requires k in before && k !in after && x in before[k].Members()
    ensures Offer(g, Run(g, actions + more), x) == (Run(g, actions + more), Rejected)
  {
    var f, f' := Run(g, actions).finalized, Run(g, actions + more).finalized;
    assert x.height <= Height(f);
    FinalityAdvances(g, actions, more);
    RunInv(g, actions + more);
    hide Run, Pruned;
    if f' != f { GroundedAncestor(f', f); }
  }
}
