/** Fork choice and the finalization rule (src/consensus/forktree.rs:118-148 and 217-232,
    src/consensus/chain.rs:604-645), and the rule that own votes follow. */
module ForkChoice {
  import opened Primitives
  import opened Blocks
  import opened Stakes
  import opened ForkTree
  import opened Consensus
  import opened Invariants
  import opened Finality
  import opened Polling

  // ----- the head of a tree

  lemma HeaviestChild(nodes: Nodes, roots: seq<Hash>, finalized: Hash, h: Hash) returns (top: Hash)
    requires Linked(nodes, roots, finalized) && h in nodes && nodes[h].children != []
    ensures top == Heaviest(nodes, nodes[h].children)
    ensures top in nodes && top.Of? && top.block.parent == h && Head(nodes, h) == Head(nodes, top)
    ensures Subtree(nodes, top) < Subtree(nodes, h)
  {
    assert ChildrenOk(nodes, h);
    top := Heaviest(nodes, nodes[h].children);
    SubtreeShrinks(nodes, h, top);
  }

  /** The head is a leaf of the tree. */
  lemma {:induction false} HeadIsLeaf(nodes: Nodes, roots: seq<Hash>, finalized: Hash, h: Hash)
    requires Linked(nodes, roots, finalized) && h in nodes
    ensures Head(nodes, h) in nodes && Extends(Head(nodes, h), h) && nodes[Head(nodes, h)].children == []
    decreases Subtree(nodes, h)
  {
    if nodes[h].children == [] {
    } else {
      var top := HeaviestChild(nodes, roots, finalized, h);
      HeadIsLeaf(nodes, roots, finalized, top);
      ExtendsTransitive(Head(nodes, h), top, h);
    }
  }

  /** At every block above the head, the path to the head takes the first of the most voted children. */
  lemma {:induction false} HeadIsGreedy(nodes: Nodes, roots: seq<Hash>, finalized: Hash, h: Hash, x: Hash)
    requires Linked(nodes, roots, finalized) && h in nodes && x in nodes
    requires Extends(x, h) && Descends(Head(nodes, h), x)
    ensures nodes[x].children != [] && Extends(Head(nodes, h), Heaviest(nodes, nodes[x].children))
    decreases Subtree(nodes, h)
  {
    HeadIsLeaf(nodes, roots, finalized, h);
    if nodes[h].children == [] {
      DescendsDeeper(h, x);
      if x != h { DescendsDeeper(x, h); }
    } else {
      var top := HeaviestChild(nodes, roots, finalized, h);
      HeadIsLeaf(nodes, roots, finalized, top);
      if x != h {
        var c := Branch(nodes, roots, finalized, x, h);
        SameBranch(nodes, roots, finalized, Head(nodes, h), c, top, x);
        HeadIsGreedy(nodes, roots, finalized, top, x);
      }
    }
  }

  /** Siblings with a common descendant are one. */
  lemma SameBranch(nodes: Nodes, roots: seq<Hash>, finalized: Hash, leaf: Hash, a: Hash, b: Hash, x: Hash)
    requires Linked(nodes, roots, finalized) && leaf in nodes && a in nodes && b in nodes
    requires a.block.parent == b.block.parent
    requires Extends(leaf, x) && Extends(x, a) && Extends(leaf, b)
    ensures a == b
  {
    ExtendsTransitive(leaf, x, a);
    AncestorAtHeight(leaf, a, b);
  }

  /** Two sibling subtrees that each gathered votes, at least one of them outside the chosen path. */
  ghost predicate Split(g: Config, nodes: Nodes, confirmed: Hash, head: Hash, a: Hash, b: Hash) {
    && a in nodes && b in nodes && a != b && a.Of? && b.Of? && a.block.parent == b.block.parent
    && Extends(confirmed, a) && Extends(head, b)
    && 3 * Weight(g.stakes, nodes[a].voters * nodes[b].voters) > g.TotalStake()
  }

  /** The head extends every confirmed block of its tree, unless validators with more than a third of
      the stake voted in two sibling subtrees. */
  lemma {:induction false} GhostFollowsConfirmation(g: Config, s: Chain, h: Hash, c: Hash)
    requires g.Valid() && g.TotalStake() > 0 && Inv(g, s)
    requires h in s.nodes && c in s.nodes && Extends(c, h) && s.nodes[c].votes >= g.quorum
    ensures Extends(Head(s.nodes, h), c) || exists a, b :: Split(g, s.nodes, c, Head(s.nodes, h), a, b)
    decreases Subtree(s.nodes, h)
  {
    HeadIsLeaf(s.nodes, s.roots, s.finalized, h);
    if c == h {
    } else {
      var a := Branch(s.nodes, s.roots, s.finalized, c, h);
      assert ChildrenOk(s.nodes, h);
      var top := HeaviestChild(s.nodes, s.roots, s.finalized, h);
      if a == top {
        GhostFollowsConfirmation(g, s, top, c);
      } else {
        TallyFalls(g, s, c, a);
        RivalQuorums(g, s, a, top);
        HeadIsLeaf(s.nodes, s.roots, s.finalized, top);
        assert Split(g, s.nodes, c, Head(s.nodes, h), a, top);
      }
    }
  }

  lemma RivalQuorums(g: Config, s: Chain, a: Hash, b: Hash)
    requires g.Valid() && g.TotalStake() > 0 && Inv(g, s)
    requires a in s.nodes && b in s.nodes
    requires s.nodes[a].votes >= g.quorum && s.nodes[b].votes >= g.quorum
    ensures 3 * Weight(g.stakes, s.nodes[a].voters * s.nodes[b].voters) > g.TotalStake()
  {
    assert TallyOk(g, s.nodes, s.counted, a) && TallyOk(g, s.nodes, s.counted, b);
    SupportersStake(g, s, a);
    SupportersStake(g, s, b);
    QuorumsOverlap(g.stakes, g.Validators(), s.nodes[a].voters, s.nodes[b].voters, g.quorum);
  }

  // ----- the head over all trees

  /** More votes, or as many and higher up. */
  predicate Tops(nodes: Nodes, a: Hash, b: Hash) {
    VotesOf(nodes, a) > VotesOf(nodes, b) || (VotesOf(nodes, a) == VotesOf(nodes, b) && Height(a) > Height(b))
  }

  /** The head of the i-th tree is not behind any other head, and ahead of those of all later trees. */
  ghost predicate Leads(nodes: Nodes, roots: seq<Hash>, i: nat) {
    && i < |roots|
    && (forall j | 0 <= j < |roots| :: !Tops(nodes, Head(nodes, roots[j]), Head(nodes, roots[i])))
    && (forall j | i < j < |roots| :: Tops(nodes, Head(nodes, roots[i]), Head(nodes, roots[j])))
  }

  /** Depth in the forest is height above the finalized block. */
  lemma {:induction false} DepthIsHeight(nodes: Nodes, roots: seq<Hash>, finalized: Hash, h: Hash)
    requires Linked(nodes, roots, finalized) && h in nodes
    ensures PathDepth(nodes, h) + Height(finalized) + 1 == Height(h)
  {
    var p := h.block.parent;
    if p in nodes {
      DepthIsHeight(nodes, roots, finalized, p);
    } else {
      assert Path(nodes, h) == [h];
    }
  }

  lemma HeadDepth(nodes: Nodes, roots: seq<Hash>, finalized: Hash, r: Hash)
    requires Linked(nodes, roots, finalized) && r in nodes
    ensures PathDepth(nodes, Head(nodes, r)) + Height(finalized) + 1 == Height(Head(nodes, r))
  {
    HeadIsLeaf(nodes, roots, finalized, r);
    DepthIsHeight(nodes, roots, finalized, Head(nodes, r));
  }

  lemma BestOfTwo(nodes: Nodes, all: seq<Hash>, finalized: Hash, roots: seq<Hash>)
    requires Linked(nodes, all, finalized) && |roots| > 1 && forall r | r in roots :: r in nodes
    requires BestHead(nodes, roots[..|roots| - 1]) in Heads(nodes, roots[..|roots| - 1])
    ensures var best, head := BestHead(nodes, roots[..|roots| - 1]), Head(nodes, roots[|roots| - 1]);
            BestHead(nodes, roots) == if Tops(nodes, best, head) then best else head
  {
    var rest := roots[..|roots| - 1];
    var r :| r in rest && Head(nodes, r) == BestHead(nodes, rest);
    HeadDepth(nodes, all, finalized, r);
    HeadDepth(nodes, all, finalized, roots[|roots| - 1]);
    hide Linked, Head, PathDepth;
  }

  function Heads(nodes: Nodes, roots: seq<Hash>): set<Hash> {
    set r | r in roots :: Head(nodes, r)
  }

  lemma {:induction false} LeadingTree(nodes: Nodes, all: seq<Hash>, finalized: Hash, roots: seq<Hash>) returns (i: nat)
    requires Linked(nodes, all, finalized) && roots != [] && forall r | r in roots :: r in nodes
    ensures Leads(nodes, roots, i) && BestHead(nodes, roots) == Head(nodes, roots[i])
    decreases |roots|
  {
    hide Linked, Head, VotesOf, Height;
    var n := |roots| - 1;
    if n == 0 {
      i := 0;
    } else {
      var rest := roots[..n];
      i := LeadingTree(nodes, all, finalized, rest);
      assert rest[i] in rest && rest[i] == roots[i];
      BestOfTwo(nodes, all, finalized, roots);
      hide BestHead;
      forall j | 0 <= j < n ensures !Tops(nodes, Head(nodes, roots[j]), Head(nodes, roots[i])) {
        assert rest[j] == roots[j];
      }
      forall j | i < j < n ensures Tops(nodes, Head(nodes, roots[i]), Head(nodes, roots[j])) {
        assert rest[j] == roots[j];
      }
      if !Tops(nodes, Head(nodes, roots[i]), Head(nodes, roots[n])) { i := n; }
    }
  }

  /** The head of the chain: the best head over all trees by votes and then height, the last one of equals;
      the finalized block if there is no tree. */
  lemma HeadOverTrees(g: Config, s: Chain)
    requires g.Valid() && Inv(g, s)
    ensures s.roots == [] ==> HeadHash(s) == s.finalized
    ensures s.roots != [] ==> exists i: nat :: Leads(s.nodes, s.roots, i) && HeadHash(s) == Head(s.nodes, s.roots[i])
  {
    if s.roots != [] {
      hide Head, AllTallied, AllCounted, AllPlaced, FinalityOk, OwnVotesOk;
      var i := LeadingTree(s.nodes, s.roots, s.finalized, s.roots);
    }
  }

  // ----- epochs

  /** Consecutive heights in different epochs meet at an epoch boundary. */
  lemma EpochBoundary(height: nat, epochBlocks: nat)
    requires height > 0 && epochBlocks > 0
    requires (height - 1) / epochBlocks != height / epochBlocks
    ensures height % epochBlocks == 0
    ensures height / epochBlocks == (height - 1) / epochBlocks + 1
  {
    var q, r := height / epochBlocks, height % epochBlocks;
    assert height == epochBlocks * q + r;
    if r > 0 {
      DivisionUnique(height - 1, epochBlocks, q, r - 1);
    } else {
      assert height - 1 == epochBlocks * (q - 1) + (epochBlocks - 1);
      DivisionUnique(height - 1, epochBlocks, q - 1, epochBlocks - 1);
    }
  }

  lemma Multiples(d: nat, t: int)
    requires d > 0
    ensures t >= 1 ==> d * t >= d
    ensures t <= -1 ==> d * t + d <= 0
  {
  }

  lemma DivisionUnique(n: nat, d: nat, q: int, r: nat)
    requires r < d && n == d * q + r
    ensures n / d == q && n % d == r
  {
    var t := q - n / d;
    assert n == d * (n / d) + n % d;
    assert d * t == d * q - d * (n / d);
    Multiples(d, t);
  }

  lemma Division(n: nat, d: nat)
    requires d > 0
    ensures n == d * (n / d) + n % d && n >= d * (n / d)
    ensures n % d == 0 ==> n == d * (n / d)
  {
  }

  /** The epoch start is the oldest block on the path in the block's epoch; one with a parent node
      sits on the epoch boundary. */
  lemma {:induction false} EpochStartFacts(g: Config, nodes: Nodes, roots: seq<Hash>, finalized: Hash, h: Hash)
    requires g.epochBlocks > 0 && Linked(nodes, roots, finalized) && h in nodes
    ensures var e := EpochStart(nodes, h, g.epochBlocks);
            && e in nodes && Extends(h, e) && g.Epoch(e) == g.Epoch(h)
            && (Parent(nodes, e).Some? ==>
                  && Height(e) % g.epochBlocks == 0
                  && Height(Parent(nodes, e).value) + 1 == Height(e)
                  && g.Epoch(Parent(nodes, e).value) + 1 == g.Epoch(e))
  {
    var p := h.block.parent;
    if p in nodes {
      assert Height(p) + 1 == Height(h);
      if g.Epoch(p) == g.Epoch(h) {
        EpochStartFacts(g, nodes, roots, finalized, p);
      } else {
        EpochBoundary(Height(h), g.epochBlocks);
      }
    }
  }

  /** A checkpoint lies in the epoch before. Its distance to a boundary checkpoint is one epoch. */
  lemma CheckpointFacts(g: Config, nodes: Nodes, roots: seq<Hash>, finalized: Hash, h: Hash)
    requires g.epochBlocks > 0 && Linked(nodes, roots, finalized) && h in nodes
    requires Checkpoint(g, nodes, h).Some?
    ensures var c := Checkpoint(g, nodes, h).value;
            && c in nodes && Descends(h, c) && g.Epoch(c) + 1 == g.Epoch(h)
            && Height(h) >= g.epochBlocks * g.Epoch(h)
            && (Parent(nodes, c).Some? ==> Height(c) == g.epochBlocks * g.Epoch(c))
  {
    var e := EpochStart(nodes, h, g.epochBlocks);
    EpochStartFacts(g, nodes, roots, finalized, h);
    var p := Parent(nodes, e).value;
    EpochStartFacts(g, nodes, roots, finalized, p);
    var c := EpochStart(nodes, p, g.epochBlocks);
    hide Linked, EpochStart;
    assert Descends(e, p);
    BelowBy(h, e, p, c);
    Division(Height(h), g.epochBlocks);
    Division(Height(c), g.epochBlocks);
  }

  lemma BelowBy(h: Hash, e: Hash, p: Hash, c: Hash)
    requires Extends(h, e) && Descends(e, p) && Extends(p, c)
    ensures Descends(h, c)
  {
    if p != c { DescendsTransitive(e, p, c); }
    if h != e { DescendsTransitive(h, e, c); }
  }

  /** c is the oldest block of the forest on the path below h that lies in the epoch before h's. */
  ghost predicate IsCheckpoint(g: Config, nodes: Nodes, h: Hash, c: Hash)
    requires g.epochBlocks > 0
  {
    && c in nodes && Descends(h, c) && g.Epoch(c) + 1 == g.Epoch(h)
    && (forall a | a in nodes && Descends(c, a) :: g.Epoch(a) != g.Epoch(c))
  }

  /** Epochs do not fall going up. */
  lemma EpochsRise(g: Config, a: Hash, h: Hash)
    requires g.epochBlocks > 0 && Height(a) <= Height(h)
    ensures g.Epoch(a) <= g.Epoch(h)
  {
    if g.Epoch(a) > g.Epoch(h) {
      Division(Height(a), g.epochBlocks);
      Division(Height(h), g.epochBlocks);
      Multiples(g.epochBlocks, g.Epoch(a) - g.Epoch(h));
      Distribute(g.epochBlocks, g.Epoch(a), g.Epoch(h));
    }
  }

  lemma Distribute(d: int, x: int, y: int)
    ensures d * (x - y) == d * x - d * y
  {
  }

  /** No block of the forest below the epoch start is in its epoch. */
  lemma {:induction false} NothingBefore(g: Config, nodes: Nodes, roots: seq<Hash>, finalized: Hash, h: Hash, a: Hash)
    requires g.epochBlocks > 0 && Linked(nodes, roots, finalized) && h in nodes && a in nodes
    requires Descends(EpochStart(nodes, h, g.epochBlocks), a)
    ensures g.Epoch(a) < g.Epoch(h) && Parent(nodes, EpochStart(nodes, h, g.epochBlocks)).Some?
  {
    var p := h.block.parent;
    if p in nodes && g.Epoch(p) == g.Epoch(h) {
      NothingBefore(g, nodes, roots, finalized, p, a);
    } else {
      FinalizedNotANode(nodes, roots, finalized);
      assert !Extends(finalized, a);
      assert p in nodes && Extends(p, a);
      if a != p { GroundedAncestor(p, a); }
      EpochsRise(g, a, p);
      EpochsRise(g, p, h);
    }
  }

  /** What the checkpoint of a block is, and when there is none: exactly when every block of the forest below
      it is in its epoch. */
  lemma CheckpointExact(g: Config, nodes: Nodes, roots: seq<Hash>, finalized: Hash, h: Hash)
    requires g.epochBlocks > 0 && Linked(nodes, roots, finalized) && h in nodes
    ensures forall c :: Checkpoint(g, nodes, h) == Some(c) <==> IsCheckpoint(g, nodes, h, c)
    ensures Checkpoint(g, nodes, h).None?
      <==> forall a | a in nodes && Descends(h, a) :: g.Epoch(a) == g.Epoch(h)
  {
    var e := EpochStart(nodes, h, g.epochBlocks);
    EpochStartFacts(g, nodes, roots, finalized, h);
    if Checkpoint(g, nodes, h).Some? {
      var c := Checkpoint(g, nodes, h).value;
      CheckpointFacts(g, nodes, roots, finalized, h);
      StartIsOldest(g, nodes, roots, finalized, Parent(nodes, e).value);
      assert IsCheckpoint(g, nodes, h, c);
      forall d | IsCheckpoint(g, nodes, h, d) ensures d == c { OneCheckpoint(g, nodes, h, c, d); }
    } else {
      forall a | a in nodes && Descends(h, a) ensures g.Epoch(a) == g.Epoch(h) {
        SameEpoch(g, nodes, roots, finalized, h, a);
      }
    }
  }

  lemma StartIsOldest(g: Config, nodes: Nodes, roots: seq<Hash>, finalized: Hash, p: Hash)
    requires g.epochBlocks > 0 && Linked(nodes, roots, finalized) && p in nodes
    ensures var c := EpochStart(nodes, p, g.epochBlocks);
            forall a | a in nodes && Descends(c, a) :: g.Epoch(a) != g.Epoch(c)
  {
    var c := EpochStart(nodes, p, g.epochBlocks);
    EpochStartFacts(g, nodes, roots, finalized, p);
    forall a | a in nodes && Descends(c, a) ensures g.Epoch(a) != g.Epoch(c) {
      NothingBefore(g, nodes, roots, finalized, p, a);
    }
  }

  lemma OneCheckpoint(g: Config, nodes: Nodes, h: Hash, c: Hash, d: Hash)
    requires g.epochBlocks > 0 && IsCheckpoint(g, nodes, h, c) && IsCheckpoint(g, nodes, h, d)
    ensures c == d
  {
    AncestorsComparable(h, c, d);
  }

  /** Where the epoch start has no parent in the forest, everything below h is in h's epoch. */
  lemma SameEpoch(g: Config, nodes: Nodes, roots: seq<Hash>, finalized: Hash, h: Hash, a: Hash)
    requires g.epochBlocks > 0 && Linked(nodes, roots, finalized) && h in nodes && a in nodes && Descends(h, a)
    requires Parent(nodes, EpochStart(nodes, h, g.epochBlocks)).None?
    ensures g.Epoch(a) == g.Epoch(h)
  {
    var e := EpochStart(nodes, h, g.epochBlocks);
    EpochStartFacts(g, nodes, roots, finalized, h);
    AncestorsComparable(h, a, e);
    if Descends(e, a) {
      NothingBefore(g, nodes, roots, finalized, h, a);
    } else {
      GroundedAncestor(h, a);
      if a != e { GroundedAncestor(a, e); }
      EpochsRise(g, e, a);
      EpochsRise(g, a, h);
    }
  }

  /** The head of the root's tree has a confirmed checkpoint, which has a checkpoint itself. */
  ghost predicate Ripens(g: Config, nodes: Nodes, root: Hash, first: Hash, second: Hash)
    requires g.epochBlocks > 0
  {
    && IsCheckpoint(g, nodes, Head(nodes, root), first) && IsCheckpoint(g, nodes, first, second)
    && VotesOf(nodes, first) >= g.quorum
  }

  ghost predicate Ripe(g: Config, nodes: Nodes, root: Hash)
    requires g.epochBlocks > 0
  {
    exists first, second :: Ripens(g, nodes, root, first, second)
  }

  /** Exactly when a root is finalizable. The two checkpoints then lie in the two epochs before the head's,
      the first on the epoch boundary, and the head is more than an epoch above the root. The quorum
      tests of the second checkpoint and of the root follow from that of the first. */
  lemma FinalizationRule(g: Config, s: Chain, root: Hash)
    requires g.Valid() && Inv(g, s) && root in s.roots
    ensures Finalizable(g, s.nodes, root) <==> Ripe(g, s.nodes, root)
    ensures forall first, second | Ripens(g, s.nodes, root, first, second) ::
              var head := Head(s.nodes, root);
              && Descends(head, first) && Descends(first, second) && Extends(second, root)
              && g.Epoch(first) + 1 == g.Epoch(head) && g.Epoch(second) + 2 == g.Epoch(head)
              && Height(first) % g.epochBlocks == 0
              && Height(head) >= Height(root) + g.epochBlocks + 1
              && VotesOf(s.nodes, second) >= g.quorum && VotesOf(s.nodes, root) >= g.quorum
  {
    hide TallyOk, FinalityOk, OwnVotesOk, AllCounted, AllPlaced, Checkpoint, IsCheckpoint, Head, Descends, Linked;
    var head := Head(s.nodes, root);
    RootIn(s.nodes, s.roots, s.finalized, root);
    HeadIsLeaf(s.nodes, s.roots, s.finalized, root);
    CheckpointExact(g, s.nodes, s.roots, s.finalized, head);
    forall first, second | Ripens(g, s.nodes, root, first, second) ensures RipeFacts(g, s, root, first, second) {
      RipeCheckpoints(g, s, root, first, second);
    }
    if Ripe(g, s.nodes, root) {
      var first, second :| Ripens(g, s.nodes, root, first, second);
      assert RipeFacts(g, s, root, first, second);
      CheckpointExact(g, s.nodes, s.roots, s.finalized, first);
    }
    if Finalizable(g, s.nodes, root) {
      var first := Checkpoint(g, s.nodes, head).value;
      CheckpointIn(g, s.nodes, head, first);
      CheckpointExact(g, s.nodes, s.roots, s.finalized, first);
      assert Ripens(g, s.nodes, root, first, Checkpoint(g, s.nodes, first).value);
    }
  }

  lemma RootIn(nodes: Nodes, roots: seq<Hash>, finalized: Hash, root: Hash)
    requires Linked(nodes, roots, finalized) && root in roots
    ensures root in nodes
  {
  }

  lemma CheckpointIn(g: Config, nodes: Nodes, h: Hash, c: Hash)
    requires g.epochBlocks > 0 && IsCheckpoint(g, nodes, h, c)
    ensures c in nodes
  {
  }

  ghost predicate RipeFacts(g: Config, s: Chain, root: Hash, first: Hash, second: Hash)
    requires g.epochBlocks > 0
  {
    var head := Head(s.nodes, root);
    && first in s.nodes && second in s.nodes
    && Descends(head, first) && Descends(first, second) && Extends(second, root)
    && g.Epoch(first) + 1 == g.Epoch(head) && g.Epoch(second) + 2 == g.Epoch(head)
    && Height(first) % g.epochBlocks == 0
    && Height(head) >= Height(root) + g.epochBlocks + 1
    && VotesOf(s.nodes, second) >= g.quorum && VotesOf(s.nodes, root) >= g.quorum
  }

  lemma RipeCheckpoints(g: Config, s: Chain, root: Hash, first: Hash, second: Hash)
    requires g.Valid() && Inv(g, s) && root in s.roots && root in s.nodes
    requires Ripens(g, s.nodes, root, first, second)
    ensures RipeFacts(g, s, root, first, second)
  {
    hide TallyOk, FinalityOk, OwnVotesOk, AllCounted, AllPlaced, Head, Descends, EpochStart;
    var head := Head(s.nodes, root);
    HeadIsLeaf(s.nodes, s.roots, s.finalized, root);
    CheckpointExact(g, s.nodes, s.roots, s.finalized, head);
    CheckpointFacts(g, s.nodes, s.roots, s.finalized, head);
    TwoCheckpoints(g, s, root, head, first, second);
  }

  lemma TwoCheckpoints(g: Config, s: Chain, root: Hash, head: Hash, first: Hash, second: Hash)
    requires g.Valid() && Linked(s.nodes, s.roots, s.finalized) && AllTallied(g, s.nodes, s.counted)
    requires root in s.roots && root in s.nodes && head in s.nodes && first in s.nodes && second in s.nodes
    requires Extends(head, root) && Descends(head, first) && Descends(first, second)
    requires g.Epoch(first) + 1 == g.Epoch(head) && Height(head) >= g.epochBlocks * g.Epoch(head)
    requires Parent(s.nodes, first).Some? ==> Height(first) == g.epochBlocks * g.Epoch(first)
    ensures Extends(second, root) && Extends(first, root)
    ensures VotesOf(s.nodes, root) >= VotesOf(s.nodes, second) >= VotesOf(s.nodes, first)
    ensures Height(first) % g.epochBlocks == 0
    ensures Height(head) >= Height(root) + g.epochBlocks + 1
  {
    hide Linked, AllTallied, Descends, Parent, Config.Valid;
    RootBelow(s.nodes, s.roots, s.finalized, root, head, first, second);
    TallyFalls(g, s, first, second);
    TallyFalls(g, s, second, root);
    OneEpochApart(g.epochBlocks, g.Epoch(first), Height(first));
  }

  lemma OneEpochApart(e: nat, k: nat, height: nat)
    requires e > 0 && height == e * k
    ensures e * (k + 1) == height + e && height % e == 0
  {
    DivisionUnique(height, e, k, 0);
  }

  lemma RootBelow(nodes: Nodes, roots: seq<Hash>, finalized: Hash, root: Hash, head: Hash, first: Hash, second: Hash)
    requires Linked(nodes, roots, finalized) && root in roots && head in nodes && first in nodes && second in nodes
    requires Extends(head, root) && Descends(head, first) && Descends(first, second)
    ensures Extends(second, root) && Extends(first, root) && Parent(nodes, first).Some?
    ensures Height(root) < Height(first)
  {
    FinalizedNotANode(nodes, roots, finalized);
    DescendsTransitive(head, first, second);
    AncestorsComparable(head, root, second);
    GroundedAncestor(first, second);
    if !Extends(second, root) {
      assert false;
    } else {
      ExtendsTransitive(first, second, root);
      if second != root { GroundedAncestor(second, root); }
    }
    var p := first.block.parent;
    assert p == second || Descends(p, second);
  }

  /** As long as some root is finalizable, the first such root is finalized; otherwise nothing changes. */
  lemma FinalizesRipe(g: Config, s: Chain)
    requires g.Valid() && Inv(g, s)
    ensures (forall r | r in s.roots :: !Ripe(g, s.nodes, r)) ==> FinalizeAll(g, s) == s
    ensures (exists r :: r in s.roots && Ripe(g, s.nodes, r)) ==>
              exists i: nat :: FirstRipe(g, s, i) && FinalizeAll(g, s) == FinalizeAll(g, FinalizeRoot(g, s, i))
  {
    hide Linked, AllTallied, AllCounted, AllPlaced, FinalityOk, OwnVotesOk, Ripe, Finalizable, FinalizeRoot;
    forall r | r in s.roots ensures r in s.nodes && (Finalizable(g, s.nodes, r) <==> Ripe(g, s.nodes, r)) {
      RootIn(s.nodes, s.roots, s.finalized, r);
      FinalizationRule(g, s, r);
    }
    var i := FindFinalizable(g, s.nodes, s.roots);
    if i < |s.roots| { assert s.roots[i] in s.roots && FirstRipe(g, s, i); }
  }

  ghost predicate FirstRipe(g: Config, s: Chain, i: nat)
    requires g.epochBlocks > 0
  {
    && i < |s.roots| && s.roots[i] in s.nodes && Ripe(g, s.nodes, s.roots[i])
    && (forall j | 0 <= j < i :: !Ripe(g, s.nodes, s.roots[j]))
  }

  /** Finalization goes on until no root is finalizable. */
  lemma {:induction false} NothingRipeLeft(g: Config, s: Chain)
    requires g.Valid() && Inv(g, s)
    ensures forall r | r in FinalizeAll(g, s).roots :: !Ripe(g, FinalizeAll(g, s).nodes, r)
    decreases |s.nodes|
  {
    hide Inv, Ripe, FinalizeAll, Finalizable;
    FinalizesRipe(g, s);
    if r :| r in s.roots && Ripe(g, s.nodes, r) {
      var i: nat :| FirstRipe(g, s, i) && FinalizeAll(g, s) == FinalizeAll(g, FinalizeRoot(g, s, i));
      RipeRootInv(g, s, i);
      PromoteShrinks(s.nodes, s.roots[i]);
      NothingRipeLeft(g, FinalizeRoot(g, s, i));
    }
  }

  lemma RipeRootInv(g: Config, s: Chain, i: nat)
    requires g.Valid() && Inv(g, s) && FirstRipe(g, s, i)
    ensures Inv(g, FinalizeRoot(g, s, i))
  {
    hide Inv, Ripens;
    FinalizationRule(g, s, s.roots[i]);
    var first, second :| Ripens(g, s.nodes, s.roots[i], first, second);
    FinalizeInv(g, s, i);
  }

  /** In every run, when the inclusion of a block has been delivered, no root is left that satisfies the rule. */
  lemma NothingRipeAfterInclusion(g: Config, actions: seq<Action>, missing: seq<Hash>)
    requires g.Valid() && Run(g, actions).queue != [] && Run(g, actions).queue[0].Included?
    ensures var s := Run(g, actions + [PollEvent(missing)]);
            forall r | r in s.roots :: !Ripe(g, s.nodes, r)
  {
    hide Inv, Ripe, FinalizeAll, IngestVotes;
    var s, all := Run(g, actions), actions + [PollEvent(missing)];
    assert all[..|all| - 1] == actions;
    RunInv(g, actions);
    PollFinalizes(g, s, missing);
    NothingRipeLeft(g, AfterVotes(g, s));
  }

  // ----- own votes

  /** A vote stays the binding one of its epoch until a later vote or the finalization of a block of
      that epoch. */
  lemma {:induction false} BindingVote(g: Config, evs: seq<Event>, i: nat, epoch: nat) returns (m: nat)
    requires g.epochBlocks > 0 && i < |evs|
    requires evs[i].Voted? && g.Epoch(evs[i].target) == epoch
    requires forall k | i < k < |evs| && evs[k].Finalized? :: g.Epoch(evs[k].hash) != epoch
    ensures i <= m < |evs| && evs[m].Voted? && g.Epoch(evs[m].target) == epoch
    ensures LastBallot(g, evs, epoch) == Some((evs[m].justification, evs[m].target))
  {
    var last := evs[|evs| - 1];
    if last.Voted? && g.Epoch(last.target) == epoch {
      m := |evs| - 1;
    } else {
      m := BindingVote(g, evs[..|evs| - 1], i, epoch);
    }
  }

  lemma {:induction false} BallotsPrefix(g: Config, evs: seq<Event>, n: nat)
    requires g.epochBlocks > 0 && BallotsOk(g, evs) && n <= |evs|
    ensures BallotsOk(g, evs[..n])
  {
    if n == |evs| {
      assert evs[..n] == evs;
    } else {
      BallotsPrefix(g, evs[..|evs| - 1], n);
      assert evs[..|evs| - 1][..n] == evs[..n];
    }
  }

  lemma {:induction false} LaterVoteDescends(g: Config, evs: seq<Event>, i: nat, k: nat)
    requires g.epochBlocks > 0 && BallotsOk(g, evs) && i < k < |evs|
    requires evs[i].Voted? && evs[k].Voted? && g.Epoch(evs[i].target) == g.Epoch(evs[k].target)
    requires forall j | i < j < k && evs[j].Finalized? :: g.Epoch(evs[j].hash) != g.Epoch(evs[k].target)
    ensures Descends(evs[k].target, evs[i].target)
    decreases k
  {
    BallotsPrefix(g, evs, k + 1);
    var upto := evs[..k + 1];
    assert upto[..|upto| - 1] == evs[..k];
    var m := BindingVote(g, evs[..k], i, g.Epoch(evs[k].target));
    if m == i {
    } else {
      LaterVoteDescends(g, evs, i, m);
      DescendsTransitive(evs[k].target, evs[m].target, evs[i].target);
    }
  }

  lemma VotesConsistent(g: Config, finalized: Hash, own: OwnVotes, evs: seq<Event>, i: nat, k: nat)
    requires g.epochBlocks > 0 && OwnVotesOk(g, finalized, own, evs)
    requires i < k < |evs| && evs[i].Voted? && evs[k].Voted?
    ensures && Descends(evs[k].target, evs[k].justification)
            && Extends(evs[k].justification, evs[i].justification)
            && Extends(finalized, evs[k].justification)
  {
    hide BallotOk, Descends;
    BallotsPrefix(g, evs, k + 1);
    var upto := evs[..k + 1];
    assert upto[..|upto| - 1] == evs[..k] && upto[|upto| - 1] == evs[k];
    assert evs[i] in evs[..k] && evs[k] in evs;
  }

  /** Own votes are consistent in every run: a target descends from its justification,
      justifications only advance along the finalized chain, and within one epoch each target descends
      from the earlier ones unless a block of the epoch was finalized in between. */
  lemma OwnVotesConsistent(g: Config, actions: seq<Action>, i: nat, k: nat)
    requires g.Valid()
    requires var evs := Stream(Run(g, actions)); i < k < |evs| && evs[i].Voted? && evs[k].Voted?
    ensures var evs := Stream(Run(g, actions));
            && Descends(evs[k].target, evs[k].justification)
            && Extends(evs[k].justification, evs[i].justification)
            && Extends(Run(g, actions).finalized, evs[k].justification)
    ensures var evs := Stream(Run(g, actions));
            g.Epoch(evs[i].target) == g.Epoch(evs[k].target)
            && (forall j | i < j < k && evs[j].Finalized? :: g.Epoch(evs[j].hash) != g.Epoch(evs[k].target))
            ==> Descends(evs[k].target, evs[i].target)
  {
    hide Run, Stream, Descends, Linked, AllTallied, AllCounted, AllPlaced, FinalityOk, BallotsOk, BallotOk;
    RunInv(g, actions);
    var s := Run(g, actions);
    var evs := Stream(s);
    VotesConsistent(g, s.finalized, s.ownVotes, evs, i, k);
    if g.Epoch(evs[i].target) == g.Epoch(evs[k].target)
       && (forall j | i < j < k && evs[j].Finalized? :: g.Epoch(evs[j].hash) != g.Epoch(evs[k].target))
    {
      LaterVoteDescends(g, evs, i, k);
    }
  }
}
