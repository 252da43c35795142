/** The volatile blocks since the last finalized one (src/consensus/forktree.rs). The forest is an
    arena: a node's logical parent is the node of its block's parent hash, if there is one. */
module ForkTree {
  import opened Primitives
  import opened State
  import opened Blocks

  datatype Node = Node(diff: StateDiff, votes: nat, voters: set<Pubkey>, children: seq<Hash>)

  type Nodes = map<Hash, Node>

  function VotesOf(nodes: Nodes, h: Hash): nat {
    if h in nodes then nodes[h].votes else 0
  }

  /** `path()`: the node and its ancestors inside the forest, youngest first. */
  function Path(nodes: Nodes, h: Hash): seq<Hash> {
    if h !in nodes then [] else
    [h] + (if h.Of? then Path(nodes, h.block.parent) else [])
  }

  /** `is_descendant_of`: a lies on the path strictly above h. */
  predicate IsDescendantOf(nodes: Nodes, h: Hash, a: Hash) {
    h in nodes && h.Of? && a in Path(nodes, h.block.parent)
  }

  /** `epoch_start`: the oldest node on the path that is still in h's epoch. */
  function EpochStart(nodes: Nodes, h: Hash, epochBlocks: nat): Hash
    requires epochBlocks > 0
  {
    if h.Of? && h.block.parent in nodes && Height(h.block.parent) / epochBlocks == Height(h) / epochBlocks
    then EpochStart(nodes, h.block.parent, epochBlocks)
    else h
  }

  /** The first of the most voted siblings. */
  function Heaviest(nodes: Nodes, siblings: seq<Hash>): (best: Hash)
    requires siblings != []
    ensures best in siblings
    ensures forall c | c in siblings :: VotesOf(nodes, c) <= VotesOf(nodes, best)
    ensures exists i | 0 <= i < |siblings| :: siblings[i] == best
              && forall j | 0 <= j < i :: VotesOf(nodes, siblings[j]) < VotesOf(nodes, best)
  {
    if |siblings| == 1 then siblings[0] else
    var rest, last := siblings[..|siblings| - 1], siblings[|siblings| - 1];
    assert siblings == rest + [last];
    var best := Heaviest(nodes, rest);
    if VotesOf(nodes, last) > VotesOf(nodes, best) then last else best
  }

  lemma HeaviestNext(nodes: Nodes, siblings: seq<Hash>, i: nat)
    requires i < |siblings|
    ensures var next := Heaviest(nodes, siblings[..i + 1]);
            if i == 0 then next == siblings[0]
            else
              var best := Heaviest(nodes, siblings[..i]);
              next == if VotesOf(nodes, siblings[i]) > VotesOf(nodes, best) then siblings[i] else best
  {
    assert siblings[..i + 1][..i] == siblings[..i];
  }

  /** The nodes of the subtree at h. */
  ghost function Subtree(nodes: Nodes, h: Hash): set<Hash> {
    set x | x in nodes && Extends(x, h)
  }

  lemma SubtreeShrinks(nodes: Nodes, h: Hash, c: Hash)
    requires h in nodes && Descends(c, h)
    ensures Subtree(nodes, c) < Subtree(nodes, h)
  {
    forall x | x in Subtree(nodes, c) ensures x in Subtree(nodes, h) && x != h {
      ExtendsTransitive(x, c, h);
      DescendsDeeper(c, h);
      if Descends(x, c) { DescendsDeeper(x, c); }
    }
    assert h in Subtree(nodes, h);
  }

  /** `head()`: descend into the first heaviest child until a leaf. A listed child always descends
      from its parent (`Linked`), so the guard only serves termination. */
  function Head(nodes: Nodes, h: Hash): Hash
    decreases Subtree(nodes, h)
  {
    if h !in nodes || nodes[h].children == [] then h else
    var top := Heaviest(nodes, nodes[h].children);
    if Descends(top, h) then
      SubtreeShrinks(nodes, h, top);
      Head(nodes, top)
    else h
  }

  /** Preorder walk of the subtree at h, as `visit` makes it. */
  function Preorder(nodes: Nodes, h: Hash): seq<Hash>
    decreases Subtree(nodes, h), 1, 0
  {
    if h !in nodes then [] else [h] + PreorderOf(nodes, h, nodes[h].children)
  }

  function PreorderOf(nodes: Nodes, h: Hash, cs: seq<Hash>): seq<Hash>
    requires h in nodes
    decreases Subtree(nodes, h), 0, |cs|
  {
    if cs == [] then [] else
    var last := cs[|cs| - 1];
    PreorderOf(nodes, h, cs[..|cs| - 1])
    + (if Descends(last, h) then SubtreeShrinks(nodes, h, last); Preorder(nodes, last) else [])
  }

  /** A node is confirmed into the tallies of `h` once per voter. */
  function Bump(node: Node, voter: Pubkey, stake: nat): Node {
    if voter in node.voters then node
    else node.(votes := node.votes + stake, voters := node.voters + {voter})
  }

  /** `add_votes`: count a voter on the target and on all of its ancestors. */
  function AddVotes(nodes: Nodes, target: Hash, voter: Pubkey, stake: nat): Nodes {
    map h | h in nodes :: if Extends(target, h) then Bump(nodes[h], voter, stake) else nodes[h]
  }

  /** A new leaf under its parent node, or a new root when the parent is not in the forest. */
  function AddLeaf(nodes: Nodes, h: Hash, diff: StateDiff): Nodes
    requires h.Of?
  {
    var p := h.block.parent;
    (if p in nodes then nodes[p := nodes[p].(children := nodes[p].children + [h])] else nodes)
    [h := Node(diff, 0, {}, [])]
  }

  /** The state a child of h executes on: `CascadingState` over the finalized store. */
  function ViewAt(nodes: Nodes, base: Accounts, h: Hash): Accounts {
    if h in nodes && h.Of? then nodes[h].diff.Over(ViewAt(nodes, base, h.block.parent)) else base
  }

  /** The shape every reachable forest has. */
  ghost predicate Linked(nodes: Nodes, roots: seq<Hash>, finalized: Hash) {
    && Anchored(nodes, finalized)
    && RootsOk(nodes, roots, finalized)
    && (forall h | h in nodes :: ChildrenOk(nodes, h))
  }

  /** Every node grows out of the finalized block, heights counting up by one. */
  ghost predicate Anchored(nodes: Nodes, finalized: Hash) {
    && Grounded(finalized)
    && (forall h | h in nodes :: h.Of? && Grounded(h) && Descends(h, finalized))
    && (forall h | h in nodes :: h.block.parent == finalized || h.block.parent in nodes)
  }

  ghost predicate Distinct(hs: seq<Hash>) {
    forall i, j | 0 <= i < j < |hs| :: hs[i] != hs[j]
  }

  /** The roots are the children of the finalized block. */
  ghost predicate RootsOk(nodes: Nodes, roots: seq<Hash>, finalized: Hash) {
    && Distinct(roots)
    && (forall h :: h in roots <==> h in nodes && h.Of? && h.block.parent == finalized)
  }

  ghost predicate ChildrenOk(nodes: Nodes, h: Hash)
    requires h in nodes
  {
    && Distinct(nodes[h].children)
    && (forall c :: c in nodes[h].children <==> c in nodes && c.Of? && c.block.parent == h)
  }

  lemma FinalizedNotANode(nodes: Nodes, roots: seq<Hash>, finalized: Hash)
    requires Linked(nodes, roots, finalized)
    ensures finalized !in nodes
    ensures forall h | h in nodes :: !Extends(finalized, h)
  {
    forall h | h in nodes ensures !Extends(finalized, h) {
      GroundedAncestor(h, finalized);
      if Descends(finalized, h) { GroundedAncestor(finalized, h); }
    }
  }

  /** The path of a node is its ancestry down to, and without, the finalized block. */
  lemma {:induction false} PathIsAncestry(nodes: Nodes, roots: seq<Hash>, finalized: Hash, h: Hash, a: Hash)
    requires Linked(nodes, roots, finalized) && h in nodes
    ensures a in Path(nodes, h) <==> a in nodes && Extends(h, a)
  {
    FinalizedNotANode(nodes, roots, finalized);
    if h.block.parent in nodes {
      PathIsAncestry(nodes, roots, finalized, h.block.parent, a);
    } else {
      assert Path(nodes, h) == [h];
      assert a in nodes ==> !Extends(finalized, a);
    }
  }

  lemma DescendantMeansDescends(nodes: Nodes, roots: seq<Hash>, finalized: Hash, h: Hash, a: Hash)
    requires Linked(nodes, roots, finalized) && h in nodes
    ensures IsDescendantOf(nodes, h, a) <==> a in nodes && Descends(h, a)
  {
    var p := h.block.parent;
    if p in nodes {
      PathIsAncestry(nodes, roots, finalized, p, a);
    } else {
      FinalizedNotANode(nodes, roots, finalized);
      assert Path(nodes, p) == [];
    }
  }

  /** Siblings are equally deep, so the longest-chain tie-break of `head` never prefers one. */
  lemma SiblingsEquallyDeep(nodes: Nodes, a: Hash, b: Hash)
    requires a in nodes && b in nodes && a.Of? && b.Of? && a.block.parent == b.block.parent
    ensures |Path(nodes, a)| == |Path(nodes, b)|
  {
  }

  lemma LinkedAddVotes(nodes: Nodes, roots: seq<Hash>, finalized: Hash, target: Hash, voter: Pubkey, stake: nat)
    requires Linked(nodes, roots, finalized)
    ensures Linked(AddVotes(nodes, target, voter, stake), roots, finalized)
  {
    var after := AddVotes(nodes, target, voter, stake);
    forall h | h in after ensures ChildrenOk(after, h) {
      assert ChildrenOk(nodes, h);
      assert after[h].children == nodes[h].children;
    }
  }

  lemma AddLeafChildren(nodes: Nodes, h: Hash, diff: StateDiff, x: Hash)
    requires h.Of? && h !in nodes
    requires forall y | y in nodes :: y.Of? && ChildrenOk(nodes, y) && y.block.parent != h
    requires x in AddLeaf(nodes, h, diff)
    ensures ChildrenOk(AddLeaf(nodes, h, diff), x)
  {
    var p, after := h.block.parent, AddLeaf(nodes, h, diff);
    assert after.Keys == nodes.Keys + {h};
    assert p != h by { if p == h { assert Descends(h, h); DescendsDeeper(h, h); } }
    if x in nodes {
      assert ChildrenOk(nodes, x);
      assert h !in nodes[x].children;
      assert after[x].children == if x == p then nodes[x].children + [h] else nodes[x].children;
    } else {
      assert after[x].children == [];
    }
  }

  lemma AddLeafAnchored(nodes: Nodes, finalized: Hash, h: Hash, after: Nodes)
    requires Anchored(nodes, finalized) && h.Of? && after.Keys == nodes.Keys + {h}
    requires h.block.height == Height(h.block.parent) + 1
    requires h.block.parent == finalized || h.block.parent in nodes
    ensures Anchored(after, finalized)
  {
    assert Grounded(h) && Descends(h, finalized);
  }

  lemma AddLeafRoots(nodes: Nodes, roots: seq<Hash>, finalized: Hash, h: Hash, after: Nodes)
    requires RootsOk(nodes, roots, finalized)
    requires h.Of? && h !in nodes && after.Keys == nodes.Keys + {h}
    ensures RootsOk(after, if h.block.parent == finalized then roots + [h] else roots, finalized)
  {
    assert h !in roots;
  }

  lemma LinkedAddLeaf(nodes: Nodes, roots: seq<Hash>, finalized: Hash, h: Hash, diff: StateDiff)
    requires Linked(nodes, roots, finalized)
    requires h.Of? && h !in nodes && h.block.height == Height(h.block.parent) + 1
    requires h.block.parent == finalized || h.block.parent in nodes
    ensures Linked(AddLeaf(nodes, h, diff), if h.block.parent == finalized then roots + [h] else roots, finalized)
  {
    var after := AddLeaf(nodes, h, diff);
    assert after.Keys == nodes.Keys + {h};
    AddLeafAnchored(nodes, finalized, h, after);
    AddLeafRoots(nodes, roots, finalized, h, after);
    forall x | x in after ensures ChildrenOk(after, x) {
      forall y | y in nodes ensures y.Of? && ChildrenOk(nodes, y) && y.block.parent != h {
        if y.block.parent == h {
          assert h == finalized;
          assert Descends(h, finalized) by { assert Anchored(after, finalized) && h in after; }
          DescendsDeeper(h, finalized);
        }
      }
      AddLeafChildren(nodes, h, diff, x);
    }
  }

  /** The diffs on the path of h, oldest first. */
  function PathDiffs(nodes: Nodes, h: Hash): seq<StateDiff> {
    if h in nodes && h.Of? then PathDiffs(nodes, h.block.parent) + [nodes[h].diff] else []
  }

  lemma {:induction false} ViewIsOverAll(nodes: Nodes, base: Accounts, h: Hash)
    ensures ViewAt(nodes, base, h) == OverAll(base, PathDiffs(nodes, h))
  {
    if h in nodes && h.Of? {
      ViewIsOverAll(nodes, base, h.block.parent);
    }
  }

  /** `finalize_root`: what is left of the forest once root r is finalized. */
  function Promote(nodes: Nodes, r: Hash): Nodes {
    map h | h in nodes && Descends(h, r) :: nodes[h]
  }

  /** The walk over several trees, one after the other. */
  function Sweep(nodes: Nodes, trees: seq<Hash>): seq<Hash> {
    if trees == [] then [] else Sweep(nodes, trees[..|trees| - 1]) + Preorder(nodes, trees[|trees| - 1])
  }

  /** The child of a through which x descends from a. */
  lemma {:induction false} Branch(nodes: Nodes, roots: seq<Hash>, finalized: Hash, x: Hash, a: Hash) returns (c: Hash)
    requires Linked(nodes, roots, finalized)
    requires x in nodes && Descends(x, a) && (a in nodes || a == finalized)
    ensures c in nodes && c.block.parent == a && Extends(x, c)
    ensures if a == finalized then c in roots else c in nodes[a].children
  {
    if x.block.parent == a {
      c := x;
      if a != finalized { assert ChildrenOk(nodes, a); }
    } else {
      FinalizedNotANode(nodes, roots, finalized);
      if x.block.parent == finalized {
        GroundedAncestor(x, finalized);
        GroundedAncestor(finalized, a);
        assert false;
      }
      c := Branch(nodes, roots, finalized, x.block.parent, a);
    }
    if a != finalized { assert ChildrenOk(nodes, a); }
  }

  lemma LinkedPromote(nodes: Nodes, roots: seq<Hash>, finalized: Hash, r: Hash)
    requires Linked(nodes, roots, finalized) && r in roots
    ensures Linked(Promote(nodes, r), nodes[r].children, r)
  {
    var after := Promote(nodes, r);
    assert ChildrenOk(nodes, r);
    forall h | h in after ensures h.block.parent == r || h.block.parent in after {
      var c := Branch(nodes, roots, finalized, h, r);
      if h.block.parent != r {
        assert Descends(h.block.parent, r);
        if h.block.parent == finalized {
          GroundedAncestor(h, r); GroundedAncestor(r, finalized); GroundedAncestor(finalized, r);
        }
      }
    }
    assert Anchored(after, r);
    forall h | h in after ensures ChildrenOk(after, h) {
      assert ChildrenOk(nodes, h);
      forall c | c in nodes && c.Of? && c.block.parent == h ensures Descends(c, r) {
        DescendsTransitive(c, h, r);
      }
    }
  }

  /** A subtree is its top node and the subtrees of the children, which are disjoint. */
  lemma TopOrBelow(nodes: Nodes, roots: seq<Hash>, finalized: Hash, h: Hash, x: Hash)
    requires Linked(nodes, roots, finalized) && h in nodes
    ensures var cs := nodes[h].children;
            && Level(nodes, cs, x) && (forall c | c in cs :: c in nodes && Descends(c, h))
            && (x in nodes && Extends(x, h) <==> x == h || UnderOne(nodes, cs, x))
            && !(x == h && UnderOne(nodes, cs, x))
  {
    assert ChildrenOk(nodes, h);
    var cs := nodes[h].children;
    assert Level(nodes, cs, x) && forall c | c in cs :: c in nodes && Descends(c, h);
    hide Level, Linked, ChildrenOk, Grounded;
    if x in nodes && Descends(x, h) {
      var c := Branch(nodes, roots, finalized, x, h);
      assert UnderOne(nodes, cs, x);
    }
    if UnderOne(nodes, cs, x) {
      var c :| c in cs && Extends(x, c);
      if x != c { DescendsTransitive(x, c, h); }
      DescendsDeeper(x, h);
    }
  }

  /** The walk lists every node of the subtree exactly once. */
  lemma {:induction false} PreorderCounts(nodes: Nodes, roots: seq<Hash>, finalized: Hash, h: Hash, x: Hash)
    requires Linked(nodes, roots, finalized) && h in nodes
    ensures ListsOnce(nodes, h, x)
    decreases Subtree(nodes, h)
  {
    TopOrBelow(nodes, roots, finalized, h, x);
    hide Linked, Level, UnderOne;
    var cs := nodes[h].children;
    forall c | c in cs ensures ListsOnce(nodes, c, x) {
      SubtreeShrinks(nodes, h, c);
      PreorderCounts(nodes, roots, finalized, c, x);
    }
    PreorderOfCounts(nodes, h, cs, x);
  }

  ghost predicate ListsOnce(nodes: Nodes, h: Hash, x: Hash) {
    multiset(Preorder(nodes, h))[x] == if x in nodes && Extends(x, h) then 1 else 0
  }

  ghost predicate UnderOne(nodes: Nodes, cs: seq<Hash>, x: Hash) {
    x in nodes && exists c :: c in cs && Extends(x, c)
  }

  /** Distinct grounded blocks of equal height, so that no block descends from two of them. */
  ghost predicate Level(nodes: Nodes, cs: seq<Hash>, x: Hash) {
    && Distinct(cs)
    && (forall c, d | c in cs && d in cs :: Height(c) == Height(d))
    && (x in nodes ==> Grounded(x))
  }

  lemma LevelSplit(nodes: Nodes, cs: seq<Hash>, x: Hash)
    requires cs != [] && Level(nodes, cs, x)
    ensures var rest, last := cs[..|cs| - 1], cs[|cs| - 1];
            && Level(nodes, rest, x)
            && (UnderOne(nodes, cs, x) <==> (x in nodes && Extends(x, last)) || UnderOne(nodes, rest, x))
            && !(x in nodes && Extends(x, last) && UnderOne(nodes, rest, x))
  {
    var rest, last := cs[..|cs| - 1], cs[|cs| - 1];
    assert cs == rest + [last];
    if x in nodes && Extends(x, last) && UnderOne(nodes, rest, x) {
      var d :| d in rest && Extends(x, d);
      AncestorAtHeight(x, last, d);
    }
  }

  lemma {:induction false} PreorderOfCounts(nodes: Nodes, h: Hash, cs: seq<Hash>, x: Hash)
    requires h in nodes && Level(nodes, cs, x)
    requires forall c | c in cs :: Descends(c, h) && ListsOnce(nodes, c, x)
    ensures multiset(PreorderOf(nodes, h, cs))[x] == if UnderOne(nodes, cs, x) then 1 else 0
  {
    if cs == [] {
    } else {
      var rest, last := cs[..|cs| - 1], cs[|cs| - 1];
      LevelSplit(nodes, cs, x);
      PreorderOfCounts(nodes, h, rest, x);
      assert ListsOnce(nodes, last, x);
      assert PreorderOf(nodes, h, cs) == PreorderOf(nodes, h, rest) + Preorder(nodes, last);
    }
  }

  lemma {:induction false} SweepCounts(nodes: Nodes, trees: seq<Hash>, x: Hash)
    requires Level(nodes, trees, x)
    requires forall t | t in trees :: ListsOnce(nodes, t, x)
    ensures multiset(Sweep(nodes, trees))[x] == if UnderOne(nodes, trees, x) then 1 else 0
  {
    if trees == [] {
    } else {
      LevelSplit(nodes, trees, x);
      SweepCounts(nodes, trees[..|trees| - 1], x);
      assert ListsOnce(nodes, trees[|trees| - 1], x);
    }
  }

  lemma SameRoot(nodes: Nodes, roots: seq<Hash>, finalized: Hash, x: Hash, a: Hash, b: Hash)
    requires Linked(nodes, roots, finalized) && x in nodes && a in roots && b in roots
    requires Extends(x, a) && Extends(x, b)
    ensures a == b
  {
    AncestorAtHeight(x, a, b);
  }

  lemma OtherTrees(nodes: Nodes, roots: seq<Hash>, finalized: Hash, i: nat, x: Hash)
    requires Linked(nodes, roots, finalized) && i < |roots| && x in nodes
    ensures UnderOne(nodes, Without(roots, i), x) <==> !Extends(x, roots[i])
  {
    var trees := Without(roots, i);
    assert Distinct(roots);
    hide Linked, Without, Distinct, Extends;
    var c := Branch(nodes, roots, finalized, x, finalized);
    if Extends(x, roots[i]) {
      forall t | t in trees && Extends(x, t) ensures false {
        SameRoot(nodes, roots, finalized, x, t, roots[i]);
      }
    } else {
      assert c in trees;
    }
  }

  /** The list left after taking out one position. */
  function Without(hs: seq<Hash>, i: nat): (rest: seq<Hash>)
    requires i < |hs|
    ensures Distinct(hs) ==> Distinct(rest) && forall h :: h in rest <==> h in hs && h != hs[i]
  {
    var rest := hs[..i] + hs[i + 1..];
    assert forall h | h in rest :: h in hs;
    assert forall k | 0 <= k < |hs| && k != i :: hs[k] == rest[if k < i then k else k - 1];
    rest
  }

  /** Walking the trees of all roots but one lists, once each, the nodes outside that root's tree. */
  lemma DiscardsCount(nodes: Nodes, roots: seq<Hash>, finalized: Hash, i: nat, x: Hash)
    requires Linked(nodes, roots, finalized) && i < |roots|
    ensures multiset(Sweep(nodes, Without(roots, i)))[x] == if x in nodes && !Extends(x, roots[i]) then 1 else 0
  {
    var trees := Without(roots, i);
    forall t | t in trees ensures ListsOnce(nodes, t, x) {
      PreorderCounts(nodes, roots, finalized, t, x);
    }
    assert forall t | t in trees :: Height(t) == Height(finalized) + 1;
    SweepCounts(nodes, trees, x);
    if x in nodes {
      OtherTrees(nodes, roots, finalized, i, x);
    }
  }
}
