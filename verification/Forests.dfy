/** The fork trees as they are mutated and walked in place (src/consensus/forktree.rs), against the
    specification functions of `ForkTree`. */
module Forests {
  import opened Primitives
  import opened State
  import opened Blocks
  import opened ForkTree
  import opened Consensus
  import opened ForkChoice

  lemma BumpOne(nodes: Nodes, h: Hash, voter: Pubkey, stake: nat)
    requires h in nodes && h.Of?
    ensures AddVotes(nodes[h := Bump(nodes[h], voter, stake)], h.block.parent, voter, stake)
      == AddVotes(nodes, h, voter, stake)
  {
    var p := h.block.parent;
    if Extends(p, h) { DescendsDeeper(h, p); if p != h { DescendsDeeper(p, h); } }
    var l, r := AddVotes(nodes[h := Bump(nodes[h], voter, stake)], p, voter, stake), AddVotes(nodes, h, voter, stake);
    assert l.Keys == r.Keys;
    assert forall x | x in r :: l[x] == r[x];
  }

  lemma ParentCases(nodes: Nodes, roots: seq<Hash>, finalized: Hash, h: Hash)
    requires Linked(nodes, roots, finalized) && h in nodes
    ensures h.Of? && (h.block.parent in nodes || h.block.parent == finalized)
  {
  }

  lemma NoneAbove(before: Nodes, nodes: Nodes, roots: seq<Hash>, finalized: Hash, voter: Pubkey, stake: nat)
    requires Linked(before, roots, finalized) && nodes.Keys == before.Keys
    ensures AddVotes(nodes, finalized, voter, stake) == nodes
  {
    FinalizedNotANode(before, roots, finalized);
  }

  lemma PreorderNext(nodes: Nodes, h: Hash, cs: seq<Hash>, i: nat)
    requires h in nodes && i < |cs| && Descends(cs[i], h)
    ensures PreorderOf(nodes, h, cs[..i + 1]) == PreorderOf(nodes, h, cs[..i]) + Preorder(nodes, cs[i])
  {
    assert cs[..i + 1][..i] == cs[..i];
  }

  lemma NoChildrenYet(nodes: Nodes, h: Hash)
    requires h in nodes
    ensures PreorderOf(nodes, h, nodes[h].children[..0]) == []
    ensures Preorder(nodes, h) == [h] + PreorderOf(nodes, h, nodes[h].children[..|nodes[h].children|])
  {
    assert nodes[h].children[..|nodes[h].children|] == nodes[h].children;
  }

  lemma ChildFacts(nodes: Nodes, roots: seq<Hash>, finalized: Hash, h: Hash, i: nat)
    requires Linked(nodes, roots, finalized) && h in nodes && i < |nodes[h].children|
    ensures nodes[h].children[i] in nodes && Descends(nodes[h].children[i], h)
    ensures Subtree(nodes, nodes[h].children[i]) < Subtree(nodes, h)
  {
    assert ChildrenOk(nodes, h) && nodes[h].children[i] in nodes[h].children;
    SubtreeShrinks(nodes, h, nodes[h].children[i]);
  }

  /** What hangs on the children of r is what descends from it. */
  lemma MovedIsPromoted(nodes: Nodes, roots: seq<Hash>, finalized: Hash, r: Hash)
    requires Linked(nodes, roots, finalized) && r in nodes
    ensures (map h | h in PreorderOf(nodes, r, nodes[r].children) && h in nodes :: nodes[h]) == Promote(nodes, r)
  {
    hide Linked, PreorderOf;
    var moved := PreorderOf(nodes, r, nodes[r].children);
    forall h | h in nodes ensures h in moved <==> Descends(h, r) {
      PreorderCounts(nodes, roots, finalized, r, h);
      PreorderCounts(nodes, roots, finalized, r, r);
      assert Preorder(nodes, r) == [r] + moved;
      assert multiset([r] + moved) == multiset{r} + multiset(moved);
      if Descends(r, r) { DescendsDeeper(r, r); }
    }
  }

  class Forest {
    var roots: seq<Hash>
    var nodes: Nodes

    ghost predicate Valid(finalized: Hash)
      reads this
    {
      Linked(nodes, roots, finalized)
    }

    constructor ()
      ensures roots == [] && nodes == map[]
    {
      roots, nodes := [], map[];
    }

    /** `add_child` or a new root at the back of the forest. */
    method AddBlock(h: Hash, diff: StateDiff, finalized: Hash)
      requires h.Of?
      modifies this
      ensures nodes == AddLeaf(old(nodes), h, diff)
      ensures roots == if h.block.parent == finalized then old(roots) + [h] else old(roots)
    {
      var p := h.block.parent;
      if p in nodes {
        nodes := nodes[p := nodes[p].(children := nodes[p].children + [h])];
      }
      nodes := nodes[h := Node(diff, 0, {}, [])];
      if p == finalized {
        roots := roots + [h];
      }
    }

    /** `add_votes`: the target first, then up the parent links to the root. */
    method AddVotes(target: Hash, stake: nat, voter: Pubkey, ghost finalized: Hash)
      requires Valid(finalized) && target in nodes
      modifies this`nodes
      ensures nodes == ForkTree.AddVotes(old(nodes), target, voter, stake)
    {
      hide Linked, Descends, Extends, Bump, ForkTree.AddVotes;
      ParentCases(nodes, roots, finalized, target);
      BumpOne(nodes, target, voter, stake);
      var current := target;
      nodes := nodes[current := Bump(nodes[current], voter, stake)];
      while current.block.parent in nodes
        invariant current in old(nodes) && current.Of? && nodes.Keys == old(nodes).Keys
        invariant current.block.parent in nodes || current.block.parent == finalized
        invariant ForkTree.AddVotes(nodes, current.block.parent, voter, stake)
          == ForkTree.AddVotes(old(nodes), target, voter, stake)
        decreases current
      {
        current := current.block.parent;
        ParentCases(old(nodes), roots, finalized, current);
        BumpOne(nodes, current, voter, stake);
        nodes := nodes[current := Bump(nodes[current], voter, stake)];
      }
      NoneAbove(old(nodes), nodes, roots, finalized, voter, stake);
    }

    /** `is_descendant_of`: walk the path above h. */
    method DescendsFrom(h: Hash, a: Hash) returns (found: bool)
      requires h in nodes && h.Of?
      ensures found == IsDescendantOf(nodes, h, a)
    {
      var current := h.block.parent;
      while current in nodes
        invariant IsDescendantOf(nodes, h, a) == (a in Path(nodes, current))
        decreases current
      {
        if current == a { return true; }
        if !current.Of? { return false; }
        current := current.block.parent;
      }
      return false;
    }

    /** `epoch_start`: the last step of the path before the epoch changes. */
    method EpochStartOf(h: Hash, epochBlocks: nat) returns (needle: Hash)
      requires epochBlocks > 0
      ensures needle == EpochStart(nodes, h, epochBlocks)
    {
      needle := h;
      while needle.Of? && needle.block.parent in nodes
        invariant EpochStart(nodes, needle, epochBlocks) == EpochStart(nodes, h, epochBlocks)
        invariant Height(needle) / epochBlocks == Height(h) / epochBlocks
        decreases needle
      {
        var step := needle.block.parent;
        if Height(step) / epochBlocks != Height(h) / epochBlocks { return; }
        needle := step;
      }
    }

    /** `depth`: the number of steps from h up to its root. */
    method DepthOf(h: Hash) returns (depth: nat)
      ensures depth == PathDepth(nodes, h)
    {
      var steps, current := 0, h;
      while current in nodes
        invariant |Path(nodes, h)| == steps + |Path(nodes, current)|
        decreases current, if current in nodes then 1 else 0
      {
        steps := steps + 1;
        if !current.Of? { break; }
        current := current.block.parent;
      }
      assert |Path(nodes, h)| == steps;
      depth := if steps == 0 then 0 else steps - 1;
    }

    /** The loop of `head` over the children with its votes and depth comparisons. */
    method TopSubtree(children: seq<Hash>, ghost parent: Hash) returns (top: Hash)
      requires children != [] && forall c | c in children :: c in nodes && c.Of? && c.block.parent == parent
      ensures top == Heaviest(nodes, children)
    {
      hide Heaviest;
      var maxVotes := 0;
      top := children[0];
      for i := 0 to |children|
        invariant top in children
        invariant i == 0 ==> maxVotes == 0 && top == children[0]
        invariant i > 0 ==> top == Heaviest(nodes, children[..i]) && maxVotes == VotesOf(nodes, top)
      {
        var subtree := children[i];
        assert subtree in children;
        HeaviestNext(nodes, children, i);
        var votes := nodes[subtree].votes;
        if votes == maxVotes {
          var d := DepthOf(subtree);
          var t := DepthOf(top);
          SiblingsEquallyDeep(nodes, subtree, top);
          if d > t { top := subtree; }
        } else if votes > maxVotes {
          maxVotes, top := votes, subtree;
        }
      }
      assert children[..|children|] == children;
    }

    /** `head`. */
    method HeadOf(h: Hash, ghost finalized: Hash) returns (head: Hash)
      requires Valid(finalized) && h in nodes
      ensures head == Head(nodes, h)
      decreases Subtree(nodes, h)
    {
      if nodes[h].children == [] { return h; }
      assert ChildrenOk(nodes, h);
      var top := TopSubtree(nodes[h].children, h);
      ghost var chosen := HeaviestChild(nodes, roots, finalized, h);
      head := HeadOf(top, finalized);
    }

    /** `Overlayed::get` over `CascadingState::get`: the first diff on the path that has the address,
        or else the finalized state. */
    method Read(base: Accounts, h: Hash, address: Pubkey) returns (account: Option<Account>)
      ensures account == Get(ViewAt(nodes, base, h), address)
    {
      var current := h;
      while current in nodes && current.Of?
        invariant Get(ViewAt(nodes, base, current), address) == Get(ViewAt(nodes, base, h), address)
        decreases current
      {
        var found := Get(nodes[current].diff.data, address);
        if found.Some? { return found; }
        current := current.block.parent;
      }
      account := Get(base, address);
    }

    /** `visit`: preorder, each child's whole subtree before the next child. */
    method Visit(h: Hash, ghost finalized: Hash) returns (visited: seq<Hash>)
      requires Valid(finalized) && h in nodes
      ensures visited == Preorder(nodes, h)
      decreases Subtree(nodes, h)
    {
      hide Linked, Descends, PreorderOf, Preorder, Subtree;
      visited := [h];
      NoChildrenYet(nodes, h);
      for i := 0 to |nodes[h].children|
        invariant visited == [h] + PreorderOf(nodes, h, nodes[h].children[..i])
      {
        var child := nodes[h].children[i];
        ChildFacts(nodes, roots, finalized, h, i);
        PreorderNext(nodes, h, nodes[h].children, i);
        var below := Visit(child, finalized);
        visited := visited + below;
      }
    }

    /** The part of `finalize_root` that keeps the children of the root, each with everything that hangs
        on it, as the new trees. */
    method PromoteRoot(r: Hash, ghost finalized: Hash)
      requires Valid(finalized) && r in nodes
      modifies this
      ensures nodes == Promote(old(nodes), r) && roots == old(nodes)[r].children
    {
      hide Linked, Preorder, PreorderOf, Descends, Subtree;
      var kept: Nodes := map[];
      var children := nodes[r].children;
      ghost var moved := [];
      NoChildrenYet(nodes, r);
      for i := 0 to |children|
        invariant nodes == old(nodes) && roots == old(roots) && Valid(finalized)
        invariant moved == PreorderOf(nodes, r, children[..i])
        invariant kept == map h | h in moved && h in nodes :: nodes[h]
      {
        ChildFacts(nodes, roots, finalized, r, i);
        PreorderNext(nodes, r, children, i);
        var tree := Visit(children[i], finalized);
        kept := kept + map h | h in tree && h in nodes :: nodes[h];
        moved := moved + tree;
      }
      assert children[..|children|] == children;
      MovedIsPromoted(nodes, roots, finalized, r);
      nodes, roots := kept, children;
    }
  }
}
