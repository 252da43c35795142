/** Blocks that wait for their parent (src/consensus/orphans.rs). Iteration over a hash map visits
    its entries in any order; timers are represented by the set of trees that have expired. */
module Orphans {
  import opened Primitives
  import opened Blocks

  /** A waiting block with the waiting blocks built on it, keyed by hash. */
  datatype OrphanTree = OrphanTree(block: Block, children: map<Hash, OrphanTree>) {

    ghost function Members(): set<Block> {
      {block} + set k, x | k in children && x in children[k].Members() :: x
    }

    /** Children hang under their parent's hash and are taller than it. */
    ghost predicate Ok() {
      forall k | k in children ::
        && k == Of(children[k].block)
        && children[k].block.parent == Of(block)
        && children[k].block.height > block.height
        && children[k].Ok()
    }

    lemma {:induction false} MembersDescend(x: Block)
      requires Ok() && x in Members()
      ensures x == block || (Descends(Of(x), Of(block)) && x.height > block.height
                             && exists y :: y in Members() && Of(y) == x.parent && y.height < x.height)
    {
      if x != block {
        var k :| k in children && x in children[k].Members();
        children[k].MembersDescend(x);
        if x != children[k].block {
          DescendsTransitive(Of(x), Of(children[k].block), Of(block));
        } else {
          assert block in Members();
        }
      }
    }

    /** The tree takes b: some member is b's parent and shorter than b. */
    ghost predicate Takes(b: Block) {
      exists p :: p in Members() && Of(p) == b.parent && p.height < b.height
    }

    /** What inserting b leaves behind. */
    ghost predicate Grown(b: Block, after: OrphanTree) {
      after.Ok() && after.block == block && after.Members() == Members() + {b}
    }
  }

  /** Replacing one child. */
  lemma WithChild(t: OrphanTree, k: Hash, c: OrphanTree)
    requires t.Ok() && c.Ok()
    requires k == Of(c.block) && c.block.parent == Of(t.block) && c.block.height > t.block.height
    ensures var after := OrphanTree(t.block, t.children[k := c]);
            && after.Ok()
            && (k !in t.children || t.children[k].Members() <= c.Members() ==>
                  after.Members() == t.Members() + c.Members())
  {
    var after := OrphanTree(t.block, t.children[k := c]);
    assert forall j | j in t.children && j != k :: after.children[j] == t.children[j];
    if k !in t.children || t.children[k].Members() <= c.Members() {
      forall x ensures x in after.Members() <==> x in t.Members() + c.Members() {
        if x in t.Members() && x != t.block {
          var j :| j in t.children && x in t.children[j].Members();
          assert j in after.children;
          assert j != k ==> x in after.children[j].Members();
          assert j == k ==> x in c.Members();
        }
        if x in c.Members() { assert after.children[k] == c; }
      }
    }
  }

  /** A new child makes its parent's tree grow. */
  lemma LeafGrows(t: OrphanTree, b: Block)
    requires t.Ok() && b.parent == Of(t.block) && b.height > t.block.height && Of(b) !in t.children
    ensures t.Grown(b, OrphanTree(t.block, t.children[Of(b) := OrphanTree(b, map[])]))
  {
    var leaf := OrphanTree(b, map[]);
    assert leaf.Members() == {b};
    WithChild(t, Of(b), leaf);
  }

  /** A growing child makes the tree grow. */
  lemma ChildGrows(t: OrphanTree, k: Hash, inner: OrphanTree, b: Block)
    requires t.Ok() && k in t.children && t.children[k].Grown(b, inner)
    ensures t.Grown(b, OrphanTree(t.block, t.children[k := inner]))
  {
    WithChild(t, k, inner);
    assert t.Members() + inner.Members() == t.Members() + {b} by {
      assert forall x | x in t.children[k].Members() :: x in t.Members();
    }
  }

  /** `Node::insert`: None gives the block back. */
  method InsertInto(t: OrphanTree, b: Block) returns (after: Option<OrphanTree>)
    requires t.Ok()
    ensures after.Some? <==> t.Takes(b)
    ensures after.Some? ==> t.Grown(b, after.value)
    decreases t
  {
    if b.height <= t.block.height {
      if t.Takes(b) {
        ghost var p :| p in t.Members() && Of(p) == b.parent && p.height < b.height;
        t.MembersDescend(p);
      }
      return None;
    }
    if b.parent == Of(t.block) {
      assert t.block in t.Members();
      if Of(b) in t.children {
        AlreadyThere(t, b);
        return Some(t);
      }
      LeafGrows(t, b);
      return Some(OrphanTree(t.block, t.children[Of(b) := OrphanTree(b, map[])]));
    }
    var todo := t.children.Keys;
    while todo != {}
      invariant todo <= t.children.Keys
      invariant forall k | k in t.children && k !in todo :: !t.children[k].Takes(b)
      decreases todo
    {
      var k :| k in todo;
      todo := todo - {k};
      var inner := InsertInto(t.children[k], b);
      if inner.Some? {
        ghost var p :| p in t.children[k].Members() && Of(p) == b.parent && p.height < b.height;
        assert p in t.Members();
        ChildGrows(t, k, inner.value, b);
        return Some(OrphanTree(t.block, t.children[k := inner.value]));
      }
    }
    if t.Takes(b) {
      ghost var p :| p in t.Members() && Of(p) == b.parent && p.height < b.height;
      assert p != t.block;
      ghost var k :| k in t.children && p in t.children[k].Members();
      assert t.children[k].Takes(b);
    }
    return None;
  }

  /** A tree that takes a block can grow by it. */
  lemma {:induction false} GrowthExists(t: OrphanTree, b: Block) returns (after: OrphanTree)
    requires t.Ok() && t.Takes(b)
    ensures t.Grown(b, after)
    decreases t
  {
    var p :| p in t.Members() && Of(p) == b.parent && p.height < b.height;
    if p != t.block {
      var k :| k in t.children && p in t.children[k].Members();
      var inner := GrowthExists(t.children[k], b);
      ChildGrows(t, k, inner, b);
      after := OrphanTree(t.block, t.children[k := inner]);
    } else if Of(b) in t.children {
      AlreadyThere(t, b);
      after := t;
    } else {
      LeafGrows(t, b);
      after := OrphanTree(t.block, t.children[Of(b) := OrphanTree(b, map[])]);
    }
  }

  lemma AlreadyThere(t: OrphanTree, b: Block)
    requires t.Ok() && Of(b) in t.children
    ensures t.Members() + {b} == t.Members()
  {
    assert b in t.children[Of(b)].Members();
  }

  /** The larger of `sofar` and the tallest member: the recursion of `max_height`. */
  method Traverse(t: OrphanTree, sofar: nat) returns (h: nat)
    ensures h >= sofar && forall x | x in t.Members() :: x.height <= h
    ensures h == sofar || exists x :: x in t.Members() && x.height == h
    decreases t
  {
    h := sofar;
    var todo := t.children.Keys;
    while todo != {}
      invariant todo <= t.children.Keys
      invariant h >= sofar
      invariant forall k, x | k in t.children && k !in todo && x in t.children[k].Members() :: x.height <= h
      invariant h == sofar || exists x :: x in t.Members() && x.height == h
      decreases todo
    {
      var k :| k in todo;
      todo := todo - {k};
      var inner := Traverse(t.children[k], h);
      assert forall x | x in t.children[k].Members() :: x in t.Members();
      h := if inner > h then inner else h;
    }
    assert t.block in t.Members();
    h := if t.block.height > h then t.block.height else h;
  }

  /** `max_height` is the true maximum over the tree. */
  method MaxHeight(t: OrphanTree) returns (h: nat)
    ensures forall x | x in t.Members() :: x.height <= h
    ensures exists x :: x in t.Members() && x.height == h
  {
    h := t.block.height;
    assert t.block in t.Members();
    var todo := t.children.Keys;
    while todo != {}
      invariant todo <= t.children.Keys
      invariant h >= t.block.height
      invariant forall k, x | k in t.children && k !in todo && x in t.children[k].Members() :: x.height <= h
      invariant exists x :: x in t.Members() && x.height == h
      decreases todo
    {
      var k :| k in todo;
      todo := todo - {k};
      var inner := Traverse(t.children[k], h);
      assert forall x | x in t.children[k].Members() :: x in t.Members();
      h := if inner > h then inner else h;
    }
  }

  // ----- flattening

  lemma ChildrenDisjoint(t: OrphanTree, j: Hash, k: Hash)
    requires t.Ok() && j in t.children && k in t.children
    ensures t.block !in t.children[j].Members()
    ensures t.children[j].Members() <= t.Members()
    ensures j != k ==> t.children[j].Members() !! t.children[k].Members()
  {
    if t.block in t.children[j].Members() {
      t.children[j].MembersDescend(t.block);
    }
    if j != k {
      forall x | x in t.children[j].Members() && x in t.children[k].Members() ensures false {
        t.children[j].MembersDescend(x);
        t.children[k].MembersDescend(x);
        AncestorsComparable(Of(x), j, k);
        SiblingsEqual(j, k);
        SiblingsEqual(k, j);
      }
    }
  }

  lemma SiblingsEqual(j: Hash, k: Hash)
    requires j.Of? && k.Of? && j.block.parent == k.block.parent
    ensures Extends(j, k) ==> j == k
  {
    if Descends(j, k) { DescendsDeeper(j, k); }
  }

  /** out lists every member once, the root first and every other block after its parent. */
  ghost predicate IsFlat(t: OrphanTree, out: seq<Block>) {
    && out != [] && out[0] == t.block
    && (forall i, j | 0 <= i < j < |out| :: out[i] != out[j])
    && (forall x :: x in out <==> x in t.Members())
    && (forall i | 0 < i < |out| :: exists j :: 0 <= j < i && Of(out[j]) == out[i].parent)
  }

  /** The children of a node in some order. */
  method Entries(t: OrphanTree) returns (cs: seq<OrphanTree>)
    requires t.Ok()
    ensures Lists(t, cs)
  {
    cs := [];
    var todo := t.children.Keys;
    while todo != {}
      invariant todo <= t.children.Keys
      invariant forall c | c in cs :: Of(c.block) in t.children && t.children[Of(c.block)] == c && Of(c.block) !in todo
      invariant forall k | k in t.children && k !in todo :: t.children[k] in cs
      invariant forall i, j | 0 <= i < j < |cs| :: cs[i].block != cs[j].block
      decreases todo
    {
      var k :| k in todo;
      todo := todo - {k};
      cs := [t.children[k]] + cs;
    }
  }

  ghost predicate Queued(queue: seq<OrphanTree>, x: Block) {
    exists i :: 0 <= i < |queue| && x in queue[i].Members()
  }

  /** cs are the children of t, each once. */
  ghost predicate Lists(t: OrphanTree, cs: seq<OrphanTree>) {
    && (forall c | c in cs :: Of(c.block) in t.children && t.children[Of(c.block)] == c)
    && (forall k | k in t.children :: t.children[k] in cs)
    && (forall i, j | 0 <= i < j < |cs| :: cs[i].block != cs[j].block)
  }

  ghost predicate Disjoint(queue: seq<OrphanTree>) {
    forall i, j | 0 <= i < j < |queue| :: queue[i].Members() !! queue[j].Members()
  }

  /** Every queued subtree is new to the output and hangs on it. */
  ghost predicate Hangs(out: seq<Block>, c: OrphanTree) {
    && c.Ok()
    && (forall x | x in c.Members() :: x !in out)
    && (out != [] ==> exists y :: y in out && Of(y) == c.block.parent)
  }

  /** What the breadth-first loop keeps: the output and the queued subtrees partition the tree. */
  ghost predicate Partition(t: OrphanTree, out: seq<Block>, queue: seq<OrphanTree>) {
    && (forall x :: x in t.Members() <==> x in out || Queued(queue, x))
    && (forall i, j | 0 <= i < j < |out| :: out[i] != out[j])
    && (forall c | c in queue :: Hangs(out, c))
    && Disjoint(queue)
  }

  lemma StepDisjoint(queue: seq<OrphanTree>, cs: seq<OrphanTree>)
    requires queue != [] && Disjoint(queue) && queue[|queue| - 1].Ok() && Lists(queue[|queue| - 1], cs)
    ensures Disjoint(cs + queue[..|queue| - 1])
  {
    var node, rest := queue[|queue| - 1], queue[..|queue| - 1];
    var queue' := cs + rest;
    forall i, j | 0 <= i < j < |queue'| ensures queue'[i].Members() !! queue'[j].Members() {
      if i < |cs| {
        assert cs[i] in cs;
        if j < |cs| {
          assert cs[j] in cs;
          ChildrenDisjoint(node, Of(cs[i].block), Of(cs[j].block));
        } else {
          ChildrenDisjoint(node, Of(cs[i].block), Of(cs[i].block));
          assert queue'[j] == queue[j - |cs|];
        }
      } else {
        assert queue'[i] == queue[i - |cs|] && queue'[j] == queue[j - |cs|];
      }
    }
  }

  lemma StepHangs(out: seq<Block>, queue: seq<OrphanTree>, cs: seq<OrphanTree>, c: OrphanTree)
    requires queue != [] && Disjoint(queue) && Lists(queue[|queue| - 1], cs)
    requires forall d | d in queue :: Hangs(out, d)
    requires out == [] ==> |queue| == 1
    requires c in cs + queue[..|queue| - 1]
    ensures Hangs(out + [queue[|queue| - 1].block], c)
  {
    var node, rest := queue[|queue| - 1], queue[..|queue| - 1];
    var out' := out + [node.block];
    assert node in queue && node.block in out' && node.block in node.Members();
    if c in cs {
      ChildrenDisjoint(node, Of(c.block), Of(c.block));
    } else {
      var i :| 0 <= i < |rest| && rest[i] == c;
      assert c in queue;
      var y :| y in out && Of(y) == c.block.parent;
      assert y in out';
      assert queue[i].Members() !! queue[|queue| - 1].Members();
    }
  }

  lemma QueueStep(t: OrphanTree, out: seq<Block>, queue: seq<OrphanTree>, cs: seq<OrphanTree>)
    requires queue != [] && Partition(t, out, queue) && Lists(queue[|queue| - 1], cs)
    requires out == [] ==> |queue| == 1
    ensures Partition(t, out + [queue[|queue| - 1].block], cs + queue[..|queue| - 1])
    ensures queue[|queue| - 1].block in t.Members() && queue[|queue| - 1].block !in out
    ensures out != [] ==> exists j :: 0 <= j < |out| && Of(out[j]) == queue[|queue| - 1].block.parent
  {
    var node := queue[|queue| - 1];
    assert node in queue && Hangs(out, node) && node.block in node.Members();
    assert Queued(queue, node.block);
    StepDisjoint(queue, cs);
    forall c | c in cs + queue[..|queue| - 1] ensures Hangs(out + [node.block], c) {
      StepHangs(out, queue, cs, c);
    }
    forall x ensures Queued(queue, x) <==> x == node.block || Queued(cs + queue[..|queue| - 1], x) {
      QueuedSame(queue, cs, x);
    }
  }

  lemma QueuedSame(queue: seq<OrphanTree>, cs: seq<OrphanTree>, x: Block)
    requires queue != [] && Lists(queue[|queue| - 1], cs)
    ensures Queued(queue, x) <==> x == queue[|queue| - 1].block || Queued(cs + queue[..|queue| - 1], x)
  {
    var node, rest := queue[|queue| - 1], queue[..|queue| - 1];
    var queue' := cs + rest;
    if Queued(queue, x) && x != node.block {
      var i :| 0 <= i < |queue| && x in queue[i].Members();
      if i < |rest| {
        assert queue'[|cs| + i] == queue[i];
      } else {
        var k :| k in node.children && x in node.children[k].Members();
        var c :| 0 <= c < |cs| && cs[c] == node.children[k];
        assert queue'[c] == node.children[k];
      }
    }
    if Queued(queue', x) {
      var i :| 0 <= i < |queue'| && x in queue'[i].Members();
      if i < |cs| {
        assert cs[i] in cs;
        assert x in node.Members();
      } else {
        assert queue[i - |cs|] == queue'[i];
      }
    }
    if x == node.block { assert x in queue[|queue| - 1].Members(); }
  }

  /** Every block but the first follows its parent. */
  ghost predicate ParentsFirst(out: seq<Block>) {
    forall i | 0 < i < |out| :: exists j :: 0 <= j < i && Of(out[j]) == out[i].parent
  }

  lemma PartitionStart(t: OrphanTree)
    requires t.Ok()
    ensures Partition(t, [], [t])
  {
    forall x ensures x in t.Members() <==> Queued([t], x) {
      if x in t.Members() { assert x in [t][0].Members(); }
    }
  }

  lemma PartitionEnd(t: OrphanTree, out: seq<Block>)
    requires Partition(t, out, []) && ParentsFirst(out) && (out != [] ==> out[0] == t.block)
    ensures IsFlat(t, out)
  {
    assert forall x :: !Queued([], x);
    assert t.block in t.Members();
  }

  lemma NextFollows(out: seq<Block>, b: Block)
    requires ParentsFirst(out)
    requires out != [] ==> exists j :: 0 <= j < |out| && Of(out[j]) == b.parent
    ensures ParentsFirst(out + [b])
  {
    var out' := out + [b];
    assert forall i | 0 <= i < |out| :: out'[i] == out[i];
  }

  lemma NothingFollows()
    ensures ParentsFirst([])
  {
  }

  lemma QueueOk(t: OrphanTree, out: seq<Block>, queue: seq<OrphanTree>)
    requires Partition(t, out, queue) && queue != []
    ensures queue[|queue| - 1].Ok()
  {
    assert queue[|queue| - 1] in queue;
  }

  /** `flatten`: breadth first, so that every block follows its parent. */
  method Flatten(t: OrphanTree) returns (out: seq<Block>)
    requires t.Ok()
    ensures IsFlat(t, out)
  {
    hide Partition, ParentsFirst, Lists, IsFlat, OrphanTree.Members, OrphanTree.Ok;
    out := [];
    var queue := [t];
    PartitionStart(t);
    assert ParentsFirst(out) by { NothingFollows(); }
    ghost var done: set<Block> := {};
    while queue != []
      invariant Partition(t, out, queue) && ParentsFirst(out)
      invariant if out == [] then queue == [t] else out[0] == t.block
      invariant forall x :: x in out <==> x in done
      decreases t.Members() - done
    {
      var node := queue[|queue| - 1];
      QueueOk(t, out, queue);
      var cs := Entries(node);
      QueueStep(t, out, queue, cs);
      NextFollows(out, node.block);
      done := done + {node.block};
      out := out + [node.block];
      queue := cs + queue[..|queue| - 1];
    }
    PartitionEnd(t, out);
  }

  lemma ListingExists(t: OrphanTree) returns (cs: seq<OrphanTree>)
    requires t.Ok()
    ensures Lists(t, cs)
  {
    cs := [];
    var todo := t.children.Keys;
    while todo != {}
      invariant todo <= t.children.Keys
      invariant forall c | c in cs :: Of(c.block) in t.children && t.children[Of(c.block)] == c && Of(c.block) !in todo
      invariant forall k | k in t.children && k !in todo :: t.children[k] in cs
      invariant forall i, j | 0 <= i < j < |cs| :: cs[i].block != cs[j].block
      decreases todo
    {
      var k :| k in todo;
      todo := todo - {k};
      cs := [t.children[k]] + cs;
    }
  }

  /** Every tree can be flattened. */
  lemma FlatExists(t: OrphanTree) returns (out: seq<Block>)
    requires t.Ok()
    ensures IsFlat(t, out)
  {
    PartitionStart(t);
    NothingFollows();
    out := FlatFrom(t, [], [t]);
  }

  lemma {:induction false} FlatFrom(t: OrphanTree, out: seq<Block>, queue: seq<OrphanTree>) returns (flat: seq<Block>)
    requires Partition(t, out, queue) && ParentsFirst(out)
    requires if out == [] then queue == [t] else out[0] == t.block
    ensures IsFlat(t, flat)
    decreases t.Members() - set x | x in out
  {
    hide Partition, ParentsFirst, Lists, IsFlat, OrphanTree.Members, OrphanTree.Ok;
    if queue == [] {
      PartitionEnd(t, out);
      flat := out;
    } else {
      var node := queue[|queue| - 1];
      QueueOk(t, out, queue);
      var cs := ListingExists(node);
      QueueStep(t, out, queue, cs);
      NextFollows(out, node.block);
      assert node.block in t.Members() - (set x | x in out) && node.block in out + [node.block];
      flat := FlatFrom(t, out + [node.block], cs + queue[..|queue| - 1]);
    }
  }

  // ----- the pool

  type Trees = map<Hash, OrphanTree>

  /** Every tree is keyed by the missing parent of its root. */
  ghost predicate TreesOk(trees: Trees) {
    forall k | k in trees :: trees[k].Ok() && trees[k].block.parent == k
  }

  ghost predicate Pooled(trees: Trees, x: Block) {
    exists k :: k in trees && x in trees[k].Members()
  }

  ghost predicate SomeTakes(trees: Trees, b: Block) {
    exists k :: k in trees && trees[k].Takes(b)
  }

  /** `add_block`: some tree that takes b grows; else b starts a tree, unless one already waits on the
      same parent, and then b is dropped. */
  ghost predicate Added(trees: Trees, b: Block, after: Trees) {
    if SomeTakes(trees, b) then
      exists k :: k in trees && trees[k].Takes(b) && k in after && trees[k].Grown(b, after[k])
                  && after == trees[k := after[k]]
    else if b.parent in trees then after == trees
    else after == trees[b.parent := OrphanTree(b, map[])]
  }

  /** `missing_blocks`: trees without a block above the given height are dropped, and the parents that
      the expired ones among the others wait for are asked for, each once. */
  ghost predicate Pruned(before: Trees, after: Trees, minHeight: nat, expired: set<Hash>, missing: seq<Hash>) {
    && (forall k | k in before :: k in after <==> exists x :: x in before[k].Members() && x.height > minHeight)
    && (forall k | k in after :: k in before && after[k] == before[k])
    && (forall k :: k in missing <==> k in after && k in expired)
    && (forall i, j | 0 <= i < j < |missing| :: missing[i] != missing[j])
  }

  class Pool {
    var blocks: Trees
    var votes: map<Hash, seq<Vote>>

    ghost predicate Valid()
      reads this
    {
      TreesOk(blocks)
    }

    constructor ()
      ensures Valid() && blocks == map[] && votes == map[]
    {
      blocks, votes := map[], map[];
    }

    method AddVote(vote: Vote)
      requires Valid()
      modifies this`votes
      ensures Valid()
      ensures votes
        == old(votes)[vote.target := (if vote.target in old(votes) then old(votes)[vote.target] else []) + [vote]]
    {
      if vote.target in votes {
        votes := votes[vote.target := votes[vote.target] + [vote]];
      } else {
        votes := votes[vote.target := [vote]];
        assert [] + [vote] == [vote];
      }
    }

    method AddBlock(b: Block)
      requires Valid()
      modifies this`blocks
      ensures Valid() && Added(old(blocks), b, blocks)
    {
      var todo := blocks.Keys;
      while todo != {}
        invariant todo <= blocks.Keys && blocks == old(blocks)
        invariant forall k | k in blocks && k !in todo :: !blocks[k].Takes(b)
        decreases todo
      {
        var k :| k in todo;
        todo := todo - {k};
        var grown := InsertInto(blocks[k], b);
        if grown.Some? {
          blocks := blocks[k := grown.value];
          assert SomeTakes(old(blocks), b);
          return;
        }
      }
      if b.parent !in blocks {
        blocks := blocks[b.parent := OrphanTree(b, map[])];
      }
    }

    method ConsumeVotes(h: Hash) returns (taken: Option<seq<Vote>>)
      requires Valid()
      modifies this`votes
      ensures Valid() && votes == old(votes) - {h}
      ensures taken == if h in old(votes) then Some(old(votes)[h]) else None
    {
      taken := if h in votes then Some(votes[h]) else None;
      votes := votes - {h};
    }

    method ConsumeBlocks(parent: Hash) returns (taken: Option<seq<Block>>)
      requires Valid()
      modifies this`blocks
      ensures Valid() && blocks == old(blocks) - {parent}
      ensures taken.Some? <==> parent in old(blocks)
      ensures taken.Some? ==> IsFlat(old(blocks)[parent], taken.value)
    {
      if parent in blocks {
        var flat := Flatten(blocks[parent]);
        taken := Some(flat);
        blocks := blocks - {parent};
      } else {
        taken := None;
        assert blocks - {parent} == blocks;
      }
    }

    /** Prune the trees that finality has overtaken and ask for the parents of the other expired ones.
        Only blocks at or below the finalized height are pruned, and `include` rejects those. */
    method MissingBlocks(minHeight: nat, expired: set<Hash>) returns (missing: seq<Hash>)
      requires Valid()
      modifies this`blocks
      ensures Valid() && Pruned(old(blocks), blocks, minHeight, expired, missing)
    {
      hide OrphanTree.Members;
      missing := [];
      var irrelevant: set<Hash> := {};
      var todo := blocks.Keys;
      while todo != {}
        invariant todo <= blocks.Keys && irrelevant <= blocks.Keys - todo && blocks == old(blocks)
        invariant forall k :: k in missing <==> k in blocks.Keys - todo - irrelevant && k in expired
        invariant forall i, j | 0 <= i < j < |missing| :: missing[i] != missing[j]
        invariant forall k, x | k in irrelevant && x in blocks[k].Members() :: x.height <= minHeight
        invariant forall k | k in blocks.Keys - todo - irrelevant :: exists x ::
          x in blocks[k].Members() && x.height > minHeight
        decreases todo
      {
        var k :| k in todo;
        todo := todo - {k};
        var tallest := MaxHeight(blocks[k]);
        if tallest <= minHeight {
          irrelevant := irrelevant + {k};
        } else if k in expired {
          missing := missing + [k];
        }
      }
      blocks := blocks - irrelevant;
    }
  }
}
