/** Blocks, votes and their hashes (src/consensus/block.rs, src/consensus/vote.rs), and the
    ancestry they spell out. A hash is the symbolic image of the block it covers, so equal hashes
    mean equal blocks and the parent relation is well founded by construction. */
module Blocks {
  import opened Primitives

  datatype Vote = Vote(validator: Pubkey, target: Hash, justification: Hash, signature: nat)

  datatype Block = Block(
    parent: Hash,
    height: nat,
    proposer: Pubkey,
    stateHash: nat,
    payload: seq<nat>,
    votes: seq<Vote>)

  /** `Unknown` is any digest that no block of the chain hashes to. */
  datatype Hash = Genesis | Of(block: Block) | Unknown(id: nat)

  function Height(h: Hash): nat {
    if h.Of? then h.block.height else 0
  }

  /** h is a strict descendant of a. */
  predicate Descends(h: Hash, a: Hash) {
    h.Of? && (h.block.parent == a || Descends(h.block.parent, a))
  }

  /** h is a or one of its descendants. */
  predicate Extends(h: Hash, a: Hash) {
    h == a || Descends(h, a)
  }

  /** Heights count up by one from genesis to h. */
  predicate Grounded(h: Hash) {
    h.Genesis? || (h.Of? && h.block.height == Height(h.block.parent) + 1 && Grounded(h.block.parent))
  }

  /** The blocks from the first one after genesis up to h. */
  function Lineage(h: Hash): seq<Hash> {
    if h.Of? then Lineage(h.block.parent) + [h] else []
  }

  /** Number of blocks h is built from. */
  function Depth(h: Hash): nat {
    if h.Of? then 1 + Depth(h.block.parent) else 0
  }

  lemma {:induction false} DescendsTransitive(x: Hash, y: Hash, z: Hash)
    requires Descends(x, y) && Descends(y, z)
    ensures Descends(x, z)
  {
    if x.block.parent == y {
    } else {
      DescendsTransitive(x.block.parent, y, z);
    }
  }

  lemma ExtendsTransitive(x: Hash, y: Hash, z: Hash)
    requires Extends(x, y) && Extends(y, z)
    ensures Extends(x, z)
  {
    if x != y && y != z {
      DescendsTransitive(x, y, z);
    }
  }

  lemma {:induction false} DescendsDeeper(h: Hash, a: Hash)
    requires Descends(h, a)
    ensures Depth(a) < Depth(h)
  {
    if h.block.parent == a {
    } else {
      DescendsDeeper(h.block.parent, a);
    }
  }

  /** Two ancestors of one block lie on one line. */
  lemma {:induction false} AncestorsComparable(h: Hash, a: Hash, b: Hash)
    requires Extends(h, a) && Extends(h, b)
    ensures Extends(a, b) || Extends(b, a)
  {
    if h != a && h != b {
      AncestorsComparable(h.block.parent, a, b);
    }
  }

  lemma {:induction false} GroundedAncestor(h: Hash, a: Hash)
    requires Grounded(h) && Descends(h, a)
    ensures Grounded(a) && Height(a) < Height(h)
  {
    if h.block.parent == a {
    } else {
      GroundedAncestor(h.block.parent, a);
    }
  }

  /** A grounded block has one ancestor per height. */
  lemma AncestorAtHeight(h: Hash, a: Hash, b: Hash)
    requires Grounded(h) && Extends(h, a) && Extends(h, b) && Height(a) == Height(b)
    ensures a == b
  {
    AncestorsComparable(h, a, b);
    if a != b {
      if h != a { GroundedAncestor(h, a); }
      if h != b { GroundedAncestor(h, b); }
      if Descends(a, b) { GroundedAncestor(a, b); } else { GroundedAncestor(b, a); }
    }
  }

  lemma {:induction false} GroundedHeight(h: Hash)
    requires Grounded(h)
    ensures Height(h) == Depth(h) == |Lineage(h)|
    ensures Extends(h, Genesis)
  {
    if h.Genesis? {
    } else {
      GroundedHeight(h.block.parent);
    }
  }

  lemma {:induction false} InLineage(h: Hash, x: Hash)
    ensures x in Lineage(h) <==> x.Of? && Extends(h, x)
    ensures multiset(Lineage(h))[x] <= 1
  {
    if !h.Of? {
    } else {
      InLineage(h.block.parent, x);
      if Extends(h.block.parent, h) {
        DescendsDeeper(h.block.parent, h);
      }
      if x == h {
        assert x !in Lineage(h.block.parent);
      }
    }
  }

  /** A lineage lists parents before children, one height apart. */
  lemma {:induction false} LineageLinks(h: Hash, i: nat)
    requires Grounded(h) && i < |Lineage(h)|
    ensures Lineage(h)[i].Of? && Height(Lineage(h)[i]) == i + 1
    ensures Lineage(h)[i].block.parent == if i == 0 then Genesis else Lineage(h)[i - 1]
  {
    GroundedHeight(h);
    if i < |Lineage(h)| - 1 {
      LineageLinks(h.block.parent, i);
    } else if i > 0 {
      LineageLinks(h.block.parent, i - 1);
      assert Lineage(h)[i - 1] == Lineage(h.block.parent)[i - 1];
      GroundedHeight(h.block.parent);
      assert h.block.parent.Of?;
      assert Lineage(h.block.parent)[i - 1] == h.block.parent;
    } else {
      GroundedHeight(h.block.parent);
    }
  }
}
