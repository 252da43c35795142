/** Stake of a set of validators and the overlap of two quorums (src/consensus/chain.rs:261-272). */
module Stakes {
  import opened Primitives

  type Stakes = map<Pubkey, nat>

  function StakeOf(stakes: Stakes, v: Pubkey): nat {
    if v in stakes then stakes[v] else 0
  }

  /** Sum of the stakes of a set of validators. */
  ghost function Weight(stakes: Stakes, vs: set<Pubkey>): nat {
    if vs == {} then 0 else
      var v :| v in vs;
      StakeOf(stakes, v) + Weight(stakes, vs - {v})
  }

  lemma {:induction false} WeightRemove(stakes: Stakes, vs: set<Pubkey>, v: Pubkey)
    requires v in vs
    ensures Weight(stakes, vs) == StakeOf(stakes, v) + Weight(stakes, vs - {v})
    decreases |vs|
  {
    var u :| u in vs && Weight(stakes, vs) == StakeOf(stakes, u) + Weight(stakes, vs - {u});
    if u == v {
    } else {
      WeightRemove(stakes, vs - {u}, v);
      WeightRemove(stakes, vs - {v}, u);
      assert vs - {u} - {v} == vs - {v} - {u};
    }
  }

  lemma WeightAdd(stakes: Stakes, vs: set<Pubkey>, v: Pubkey)
    requires v !in vs
    ensures Weight(stakes, vs + {v}) == Weight(stakes, vs) + StakeOf(stakes, v)
  {
    WeightRemove(stakes, vs + {v}, v);
    assert vs + {v} - {v} == vs;
  }

  lemma {:induction false} WeightMonotone(stakes: Stakes, a: set<Pubkey>, b: set<Pubkey>)
    requires a <= b
    ensures Weight(stakes, a) <= Weight(stakes, b)
    decreases |b|
  {
    if b - a == {} {
      assert a == b;
    } else {
      var v :| v in b - a;
      WeightRemove(stakes, b, v);
      WeightMonotone(stakes, a, b - {v});
    }
  }

  lemma WithoutShared(a: set<Pubkey>, b: set<Pubkey>, v: Pubkey)
    requires v in a && v in b
    ensures a + b == (a - {v}) + b && a * b == (a - {v}) * b + {v} && v !in (a - {v}) * b
  {
  }

  lemma WithoutUnshared(a: set<Pubkey>, b: set<Pubkey>, v: Pubkey)
    requires v in a && v !in b
    ensures a + b == ((a - {v}) + b) + {v} && a * b == (a - {v}) * b && v !in (a - {v}) + b
  {
  }

  lemma {:induction false} WeightOverlap(stakes: Stakes, a: set<Pubkey>, b: set<Pubkey>)
    ensures Weight(stakes, a) + Weight(stakes, b) == Weight(stakes, a + b) + Weight(stakes, a * b)
    decreases |a|
  {
    if a == {} {
      assert a + b == b && a * b == {};
    } else {
      var v :| v in a;
      var rest := a - {v};
      hide Weight;
      WeightRemove(stakes, a, v);
      WeightOverlap(stakes, rest, b);
      if v in b {
        WithoutShared(a, b, v);
        WeightAdd(stakes, rest * b, v);
      } else {
        WithoutUnshared(a, b, v);
        WeightAdd(stakes, rest + b, v);
      }
    }
  }

  /** Two sets that both reach a quorum share more than a third of the whole stake. */
  lemma QuorumsOverlap(stakes: Stakes, all: set<Pubkey>, a: set<Pubkey>, b: set<Pubkey>, quorum: nat)
    requires a <= all && b <= all && Weight(stakes, all) > 0
    requires 100 * quorum >= 67 * Weight(stakes, all)
    requires Weight(stakes, a) >= quorum && Weight(stakes, b) >= quorum
    ensures 3 * Weight(stakes, a * b) > Weight(stakes, all)
  {
    WeightOverlap(stakes, a, b);
    WeightMonotone(stakes, a + b, all);
  }
}
