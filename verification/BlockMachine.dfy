/** Execution of the transactions of a block and of the blocks on a fork path (src/vm/machine.rs). */
module BlockMachine {
  import opened Primitives
  import opened State
  import opened Unit

  const FRESH_ACCOUNT := Account(false, 0, None, None)

  /** The payer's account with its nonce bumped, whatever becomes of the transaction. */
  function Bumped(view: Accounts, payer: Pubkey): Account {
    var account := if payer in view then view[payer] else FRESH_ACCOUNT;
    account.(nonce := account.nonce + 1)
  }

  /** One transaction on the changes accumulated by the block so far. */
  function StepTx(vm: Machine, base: Accounts, acc: StateDiff, tx: Transaction, fuel: nat): (StateDiff, TxResult) {
    var bumped := acc.Set(tx.payer, Bumped(acc.Over(base), tx.payer));
    var result := ExecuteTransaction(vm, bumped.Over(base), tx, fuel);
    (if result.Ok? then bumped.Merge(result.value.diff) else bumped, result)
  }

  /** All transactions of a block: the block's diff and each transaction's outcome. */
  function ExecuteTxs(vm: Machine, base: Accounts, txs: seq<Transaction>, fuel: nat): (StateDiff, seq<TxResult>) {
    if txs == [] then (NO_CHANGE, []) else
    var (acc, results) := ExecuteTxs(vm, base, txs[..|txs| - 1], fuel);
    var (acc', result) := StepTx(vm, base, acc, txs[|txs| - 1], fuel);
    (acc', results + [result])
  }

  /** The loop of the block's `execute` after the check of the transaction order. */
  method ExecuteBlock(vm: Machine, base: Accounts, txs: seq<Transaction>, fuel: nat)
    returns (accstate: StateDiff, results: seq<TxResult>)
    ensures (accstate, results) == ExecuteTxs(vm, base, txs, fuel)
  {
    hide ExecuteTransaction;
    accstate, results := NO_CHANGE, [];
    for i := 0 to |txs|
      invariant (accstate, results) == ExecuteTxs(vm, base, txs[..i], fuel)
    {
      assert txs[..i + 1][..i] == txs[..i] && txs[..i + 1][i] == txs[i];
      var result;
      accstate, result := ExecuteNext(vm, base, accstate, txs[i], fuel);
      results := results + [result];
    }
    assert txs[..|txs|] == txs;
  }

  /** The body of the loop: bump the payer's nonce, execute, merge on success. */
  method ExecuteNext(vm: Machine, base: Accounts, acc: StateDiff, tx: Transaction, fuel: nat)
    returns (accstate: StateDiff, result: TxResult)
    ensures (accstate, result) == StepTx(vm, base, acc, tx, fuel)
  {
    hide ExecuteTransaction;
    var payer := Get(acc.Over(base), tx.payer);
    match payer {
      case Some(account) => accstate := acc.Set(tx.payer, account.(nonce := account.nonce + 1));
      case None => accstate := acc.Set(tx.payer, Account(false, 1, None, None));
    }
    result := ExecuteTransaction(vm, accstate.Over(base), tx, fuel);
    if result.Ok? {
      accstate := MergeDiffs(accstate, result.value.diff);
    }
  }

  // ----- what readers see

  /** What the next reader sees after a transaction. */
  function ViewAfter(vm: Machine, view: Accounts, tx: Transaction, fuel: nat): Accounts {
    var bumped := view[tx.payer := Bumped(view, tx.payer)];
    var result := ExecuteTransaction(vm, bumped, tx, fuel);
    if result.Ok? then result.value.diff.Over(bumped) else bumped
  }

  function ViewsAfter(vm: Machine, view: Accounts, txs: seq<Transaction>, fuel: nat): Accounts {
    if txs == [] then view else ViewAfter(vm, ViewsAfter(vm, view, txs[..|txs| - 1], fuel), txs[|txs| - 1], fuel)
  }

  function OutcomeAt(vm: Machine, view: Accounts, txs: seq<Transaction>, i: nat, fuel: nat): TxResult
    requires i < |txs|
  {
    var before := ViewsAfter(vm, view, txs[..i], fuel);
    ExecuteTransaction(vm, before[txs[i].payer := Bumped(before, txs[i].payer)], txs[i], fuel)
  }

  lemma StepView(vm: Machine, base: Accounts, acc: StateDiff, tx: Transaction, fuel: nat)
    ensures StepTx(vm, base, acc, tx, fuel).0.Over(base) == ViewAfter(vm, acc.Over(base), tx, fuel)
    ensures StepTx(vm, base, acc, tx, fuel).1
         == ExecuteTransaction(vm, acc.Over(base)[tx.payer := Bumped(acc.Over(base), tx.payer)], tx, fuel)
  {
    var account := Bumped(acc.Over(base), tx.payer);
    var bumped := acc.Set(tx.payer, account);
    assert bumped.Over(base) == acc.Over(base)[tx.payer := account];
    var result := ExecuteTransaction(vm, bumped.Over(base), tx, fuel);
    if result.Ok? {
      var d := result.value.diff;
      assert base + (bumped.data + d.data) == (base + bumped.data) + d.data;
    }
  }

  /** Executing a block on its diff is the same as letting each transaction read what the previous
      ones left. */
  lemma {:induction false} BlockView(vm: Machine, base: Accounts, txs: seq<Transaction>, fuel: nat)
    ensures ExecuteTxs(vm, base, txs, fuel).0.Over(base) == ViewsAfter(vm, base, txs, fuel)
  {
    hide ViewAfter, StepTx;
    if txs == [] {
      assert base + map[] == base;
    } else {
      var n := |txs| - 1;
      BlockView(vm, base, txs[..n], fuel);
      StepView(vm, base, ExecuteTxs(vm, base, txs[..n], fuel).0, txs[n], fuel);
    }
  }

  lemma {:induction false} BlockOutcome(vm: Machine, base: Accounts, txs: seq<Transaction>, i: nat, fuel: nat)
    requires i < |txs|
    ensures |ExecuteTxs(vm, base, txs, fuel).1| == |txs|
    ensures ExecuteTxs(vm, base, txs, fuel).1[i] == OutcomeAt(vm, base, txs, i, fuel)
  {
    hide StepTx, ExecuteTransaction;
    var n := |txs| - 1;
    if n == 0 {
    } else {
      BlockOutcome(vm, base, txs[..n], if i < n then i else 0, fuel);
    }
    if i < n {
      assert txs[..n][..i] == txs[..i];
    } else {
      StepView(vm, base, ExecuteTxs(vm, base, txs[..n], fuel).0, txs[n], fuel);
      BlockView(vm, base, txs[..n], fuel);
    }
  }

  // ----- the diff of a block

  /** The changes of the i-th transaction of a block: its payer's bump, and its own diff if it succeeds. */
  function ChangesOf(vm: Machine, base: Accounts, txs: seq<Transaction>, i: nat, fuel: nat): seq<StateDiff>
    requires i < |txs|
  {
    var bump := NO_CHANGE.Set(txs[i].payer, Bumped(ViewsAfter(vm, base, txs[..i], fuel), txs[i].payer));
    var outcome := OutcomeAt(vm, base, txs, i, fuel);
    [bump] + if outcome.Ok? then [outcome.value.diff] else []
  }

  function Changes(vm: Machine, base: Accounts, txs: seq<Transaction>, fuel: nat): seq<StateDiff> {
    if txs == [] then [] else
    Changes(vm, base, txs[..|txs| - 1], fuel) + ChangesOf(vm, base, txs, |txs| - 1, fuel)
  }

  lemma StepChanges(vm: Machine, base: Accounts, acc: StateDiff, txs: seq<Transaction>, fuel: nat)
    requires txs != [] && acc.Over(base) == ViewsAfter(vm, base, txs[..|txs| - 1], fuel)
    ensures var n := |txs| - 1;
            var changes := ChangesOf(vm, base, txs, n, fuel);
            StepTx(vm, base, acc, txs[n], fuel).0
            == if |changes| == 1 then acc.Merge(changes[0]) else acc.Merge(changes[0]).Merge(changes[1])
  {
    var n := |txs| - 1;
    StepView(vm, base, acc, txs[n], fuel);
    MergeOne(acc, txs[n].payer, Bumped(acc.Over(base), txs[n].payer));
    hide ExecuteTransaction;
  }

  lemma MergeNext(diffs: seq<StateDiff>, d: StateDiff)
    ensures MergeAll(diffs + [d]) == MergeAll(diffs).Merge(d)
  {
    assert (diffs + [d])[..|diffs|] == diffs;
  }

  /** A block's diff is the merge of all changes of its transactions, in order. */
  lemma {:induction false} BlockDiffIsMerge(vm: Machine, base: Accounts, txs: seq<Transaction>, fuel: nat)
    ensures ExecuteTxs(vm, base, txs, fuel).0 == MergeAll(Changes(vm, base, txs, fuel))
  {
    hide StepTx, ChangesOf, ViewsAfter, StateDiff.Merge;
    if txs == [] {
    } else {
      var n := |txs| - 1;
      var before, changes := Changes(vm, base, txs[..n], fuel), ChangesOf(vm, base, txs, n, fuel);
      BlockDiffIsMerge(vm, base, txs[..n], fuel);
      BlockView(vm, base, txs[..n], fuel);
      StepChanges(vm, base, ExecuteTxs(vm, base, txs[..n], fuel).0, txs, fuel);
      OneOrTwo(vm, base, txs, n, fuel);
      MergeNext(before, changes[0]);
      if |changes| == 2 {
        MergeNext(before + [changes[0]], changes[1]);
        assert before + changes == before + [changes[0]] + [changes[1]];
      } else {
        assert changes == [changes[0]];
      }
    }
  }

  lemma OneOrTwo(vm: Machine, base: Accounts, txs: seq<Transaction>, i: nat, fuel: nat)
    requires i < |txs|
    ensures 1 <= |ChangesOf(vm, base, txs, i, fuel)| <= 2
  {
  }

  predicate Deletes(vm: Machine, base: Accounts, txs: seq<Transaction>, i: nat, fuel: nat, a: Pubkey)
    requires i < |txs|
  {
    var outcome := OutcomeAt(vm, base, txs, i, fuel);
    outcome.Ok? && a in outcome.value.diff.deletes
  }

  predicate Touches(vm: Machine, base: Accounts, txs: seq<Transaction>, i: nat, fuel: nat, a: Pubkey)
    requires i < |txs|
  {
    var outcome := OutcomeAt(vm, base, txs, i, fuel);
    txs[i].payer == a || (outcome.Ok? && a in outcome.value.diff.data)
  }

  /** The i-th transaction deletes a, and no later one pays for itself from a or puts it. */
  ghost predicate DeletedLast(vm: Machine, base: Accounts, txs: seq<Transaction>, i: nat, fuel: nat, a: Pubkey) {
    && i < |txs| && Deletes(vm, base, txs, i, fuel, a)
    && (forall j | i < j < |txs| :: !Touches(vm, base, txs, j, fuel, a))
  }

  lemma StepDeletes(vm: Machine, base: Accounts, acc: StateDiff, txs: seq<Transaction>, fuel: nat, a: Pubkey)
    requires txs != [] && acc.Over(base) == ViewsAfter(vm, base, txs[..|txs| - 1], fuel)
    ensures var n := |txs| - 1;
            a in StepTx(vm, base, acc, txs[n], fuel).0.deletes
            <==> Deletes(vm, base, txs, n, fuel, a) || (a in acc.deletes && !Touches(vm, base, txs, n, fuel, a))
  {
    StepView(vm, base, acc, txs[|txs| - 1], fuel);
    hide ExecuteTransaction;
  }

  lemma SameOutcome(vm: Machine, base: Accounts, txs: seq<Transaction>, n: nat, i: nat, fuel: nat)
    requires i < n <= |txs|
    ensures OutcomeAt(vm, base, txs[..n], i, fuel) == OutcomeAt(vm, base, txs, i, fuel)
  {
    assert txs[..n][..i] == txs[..i];
  }

  /** Exactly what a block deletes: what some transaction of it deletes and none touches later. */
  lemma {:induction false} BlockDeletes(vm: Machine, base: Accounts, txs: seq<Transaction>, fuel: nat, a: Pubkey)
    ensures a in ExecuteTxs(vm, base, txs, fuel).0.deletes
      <==> exists i: nat :: DeletedLast(vm, base, txs, i, fuel, a)
  {
    hide StepTx, OutcomeAt, ViewsAfter;
    if txs == [] {
    } else {
      var n := |txs| - 1;
      BlockDeletes(vm, base, txs[..n], fuel, a);
      BlockView(vm, base, txs[..n], fuel);
      StepDeletes(vm, base, ExecuteTxs(vm, base, txs[..n], fuel).0, txs, fuel, a);
      forall i | 0 <= i < n
        ensures Deletes(vm, base, txs[..n], i, fuel, a) <==> Deletes(vm, base, txs, i, fuel, a)
        ensures Touches(vm, base, txs[..n], i, fuel, a) <==> Touches(vm, base, txs, i, fuel, a)
      {
        SameOutcome(vm, base, txs, n, i, fuel);
      }
      hide Deletes, Touches, ExecuteTxs;
      forall i: nat | i < n
        ensures DeletedLast(vm, base, txs, i, fuel, a)
          <==> DeletedLast(vm, base, txs[..n], i, fuel, a) && !Touches(vm, base, txs, n, fuel, a)
      {
      }
      assert DeletedLast(vm, base, txs, n, fuel, a) <==> Deletes(vm, base, txs, n, fuel, a);
    }
  }

  /** The diffs of the blocks on a fork path, each executed on what its ancestors left. */
  function PathExecution(vm: Machine, base: Accounts, blocks: seq<seq<Transaction>>, fuel: nat): seq<StateDiff> {
    if blocks == [] then [] else
    var above := PathExecution(vm, base, blocks[..|blocks| - 1], fuel);
    above + [ExecuteTxs(vm, OverAll(base, above), blocks[|blocks| - 1], fuel).0]
  }

  function Flat(blocks: seq<seq<Transaction>>): seq<Transaction> {
    if blocks == [] then [] else Flat(blocks[..|blocks| - 1]) + blocks[|blocks| - 1]
  }

  lemma {:induction false} ViewsConcat(vm: Machine, view: Accounts, a: seq<Transaction>, b: seq<Transaction>, fuel: nat)
    ensures ViewsAfter(vm, view, a + b, fuel) == ViewsAfter(vm, ViewsAfter(vm, view, a, fuel), b, fuel)
  {
    if b == [] {
      assert a + b == a;
    } else {
      assert (a + b)[..|a + b| - 1] == a + b[..|b| - 1];
      ViewsConcat(vm, view, a, b[..|b| - 1], fuel);
    }
  }

  /** Block boundaries do not matter to readers on a fork path. */
  lemma {:induction false} PathView(vm: Machine, base: Accounts, blocks: seq<seq<Transaction>>, fuel: nat)
    ensures OverAll(base, PathExecution(vm, base, blocks, fuel)) == ViewsAfter(vm, base, Flat(blocks), fuel)
  {
    if blocks == [] {
    } else {
      var init, last := blocks[..|blocks| - 1], blocks[|blocks| - 1];
      var above := PathExecution(vm, base, init, fuel);
      PathView(vm, base, init, fuel);
      BlockView(vm, OverAll(base, above), last, fuel);
      ViewsConcat(vm, base, Flat(init), last, fuel);
      var all := PathExecution(vm, base, blocks, fuel);
      assert all[..|all| - 1] == above;
    }
  }

  /** A transaction's outcome in its block is its outcome in the sequence of the whole path. */
  lemma PathOutcome(vm: Machine, base: Accounts, blocks: seq<seq<Transaction>>, block: seq<Transaction>, i: nat,
        fuel: nat)
    requires i < |block|
    ensures var view := OverAll(base, PathExecution(vm, base, blocks, fuel));
            && |ExecuteTxs(vm, view, block, fuel).1| == |block|
            && ExecuteTxs(vm, view, block, fuel).1[i]
              == OutcomeAt(vm, base, Flat(blocks) + block, |Flat(blocks)| + i, fuel)
  {
    hide ExecuteTransaction, ExecuteTxs, PathExecution, ViewsAfter, OverAll, Flat;
    var view, before := OverAll(base, PathExecution(vm, base, blocks, fuel)), Flat(blocks);
    PathView(vm, base, blocks, fuel);
    BlockOutcome(vm, view, block, i, fuel);
    assert (before + block)[..|before| + i] == before + block[..i];
    ViewsConcat(vm, base, before, block[..i], fuel);
  }

  // ----- nonces

  /** Transactions paid by an account, failed ones included. */
  function Paid(txs: seq<Transaction>, payer: Pubkey): nat {
    if txs == [] then 0
    else Paid(txs[..|txs| - 1], payer) + (if txs[|txs| - 1].payer == payer then 1 else 0)
  }

  lemma NonceStep(vm: Machine, view: Accounts, tx: Transaction, fuel: nat, a: Pubkey)
    ensures NonceOf(ViewAfter(vm, view, tx, fuel), a) == NonceOf(view, a) + (if tx.payer == a then 1 else 0)
  {
    var bumped := view[tx.payer := Bumped(view, tx.payer)];
    if ExecuteTransaction(vm, bumped, tx, fuel).Ok? {
      NoncesKept(vm, bumped, tx, fuel, a);
    }
  }

  /** Exact nonces: an account's nonce grows by one for every transaction it pays for. */
  lemma {:induction false} ExactNonces(vm: Machine, view: Accounts, txs: seq<Transaction>, fuel: nat, a: Pubkey)
    ensures NonceOf(ViewsAfter(vm, view, txs, fuel), a) == NonceOf(view, a) + Paid(txs, a)
  {
    if txs == [] {
    } else {
      ExactNonces(vm, view, txs[..|txs| - 1], fuel, a);
      NonceStep(vm, ViewsAfter(vm, view, txs[..|txs| - 1], fuel), txs[|txs| - 1], fuel, a);
    }
  }

  /** The nonces that readers see at the end of a fork path over a fixed finalized state. */
  lemma PathNonces(vm: Machine, base: Accounts, blocks: seq<seq<Transaction>>, fuel: nat, a: Pubkey)
    ensures NonceOf(OverAll(base, PathExecution(vm, base, blocks, fuel)), a) == NonceOf(base, a) + Paid(Flat(blocks), a)
  {
    PathView(vm, base, blocks, fuel);
    ExactNonces(vm, base, Flat(blocks), fuel, a);
  }

  lemma {:induction false} PaidGrows(txs: seq<Transaction>, i: nat, k: nat)
    requires i < k <= |txs|
    ensures Paid(txs[..k], txs[i].payer) >= Paid(txs[..i], txs[i].payer) + 1
  {
    assert txs[..k][..k - 1] == txs[..k - 1];
    if i + 1 < k { PaidGrows(txs, i, k - 1); }
  }

  /** A transaction succeeds only with the nonce that counts its payer's transactions so far. */
  lemma SuccessNonce(vm: Machine, base: Accounts, txs: seq<Transaction>, i: nat, fuel: nat)
    requires i < |txs| && OutcomeAt(vm, base, txs, i, fuel).Ok?
    ensures txs[i].nonce == NonceOf(base, txs[i].payer) + Paid(txs[..i], txs[i].payer) + 1
  {
    ExactNonces(vm, base, txs[..i], fuel, txs[i].payer);
  }

  /** No replay: on a fork path no payer succeeds twice with one nonce. */
  lemma NoReplay(vm: Machine, base: Accounts, blocks: seq<seq<Transaction>>, i: nat, k: nat, fuel: nat)
    requires i < k < |Flat(blocks)|
    requires OutcomeAt(vm, base, Flat(blocks), i, fuel).Ok? && OutcomeAt(vm, base, Flat(blocks), k, fuel).Ok?
    ensures Flat(blocks)[i].payer != Flat(blocks)[k].payer || Flat(blocks)[i].nonce < Flat(blocks)[k].nonce
  {
    var txs := Flat(blocks);
    SuccessNonce(vm, base, txs, i, fuel);
    SuccessNonce(vm, base, txs, k, fuel);
    PaidGrows(txs, i, k);
  }

  /** A failed transaction changes nothing but its payer's nonce. */
  lemma FailureChangesOnlyTheNonce(vm: Machine, view: Accounts, tx: Transaction, fuel: nat, a: Pubkey)
    requires ExecuteTransaction(vm, view[tx.payer := Bumped(view, tx.payer)], tx, fuel).Err?
    ensures a != tx.payer ==> Get(ViewAfter(vm, view, tx, fuel), a) == Get(view, a)
    ensures Get(ViewAfter(vm, view, tx, fuel), tx.payer)
         == Some((if tx.payer in view then view[tx.payer] else FRESH_ACCOUNT).(nonce := NonceOf(view, tx.payer) + 1))
  {
  }
}
