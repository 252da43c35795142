/** Coins over whole runs: conserved along fork paths and in the store, whenever the blocks on the path
    are finalized. */
module Circulation {
  import opened Primitives
  import opened State
  import opened Unit
  import opened BlockMachine
  import opened Conservation
  import opened Ledger
  import opened CallTree
  import opened Balance

  // ----- transactions

  /** A transaction that fails or whose calls of the contract, if any, are separate and safe; calls that are
      not separate must balance. */
  ghost predicate SafeTx(vm: Machine, cur: Pubkey, view: Accounts, tx: Transaction, fuel: nat) {
    var s := view[tx.payer := Bumped(view, tx.payer)];
    var result, calls := ExecuteTransaction(vm, s, tx, fuel), CallsOf(cur, UnitsOf(vm, s, tx, fuel));
    || result.Err?
    || if Separate(vm, cur, s, tx, fuel) then AllSafe(cur, s, calls)
       else Balanced(cur, s, calls, LastWords(cur, s, calls, result.value))
  }

  /** A transaction conserves exactly when it is safe. */
  lemma TransactionConserves(vm: Machine, cur: Pubkey, view: Accounts, tx: Transaction, fuel: nat)
    requires Hosts(vm, cur) && Conserved(cur, view)
    ensures Conserved(cur, ViewAfter(vm, view, tx, fuel)) <==> SafeTx(vm, cur, view, tx, fuel)
  {
    hide AllSafe, Balanced, LastWords, Neutral, ExecuteTransaction, Conserved, Separate;
    var s := view[tx.payer := Bumped(view, tx.payer)];
    BumpIsNeutral(cur, view, tx.payer);
    NeutralConserves(cur, view, s);
    if ExecuteTransaction(vm, s, tx, fuel).Ok? {
      if Separate(vm, cur, s, tx, fuel) {
        SeparateCallsConserve(vm, cur, s, tx, fuel);
      } else {
        ConservesIfBalanced(vm, cur, s, tx, fuel);
      }
    }
  }

  ghost predicate SafeTxs(vm: Machine, cur: Pubkey, view: Accounts, txs: seq<Transaction>, fuel: nat) {
    forall i | 0 <= i < |txs| :: SafeTx(vm, cur, ViewsAfter(vm, view, txs[..i], fuel), txs[i], fuel)
  }

  lemma {:induction false} SafeTxsConserve(vm: Machine, cur: Pubkey, view: Accounts, txs: seq<Transaction>, fuel: nat)
    requires Hosts(vm, cur) && Conserved(cur, view) && SafeTxs(vm, cur, view, txs, fuel)
    ensures Conserved(cur, ViewsAfter(vm, view, txs, fuel))
  {
    hide Conserved, SafeTx, ViewAfter;
    if txs == [] {
    } else {
      var n := |txs| - 1;
      forall i | 0 <= i < n ensures SafeTx(vm, cur, ViewsAfter(vm, view, txs[..n][..i], fuel), txs[..n][i], fuel) {
        assert txs[..n][..i] == txs[..i];
      }
      SafeTxsConserve(vm, cur, view, txs[..n], fuel);
      TransactionConserves(vm, cur, ViewsAfter(vm, view, txs[..n], fuel), txs[n], fuel);
    }
  }

  /** Any sequence of transactions conserves all along exactly when each of them is safe. */
  lemma CoinsConserved(vm: Machine, cur: Pubkey, view: Accounts, txs: seq<Transaction>, fuel: nat)
    requires Hosts(vm, cur) && Conserved(cur, view)
    ensures (forall i: nat | i <= |txs| :: Conserved(cur, ViewsAfter(vm, view, txs[..i], fuel)))
      <==> SafeTxs(vm, cur, view, txs, fuel)
  {
    hide Conserved, SafeTx, ViewAfter, ViewsAfter;
    if SafeTxs(vm, cur, view, txs, fuel) {
      forall i: nat | i <= |txs| ensures Conserved(cur, ViewsAfter(vm, view, txs[..i], fuel)) {
        forall j | 0 <= j < i ensures SafeTx(vm, cur, ViewsAfter(vm, view, txs[..i][..j], fuel), txs[..i][j], fuel) {
          assert txs[..i][..j] == txs[..j];
        }
        SafeTxsConserve(vm, cur, view, txs[..i], fuel);
      }
    }
    if forall i: nat | i <= |txs| :: Conserved(cur, ViewsAfter(vm, view, txs[..i], fuel)) {
      forall i | 0 <= i < |txs| ensures SafeTx(vm, cur, ViewsAfter(vm, view, txs[..i], fuel), txs[i], fuel) {
        NextView(vm, view, txs, i, fuel);
        assert Conserved(cur, ViewsAfter(vm, view, txs[..i], fuel));
        assert Conserved(cur, ViewsAfter(vm, view, txs[..i + 1], fuel));
        TransactionConserves(vm, cur, ViewsAfter(vm, view, txs[..i], fuel), txs[i], fuel);
      }
    }
  }

  lemma NextView(vm: Machine, view: Accounts, txs: seq<Transaction>, i: nat, fuel: nat)
    requires i < |txs|
    ensures ViewsAfter(vm, view, txs[..i + 1], fuel)
      == ViewAfter(vm, ViewsAfter(vm, view, txs[..i], fuel), txs[i], fuel)
  {
    assert txs[..i + 1][..i] == txs[..i];
  }

  // ----- dust

  /** Deletes hit accounts that this diff emptied, or accounts of other contracts. */
  ghost predicate Dusting(cur: Pubkey, s: Accounts, d: StateDiff) {
    forall a | a in d.deletes ::
      (a in d.data && IsZeroCoin(d.data[a])) || (a in s && s[a].owner != Some(cur))
  }

  lemma NothingDusting(cur: Pubkey, s: Accounts)
    ensures Dusting(cur, s, NO_CHANGE)
  {
  }

  lemma MergeDusting(cur: Pubkey, s: Accounts, d: StateDiff, e: StateDiff)
    requires Dusting(cur, s, d) && Dusting(cur, s, e)
    ensures Dusting(cur, s, d.Merge(e))
  {
  }

  /** At any nesting depth, a call leaves no account deleted that still holds coins. */
  lemma {:induction false} ExecuteDusting(vm: Machine, cur: Pubkey, s: Accounts, unit: ExecutionUnit,
        refs: seq<AccountRef>, fuel: nat)
    requires Hosts(vm, cur) && Execute(vm, s, unit, fuel).Ok?
    requires unit.env == CreateEnvironment(s, refs, unit.contract, unit.env.caller)
    requires Resolve(vm, s, unit.contract) == Ok(unit.entrypoint)
    ensures Dusting(cur, s, Execute(vm, s, unit, fuel).value.diff)
    decreases fuel, 2, 0
  {
    if unit.contract == cur {
      UnitEffect(vm, cur, s, unit, refs, fuel);
    } else {
      OutputsDusting(vm, cur, s, unit, refs, RunContract(vm, unit).value, fuel);
    }
  }

  lemma {:induction false} OutputsDusting(vm: Machine, cur: Pubkey, s: Accounts, unit: ExecutionUnit,
        refs: seq<AccountRef>, outputs: seq<Output>, fuel: nat)
    requires Hosts(vm, cur) && unit.contract != cur && ProcessOutputs(vm, s, unit, outputs, fuel).Ok?
    requires unit.env == CreateEnvironment(s, refs, unit.contract, unit.env.caller)
    ensures Dusting(cur, s, ProcessOutputs(vm, s, unit, outputs, fuel).value.diff)
    decreases fuel, 1, |outputs|
  {
    hide ProcessOutput, Dusting;
    if outputs == [] {
      NothingDusting(cur, s);
    } else {
      var init, last := outputs[..|outputs| - 1], outputs[|outputs| - 1];
      OutputsDusting(vm, cur, s, unit, refs, init, fuel);
      OutputDusting(vm, cur, s, unit, refs, last, fuel);
      MergeDusting(cur, s, ProcessOutputs(vm, s, unit, init, fuel).value.diff,
        ProcessOutput(vm, s, unit, last, fuel).value.diff);
    }
  }

  lemma {:induction false} OutputDusting(vm: Machine, cur: Pubkey, s: Accounts, unit: ExecutionUnit,
        refs: seq<AccountRef>, output: Output, fuel: nat)
    requires Hosts(vm, cur) && unit.contract != cur && ProcessOutput(vm, s, unit, output, fuel).Ok?
    requires unit.env == CreateEnvironment(s, refs, unit.contract, unit.env.caller)
    ensures Dusting(cur, s, ProcessOutput(vm, s, unit, output, fuel).value.diff)
    decreases fuel, 0
  {
    match output
    case DeleteOwnedAccount(a) =>
      assert UnitOk(s, unit);
      WritableIsOwn(s, unit, a);
    case ContractInvoke(contract, accounts, params) =>
      var nested := NewNested(vm, s, unit.contract, contract, accounts, params).value;
      ExecuteDusting(vm, cur, s, nested, accounts, fuel - 1);
    case _ =>
  }

  /** What readers see at a deleted address holds no coins and no supply. */
  ghost predicate Vacant(cur: Pubkey, view: Accounts, deletes: set<Pubkey>) {
    forall a | a in deletes :: a in view && (IsZeroCoin(view[a]) || view[a].owner != Some(cur))
  }

  lemma TransactionVacant(vm: Machine, cur: Pubkey, s: Accounts, tx: Transaction, fuel: nat)
    requires Hosts(vm, cur) && ExecuteTransaction(vm, s, tx, fuel).Ok?
    ensures var diff := ExecuteTransaction(vm, s, tx, fuel).value.diff;
            Vacant(cur, diff.Over(s), diff.deletes)
  {
    var unit := NewUnit(vm, s, tx).value;
    ExecuteDusting(vm, cur, s, unit, tx.accounts, fuel);
    var out := ExecuteTransaction(vm, s, tx, fuel).value;
    hide ExecuteTransaction;
    forall a | a in out.diff.deletes && a in out.diff.data && a in s ensures out.diff.data[a].owner == s[a].owner {
      ProgramAccountIsolation(vm, s, tx, fuel, a);
    }
  }

  lemma MergeVacant(cur: Pubkey, base: Accounts, acc: StateDiff, d: StateDiff)
    requires Vacant(cur, acc.Over(base), acc.deletes) && Vacant(cur, d.Over(acc.Over(base)), d.deletes)
    ensures Vacant(cur, acc.Merge(d).Over(base), acc.Merge(d).deletes)
  {
    hide IsZeroCoin;
  }

  lemma SetVacant(cur: Pubkey, base: Accounts, acc: StateDiff, a: Pubkey, account: Account)
    requires Vacant(cur, acc.Over(base), acc.deletes)
    ensures Vacant(cur, acc.Set(a, account).Over(base), acc.Set(a, account).deletes)
  {
    hide IsZeroCoin;
  }

  lemma StepVacant(vm: Machine, cur: Pubkey, base: Accounts, acc: StateDiff, tx: Transaction, fuel: nat)
    requires Hosts(vm, cur) && Vacant(cur, acc.Over(base), acc.deletes)
    ensures var next := StepTx(vm, base, acc, tx, fuel).0;
            Vacant(cur, next.Over(base), next.deletes)
  {
    hide ExecuteTransaction, Vacant, Hosts, StateDiff.Set, StateDiff.Merge, StateDiff.Over;
    var payer := Bumped(acc.Over(base), tx.payer);
    var bumped := acc.Set(tx.payer, payer);
    SetVacant(cur, base, acc, tx.payer, payer);
    var result := ExecuteTransaction(vm, bumped.Over(base), tx, fuel);
    if result.Ok? {
      TransactionVacant(vm, cur, bumped.Over(base), tx, fuel);
      MergeVacant(cur, base, bumped, result.value.diff);
    }
  }

  lemma {:induction false} BlockVacant(vm: Machine, cur: Pubkey, base: Accounts, txs: seq<Transaction>, fuel: nat)
    requires Hosts(vm, cur)
    ensures var diff := ExecuteTxs(vm, base, txs, fuel).0;
            Vacant(cur, diff.Over(base), diff.deletes)
  {
    hide StepTx;
    if txs == [] {
    } else {
      var n := |txs| - 1;
      BlockVacant(vm, cur, base, txs[..n], fuel);
      StepVacant(vm, cur, base, ExecuteTxs(vm, base, txs[..n], fuel).0, txs[n], fuel);
    }
  }

  lemma DustAt(cur: Pubkey, executedOn: Accounts, view: Accounts, store: Accounts, d: StateDiff, a: Pubkey,
        mint: Pubkey)
    requires Vacant(cur, d.Over(executedOn), d.deletes)
    requires Neutral(cur, executedOn, store) && Neutral(cur, view, store)
    ensures CoinsAt(cur, d.ApplyTo(store), mint, a) == CoinsAt(cur, d.Over(view), mint, a)
    ensures SupplyAt(cur, d.ApplyTo(store), a) == SupplyAt(cur, d.Over(view), a)
  {
    var over, applied, seen := d.Over(view), d.ApplyTo(store), d.Over(executedOn);
    if a in d.deletes {
      assert CoinsAt(cur, seen, mint, a) == 0 && SupplyAt(cur, seen, a) == 0;
      assert CoinsAt(cur, applied, mint, a) == 0 && SupplyAt(cur, applied, a) == 0;
    }
    hide CoinsAt, SupplyAt;
    if a in d.data {
      LocalReads(cur, over, seen, mint, a);
      if a !in d.deletes { LocalReads(cur, over, applied, mint, a); }
    } else {
      LocalReads(cur, executedOn, seen, mint, a);
      LocalReads(cur, over, view, mint, a);
      if a !in d.deletes { LocalReads(cur, applied, store, mint, a); }
    }
  }

  /** Dust is neutral: when the same coins are seen by a block, by another reader and in the store,
      they are still the same after the block, although the store forgets what was deleted. */
  lemma DustIsNeutral(cur: Pubkey, executedOn: Accounts, view: Accounts, store: Accounts, d: StateDiff)
    requires Vacant(cur, d.Over(executedOn), d.deletes)
    requires Neutral(cur, executedOn, store) && Neutral(cur, view, store)
    ensures Neutral(cur, d.Over(view), d.ApplyTo(store))
  {
    hide CoinsAt, SupplyAt, Vacant;
    forall m, a ensures CoinsAt(cur, d.ApplyTo(store), m, a) == CoinsAt(cur, d.Over(view), m, a) {
      DustAt(cur, executedOn, view, store, d, a, m);
    }
    forall m ensures SupplyAt(cur, d.ApplyTo(store), m) == SupplyAt(cur, d.Over(view), m) {
      DustAt(cur, executedOn, view, store, d, m, m);
    }
  }

  // ----- whole runs

  /** What a reader above the first i blocks of a chain sees when the first k of them are finalized. */
  function ReadAt(base: Accounts, ds: seq<StateDiff>, k: nat, i: nat): Accounts
    requires k <= i <= |ds|
  {
    OverAll(ApplyAll(base, ds[..k]), ds[k..i])
  }

  /** The diffs of a chain of blocks; cuts[i] blocks were finalized when block i was executed. */
  ghost predicate ExecutedInTurn(vm: Machine, base: Accounts, blocks: seq<seq<Transaction>>, cuts: seq<nat>,
        ds: seq<StateDiff>, fuel: nat) {
    && |ds| == |blocks| == |cuts|
    && (forall i | 0 <= i < |ds| ::
      cuts[i] <= i && ds[i] == ExecuteTxs(vm, ReadAt(base, ds, cuts[i], i), blocks[i], fuel).0)
  }

  lemma ReadNext(base: Accounts, ds: seq<StateDiff>, k: nat, i: nat)
    requires k <= i < |ds|
    ensures ReadAt(base, ds, k, i + 1) == ds[i].Over(ReadAt(base, ds, k, i))
    ensures ApplyAll(base, ds[..i + 1]) == ds[i].ApplyTo(ApplyAll(base, ds[..i]))
    ensures ReadAt(base, ds, i, i) == ApplyAll(base, ds[..i])
  {
    assert ds[k..i + 1][..i - k] == ds[k..i] && ds[..i + 1][..i] == ds[..i] && ds[i..i] == [];
  }

  /** However many blocks are finalized, all readers and the store agree on every coin balance and
      every supply. */
  lemma {:induction false} ReadersAgree(vm: Machine, cur: Pubkey, base: Accounts, blocks: seq<seq<Transaction>>,
        cuts: seq<nat>, ds: seq<StateDiff>, k: nat, i: nat, fuel: nat)
    requires Hosts(vm, cur) && ExecutedInTurn(vm, base, blocks, cuts, ds, fuel) && k <= i <= |ds|
    ensures Neutral(cur, ReadAt(base, ds, k, i), ApplyAll(base, ds[..i]))
    decreases i
  {
    hide Neutral, Vacant, ExecuteTxs;
    if k == i {
      assert ds[i..i] == [];
      NeutralToItself(cur, ReadAt(base, ds, i, i));
    } else {
      var j := i - 1;
      ReadNext(base, ds, k, j);
      ReadersAgree(vm, cur, base, blocks, cuts, ds, k, j, fuel);
      ReadersAgree(vm, cur, base, blocks, cuts, ds, cuts[j], j, fuel);
      BlockVacant(vm, cur, ReadAt(base, ds, cuts[j], j), blocks[j], fuel);
      DustIsNeutral(cur, ReadAt(base, ds, cuts[j], j), ReadAt(base, ds, k, j), ApplyAll(base, ds[..j]), ds[j]);
    }
  }

  /** Conservation over whole runs: when every transaction is safe where it is executed, every reader
      and the store have conserved coins. */
  lemma {:induction false} RunConserves(vm: Machine, cur: Pubkey, base: Accounts, blocks: seq<seq<Transaction>>,
        cuts: seq<nat>, ds: seq<StateDiff>, k: nat, i: nat, fuel: nat)
    requires Hosts(vm, cur) && ExecutedInTurn(vm, base, blocks, cuts, ds, fuel) && k <= i <= |ds|
      && Conserved(cur, base)
    requires forall j | 0 <= j < i :: SafeTxs(vm, cur, ReadAt(base, ds, cuts[j], j), blocks[j], fuel)
    ensures Conserved(cur, ReadAt(base, ds, k, i)) && Conserved(cur, ApplyAll(base, ds[..i]))
    decreases i
  {
    hide Neutral, ExecuteTxs, SafeTxs, Conserved;
    if i == 0 {
    } else {
      var j := i - 1;
      var view := ReadAt(base, ds, cuts[j], j);
      RunConserves(vm, cur, base, blocks, cuts, ds, cuts[j], j, fuel);
      SafeTxsConserve(vm, cur, view, blocks[j], fuel);
      BlockView(vm, view, blocks[j], fuel);
      ReadNext(base, ds, cuts[j], j);
      ReadersAgree(vm, cur, base, blocks, cuts, ds, cuts[j], i, fuel);
      NeutralConserves(cur, ReadAt(base, ds, cuts[j], i), ApplyAll(base, ds[..i]));
    }
    ReadersAgree(vm, cur, base, blocks, cuts, ds, k, i, fuel);
    NeutralConserves(cur, ReadAt(base, ds, k, i), ApplyAll(base, ds[..i]));
  }
}
