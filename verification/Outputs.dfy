/** What an execution does, output by output, at any nesting depth (src/vm/unit.rs:129-384): when it succeeds,
    what it changes and what it logs. */
module Outputs {
  import opened Primitives
  import opened State
  import opened Unit

  /** An output that is no call, and the unit that makes it. */
  datatype Act = Act(unit: ExecutionUnit, output: Output)

  // ----- the outputs of a call tree

  /** The outputs of a unit and of all units nested in it, in order; nothing if one of them cannot start or
      its contract fails. */
  function Acts(vm: Machine, state: Accounts, unit: ExecutionUnit, fuel: nat): Option<seq<Act>>
    decreases fuel, 2, 0
  {
    match RunContract(vm, unit)
    case Err(_) => None
    case Ok(outputs) => ActsOf(vm, state, unit, outputs, fuel)
  }

  function ActsOf(vm: Machine, state: Accounts, unit: ExecutionUnit, outputs: seq<Output>, fuel: nat): Option<seq<Act>>
    decreases fuel, 1, |outputs|
  {
    if outputs == [] then Some([]) else
    var before := ActsOf(vm, state, unit, outputs[..|outputs| - 1], fuel);
    var last := ActsBy(vm, state, unit, outputs[|outputs| - 1], fuel);
    if before.Some? && last.Some? then Some(before.value + last.value) else None
  }

  function ActsBy(vm: Machine, state: Accounts, unit: ExecutionUnit, output: Output, fuel: nat): Option<seq<Act>>
    decreases fuel, 0
  {
    match output
    case ContractInvoke(contract, accounts, params) =>
      if fuel == 0 then None else
      (match NewNested(vm, state, unit.contract, contract, accounts, params)
       case Err(_) => None
       case Ok(nested) => Acts(vm, state, nested, fuel - 1))
    case _ => Some([Act(unit, output)])
  }

  // ----- one output

  /** The first listing of the address among the unit's accounts is the i-th. */
  predicate ListedFirst(unit: ExecutionUnit, address: Pubkey, i: nat) {
    && i < |unit.env.accounts| && unit.env.accounts[i].0 == address
    && (forall j | 0 <= j < i :: unit.env.accounts[j].0 != address)
  }

  ghost predicate MayWrite(unit: ExecutionUnit, address: Pubkey) {
    exists i: nat :: ListedFirst(unit, address, i) && unit.env.accounts[i].1.writable
  }

  ghost predicate MayDelete(unit: ExecutionUnit, address: Pubkey) {
    exists i: nat :: ListedFirst(unit, address, i) && unit.env.accounts[i].1.writable
      && unit.env.accounts[i].1.owner == Some(unit.env.address)
  }

  /** The output succeeds. */
  ghost predicate Allowed(vm: Machine, state: Accounts, act: Act) {
    match act.output
    case LogEntry(key, value) => vm.logSize(key, value) <= vm.maxLogSize
    case CreateOwnedAccount(a, data) => !TooLarge(vm, data) && a !in state && MayWrite(act.unit, a)
    case WriteAccountData(a, data) => !TooLarge(vm, data) && a in state && MayWrite(act.unit, a)
    case DeleteOwnedAccount(a) => MayDelete(act.unit, a)
    case CreateExecutableAccount(a, bytecode) =>
      && vm.dataSize(bytecode) <= vm.maxContractSize && act.unit.env.address == vm.wasm
      && a !in state && MayWrite(act.unit, a)
    case ContractInvoke(_, _, _) => false
  }

  /** What it changes. */
  function DiffOf(vm: Machine, state: Accounts, act: Act): StateDiff {
    match act.output
    case CreateOwnedAccount(a, data) => StateDiff(map[a := Account(false, 0, Some(act.unit.contract), data)], {})
    case WriteAccountData(a, data) => if a in state then StateDiff(map[a := state[a].(data := data)], {}) else NO_CHANGE
    case DeleteOwnedAccount(a) => StateDiff(map[], {a})
    case CreateExecutableAccount(a, bytecode) => StateDiff(map[a := Account(true, 0, Some(vm.wasm), Some(bytecode))],
      {})
    case _ => NO_CHANGE
  }

  function LogOf(act: Act): seq<(string, LogValue)> {
    if act.output.LogEntry? then [(act.output.key, act.output.value)] else []
  }

  function DiffsOf(vm: Machine, state: Accounts, acts: seq<Act>): seq<StateDiff> {
    seq(|acts|, i requires 0 <= i < |acts| => DiffOf(vm, state, acts[i]))
  }

  function LogsOf(acts: seq<Act>): seq<(string, LogValue)> {
    if acts == [] then [] else LogsOf(acts[..|acts| - 1]) + LogOf(acts[|acts| - 1])
  }

  ghost predicate AllAllowed(vm: Machine, state: Accounts, acts: seq<Act>) {
    forall act | act in acts :: Allowed(vm, state, act)
  }

  lemma {:induction false} Found(views: seq<(Pubkey, AccountView)>, address: Pubkey) returns (i: nat)
    ensures FindView(views, address).None? <==> forall j | 0 <= j < |views| :: views[j].0 != address
    ensures FindView(views, address).Some? ==>
              && i < |views| && views[i] == (address, FindView(views, address).value)
              && (forall j | 0 <= j < i :: views[j].0 != address)
  {
    if views == [] || views[0].0 == address {
      i := 0;
    } else {
      var k := Found(views[1..], address);
      i := k + 1;
      forall j | 0 < j < |views| ensures views[j] == views[1..][j - 1] {}
    }
  }

  lemma OneListing(unit: ExecutionUnit, address: Pubkey, i: nat, j: nat)
    requires ListedFirst(unit, address, i) && ListedFirst(unit, address, j)
    ensures i == j
  {
  }

  /** The lookup among the unit's accounts, by position. */
  lemma LookedUp(unit: ExecutionUnit, address: Pubkey)
    ensures var view := FindView(unit.env.accounts, address);
            && (MayWrite(unit, address) <==> view.Some? && view.value.writable)
            && (MayDelete(unit, address) <==>
                  view.Some? && view.value.writable && view.value.owner == Some(unit.env.address))
  {
    var i := Found(unit.env.accounts, address);
    if FindView(unit.env.accounts, address).Some? {
      assert ListedFirst(unit, address, i);
      forall j: nat | ListedFirst(unit, address, j) ensures j == i { OneListing(unit, address, i, j); }
    }
  }

  lemma NoInvokeExact(vm: Machine, state: Accounts, unit: ExecutionUnit, output: Output, fuel: nat)
    requires !output.ContractInvoke?
    ensures var result, act := ProcessOutput(vm, state, unit, output, fuel), Act(unit, output);
            && (result.Ok? <==> Allowed(vm, state, act))
            && (result.Ok? ==> result.value.diff == DiffOf(vm, state, act) && result.value.logs == LogOf(act))
  {
    hide FindView, MayWrite, MayDelete;
    match output
    case CreateOwnedAccount(a, _) => LookedUp(unit, a);
    case WriteAccountData(a, _) => LookedUp(unit, a);
    case DeleteOwnedAccount(a) => LookedUp(unit, a);
    case CreateExecutableAccount(a, _) => LookedUp(unit, a);
    case LogEntry(_, _) =>
  }

  // ----- lists of outputs

  lemma {:induction false} MergeAllConcat(a: seq<StateDiff>, b: seq<StateDiff>)
    ensures MergeAll(a + b) == MergeAll(a).Merge(MergeAll(b))
  {
    if b == [] {
      assert a + b == a;
      var d := MergeAll(a);
      assert d.data + map[] == d.data && (d.deletes - {}) + {} == d.deletes;
    } else {
      var rest, last := b[..|b| - 1], b[|b| - 1];
      assert (a + b)[..|a + b| - 1] == a + rest;
      MergeAllConcat(a, rest);
      MergeAssociative(MergeAll(a), MergeAll(rest), last);
    }
  }

  lemma {:induction false} LogsConcat(a: seq<Act>, b: seq<Act>)
    ensures LogsOf(a + b) == LogsOf(a) + LogsOf(b)
  {
    if b == [] {
      assert a + b == a;
    } else {
      assert (a + b)[..|a + b| - 1] == a + b[..|b| - 1];
      LogsConcat(a, b[..|b| - 1]);
    }
  }

  /** The execution succeeds exactly when all outputs are there, are allowed and log no more than the limit;
      then it merges their changes and lists their log entries, in order. */
  ghost predicate Exact(vm: Machine, state: Accounts, result: TxResult, acts: Option<seq<Act>>) {
    && (result.Ok? <==> acts.Some? && AllAllowed(vm, state, acts.value) && |LogsOf(acts.value)| <= vm.maxLogsCount)
    && (result.Ok? ==> result.value.diff == MergeAll(DiffsOf(vm, state, acts.value))
                       && result.value.logs == LogsOf(acts.value))
  }

  /** The same without the limit. */
  ghost predicate Nearly(vm: Machine, state: Accounts, result: TxResult, acts: Option<seq<Act>>) {
    && (result.Ok? ==> acts.Some? && AllAllowed(vm, state, acts.value))
    && (acts.Some? && AllAllowed(vm, state, acts.value) && |LogsOf(acts.value)| <= vm.maxLogsCount ==> result.Ok?)
    && (result.Ok? ==> result.value.diff == MergeAll(DiffsOf(vm, state, acts.value))
                       && result.value.logs == LogsOf(acts.value))
  }

  lemma JoinedActs(vm: Machine, state: Accounts, a: seq<Act>, b: seq<Act>)
    ensures MergeAll(DiffsOf(vm, state, a + b))
      == MergeAll(DiffsOf(vm, state, a)).Merge(MergeAll(DiffsOf(vm, state, b)))
    ensures LogsOf(a + b) == LogsOf(a) + LogsOf(b)
    ensures AllAllowed(vm, state, a + b) <==> AllAllowed(vm, state, a) && AllAllowed(vm, state, b)
  {
    LogsConcat(a, b);
    JoinedDiffs(vm, state, a, b);
    MergeAllConcat(DiffsOf(vm, state, a), DiffsOf(vm, state, b));
    JoinedAllowed(vm, state, a, b);
    hide DiffsOf, MergeAll, LogsOf, AllAllowed;
  }

  lemma JoinedDiffs(vm: Machine, state: Accounts, a: seq<Act>, b: seq<Act>)
    ensures DiffsOf(vm, state, a + b) == DiffsOf(vm, state, a) + DiffsOf(vm, state, b)
  {
    hide DiffOf;
  }

  lemma JoinedAllowed(vm: Machine, state: Accounts, a: seq<Act>, b: seq<Act>)
    ensures AllAllowed(vm, state, a + b) <==> AllAllowed(vm, state, a) && AllAllowed(vm, state, b)
  {
    hide Allowed;
    assert forall act | act in a :: act in a + b;
    assert forall act | act in b :: act in a + b;
  }

  lemma OneAct(vm: Machine, state: Accounts, act: Act)
    ensures MergeAll(DiffsOf(vm, state, [act])) == DiffOf(vm, state, act) && LogsOf([act]) == LogOf(act)
    ensures AllAllowed(vm, state, [act]) <==> Allowed(vm, state, act)
  {
    hide DiffOf, Allowed;
    var d := DiffOf(vm, state, act);
    assert DiffsOf(vm, state, [act]) == [d] && [d][..0] == [] && [act][..0] == [];
    assert map[] + d.data == d.data && ({} - d.data.Keys) + d.deletes == d.deletes;
  }

  lemma {:induction false} OutputsExact(vm: Machine, state: Accounts, unit: ExecutionUnit, outputs: seq<Output>,
        fuel: nat)
    ensures Exact(vm, state, ProcessOutputs(vm, state, unit, outputs, fuel), ActsOf(vm, state, unit, outputs, fuel))
    decreases fuel, 1, |outputs|
  {
    hide ProcessOutput, ActsBy, AllAllowed, DiffsOf, StateDiff.Merge;
    if outputs == [] {
      NoActs(vm, state);
    } else {
      var init, last := outputs[..|outputs| - 1], outputs[|outputs| - 1];
      OutputsExact(vm, state, unit, init, fuel);
      OutputExact(vm, state, unit, last, fuel);
      var before, made := ActsOf(vm, state, unit, init, fuel), ActsBy(vm, state, unit, last, fuel);
      if before.Some? && made.Some? { JoinedActs(vm, state, before.value, made.value); }
      hide MergeAll, LogsOf;
    }
  }

  lemma NoActs(vm: Machine, state: Accounts)
    ensures AllAllowed(vm, state, []) && MergeAll(DiffsOf(vm, state, [])) == NO_CHANGE
  {
    assert DiffsOf(vm, state, []) == [];
  }

  lemma {:induction false} OutputExact(vm: Machine, state: Accounts, unit: ExecutionUnit, output: Output, fuel: nat)
    ensures Nearly(vm, state, ProcessOutput(vm, state, unit, output, fuel), ActsBy(vm, state, unit, output, fuel))
    decreases fuel, 0
  {
    hide AllAllowed, DiffsOf, MergeAll, LogsOf, Allowed, DiffOf;
    if output.ContractInvoke? {
      if fuel > 0 {
        var nested := NewNested(vm, state, unit.contract, output.contract, output.accounts, output.params);
        if nested.Ok? { ExecuteExact(vm, state, nested.value, fuel - 1); }
      }
    } else {
      NoInvokeExact(vm, state, unit, output, fuel);
      OneAct(vm, state, Act(unit, output));
    }
  }

  /** At any nesting depth: exactly when an execution succeeds, what it changes and what it logs. */
  lemma {:induction false} ExecuteExact(vm: Machine, state: Accounts, unit: ExecutionUnit, fuel: nat)
    ensures Exact(vm, state, Execute(vm, state, unit, fuel), Acts(vm, state, unit, fuel))
    decreases fuel, 2, 0
  {
    hide ProcessOutputs, ActsOf, AllAllowed, DiffsOf, MergeAll, LogsOf;
    if RunContract(vm, unit).Ok? {
      OutputsExact(vm, state, unit, RunContract(vm, unit).value, fuel);
    }
  }

  // ----- transactions

  /** The contract can be called: it is built in, or deployed and loadable. */
  predicate Callable(vm: Machine, state: Accounts, contract: Pubkey) {
    contract in vm.builtins
    || (&& contract in state && state[contract].owner == Some(vm.wasm) && state[contract].executable
        && state[contract].data.Some? && vm.loads(state[contract].data.value))
  }

  /** The view of the i-th account: what the contract may see of it, and whether it may change it. */
  predicate Shown(state: Accounts, contract: Pubkey, ref: AccountRef, view: AccountView) {
    var a := ref.address;
    && view.signer == ref.signer
    && (view.writable <==>
          && ref.writable
          && (a.HasPrivateKey() ==> ref.signer)
          && (!a.HasPrivateKey() && a in state ==> state[a].owner == Some(contract) && !state[a].executable))
    && (a in state
      ==> view.executable == state[a].executable && view.owner == state[a].owner && view.data == state[a].data)
    && (a !in state ==> !view.executable && view.owner == None && view.data == None)
  }

  /** Exactly when a unit starts, and what its contract is shown. */
  lemma UnitStarts(vm: Machine, state: Accounts, tx: Transaction)
    ensures NewUnit(vm, state, tx).Ok? <==>
              && |tx.accounts| <= vm.maxInputAccounts && vm.signatureFault(tx).None?
              && tx.nonce == NonceOf(state, tx.payer) && Callable(vm, state, tx.contract)
    ensures NewUnit(vm, state, tx).Ok? ==>
              var unit := NewUnit(vm, state, tx).value;
              && unit.contract == unit.env.address == tx.contract && unit.params == tx.params && unit.env.caller == None
              && unit.entrypoint == (if tx.contract in vm.builtins then Native(tx.contract)
                                     else External(state[tx.contract].data.value))
              && |unit.env.accounts| == |tx.accounts|
              && (forall i | 0 <= i < |tx.accounts| ::
                    unit.env.accounts[i].0 == tx.accounts[i].address
                    && Shown(state, tx.contract, tx.accounts[i], unit.env.accounts[i].1))
  {
  }

  lemma NestedStarts(vm: Machine, state: Accounts, caller: Pubkey, contract: Pubkey, refs: seq<AccountRef>,
        params: Params)
    ensures var nested := NewNested(vm, state, caller, contract, refs, params);
            && (nested.Ok? <==> |refs| <= vm.maxInputAccounts && Callable(vm, state, contract))
            && (nested.Ok? ==>
                  var unit := nested.value;
                  && unit.contract == unit.env.address == contract && unit.params == params
                  && unit.env.caller == Some(caller) && |unit.env.accounts| == |refs|
                  && unit.entrypoint == (if contract in vm.builtins then Native(contract)
                                         else External(state[contract].data.value))
                  && (forall i | 0 <= i < |refs| ::
                        unit.env.accounts[i].0 == refs[i].address
                        && Shown(state, contract, refs[i], unit.env.accounts[i].1)))
  {
  }

  /** Exactly when a transaction succeeds, what it changes and what it logs. */
  lemma TransactionExact(vm: Machine, state: Accounts, tx: Transaction, fuel: nat)
    ensures var unit, result := NewUnit(vm, state, tx), ExecuteTransaction(vm, state, tx, fuel);
            if unit.Ok? then Exact(vm, state, result, Acts(vm, state, unit.value, fuel)) else result.Err?
  {
    hide Execute, Acts, Exact;
    var unit := NewUnit(vm, state, tx);
    if unit.Ok? { ExecuteExact(vm, state, unit.value, fuel); }
  }
}
