/** Execution of one transaction with its nested contract calls (src/vm/unit.rs, src/vm/contract.rs). */
module Unit {
  import opened Primitives
  import opened State

  datatype AccountRef = AccountRef(address: Pubkey, writable: bool, signer: bool)

  datatype AccountView = AccountView(signer: bool, writable: bool, executable: bool, owner: Option<Pubkey>,
    data: Option<Data>)

  datatype Environment = Environment(caller: Option<Pubkey>, address: Pubkey, accounts: seq<(Pubkey, AccountView)>)

  /** Parameters of the Currency contract are parsed instructions, all others are raw bytes. */
  datatype Instruction =
    | Create(seed: Pubkey, authority: Pubkey, decimals: nat, name: Option<string>, symbol: Option<string>)
    | MintCoins(amount: U64)
    | Transfer(amount: U64)
    | Burn(amount: U64)
    | SetAuthority(newAuthority: Option<Pubkey>)

  datatype Params = Raw(bytes: seq<nat>) | Instruct(instruction: Instruction)

  datatype LogValue = Text(text: string) | Key(key: Pubkey) | Amount(amount: nat)

  datatype Output =
    | LogEntry(key: string, value: LogValue)
    | CreateOwnedAccount(address: Pubkey, data: Option<Data>)
    | WriteAccountData(address: Pubkey, data: Option<Data>)
    | DeleteOwnedAccount(address: Pubkey)
    | ContractInvoke(contract: Pubkey, accounts: seq<AccountRef>, params: Params)
    | CreateExecutableAccount(address: Pubkey, bytecode: Data)

  datatype ContractError =
    | InvalidTransactionNonce | AccountAlreadyExists | AccountDoesNotExist | TooManyInputAccounts
    | AccountTooLarge | LogTooLarge | TooManyLogs | InvalidInputAccounts | InvalidAccountOwner
    | InvalidOutputAccount | AccountNotWritable | ContractDoesNotExist | AccountIsNotExecutable
    | BadSignature | MissingSigners | InvalidInputParameters | UnauthorizedOperation | RuntimeError
    | Other(message: string)
    | CallsTooDeep  // nested deeper than the fuel of the model

  type Outputs = Result<seq<Output>, ContractError>

  datatype Transaction = Transaction(contract: Pubkey, nonce: nat, payer: Pubkey, accounts: seq<AccountRef>,
    params: Params, id: nat)

  /** The machine: limits from genesis, and arbitrary functions for signatures, builtin contracts,
      loading of bytecode and deployed contracts. */
  datatype Machine = Machine(
    maxInputAccounts: nat,
    maxLogSize: nat,
    maxLogsCount: nat,
    maxAccountSize: nat,
    maxContractSize: nat,
    builtins: set<Pubkey>,
    wasm: Pubkey,
    signatureFault: Transaction -> Option<ContractError>,
    native: (Pubkey, Environment, Params) -> Outputs,
    loads: Data -> bool,
    external: (Data, Environment, Params) -> Outputs,
    dataSize: Data -> nat,
    logSize: (string, LogValue) -> nat)

  datatype Entrypoint = Native(address: Pubkey) | External(bytecode: Data)

  datatype ExecutionUnit = ExecutionUnit(entrypoint: Entrypoint, env: Environment, contract: Pubkey, params: Params)

  /** A change requested by one output of one contract. */
  datatype Write = Write(contract: Pubkey, diff: StateDiff)

  /** `writes` is a history variable: the changes in the order in which they were merged. */
  datatype TransactionOutput = TransactionOutput(diff: StateDiff, logs: seq<(string, LogValue)>, writes: seq<Write>) {
    function Merge(newer: TransactionOutput): TransactionOutput {
      TransactionOutput(diff.Merge(newer.diff), logs + newer.logs, writes + newer.writes)
    }
  }

  const NO_OUTPUT := TransactionOutput(NO_CHANGE, [], [])

  type TxResult = Result<TransactionOutput, ContractError>

  // ----- the environment

  /** Writable accounts: on-curve ones that sign, off-curve ones that do not exist yet, and off-curve
      ones that are not executable and belong to the called contract. */
  function IsWritable(state: Accounts, contract: Pubkey, account: AccountRef): bool {
    && account.writable
    && if account.address.HasPrivateKey() then account.signer
       else account.address in state ==>
              !state[account.address].executable && state[account.address].owner == Some(contract)
  }

  function ViewOf(state: Accounts, contract: Pubkey, account: AccountRef): (Pubkey, AccountView) {
    var existing := Get(state, account.address);
    (account.address,
     AccountView(account.signer, IsWritable(state, contract, account),
                 existing.Some? && existing.value.executable,
                 if existing.Some? then existing.value.owner else None,
                 if existing.Some? then existing.value.data else None))
  }

  function CreateEnvironment(state: Accounts, accounts: seq<AccountRef>, contract: Pubkey,
        caller: Option<Pubkey>): Environment {
    Environment(caller, contract,
      seq(|accounts|, i requires 0 <= i < |accounts| => ViewOf(state, contract, accounts[i])))
  }

  function FindView(accounts: seq<(Pubkey, AccountView)>, address: Pubkey): Option<AccountView> {
    if accounts == [] then None
    else if accounts[0].0 == address then Some(accounts[0].1)
    else FindView(accounts[1..], address)
  }

  function Resolve(vm: Machine, state: Accounts, contract: Pubkey): Result<Entrypoint, ContractError> {
    if contract in vm.builtins then Ok(Native(contract))
    else if contract !in state then Err(ContractDoesNotExist)
    else
      var account := state[contract];
      if account.owner == Some(vm.wasm) && account.executable && account.data.Some? then
        if vm.loads(account.data.value) then Ok(External(account.data.value)) else Err(RuntimeError)
      else Err(AccountIsNotExecutable)
  }

  // ----- outputs that change accounts

  function SetAccount(unit: ExecutionUnit, address: Pubkey, value: Account): Result<StateDiff, ContractError> {
    match FindView(unit.env.accounts, address)
    case None => Err(InvalidOutputAccount)
    case Some(view) => if view.writable then Ok(NO_CHANGE.Set(address, value)) else Err(AccountNotWritable)
  }

  function CreateAccount(state: Accounts, unit: ExecutionUnit, address: Pubkey, data: Option<Data>): Result<StateDiff,
        ContractError> {
    if address in state then Err(AccountAlreadyExists)
    else SetAccount(unit, address, Account(false, 0, Some(unit.contract), data))
  }

  function CreateExecutable(vm: Machine, state: Accounts, unit: ExecutionUnit, address: Pubkey,
        bytecode: Data): Result<StateDiff, ContractError> {
    if unit.env.address != vm.wasm then Err(UnauthorizedOperation)
    else if address in state then Err(AccountAlreadyExists)
    else SetAccount(unit, address, Account(true, 0, Some(vm.wasm), Some(bytecode)))
  }

  function ModifyAccount(state: Accounts, unit: ExecutionUnit, address: Pubkey, data: Option<Data>): Result<StateDiff,
        ContractError> {
    if address !in state then Err(AccountDoesNotExist)
    else SetAccount(unit, address, state[address].(data := data))
  }

  function DeleteAccount(unit: ExecutionUnit, address: Pubkey): Result<StateDiff, ContractError> {
    match FindView(unit.env.accounts, address)
    case None => Err(InvalidOutputAccount)
    case Some(view) =>
      if view.owner != Some(unit.env.address) then Err(InvalidAccountOwner)
      else if !view.writable then Err(AccountNotWritable)
      else Ok(NO_CHANGE.Remove(address))
  }

  function TooLarge(vm: Machine, data: Option<Data>): bool {
    data.Some? && vm.dataSize(data.value) > vm.maxAccountSize
  }

  function Written(unit: ExecutionUnit, diff: Result<StateDiff, ContractError>): TxResult {
    match diff
    case Err(e) => Err(e)
    case Ok(d) => Ok(TransactionOutput(d, [], [Write(unit.contract, d)]))
  }

  // ----- execution

  function NewNested(vm: Machine, state: Accounts, caller: Pubkey, contract: Pubkey, accounts: seq<AccountRef>,
        params: Params): Result<ExecutionUnit, ContractError> {
    if |accounts| > vm.maxInputAccounts then Err(TooManyInputAccounts)
    else
      match Resolve(vm, state, contract)
      case Err(e) => Err(e)
      case Ok(entrypoint) =>
        Ok(ExecutionUnit(entrypoint, CreateEnvironment(state, accounts, contract, Some(caller)), contract, params))
  }

  function NewUnit(vm: Machine, state: Accounts, tx: Transaction): Result<ExecutionUnit, ContractError> {
    if |tx.accounts| > vm.maxInputAccounts then Err(TooManyInputAccounts)
    else if vm.signatureFault(tx).Some? then Err(vm.signatureFault(tx).value)
    else if tx.nonce != NonceOf(state, tx.payer) then Err(InvalidTransactionNonce)
    else
      match Resolve(vm, state, tx.contract)
      case Err(e) => Err(e)
      case Ok(entrypoint) =>
        Ok(ExecutionUnit(entrypoint, CreateEnvironment(state, tx.accounts, tx.contract, None), tx.contract, tx.params))
  }

  function NonceOf(state: Accounts, address: Pubkey): nat {
    if address in state then state[address].nonce else 0
  }

  function RunContract(vm: Machine, unit: ExecutionUnit): Outputs {
    match unit.entrypoint
    case Native(address) => vm.native(address, unit.env, unit.params)
    case External(bytecode) => vm.external(bytecode, unit.env, unit.params)
  }

  /** One output. Nested calls read the state at the start of the transaction. */
  function ProcessOutput(vm: Machine, state: Accounts, unit: ExecutionUnit, output: Output, fuel: nat): TxResult
    decreases fuel, 0
  {
    match output
    case LogEntry(key, value) =>
      if vm.logSize(key, value) > vm.maxLogSize then Err(LogTooLarge)
      else Ok(TransactionOutput(NO_CHANGE, [(key, value)], []))
    case CreateOwnedAccount(address, data) =>
      if TooLarge(vm, data) then Err(AccountTooLarge) else Written(unit, CreateAccount(state, unit, address, data))
    case WriteAccountData(address, data) =>
      if TooLarge(vm, data) then Err(AccountTooLarge) else Written(unit, ModifyAccount(state, unit, address, data))
    case DeleteOwnedAccount(address) => Written(unit, DeleteAccount(unit, address))
    case ContractInvoke(contract, accounts, params) =>
      if fuel == 0 then Err(CallsTooDeep) else
      (match NewNested(vm, state, unit.contract, contract, accounts, params)
       case Err(e) => Err(e)
       case Ok(nested) => Execute(vm, state, nested, fuel - 1))
    case CreateExecutableAccount(address, bytecode) =>
      if vm.dataSize(bytecode) > vm.maxContractSize then Err(AccountTooLarge)
      else Written(unit, CreateExecutable(vm, state, unit, address, bytecode))
  }

  /** The outputs in order; the first failure fails the whole transaction. */
  function ProcessOutputs(vm: Machine, state: Accounts, unit: ExecutionUnit, outputs: seq<Output>, fuel: nat): TxResult
    decreases fuel, 1, |outputs|
  {
    if outputs == [] then Ok(NO_OUTPUT) else
    match ProcessOutputs(vm, state, unit, outputs[..|outputs| - 1], fuel)
    case Err(e) => Err(e)
    case Ok(before) =>
      match ProcessOutput(vm, state, unit, outputs[|outputs| - 1], fuel)
      case Err(e) => Err(e)
      case Ok(out) =>
        var merged := before.Merge(out);
        if |merged.logs| > vm.maxLogsCount then Err(TooManyLogs) else Ok(merged)
  }

  function Execute(vm: Machine, state: Accounts, unit: ExecutionUnit, fuel: nat): TxResult
    decreases fuel, 2, 0
  {
    match RunContract(vm, unit)
    case Err(e) => Err(e)
    case Ok(outputs) => ProcessOutputs(vm, state, unit, outputs, fuel)
  }

  function ExecuteTransaction(vm: Machine, state: Accounts, tx: Transaction, fuel: nat): TxResult {
    match NewUnit(vm, state, tx)
    case Err(e) => Err(e)
    case Ok(unit) => Execute(vm, state, unit, fuel)
  }

  /** The loop of `execute` over the outputs of the contract. */
  method ExecuteLoop(vm: Machine, state: Accounts, unit: ExecutionUnit, fuel: nat) returns (result: TxResult)
    ensures result == Execute(vm, state, unit, fuel)
  {
    var outputs := RunContract(vm, unit);
    if outputs.Err? { return Err(outputs.error); }
    var merged := NO_OUTPUT;
    for i := 0 to |outputs.value|
      invariant ProcessOutputs(vm, state, unit, outputs.value[..i], fuel) == Ok(merged)
    {
      assert outputs.value[..i + 1][..i] == outputs.value[..i];
      var out := ProcessOutput(vm, state, unit, outputs.value[i], fuel);
      if out.Err? {
        FirstFailure(vm, state, unit, outputs.value, i + 1, fuel);
        return Err(out.error);
      }
      merged := merged.Merge(out.value);
      if |merged.logs| > vm.maxLogsCount {
        FirstFailure(vm, state, unit, outputs.value, i + 1, fuel);
        return Err(TooManyLogs);
      }
    }
    assert outputs.value[..|outputs.value|] == outputs.value;
    return Ok(merged);
  }

  /** Once the outputs up to k fail, all of them fail with the same error. */
  lemma {:induction false} FirstFailure(vm: Machine, state: Accounts, unit: ExecutionUnit, outputs: seq<Output>,
        k: nat, fuel: nat)
    requires k <= |outputs| && ProcessOutputs(vm, state, unit, outputs[..k], fuel).Err?
    ensures ProcessOutputs(vm, state, unit, outputs, fuel) == ProcessOutputs(vm, state, unit, outputs[..k], fuel)
    decreases |outputs|
  {
    if k == |outputs| {
      assert outputs[..k] == outputs;
    } else {
      assert outputs[..|outputs| - 1][..k] == outputs[..k];
      FirstFailure(vm, state, unit, outputs[..|outputs| - 1], k, fuel);
    }
  }

  // ----- isolation

  /** What a contract may do to an account: create one that does not exist, change the data of one, or
      delete its own; and an existing account off the curve must be its own and not executable. */
  ghost predicate LegalPut(vm: Machine, state: Accounts, contract: Pubkey, address: Pubkey, account: Account) {
    && (address in state ==> account == state[address].(data := account.data))
    && (address in state && !address.HasPrivateKey()
      ==> !state[address].executable && state[address].owner == Some(contract))
    && (address !in state
      ==> account.nonce == 0 && account.owner == Some(contract) && (account.executable ==> contract == vm.wasm))
  }

  ghost predicate LegalDelete(state: Accounts, contract: Pubkey, address: Pubkey) {
    address in state && state[address].owner == Some(contract)
      && (!address.HasPrivateKey() ==> !state[address].executable)
  }

  ghost predicate LegalWrite(vm: Machine, state: Accounts, w: Write) {
    && (forall a | a in w.diff.data :: LegalPut(vm, state, w.contract, a, w.diff.data[a]))
    && (forall a | a in w.diff.deletes :: LegalDelete(state, w.contract, a))
  }

  /** Units as the constructors make them. */
  ghost predicate UnitOk(state: Accounts, unit: ExecutionUnit) {
    exists refs, caller :: unit.env == CreateEnvironment(state, refs, unit.contract, caller)
  }

  lemma {:induction false} FoundView(state: Accounts, contract: Pubkey, views: seq<(Pubkey, AccountView)>,
        address: Pubkey)
    requires forall i | 0 <= i < |views| :: exists ref :: views[i] == ViewOf(state, contract, ref)
    requires FindView(views, address).Some?
    ensures exists ref :: (address, FindView(views, address).value) == ViewOf(state, contract, ref)
  {
    if views[0].0 == address {
      var ref :| views[0] == ViewOf(state, contract, ref);
      assert views[0] == (address, FindView(views, address).value);
    } else {
      FoundView(state, contract, views[1..], address);
    }
  }

  /** The view of a writable account off the curve that exists says that it is the contract's own. */
  lemma WritableIsOwn(state: Accounts, unit: ExecutionUnit, address: Pubkey)
    requires UnitOk(state, unit) && FindView(unit.env.accounts, address).Some?
    ensures unit.env.address == unit.contract
    ensures var view := FindView(unit.env.accounts, address).value;
            && view.owner == (if address in state then state[address].owner else None)
            && (view.writable && address in state && !address.HasPrivateKey() ==>
                  !state[address].executable && state[address].owner == Some(unit.contract))
  {
    var refs, caller :| unit.env == CreateEnvironment(state, refs, unit.contract, caller);
    var views := unit.env.accounts;
    forall i | 0 <= i < |views| ensures exists ref :: views[i] == ViewOf(state, unit.contract, ref) {
      assert views[i] == ViewOf(state, unit.contract, refs[i]);
    }
    FoundView(state, unit.contract, views, address);
  }

  /** The diff is the merge of the writes, and every write is legal. */
  ghost predicate Accounted(vm: Machine, state: Accounts, out: TransactionOutput) {
    && out.diff == MergeAll(Diffs(out.writes))
    && (forall w | w in out.writes :: LegalWrite(vm, state, w))
  }

  function Diffs(writes: seq<Write>): seq<StateDiff> {
    if writes == [] then [] else Diffs(writes[..|writes| - 1]) + [writes[|writes| - 1].diff]
  }

  lemma {:induction false} DiffsConcat(a: seq<Write>, b: seq<Write>)
    ensures MergeAll(Diffs(a + b)) == MergeAll(Diffs(a)).Merge(MergeAll(Diffs(b)))
  {
    if b == [] {
      assert a + b == a;
      var d := MergeAll(Diffs(a));
      assert d.data + map[] == d.data && (d.deletes - {}) + {} == d.deletes;
    } else {
      var rest, last := b[..|b| - 1], b[|b| - 1].diff;
      assert (a + b)[..|a + b| - 1] == a + rest;
      DiffsConcat(a, rest);
      MergeAssociative(MergeAll(Diffs(a)), MergeAll(Diffs(rest)), last);
      assert Diffs(a + b)[..|Diffs(a + b)| - 1] == Diffs(a + rest);
      assert Diffs(b)[..|Diffs(b)| - 1] == Diffs(rest);
    }
  }

  lemma MergeAccounted(vm: Machine, state: Accounts, a: TransactionOutput, b: TransactionOutput)
    requires Accounted(vm, state, a) && Accounted(vm, state, b)
    ensures Accounted(vm, state, a.Merge(b))
  {
    DiffsConcat(a.writes, b.writes);
  }

  lemma WrittenAccounted(vm: Machine, state: Accounts, unit: ExecutionUnit, diff: Result<StateDiff, ContractError>)
    requires diff.Ok? && LegalWrite(vm, state, Write(unit.contract, diff.value))
    ensures Accounted(vm, state, Written(unit, diff).value)
  {
    var d := diff.value;
    assert Diffs([Write(unit.contract, d)]) == [d];
    assert MergeAll([d]) == NO_CHANGE.Merge(d);
    assert map[] + d.data == d.data && ({} - d.data.Keys) + d.deletes == d.deletes;
  }

  lemma {:induction false} OutputAccounted(vm: Machine, state: Accounts, unit: ExecutionUnit, output: Output, fuel: nat)
    requires UnitOk(state, unit) && ProcessOutput(vm, state, unit, output, fuel).Ok?
    ensures Accounted(vm, state, ProcessOutput(vm, state, unit, output, fuel).value)
    decreases fuel, 0
  {
    match output
    case LogEntry(_, _) =>
    case CreateOwnedAccount(address, data) =>
      WritableIsOwn(state, unit, address);
      WrittenAccounted(vm, state, unit, CreateAccount(state, unit, address, data));
    case WriteAccountData(address, data) =>
      WritableIsOwn(state, unit, address);
      WrittenAccounted(vm, state, unit, ModifyAccount(state, unit, address, data));
    case DeleteOwnedAccount(address) =>
      WritableIsOwn(state, unit, address);
      WrittenAccounted(vm, state, unit, DeleteAccount(unit, address));
    case ContractInvoke(contract, accounts, params) =>
      var nested := NewNested(vm, state, unit.contract, contract, accounts, params).value;
      assert nested.env == CreateEnvironment(state, accounts, nested.contract, Some(unit.contract));
      Isolation(vm, state, nested, fuel - 1);
    case CreateExecutableAccount(address, bytecode) =>
      WritableIsOwn(state, unit, address);
      WrittenAccounted(vm, state, unit, CreateExecutable(vm, state, unit, address, bytecode));
  }

  lemma {:induction false} OutputsAccounted(vm: Machine, state: Accounts, unit: ExecutionUnit, outputs: seq<Output>,
        fuel: nat)
    requires UnitOk(state, unit) && ProcessOutputs(vm, state, unit, outputs, fuel).Ok?
    ensures Accounted(vm, state, ProcessOutputs(vm, state, unit, outputs, fuel).value)
    decreases fuel, 1, |outputs|
  {
    if outputs == [] {
    } else {
      var init, last := outputs[..|outputs| - 1], outputs[|outputs| - 1];
      OutputsAccounted(vm, state, unit, init, fuel);
      OutputAccounted(vm, state, unit, last, fuel);
      MergeAccounted(vm, state, ProcessOutputs(vm, state, unit, init, fuel).value,
        ProcessOutput(vm, state, unit, last, fuel).value);
    }
  }

  /** Isolation at any nesting depth: the diff of an execution is the merge of changes each of which
      one contract of the call tree was entitled to make. */
  lemma {:induction false} Isolation(vm: Machine, state: Accounts, unit: ExecutionUnit, fuel: nat)
    requires UnitOk(state, unit) && Execute(vm, state, unit, fuel).Ok?
    ensures Accounted(vm, state, Execute(vm, state, unit, fuel).value)
    decreases fuel, 2, 0
  {
    OutputsAccounted(vm, state, unit, RunContract(vm, unit).value, fuel);
  }

  lemma TransactionAccounted(vm: Machine, state: Accounts, tx: Transaction, fuel: nat)
    requires ExecuteTransaction(vm, state, tx, fuel).Ok?
    ensures Accounted(vm, state, ExecuteTransaction(vm, state, tx, fuel).value)
  {
    var unit := NewUnit(vm, state, tx).value;
    assert unit.env == CreateEnvironment(state, tx.accounts, unit.contract, None);
    Isolation(vm, state, unit, fuel);
  }

  /** An address in a merged diff was put or deleted by one of its parts. */
  lemma {:induction false} MergedFrom(writes: seq<Write>, address: Pubkey)
    ensures var all := MergeAll(Diffs(writes));
            && (address in all.data ==> exists w ::
              w in writes && address in w.diff.data && w.diff.data[address] == all.data[address])
            && (address in all.deletes ==> exists w :: w in writes && address in w.diff.deletes)
  {
    if writes == [] {
    } else {
      var rest, last := writes[..|writes| - 1], writes[|writes| - 1];
      MergedFrom(rest, address);
      assert Diffs(writes)[..|Diffs(writes)| - 1] == Diffs(rest);
      assert last in writes && forall w | w in rest :: w in writes;
    }
  }

  /** Program accounts are safe from other contracts: an account off the curve that existed when the
      transaction started is in its diff only if it is not executable, only by writes of the contract
      that owns it; and no account that existed is replaced by a created one. */
  lemma ProgramAccountIsolation(vm: Machine, state: Accounts, tx: Transaction, fuel: nat, address: Pubkey)
    requires ExecuteTransaction(vm, state, tx, fuel).Ok? && address in state
    ensures var out := ExecuteTransaction(vm, state, tx, fuel).value;
            address in out.diff.data ==> out.diff.data[address] == state[address].(data := out.diff.data[address].data)
    ensures var out := ExecuteTransaction(vm, state, tx, fuel).value;
            !address.HasPrivateKey() ==>
              forall w | w in out.writes && (address in w.diff.data || address in w.diff.deletes) ::
                state[address].owner == Some(w.contract) && !state[address].executable
    ensures var out := ExecuteTransaction(vm, state, tx, fuel).value;
            address in out.diff.data || address in out.diff.deletes ==>
              exists w :: w in out.writes && (address in w.diff.data || address in w.diff.deletes)
  {
    var out := ExecuteTransaction(vm, state, tx, fuel).value;
    TransactionAccounted(vm, state, tx, fuel);
    hide ExecuteTransaction;
    MergedFrom(out.writes, address);
    forall w | w in out.writes && (address in w.diff.data || address in w.diff.deletes)
      ensures !address.HasPrivateKey() ==> state[address].owner == Some(w.contract) && !state[address].executable
    {
      assert LegalWrite(vm, state, w);
      if address in w.diff.deletes { assert LegalDelete(state, w.contract, address); }
    }
    if address in out.diff.data {
      var w :| w in out.writes && address in w.diff.data && w.diff.data[address] == out.diff.data[address];
      assert LegalWrite(vm, state, w);
    }
  }

  /** Contracts never change a nonce. */
  lemma NoncesKept(vm: Machine, state: Accounts, tx: Transaction, fuel: nat, address: Pubkey)
    requires ExecuteTransaction(vm, state, tx, fuel).Ok?
    ensures NonceOf(ExecuteTransaction(vm, state, tx, fuel).value.diff.Over(state), address) == NonceOf(state, address)
  {
    var out := ExecuteTransaction(vm, state, tx, fuel).value;
    TransactionAccounted(vm, state, tx, fuel);
    MergedFrom(out.writes, address);
    if address in out.diff.data {
      var w :| w in out.writes && address in w.diff.data && w.diff.data[address] == out.diff.data[address];
      assert LegalWrite(vm, state, w) && LegalPut(vm, state, w.contract, address, w.diff.data[address]);
    }
  }

  // ----- signatures and limits

  lemma {:induction false} FoundRef(state: Accounts, contract: Pubkey, refs: seq<AccountRef>,
        views: seq<(Pubkey, AccountView)>, address: Pubkey)
    returns (i: nat)
    requires |views| == |refs| && forall j | 0 <= j < |refs| :: views[j] == ViewOf(state, contract, refs[j])
    requires FindView(views, address).Some?
    ensures i < |refs| && refs[i].address == address && views[i].1 == FindView(views, address).value
  {
    if views[0].0 == address {
      i := 0;
    } else {
      i := FoundRef(state, contract, refs[1..], views[1..], address);
      i := i + 1;
    }
  }

  /** Only accounts passed as writable can be changed, and those with a private key only if they sign. */
  lemma WritableNeedsSigner(state: Accounts, unit: ExecutionUnit, refs: seq<AccountRef>, address: Pubkey,
        value: Account)
    requires unit.env == CreateEnvironment(state, refs, unit.contract, unit.env.caller)
    requires SetAccount(unit, address, value).Ok? || DeleteAccount(unit, address).Ok?
    ensures exists ref ::
      ref in refs && ref.address == address && ref.writable && (address.HasPrivateKey() ==> ref.signer)
  {
    var i := FoundRef(state, unit.contract, refs, unit.env.accounts, address);
    assert refs[i] in refs;
  }

  /** The limits of genesis on logs and account data. */
  ghost predicate WithinLimits(vm: Machine, out: TransactionOutput) {
    && (forall l | l in out.logs :: vm.logSize(l.0, l.1) <= vm.maxLogSize)
    && (forall a | a in out.diff.data && out.diff.data[a].data.Some? ::
          || vm.dataSize(out.diff.data[a].data.value) <= vm.maxAccountSize
          || (out.diff.data[a].executable && vm.dataSize(out.diff.data[a].data.value) <= vm.maxContractSize))
  }

  lemma MergeWithinLimits(vm: Machine, a: TransactionOutput, b: TransactionOutput)
    requires WithinLimits(vm, a) && WithinLimits(vm, b)
    ensures WithinLimits(vm, a.Merge(b))
  {
  }

  lemma {:induction false} OutputWithinLimits(vm: Machine, state: Accounts, unit: ExecutionUnit, output: Output,
        fuel: nat)
    requires ProcessOutput(vm, state, unit, output, fuel).Ok?
    ensures WithinLimits(vm, ProcessOutput(vm, state, unit, output, fuel).value)
    decreases fuel, 0
  {
    if output.ContractInvoke? {
      var nested := NewNested(vm, state, unit.contract, output.contract, output.accounts, output.params).value;
      LimitsKept(vm, state, nested, fuel - 1);
    }
  }

  lemma {:induction false} OutputsWithinLimits(vm: Machine, state: Accounts, unit: ExecutionUnit,
        outputs: seq<Output>, fuel: nat)
    requires ProcessOutputs(vm, state, unit, outputs, fuel).Ok?
    ensures var out := ProcessOutputs(vm, state, unit, outputs, fuel).value;
            WithinLimits(vm, out) && |out.logs| <= vm.maxLogsCount
    decreases fuel, 1, |outputs|
  {
    hide ProcessOutput;
    if outputs == [] {
    } else {
      var init, last := outputs[..|outputs| - 1], outputs[|outputs| - 1];
      OutputsWithinLimits(vm, state, unit, init, fuel);
      OutputWithinLimits(vm, state, unit, last, fuel);
      hide WithinLimits;
      MergeWithinLimits(vm, ProcessOutputs(vm, state, unit, init, fuel).value,
        ProcessOutput(vm, state, unit, last, fuel).value);
    }
  }

  /** At any nesting depth an execution that succeeds stays within the limits of genesis. */
  lemma {:induction false} LimitsKept(vm: Machine, state: Accounts, unit: ExecutionUnit, fuel: nat)
    requires Execute(vm, state, unit, fuel).Ok?
    ensures var out := Execute(vm, state, unit, fuel).value;
            WithinLimits(vm, out) && |out.logs| <= vm.maxLogsCount
    decreases fuel, 2, 0
  {
    hide ProcessOutputs;
    OutputsWithinLimits(vm, state, unit, RunContract(vm, unit).value, fuel);
  }

  /** A transaction succeeds only with valid signatures, the payer's nonce, a contract that can be
      loaded, and within the limits. */
  lemma SuccessNeeds(vm: Machine, state: Accounts, tx: Transaction, fuel: nat)
    requires ExecuteTransaction(vm, state, tx, fuel).Ok?
    ensures vm.signatureFault(tx).None? && tx.nonce == NonceOf(state, tx.payer) && |tx.accounts| <= vm.maxInputAccounts
    ensures tx.contract in vm.builtins
            || (tx.contract in state && state[tx.contract].executable && state[tx.contract].owner == Some(vm.wasm))
    ensures var out := ExecuteTransaction(vm, state, tx, fuel).value;
            WithinLimits(vm, out) && |out.logs| <= vm.maxLogsCount
  {
    hide Execute, WithinLimits;
    LimitsKept(vm, state, NewUnit(vm, state, tx).value, fuel);
  }
}
