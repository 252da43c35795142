/** What can go wrong when a deployed contract calls Currency: three inputs, and in each a property that a
    direct call keeps. */
module NestedCalls {
  import opened Primitives
  import opened State
  import opened Unit
  import opened Currency
  import opened Conservation
  import opened Ledger
  import opened CallTree
  import opened Authority

  // ----- a machine with one deployed contract

  const CUR := Program(0)
  const COIN := Program(1)
  const DEPLOYED := Program(2)
  const WASM := Program(3)

  /** Currency at CUR, generous limits, and one deployed contract that always answers with `outputs`. */
  function Host(outputs: seq<Output>): Machine {
    Machine(10, 0, 100, 0, 0, {CUR}, WASM, tx => None, (a, env, params) => Contract(env, params), d => true,
            (code, env, params) => Ok(outputs), d => 0, (k, v) => 0)
  }

  /** One wallet has all 5 coins. */
  function Initial(): Accounts {
    OneHolder(CUR, COIN, Curve(0), Curve(0), 5)[DEPLOYED := Account(true, 0, Some(WASM), Some(Bytes([])))]
  }

  function CoinOf(wallet: Pubkey): Pubkey {
    CoinAddress(CUR, COIN, wallet)
  }

  /** A call of the deployed contract that nobody but its payer has anything to do with. */
  function Call(accounts: seq<AccountRef>): Transaction {
    Transaction(DEPLOYED, 0, Curve(9), accounts, Raw([]), 0)
  }

  /** The accounts of a transfer out of the wallet that has the coins, with that wallet flagged as signer. */
  function TransferRefs(recipient: Pubkey): seq<AccountRef> {
    [AccountRef(COIN, false, false), AccountRef(Curve(0), false, true), AccountRef(CoinOf(Curve(0)), true, false),
     AccountRef(recipient, false, false), AccountRef(CoinOf(recipient), true, false)]
  }

  function TransferTo(recipient: Pubkey, amount: U64): Output {
    ContractInvoke(CUR, TransferRefs(recipient), Instruct(Transfer(amount)))
  }

  function TransferUnit(recipient: Pubkey, amount: U64): ExecutionUnit {
    ExecutionUnit(Native(CUR), CreateEnvironment(Initial(), TransferRefs(recipient), CUR, Some(DEPLOYED)), CUR,
      Instruct(Transfer(amount)))
  }

  // ----- the nested transfer runs

  lemma {:induction false} ViewFound(views: seq<(Pubkey, AccountView)>, i: nat)
    requires i < |views| && forall j | 0 <= j < i :: views[j].0 != views[i].0
    ensures FindView(views, views[i].0) == Some(views[i].1)
  {
    if i == 0 {
    } else {
      ViewFound(views[1..], i - 1);
    }
  }

  lemma {:induction false} AllSucceed(vm: Machine, s: Accounts, unit: ExecutionUnit, outputs: seq<Output>, fuel: nat)
    requires forall o | o in outputs :: Simple(o) && ProcessOutput(vm, s, unit, o, fuel).Ok?
    requires |outputs| <= vm.maxLogsCount
    ensures ProcessOutputs(vm, s, unit, outputs, fuel).Ok?
      && |ProcessOutputs(vm, s, unit, outputs, fuel).value.logs| <= |outputs|
    decreases |outputs|
  {
    if outputs == [] {
    } else {
      assert outputs[|outputs| - 1] in outputs;
      AllSucceed(vm, s, unit, outputs[..|outputs| - 1], fuel);
    }
  }

  lemma TransferAccepted(recipient: Pubkey, amount: U64)
    requires recipient in {Curve(1), Curve(2)} && 0 < amount <= 5
    ensures var u := TransferUnit(recipient, amount);
            && EnvOf(CUR, Initial(), u.env, TransferRefs(recipient)) && ProcessTransfer(u.env, amount).Ok?
  {
  }

  lemma TransferKinds(recipient: Pubkey, amount: U64, o: Output)
    requires recipient in {Curve(1), Curve(2)} && 0 < amount <= 5
    requires ProcessTransfer(TransferUnit(recipient, amount).env, amount).Ok?
    requires o in ProcessTransfer(TransferUnit(recipient, amount).env, amount).value
    ensures || o.LogEntry?
            || ((o.WriteAccountData? || o.DeleteOwnedAccount?) && o.address == CoinOf(Curve(0)))
            || (o.CreateOwnedAccount? && o.address == CoinOf(recipient))
    ensures |ProcessTransfer(TransferUnit(recipient, amount).env, amount).value| <= 8
  {
  }

  lemma TransferOutputs(outputs: seq<Output>, recipient: Pubkey, amount: U64, o: Output)
    requires recipient in {Curve(1), Curve(2)} && 0 < amount <= 5
    requires ProcessTransfer(TransferUnit(recipient, amount).env, amount).Ok?
    requires o in ProcessTransfer(TransferUnit(recipient, amount).env, amount).value
    ensures Simple(o) && ProcessOutput(Host(outputs), Initial(), TransferUnit(recipient, amount), o, 0).Ok?
    ensures |ProcessTransfer(TransferUnit(recipient, amount).env, amount).value| <= 8
  {
    hide ProcessTransfer;
    TransferKinds(recipient, amount, o);
    var views := TransferUnit(recipient, amount).env.accounts;
    ViewFound(views, 2);
    ViewFound(views, 4);
  }

  /** The nested call completes although no one signed the transaction. */
  lemma TransferRuns(outputs: seq<Output>, recipient: Pubkey, amount: U64)
    requires recipient in {Curve(1), Curve(2)} && 0 < amount <= 5
    ensures Ran(Host(outputs), Initial(), TransferUnit(recipient, amount), TransferRefs(recipient), 0)
    ensures |Execute(Host(outputs), Initial(), TransferUnit(recipient, amount), 0).value.logs| <= 8
  {
    TransferAccepted(recipient, amount);
    var u := TransferUnit(recipient, amount);
    var os := Contract(u.env, u.params).value;
    hide ProcessTransfer;
    forall o | o in os ensures Simple(o) && ProcessOutput(Host(outputs), Initial(), u, o, 0).Ok? {
      TransferOutputs(outputs, recipient, amount, o);
    }
    hide ProcessOutput, ProcessOutputs;
    assert |os| <= 8 by { if os != [] { TransferOutputs(outputs, recipient, amount, os[0]); } }
    AllSucceed(Host(outputs), Initial(), u, os, 0);
  }

  lemma TransferPerformed(recipient: Pubkey, amount: U64)
    requires recipient in {Curve(1), Curve(2)} && 0 < amount <= 5
    ensures var u := TransferUnit(recipient, amount);
            && EnvOf(CUR, Initial(), u.env, TransferRefs(recipient)) && ProcessTransfer(u.env, amount).Ok?
            && PutsOf(CUR, Initial(), u) == Puts(CUR, Initial(), ProcessTransfer(u.env, amount).value)
            && (forall o | o in ProcessTransfer(u.env, amount).value :: Performed(CUR, Initial(), o))
  {
    hide Execute, Performed, Simple, Conserved, Safe, Puts, Initial, ProcessTransfer;
    TransferAccepted(recipient, amount);
    TransferRuns([], recipient, amount);
    UnitEffect(Host([]), CUR, Initial(), TransferUnit(recipient, amount), TransferRefs(recipient), 0);
  }

  lemma CoinsRead(recipient: Pubkey, coin: CoinAccount, other: Option<CoinAccount>)
    requires recipient in {Curve(1), Curve(2)}
    requires CoinRead(CUR, Initial(), COIN, Curve(0), Some(coin)) && CoinRead(CUR, Initial(), COIN, recipient, other)
    ensures coin == CoinAccount(COIN, Curve(0), 5) && other == None
  {
  }

  /** What the nested transfer puts. */
  lemma TransferPuts(recipient: Pubkey, amount: U64) returns (debited: Account, credited: Account)
    requires recipient in {Curve(1), Curve(2)} && 0 < amount <= 5
    ensures PutsOf(CUR, Initial(), TransferUnit(recipient, amount))
      == map[CoinOf(Curve(0)) := debited, CoinOf(recipient) := credited]
    ensures debited.owner == Some(CUR) && debited.data == Some(CoinData(CoinAccount(COIN, Curve(0), 5 - amount)))
    ensures credited.owner == Some(CUR) && credited.data == Some(CoinData(CoinAccount(COIN, recipient, amount)))
  {
    hide Initial, ProcessTransfer, Puts, Removes, Shaped, EnvOf, PutsOf, Performed, CoinRead, TransferEffects, Debit,
      Credit;
    TransferPerformed(recipient, amount);
    var s, env, refs := Initial(), TransferUnit(recipient, amount).env, TransferRefs(recipient);
    var coin, other := TransferShape(CUR, s, env, refs, amount);
    CoinsRead(recipient, coin, other);
    var effects := TransferEffects(CUR, COIN, Curve(0), recipient, coin, other, amount);
    ShapedEffects(CUR, s, ProcessTransfer(env, amount).value, effects);
    EffectsInclude(recipient, coin, other, amount);
    debited, credited := TransferDiff(CUR, s, COIN, Curve(0), recipient, coin, other, amount);
  }

  lemma EffectsInclude(recipient: Pubkey, coin: CoinAccount, other: Option<CoinAccount>, amount: U64)
    requires amount <= coin.balance
    ensures var effects := TransferEffects(CUR, COIN, Curve(0), recipient, coin, other, amount);
            && Debit(coin, CoinOf(Curve(0)), coin.balance - amount)[0] in effects
            && Credit(other, CoinOf(recipient), COIN, recipient, amount) in effects
  {
    var effects := TransferEffects(CUR, COIN, Curve(0), recipient, coin, other, amount);
    assert effects[0] in effects && effects[|effects| - 1] in effects;
  }

  // ----- the deployed contract runs

  function DeployedUnit(accounts: seq<AccountRef>): ExecutionUnit {
    ExecutionUnit(External(Bytes([])), CreateEnvironment(Initial(), accounts, DEPLOYED, None), DEPLOYED, Raw([]))
  }

  lemma DeployedStarts(outputs: seq<Output>, accounts: seq<AccountRef>)
    requires |accounts| <= 10
    ensures NewUnit(Host(outputs), Initial(), Call(accounts)) == Ok(DeployedUnit(accounts))
    ensures RunContract(Host(outputs), DeployedUnit(accounts)) == Ok(outputs)
  {
  }

  lemma TransferIsNested(outputs: seq<Output>, accounts: seq<AccountRef>, recipient: Pubkey, amount: U64)
    requires recipient in {Curve(1), Curve(2)} && 0 < amount <= 5
    ensures var o, unit := TransferTo(recipient, amount), DeployedUnit(accounts);
            && ProcessOutput(Host(outputs), Initial(), unit, o, 1)
              == Execute(Host(outputs), Initial(), TransferUnit(recipient, amount), 0)
            && CalledBy(Host(outputs), Initial(), unit, o, 1) == [TransferUnit(recipient, amount)]
            && Execute(Host(outputs), Initial(), TransferUnit(recipient, amount), 0).Ok?
            && |Execute(Host(outputs), Initial(), TransferUnit(recipient, amount), 0).value.logs| <= 8
            && Execute(Host(outputs), Initial(), TransferUnit(recipient, amount), 0).value.diff.data
               == PutsOf(CUR, Initial(), TransferUnit(recipient, amount))
  {
    TransferRuns(outputs, recipient, amount);
    hide Execute, Contract, Conserved, Safe;
    var u := TransferUnit(recipient, amount);
    UnitEffect(Host(outputs), CUR, Initial(), u, TransferRefs(recipient), 0);
    TransferUnitCallsNothing(outputs, recipient, amount);
  }

  lemma TransferUnitCallsNothing(outputs: seq<Output>, recipient: Pubkey, amount: U64)
    requires recipient in {Curve(1), Curve(2)} && 0 < amount <= 5
    ensures Units(Host(outputs), Initial(), TransferUnit(recipient, amount), 0) == [TransferUnit(recipient, amount)]
  {
    TransferRuns(outputs, recipient, amount);
    var u := TransferUnit(recipient, amount);
    hide Execute, ProcessTransfer;
    TransferAccepted(recipient, amount);
    ContractIsSimple(u.env, u.params);
    SimpleCallNothing(Host(outputs), Initial(), u, Contract(u.env, u.params).value, 0);
  }

  lemma BeforeConserves()
    ensures Conserved(CUR, Initial())
    ensures CoinsAt(CUR, Initial(), COIN, CoinOf(Curve(0))) == 5 == SupplyAt(CUR, Initial(), COIN)
  {
    OneHolderConserves(CUR, COIN, Curve(0), Curve(0), 5);
    NeutralConserves(CUR, OneHolder(CUR, COIN, Curve(0), Curve(0), 5), Initial());
  }

  // ----- the inputs

  /** A flag is not a signature: the deployed contract flags a wallet as signer, and its coins are gone
      although nobody signed the transaction. */
  lemma FlagIsNoSignature()
    ensures var vm, s, tx := Host([TransferTo(Curve(1), 5)]), Initial(), Call([]);
            var result := ExecuteTransaction(vm, s, tx, 1);
            && result.Ok? && tx.accounts == []
            && CoinsAt(CUR, result.value.diff.Over(s), COIN, CoinOf(Curve(0)))
              == 0 < CoinsAt(CUR, s, COIN, CoinOf(Curve(0)))
  {
    var outputs := [TransferTo(Curve(1), 5)];
    hide Initial, ProcessOutput, PutsOf;
    DeployedStarts(outputs, []);
    TransferIsNested(outputs, [], Curve(1), 5);
    var debited, credited := TransferPuts(Curve(1), 5);
    BeforeConserves();
    var nested := Execute(Host(outputs), Initial(), TransferUnit(Curve(1), 5), 0).value;
    OneOutputRuns(Host(outputs), Initial(), DeployedUnit([]), outputs[0], nested);
    hide Execute;
    LocalReads(CUR, nested.diff.Over(Initial()), map[CoinOf(Curve(0)) := debited], COIN, CoinOf(Curve(0)));
  }

  lemma OneOutputRuns(vm: Machine, s: Accounts, unit: ExecutionUnit, o: Output, out: TransactionOutput)
    requires RunContract(vm, unit) == Ok([o]) && ProcessOutput(vm, s, unit, o, 1) == Ok(out)
      && |out.logs| <= vm.maxLogsCount
    ensures Execute(vm, s, unit, 1).Ok? && Execute(vm, s, unit, 1).value.diff.data == out.diff.data
  {
    hide ProcessOutput;
    assert [o][..0] == [];
    assert ProcessOutputs(vm, s, unit, [], 1) == Ok(NO_OUTPUT);
    assert map[] + out.diff.data == out.diff.data;
  }

  lemma TwoOutputsRun(vm: Machine, s: Accounts, unit: ExecutionUnit, o: Output, p: Output, x: TransactionOutput,
        y: TransactionOutput)
    requires RunContract(vm, unit) == Ok([o, p]) && |x.logs| + |y.logs| <= vm.maxLogsCount
    requires ProcessOutput(vm, s, unit, o, 1) == Ok(x) && ProcessOutput(vm, s, unit, p, 1) == Ok(y)
    ensures Execute(vm, s, unit, 1).Ok? && Execute(vm, s, unit, 1).value.diff.data == x.diff.data + y.diff.data
  {
    hide ProcessOutput;
    assert [o, p][..1] == [o] && [o][..0] == [];
    assert ProcessOutputs(vm, s, unit, [], 1) == Ok(NO_OUTPUT);
    assert map[] + x.diff.data == x.diff.data;
    assert ProcessOutputs(vm, s, unit, [o], 1) == Ok(NO_OUTPUT.Merge(x));
  }

  /** What a transaction leaves whose deployed contract makes a transfer and then something else. */
  lemma TransferThen(second: Output, accounts: seq<AccountRef>, recipient: Pubkey, amount: U64, y: TransactionOutput)
    requires recipient in {Curve(1), Curve(2)} && 0 < amount <= 5 && |accounts| <= 10 && |y.logs| <= 8
    requires ProcessOutput(Host([TransferTo(recipient, amount), second]), Initial(), DeployedUnit(accounts), second, 1)
      == Ok(y)
    ensures var result := ExecuteTransaction(Host([TransferTo(recipient, amount), second]), Initial(), Call(accounts),
      1);
            result.Ok? && result.value.diff.data
              == PutsOf(CUR, Initial(), TransferUnit(recipient, amount)) + y.diff.data
  {
    hide Initial, ProcessOutput, PutsOf, Execute, Contract;
    var outputs := [TransferTo(recipient, amount), second];
    DeployedStarts(outputs, accounts);
    TransferIsNested(outputs, accounts, recipient, amount);
    var x := Execute(Host(outputs), Initial(), TransferUnit(recipient, amount), 0).value;
    TwoOutputsRun(Host(outputs), Initial(), DeployedUnit(accounts), outputs[0], outputs[1], x, y);
  }

  /** Two calls in one transaction both read the state before it: 3 coins are sent to each of two wallets
      out of 5, and more than 5 are there. */
  lemma TwoCallsMakeCoins()
    ensures var vm, s, tx := Host([TransferTo(Curve(1), 3), TransferTo(Curve(2), 3)]), Initial(), Call([]);
            var result := ExecuteTransaction(vm, s, tx, 1);
            && result.Ok? && Conserved(CUR, s) && !Conserved(CUR, result.value.diff.Over(s))
            && CoinsAt(CUR, result.value.diff.Over(s), COIN, CoinOf(Curve(1))) == 3
              == CoinsAt(CUR, result.value.diff.Over(s), COIN, CoinOf(Curve(2)))
  {
    var outputs := [TransferTo(Curve(1), 3), TransferTo(Curve(2), 3)];
    hide Initial, ProcessOutput, PutsOf, Conserved, Execute, Contract, ExecuteTransaction, Host, TransferUnit,
      DeployedUnit, Call, CoinOf, CoinsAt, SupplyAt, StateDiff.Over;
    TransferIsNested(outputs, [], Curve(2), 3);
    var y := Execute(Host(outputs), Initial(), TransferUnit(Curve(2), 3), 0).value;
    TransferThen(outputs[1], [], Curve(1), 3, y);
    var debited, first := TransferPuts(Curve(1), 3);
    var again, second := TransferPuts(Curve(2), 3);
    BeforeConserves();
    var diff := ExecuteTransaction(Host(outputs), Initial(), Call([]), 1).value.diff;
    EightCoins(diff, first, debited, again, second);
  }

  lemma EightCoins(diff: StateDiff, first: Account, once: Account, again: Account, second: Account)
    requires again.owner == first.owner == second.owner == Some(CUR)
    requires first.data == Some(CoinData(CoinAccount(COIN, Curve(1), 3)))
      && second.data == Some(CoinData(CoinAccount(COIN, Curve(2), 3)))
    requires diff.data == map[CoinOf(Curve(0)) := once, CoinOf(Curve(1)) := first]
                          + map[CoinOf(Curve(0)) := again, CoinOf(Curve(2)) := second]
    ensures var t := diff.Over(Initial());
            CoinsAt(CUR, t, COIN, CoinOf(Curve(1))) == 3 == CoinsAt(CUR, t, COIN, CoinOf(Curve(2)))
              && !Conserved(CUR, t)
  {
    var t := diff.Over(Initial());
    CoinAddressNames(CUR, COIN, Curve(0), Curve(1));
    CoinAddressNames(CUR, COIN, Curve(1), Curve(2));
    CoinAddressNames(CUR, COIN, Curve(0), Curve(2));
    assert SupplyAt(CUR, t, COIN) == 5;
    TwoPartsOfTotal(CUR, t, COIN, CoinOf(Curve(1)), CoinOf(Curve(2)));
    hide Total, Initial;
    TooManyCoins(t);
  }

  lemma TooManyCoins(t: Accounts)
    requires Total(CUR, t, COIN) > SupplyAt(CUR, t, COIN)
    ensures !Conserved(CUR, t)
  {
  }

  /** A caller that creates the recipient's account itself after the call overrules the credit: 3 of the
      5 coins are lost. */
  lemma OverruledCreditLosesCoins()
    ensures var coin := CoinOf(Curve(1));
            var vm, s := Host([TransferTo(Curve(1), 3), CreateOwnedAccount(coin, None)]), Initial();
            var result := ExecuteTransaction(vm, s, Call([AccountRef(coin, true, false)]), 1);
            && result.Ok? && Conserved(CUR, s) && !Conserved(CUR, result.value.diff.Over(s))
            && CoinsAt(CUR, result.value.diff.Over(s), COIN, coin) == 0
  {
    var coin := CoinOf(Curve(1));
    var accounts, outputs := [AccountRef(coin, true, false)], [TransferTo(Curve(1), 3), CreateOwnedAccount(coin, None)];
    CreateRuns(outputs, coin);
    hide Initial, ProcessOutput, PutsOf, Conserved, Execute, Contract, ExecuteTransaction, Host, TransferUnit,
      DeployedUnit, Call, CoinOf, CoinsAt, SupplyAt, StateDiff.Over;
    TransferThen(outputs[1], accounts, Curve(1), 3,
      ProcessOutput(Host(outputs), Initial(), DeployedUnit(accounts), outputs[1], 1).value);
    var debited, credited := TransferPuts(Curve(1), 3);
    BeforeConserves();
    LostCoins(debited, credited, ExecuteTransaction(Host(outputs), Initial(), Call(accounts), 1).value.diff);
  }

  lemma CreateRuns(outputs: seq<Output>, coin: Pubkey)
    requires coin == CoinOf(Curve(1))
    ensures var result := ProcessOutput(Host(outputs), Initial(), DeployedUnit([AccountRef(coin, true, false)]),
      CreateOwnedAccount(coin, None), 1);
            result.Ok? && result.value.logs == []
              && result.value.diff.data == map[coin := Account(false, 0, Some(DEPLOYED), None)]
  {
    var views := DeployedUnit([AccountRef(coin, true, false)]).env.accounts;
    ViewFound(views, 0);
  }

  lemma LostCoins(debited: Account, credited: Account, diff: StateDiff)
    requires debited.owner == Some(CUR) && debited.data == Some(CoinData(CoinAccount(COIN, Curve(0), 2)))
    requires diff.data == map[CoinOf(Curve(0)) := debited, CoinOf(Curve(1)) := credited]
                          + map[CoinOf(Curve(1)) := Account(false, 0, Some(DEPLOYED), None)]
    ensures CoinsAt(CUR, diff.Over(Initial()), COIN, CoinOf(Curve(1))) == 0 && !Conserved(CUR, diff.Over(Initial()))
  {
    var t := diff.Over(Initial());
    CoinAddressNames(CUR, COIN, Curve(0), Curve(1));
    BeforeConserves();
    assert forall b | b != CoinOf(Curve(0)) :: CoinsAt(CUR, Initial(), COIN, b) == CoinsAt(CUR, t, COIN, b);
    OneChanged(CUR, Initial(), t, COIN, CoinOf(Curve(0)));
    assert CoinsAt(CUR, t, COIN, CoinOf(Curve(0))) == 2 && SupplyAt(CUR, t, COIN) == 5;
    hide Total, CoinsAt, SupplyAt;
    assert Total(CUR, Initial(), COIN) == SupplyAt(CUR, Initial(), COIN);
  }
}
