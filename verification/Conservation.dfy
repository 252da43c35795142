/** Coins are neither made nor lost: the balances of every mint add up to its supply, in what readers
    see and in what is persisted. */
module Conservation {
  import opened Primitives
  import opened State
  import opened Unit
  import opened BlockMachine
  import opened Currency

  // ----- balances and supplies of a state

  /** What the account at an address holds of a mint's coins. */
  function CoinsAt(cur: Pubkey, s: Accounts, mint: Pubkey, a: Pubkey): nat {
    if a in s && s[a].owner == Some(cur) then
      match s[a].data
      case Some(CoinData(coin)) =>
        if coin.mint == mint && a == CoinAddress(cur, mint, coin.owner) then coin.balance else 0
      case _ => 0
    else 0
  }

  function SupplyAt(cur: Pubkey, s: Accounts, mint: Pubkey): nat {
    if mint in s && s[mint].owner == Some(cur) && !mint.HasPrivateKey() then
      match s[mint].data case Some(MintData(m)) => m.supply case _ => 0
    else 0
  }

  ghost function Sum(cur: Pubkey, s: Accounts, mint: Pubkey, keys: set<Pubkey>): nat {
    if keys == {} then 0 else
      var a :| a in keys;
      CoinsAt(cur, s, mint, a) + Sum(cur, s, mint, keys - {a})
  }

  /** All coins of a mint. */
  ghost function Total(cur: Pubkey, s: Accounts, mint: Pubkey): nat {
    Sum(cur, s, mint, s.Keys)
  }

  ghost predicate Conserved(cur: Pubkey, s: Accounts) {
    forall mint :: Total(cur, s, mint) == SupplyAt(cur, s, mint)
  }

  lemma {:induction false} SumRemove(cur: Pubkey, s: Accounts, mint: Pubkey, keys: set<Pubkey>, a: Pubkey)
    requires a in keys
    ensures Sum(cur, s, mint, keys) == CoinsAt(cur, s, mint, a) + Sum(cur, s, mint, keys - {a})
    decreases |keys|
  {
    var b :| b in keys && Sum(cur, s, mint, keys) == CoinsAt(cur, s, mint, b) + Sum(cur, s, mint, keys - {b});
    if b == a {
    } else {
      SumRemove(cur, s, mint, keys - {b}, a);
      SumRemove(cur, s, mint, keys - {a}, b);
      assert keys - {b} - {a} == keys - {a} - {b};
    }
  }

  /** Addresses without coins do not matter. */
  lemma {:induction false} SumMore(cur: Pubkey, s: Accounts, mint: Pubkey, keys: set<Pubkey>, more: set<Pubkey>)
    requires forall a | a in more && a !in keys :: CoinsAt(cur, s, mint, a) == 0
    ensures Sum(cur, s, mint, keys + more) == Sum(cur, s, mint, keys)
    decreases |more|
  {
    if more != {} {
      var a :| a in more;
      SumMore(cur, s, mint, keys, more - {a});
      if a in keys {
        assert keys + more == keys + (more - {a});
      } else {
        SumRemove(cur, s, mint, keys + more, a);
        assert keys + more - {a} == keys + (more - {a});
      }
    } else {
      assert keys + more == keys;
    }
  }

  lemma {:induction false} SumSame(cur: Pubkey, s: Accounts, t: Accounts, mint: Pubkey, keys: set<Pubkey>)
    requires forall a | a in keys :: CoinsAt(cur, s, mint, a) == CoinsAt(cur, t, mint, a)
    ensures Sum(cur, s, mint, keys) == Sum(cur, t, mint, keys)
    decreases |keys|
  {
    if keys == {} {
    } else {
      var a :| a in keys;
      SumRemove(cur, s, mint, keys, a);
      SumRemove(cur, t, mint, keys, a);
      SumSame(cur, s, t, mint, keys - {a});
    }
  }

  /** When the coins change at one address only, the total changes by as much. */
  lemma OneChanged(cur: Pubkey, s: Accounts, t: Accounts, mint: Pubkey, a: Pubkey)
    requires forall b | b != a :: CoinsAt(cur, s, mint, b) == CoinsAt(cur, t, mint, b)
    ensures Total(cur, t, mint) + CoinsAt(cur, s, mint, a) == Total(cur, s, mint) + CoinsAt(cur, t, mint, a)
  {
    var keys := s.Keys + t.Keys + {a};
    SumMore(cur, s, mint, s.Keys, t.Keys + {a});
    SumMore(cur, t, mint, t.Keys, s.Keys + {a});
    assert s.Keys + (t.Keys + {a}) == keys && t.Keys + (s.Keys + {a}) == keys;
    SumRemove(cur, s, mint, keys, a);
    SumRemove(cur, t, mint, keys, a);
    SumSame(cur, s, t, mint, keys - {a});
  }

  /** The same coins everywhere make the same total. */
  lemma TotalSame(cur: Pubkey, s: Accounts, t: Accounts, mint: Pubkey)
    requires forall a :: CoinsAt(cur, s, mint, a) == CoinsAt(cur, t, mint, a)
    ensures Total(cur, s, mint) == Total(cur, t, mint)
  {
    OneChanged(cur, s, t, mint, cur);
  }

  lemma PartOfTotal(cur: Pubkey, s: Accounts, mint: Pubkey, a: Pubkey)
    ensures CoinsAt(cur, s, mint, a) <= Total(cur, s, mint)
  {
    if a in s { SumRemove(cur, s, mint, s.Keys, a); }
  }

  lemma TwoPartsOfTotal(cur: Pubkey, s: Accounts, mint: Pubkey, a: Pubkey, b: Pubkey)
    requires a != b
    ensures CoinsAt(cur, s, mint, a) + CoinsAt(cur, s, mint, b) <= Total(cur, s, mint)
  {
    if a in s && b in s {
      SumRemove(cur, s, mint, s.Keys, a);
      SumRemove(cur, s, mint, s.Keys - {a}, b);
    } else {
      PartOfTotal(cur, s, mint, a);
      PartOfTotal(cur, s, mint, b);
    }
  }

  // ----- what the outputs of the contract do

  /** The machine runs the Currency contract at address cur. */
  ghost predicate Hosts(vm: Machine, cur: Pubkey) {
    && cur in vm.builtins && cur != vm.wasm
    && (forall env, params :: vm.native(cur, env, params) == Contract(env, params))
  }

  predicate Simple(o: Output) {
    !o.ContractInvoke? && !o.CreateExecutableAccount?
  }

  /** The accounts put by a list of simple outputs, later ones covering earlier ones. */
  function Puts(cur: Pubkey, s: Accounts, outputs: seq<Output>): Accounts {
    if outputs == [] then map[] else
    var before, o := Puts(cur, s, outputs[..|outputs| - 1]), outputs[|outputs| - 1];
    match o
    case CreateOwnedAccount(a, data) => before[a := Account(false, 0, Some(cur), data)]
    case WriteAccountData(a, data) => if a in s then before[a := s[a].(data := data)] else before
    case _ => before
  }

  /** The accounts deleted by a list of outputs and not put again. */
  function Removes(outputs: seq<Output>): set<Pubkey> {
    if outputs == [] then {} else
    var before, o := Removes(outputs[..|outputs| - 1]), outputs[|outputs| - 1];
    match o
    case CreateOwnedAccount(a, _) => before - {a}
    case WriteAccountData(a, _) => before - {a}
    case DeleteOwnedAccount(a) => before + {a}
    case _ => before
  }

  /** What success of an output says about the state. */
  ghost predicate Performed(cur: Pubkey, s: Accounts, o: Output) {
    match o
    case CreateOwnedAccount(a, _) => a !in s
    case WriteAccountData(a, _) => a in s && (!a.HasPrivateKey() ==> s[a].owner == Some(cur))
    case _ => true
  }

  lemma SimpleOutput(vm: Machine, cur: Pubkey, s: Accounts, unit: ExecutionUnit, o: Output, fuel: nat)
    requires UnitOk(s, unit) && unit.contract == cur && Simple(o)
    requires ProcessOutput(vm, s, unit, o, fuel).Ok?
    ensures Performed(cur, s, o)
    ensures ProcessOutput(vm, s, unit, o, fuel).value.diff ==
            match o
            case CreateOwnedAccount(a, data) => NO_CHANGE.Set(a, Account(false, 0, Some(cur), data))
            case WriteAccountData(a, data) => NO_CHANGE.Set(a, s[a].(data := data))
            case DeleteOwnedAccount(a) => NO_CHANGE.Remove(a)
            case _ => NO_CHANGE
  {
    if o.CreateOwnedAccount? || o.WriteAccountData? { WritableIsOwn(s, unit, o.address); }
  }

  lemma {:induction false} SimpleOutputs(vm: Machine, cur: Pubkey, s: Accounts, unit: ExecutionUnit,
        outputs: seq<Output>, fuel: nat)
    requires UnitOk(s, unit) && unit.contract == cur
    requires forall o | o in outputs :: Simple(o)
    requires ProcessOutputs(vm, s, unit, outputs, fuel).Ok?
    ensures var diff := ProcessOutputs(vm, s, unit, outputs, fuel).value.diff;
            diff.data == Puts(cur, s, outputs) && diff.deletes == Removes(outputs)
    ensures forall o | o in outputs :: Performed(cur, s, o)
    decreases |outputs|
  {
    hide UnitOk, ProcessOutput;
    if outputs == [] {
    } else {
      var init, o := outputs[..|outputs| - 1], outputs[|outputs| - 1];
      assert outputs == init + [o] && o in outputs;
      SimpleOutputs(vm, cur, s, unit, init, fuel);
      SimpleOutput(vm, cur, s, unit, o, fuel);
      var before := ProcessOutputs(vm, s, unit, init, fuel).value.diff;
      var last := ProcessOutput(vm, s, unit, o, fuel).value.diff;
      assert ProcessOutputs(vm, s, unit, outputs, fuel).value.diff == before.Merge(last);
      hide ProcessOutputs, StateDiff.Merge;
      match o
      case CreateOwnedAccount(a, data) => MergeOne(before, a, Account(false, 0, Some(cur), data));
      case WriteAccountData(a, data) => MergeOne(before, a, s[a].(data := data));
      case DeleteOwnedAccount(a) => MergeOne(before, a, FRESH_ACCOUNT);
      case _ => MergeOne(before, cur, FRESH_ACCOUNT);
    }
  }

  lemma {:induction false} LogsChangeNothing(cur: Pubkey, s: Accounts, logs: seq<Output>, more: seq<Output>)
    requires forall o | o in logs :: o.LogEntry?
    ensures Puts(cur, s, logs) == map[] && Removes(logs) == {}
    ensures Puts(cur, s, logs + more) == Puts(cur, s, more) && Removes(logs + more) == Removes(more)
    ensures Puts(cur, s, more + logs) == Puts(cur, s, more) && Removes(more + logs) == Removes(more)
    decreases |logs|, |more|
  {
    if logs == [] {
      assert logs + more == more && more + logs == more;
    } else {
      var init := logs[..|logs| - 1];
      assert logs[|logs| - 1] in logs;
      LogsChangeNothing(cur, s, init, more);
      assert (more + logs)[..|more + logs| - 1] == more + init;
      if more == [] {
        assert logs + more == logs;
      } else {
        assert (logs + more)[..|logs + more| - 1] == logs + more[..|more| - 1];
        LogsChangeNothing(cur, s, logs, more[..|more| - 1]);
      }
    }
  }

  // ----- the instructions, one by one

  /** The environment of a call of the contract on state s. */
  predicate EnvOf(cur: Pubkey, s: Accounts, env: Environment, refs: seq<AccountRef>) {
    env == CreateEnvironment(s, refs, cur, env.caller)
  }

  /** Only the supply of one mint and the coins at one or two addresses differ between s and t. */
  ghost predicate Elsewhere(cur: Pubkey, s: Accounts, t: Accounts, mint: Pubkey, a: Pubkey, b: Pubkey) {
    && (forall m | m != mint :: SupplyAt(cur, t, m) == SupplyAt(cur, s, m))
    && (forall m, x | m != mint || (x != a && x != b) :: CoinsAt(cur, t, m, x) == CoinsAt(cur, s, m, x))
  }

  lemma ReadMint(cur: Pubkey, s: Accounts, env: Environment, refs: seq<AccountRef>, i: nat)
    requires EnvOf(cur, s, env, refs) && i < |refs|
    requires ReadCoinMint(env.accounts[i].0, env.accounts[i].1, env).Ok?
    ensures var m := refs[i].address;
            && env.accounts[i].0 == m && m in s && s[m].owner == Some(cur) && !m.HasPrivateKey()
            && s[m].data == Some(MintData(ReadCoinMint(env.accounts[i].0, env.accounts[i].1, env).value))
  {
  }

  lemma ReadCoin(cur: Pubkey, s: Accounts, env: Environment, refs: seq<AccountRef>, i: nat, mint: Pubkey,
        wallet: Pubkey)
    requires EnvOf(cur, s, env, refs) && i < |refs|
    requires ReadCoinAccount(env.accounts[i].0, env.accounts[i].1, mint, wallet, env).Ok?
    ensures var a, coin := refs[i].address,
      ReadCoinAccount(env.accounts[i].0, env.accounts[i].1, mint, wallet, env).value;
            && env.accounts[i].0 == a == CoinAddress(cur, mint, wallet)
            && (coin.None? ==> a in s ==> s[a].data == None)
            && (coin.Some? ==>
                  a in s && s[a].data == Some(CoinData(coin.value)) && coin.value.mint == mint
                  && coin.value.owner == wallet)
  {
  }

  /** A credit or a debit leaves exactly the given balance, and nothing else changes. */
  lemma CoinWritten(cur: Pubkey, s: Accounts, a: Pubkey, account: Account, mint: Pubkey, wallet: Pubkey, balance: U64)
    requires a == CoinAddress(cur, mint, wallet)
    requires account.owner == Some(cur) && account.data == Some(CoinData(CoinAccount(mint, wallet, balance)))
    requires a in s ==> s[a].data.None? || (s[a].data.value.CoinData? && s[a].data.value.coin.mint == mint)
    ensures CoinsAt(cur, s[a := account], mint, a) == balance
    ensures Elsewhere(cur, s, s[a := account], mint, a, a)
    ensures SupplyAt(cur, s[a := account], mint) == SupplyAt(cur, s, mint)
  {
  }

  lemma MintWritten(cur: Pubkey, s: Accounts, m: Pubkey, before: Mint, after: Mint)
    requires m in s && s[m].owner == Some(cur) && !m.HasPrivateKey() && s[m].data == Some(MintData(before))
    ensures var t := s[m := s[m].(data := Some(MintData(after)))];
            && SupplyAt(cur, t, m) == after.supply
            && (forall x | x != m :: SupplyAt(cur, t, x) == SupplyAt(cur, s, x))
            && (forall x, a :: CoinsAt(cur, t, x, a) == CoinsAt(cur, s, x, a))
  {
  }

  /** The coins a credit adds to: the account's balance, or zero when it is opened. */
  function Held(coin: Option<CoinAccount>): U64 {
    if coin.Some? then coin.value.balance else 0
  }

  /** The account a performed credit leaves behind. */
  lemma Credited(cur: Pubkey, s: Accounts, base: seq<Output>, a: Pubkey, mint: Pubkey, wallet: Pubkey,
        coin: Option<CoinAccount>, amount: U64)
    returns (account: Account)
    requires a == CoinAddress(cur, mint, wallet)
    requires CoinRead(cur, s, mint, wallet, coin)
    requires Performed(cur, s, Credit(coin, a, mint, wallet, amount))
    ensures CoinsAt(cur, s, mint, a) == Held(coin)
    ensures account.owner == Some(cur)
    ensures account.data == Some(CoinData(CoinAccount(mint, wallet, SaturatingAdd(Held(coin), amount))))
    ensures account == if a in s then s[a].(data := account.data) else Account(false, 0, Some(cur), account.data)
    ensures Puts(cur, s, base + [Credit(coin, a, mint, wallet, amount)]) == Puts(cur, s, base)[a := account]
    ensures Removes(base + [Credit(coin, a, mint, wallet, amount)]) == Removes(base) - {a}
  {
    var o := Credit(coin, a, mint, wallet, amount);
    account := if coin.Some? then s[a].(data := o.data) else Account(false, 0, Some(cur), o.data);
    assert (base + [o])[..|base + [o]| - 1] == base;
  }

  lemma LastWrite(cur: Pubkey, s: Accounts, base: seq<Output>, a: Pubkey, data: Option<Data>)
    requires a in s
    ensures Puts(cur, s, base + [WriteAccountData(a, data)]) == Puts(cur, s, base)[a := s[a].(data := data)]
    ensures Removes(base + [WriteAccountData(a, data)]) == Removes(base) - {a}
  {
    var all := base + [WriteAccountData(a, data)];
    assert all[..|all| - 1] == base;
  }

  /** Outputs are log entries followed by effects. */
  ghost predicate Shaped(outputs: seq<Output>, effects: seq<Output>) {
    && |effects| <= |outputs| && outputs == outputs[..|outputs| - |effects|] + effects
    && (forall o | o in outputs[..|outputs| - |effects|] :: o.LogEntry?)
    && (forall o | o in effects :: Simple(o))
  }

  lemma ShapedEffects(cur: Pubkey, s: Accounts, outputs: seq<Output>, effects: seq<Output>)
    requires Shaped(outputs, effects)
    ensures Puts(cur, s, outputs) == Puts(cur, s, effects) && Removes(outputs) == Removes(effects)
    ensures forall o | o in outputs :: Simple(o)
    ensures forall o | o in effects :: o in outputs
  {
    LogsChangeNothing(cur, s, outputs[..|outputs| - |effects|], effects);
  }

  /** What is known about a coin account that was read for a mint and a wallet. */
  ghost predicate CoinRead(cur: Pubkey, s: Accounts, mint: Pubkey, wallet: Pubkey, coin: Option<CoinAccount>) {
    var a := CoinAddress(cur, mint, wallet);
    && (coin.None? ==> a in s ==> s[a].data == None)
    && (coin.Some?
      ==> a in s && s[a].data == Some(CoinData(coin.value)) && coin.value.mint == mint && coin.value.owner == wallet)
  }

  ghost predicate MintRead(cur: Pubkey, s: Accounts, mint: Pubkey, record: Mint) {
    mint in s && s[mint].owner == Some(cur) && !mint.HasPrivateKey() && s[mint].data == Some(MintData(record))
  }

  lemma MintShape(cur: Pubkey, s: Accounts, env: Environment, refs: seq<AccountRef>, amount: U64)
    returns (record: Mint, coin: Option<CoinAccount>)
    requires EnvOf(cur, s, env, refs) && ProcessMint(env, amount).Ok?
    ensures |refs| == 4
    ensures var mint, wallet := refs[0].address, refs[2].address;
            && MintRead(cur, s, mint, record) && CoinRead(cur, s, mint, wallet, coin)
            && Shaped(ProcessMint(env, amount).value, MintEffects(cur, mint, wallet, record, coin, amount))
  {
    var mint, wallet := refs[0].address, refs[2].address;
    ReadMint(cur, s, env, refs, 0);
    ReadCoin(cur, s, env, refs, 3, mint, wallet);
    record := ReadCoinMint(env.accounts[0].0, env.accounts[0].1, env).value;
    coin := ReadCoinAccount(env.accounts[3].0, env.accounts[3].1, mint, wallet, env).value;
  }

  lemma OneOutput(cur: Pubkey, s: Accounts, o: Output)
    ensures [] + [o] == [o] && Puts(cur, s, []) == map[] && Removes([]) == {}
  {
  }

  function MintEffects(cur: Pubkey, mint: Pubkey, wallet: Pubkey, record: Mint, coin: Option<CoinAccount>,
        amount: U64): seq<Output> {
    [Credit(coin, CoinAddress(cur, mint, wallet), mint, wallet, amount)]
    + [WriteAccountData(mint, Some(MintData(record.(supply := SaturatingAdd(record.supply, amount)))))]
  }

  /** Minting adds the amount, saturating, to the recipient's coins and to the supply. */
  ghost predicate Minted(cur: Pubkey, s: Accounts, t: Accounts, mint: Pubkey, a: Pubkey, amount: U64) {
    && Elsewhere(cur, s, t, mint, a, a)
    && SupplyAt(cur, s, mint) <= MAX_U64 && CoinsAt(cur, s, mint, a) <= MAX_U64
    && SupplyAt(cur, t, mint) == SaturatingAdd(SupplyAt(cur, s, mint), amount)
    && CoinsAt(cur, t, mint, a) == SaturatingAdd(CoinsAt(cur, s, mint, a), amount)
  }

  lemma MintCore(cur: Pubkey, s: Accounts, mint: Pubkey, wallet: Pubkey, record: Mint, coin: Option<CoinAccount>,
        amount: U64)
    requires MintRead(cur, s, mint, record) && CoinRead(cur, s, mint, wallet, coin)
    requires Performed(cur, s, Credit(coin, CoinAddress(cur, mint, wallet), mint, wallet, amount))
    ensures var effects := MintEffects(cur, mint, wallet, record, coin, amount);
            Minted(cur, s, s + Puts(cur, s, effects), mint, CoinAddress(cur, mint, wallet), amount)
              && Removes(effects) == {}
  {
    hide Puts, Removes, Credit;
    var a := CoinAddress(cur, mint, wallet);
    var credit := Credit(coin, a, mint, wallet, amount);
    var record' := record.(supply := SaturatingAdd(record.supply, amount));
    var account := Credited(cur, s, [], a, mint, wallet, coin, amount);
    OneOutput(cur, s, credit);
    LastWrite(cur, s, [credit], mint, Some(MintData(record')));
    var s1 := s[a := account];
    CoinWritten(cur, s, a, account, mint, wallet, SaturatingAdd(Held(coin), amount));
    assert a != mint;
    assert s + Puts(cur, s, MintEffects(cur, mint, wallet, record, coin, amount))
      == s1[mint := s1[mint].(data := Some(MintData(record')))];
    MintWritten(cur, s1, mint, record, record');
  }

  lemma MintEffect(cur: Pubkey, s: Accounts, env: Environment, refs: seq<AccountRef>, amount: U64)
    requires EnvOf(cur, s, env, refs) && ProcessMint(env, amount).Ok?
    requires forall o | o in ProcessMint(env, amount).value :: Performed(cur, s, o)
    ensures |refs| == 4
    ensures var outputs := ProcessMint(env, amount).value;
            && Removes(outputs) == {} && (forall o | o in outputs :: Simple(o))
            && Minted(cur, s, s + Puts(cur, s, outputs), refs[0].address,
              CoinAddress(cur, refs[0].address, refs[2].address), amount)
  {
    var record, coin := MintShape(cur, s, env, refs, amount);
    hide ProcessMint, EnvOf, Shaped, Puts, Removes, Minted;
    var mint, wallet := refs[0].address, refs[2].address;
    var effects := MintEffects(cur, mint, wallet, record, coin, amount);
    ShapedEffects(cur, s, ProcessMint(env, amount).value, effects);
    assert effects[0] in effects;
    MintCore(cur, s, mint, wallet, record, coin, amount);
  }

  // transfers

  predicate IsZeroCoin(account: Account) {
    match account.data case Some(CoinData(coin)) => coin.balance == 0 case _ => false
  }

  /** Whatever is deleted was emptied by the same diff. */
  ghost predicate OnlyDust(data: Accounts, deletes: set<Pubkey>) {
    forall a | a in deletes :: a in data && IsZeroCoin(data[a])
  }

  /** The account a performed debit leaves behind. */
  lemma Debited(cur: Pubkey, s: Accounts, base: seq<Output>, mint: Pubkey, wallet: Pubkey, coin: CoinAccount,
        rest: U64)
    returns (account: Account)
    requires CoinRead(cur, s, mint, wallet, Some(coin))
    requires Performed(cur, s, Debit(coin, CoinAddress(cur, mint, wallet), rest)[0])
    ensures var a := CoinAddress(cur, mint, wallet);
            && CoinsAt(cur, s, mint, a) == coin.balance
            && account.owner == Some(cur) && account.data == Some(CoinData(CoinAccount(mint, wallet, rest)))
            && a in s && account == s[a].(data := account.data)
            && Puts(cur, s, base + Debit(coin, a, rest)) == Puts(cur, s, base)[a := account]
            && Removes(base + Debit(coin, a, rest)) == if rest == 0 then Removes(base) + {a} else Removes(base) - {a}
  {
    var a := CoinAddress(cur, mint, wallet);
    var write, data := Debit(coin, a, rest)[0], Some(CoinData(coin.(balance := rest)));
    account := s[a].(data := data);
    LastWrite(cur, s, base, a, data);
    if rest == 0 {
      var all := base + Debit(coin, a, rest);
      assert all[..|all| - 1] == base + [write] && all[|all| - 1] == DeleteOwnedAccount(a);
    } else {
      assert Debit(coin, a, rest) == [write];
    }
  }

  function TransferEffects(cur: Pubkey, mint: Pubkey, sender: Pubkey, recipient: Pubkey, coin: CoinAccount,
        other: Option<CoinAccount>, amount: U64): seq<Output> {
    Debit(coin, CoinAddress(cur, mint, sender), SaturatingSub(coin.balance, amount))
    + [Credit(other, CoinAddress(cur, mint, recipient), mint, recipient, amount)]
  }

  /** A transfer between two wallets moves the amount, saturating at the recipient; a transfer to
      oneself adds it. */
  ghost predicate Transferred(cur: Pubkey, s: Accounts, t: Accounts, mint: Pubkey, a: Pubkey, b: Pubkey, amount: U64) {
    && Elsewhere(cur, s, t, mint, a, b) && SupplyAt(cur, t, mint) == SupplyAt(cur, s, mint)
    && amount > 0 && CoinsAt(cur, s, mint, a) >= amount && CoinsAt(cur, s, mint, b) <= MAX_U64
    && (a != b ==> CoinsAt(cur, t, mint, a) == CoinsAt(cur, s, mint, a) - amount)
    && CoinsAt(cur, t, mint, b) == SaturatingAdd(CoinsAt(cur, s, mint, b), amount)
  }

  lemma TransferMath(cur: Pubkey, s: Accounts, mint: Pubkey, sender: Pubkey, recipient: Pubkey, coin: CoinAccount,
        other: Option<CoinAccount>, amount: U64, debited: Account, credited: Account)
    requires CoinRead(cur, s, mint, sender, Some(coin)) && CoinRead(cur, s, mint, recipient, other)
    requires sender == recipient ==> other == Some(coin)
    requires 0 < amount <= coin.balance
    requires debited.owner == Some(cur)
      && debited.data == Some(CoinData(CoinAccount(mint, sender, coin.balance - amount)))
    requires credited.owner == Some(cur)
      && credited.data == Some(CoinData(CoinAccount(mint, recipient, SaturatingAdd(Held(other), amount))))
    requires CoinsAt(cur, s, mint, CoinAddress(cur, mint, sender)) == coin.balance
    requires CoinsAt(cur, s, mint, CoinAddress(cur, mint, recipient)) == Held(other)
    ensures var a, b := CoinAddress(cur, mint, sender), CoinAddress(cur, mint, recipient);
            Transferred(cur, s, s[a := debited][b := credited], mint, a, b, amount)
  {
    var a, b := CoinAddress(cur, mint, sender), CoinAddress(cur, mint, recipient);
    var s1 := s[a := debited];
    CoinWritten(cur, s, a, debited, mint, sender, coin.balance - amount);
    CoinWritten(cur, s1, b, credited, mint, recipient, SaturatingAdd(Held(other), amount));
    hide CoinsAt, SupplyAt;
  }

  /** The diff of a transfer: the debited account, then the credited one. */
  lemma TransferDiff(cur: Pubkey, s: Accounts, mint: Pubkey, sender: Pubkey, recipient: Pubkey, coin: CoinAccount,
        other: Option<CoinAccount>, amount: U64)
    returns (debited: Account, credited: Account)
    requires CoinRead(cur, s, mint, sender, Some(coin)) && CoinRead(cur, s, mint, recipient, other)
    requires 0 < amount <= coin.balance
    requires Performed(cur, s, Debit(coin, CoinAddress(cur, mint, sender), coin.balance - amount)[0])
    requires Performed(cur, s, Credit(other, CoinAddress(cur, mint, recipient), mint, recipient, amount))
    ensures debited.owner == Some(cur)
      && debited.data == Some(CoinData(CoinAccount(mint, sender, coin.balance - amount)))
    ensures credited.owner == Some(cur)
      && credited.data == Some(CoinData(CoinAccount(mint, recipient, SaturatingAdd(Held(other), amount))))
    ensures CoinsAt(cur, s, mint, CoinAddress(cur, mint, sender)) == coin.balance
    ensures CoinsAt(cur, s, mint, CoinAddress(cur, mint, recipient)) == Held(other)
    ensures var a, b := CoinAddress(cur, mint, sender), CoinAddress(cur, mint, recipient);
            var effects := TransferEffects(cur, mint, sender, recipient, coin, other, amount);
            && Puts(cur, s, effects) == map[a := debited][b := credited]
            && Removes(effects) == (if coin.balance == amount then {a} else {}) - {b}
  {
    var a, b, rest := CoinAddress(cur, mint, sender), CoinAddress(cur, mint, recipient), coin.balance - amount;
    var debit := Debit(coin, a, rest);
    hide Puts, Removes, Credit, Debit, CoinsAt, CoinRead, Performed;
    OneOutput(cur, s, LogEntry("", Text("")));
    assert [] + debit == debit;
    debited := Debited(cur, s, [], mint, sender, coin, rest);
    credited := Credited(cur, s, debit, b, mint, recipient, other, amount);
  }

  lemma TransferCore(cur: Pubkey, s: Accounts, mint: Pubkey, sender: Pubkey, recipient: Pubkey, coin: CoinAccount,
        other: Option<CoinAccount>, amount: U64)
    requires CoinRead(cur, s, mint, sender, Some(coin)) && CoinRead(cur, s, mint, recipient, other)
    requires sender == recipient ==> other == Some(coin)
    requires 0 < amount <= coin.balance
    requires Performed(cur, s, Debit(coin, CoinAddress(cur, mint, sender), coin.balance - amount)[0])
    requires Performed(cur, s, Credit(other, CoinAddress(cur, mint, recipient), mint, recipient, amount))
    ensures var effects := TransferEffects(cur, mint, sender, recipient, coin, other, amount);
            var a, b := CoinAddress(cur, mint, sender), CoinAddress(cur, mint, recipient);
            Transferred(cur, s, s + Puts(cur, s, effects), mint, a, b, amount)
              && OnlyDust(Puts(cur, s, effects), Removes(effects))
  {
    hide Puts, Removes, Credit, Debit, CoinRead, CoinsAt, Transferred, Performed, TransferEffects;
    var a, b := CoinAddress(cur, mint, sender), CoinAddress(cur, mint, recipient);
    var debited, credited := TransferDiff(cur, s, mint, sender, recipient, coin, other, amount);
    TransferMath(cur, s, mint, sender, recipient, coin, other, amount, debited, credited);
    assert s + map[a := debited][b := credited] == s[a := debited][b := credited];
  }

  lemma TransferShape(cur: Pubkey, s: Accounts, env: Environment, refs: seq<AccountRef>, amount: U64)
    returns (coin: CoinAccount, other: Option<CoinAccount>)
    requires EnvOf(cur, s, env, refs) && ProcessTransfer(env, amount).Ok?
    ensures |refs| == 5
    ensures var mint, sender, recipient := refs[0].address, refs[1].address, refs[3].address;
            && CoinRead(cur, s, mint, sender, Some(coin)) && CoinRead(cur, s, mint, recipient, other)
            && (sender == recipient ==> other == Some(coin))
            && 0 < amount <= coin.balance
            && Shaped(ProcessTransfer(env, amount).value,
              TransferEffects(cur, mint, sender, recipient, coin, other, amount))
  {
    var mint, sender, recipient := refs[0].address, refs[1].address, refs[3].address;
    ReadCoin(cur, s, env, refs, 2, mint, sender);
    ReadCoin(cur, s, env, refs, 4, mint, recipient);
    coin := ReadCoinAccount(env.accounts[2].0, env.accounts[2].1, mint, sender, env).value.value;
    other := ReadCoinAccount(env.accounts[4].0, env.accounts[4].1, mint, recipient, env).value;
  }

  lemma TransferEffect(cur: Pubkey, s: Accounts, env: Environment, refs: seq<AccountRef>, amount: U64)
    requires EnvOf(cur, s, env, refs) && ProcessTransfer(env, amount).Ok?
    requires forall o | o in ProcessTransfer(env, amount).value :: Performed(cur, s, o)
    ensures |refs| == 5
    ensures var outputs := ProcessTransfer(env, amount).value;
            var mint := refs[0].address;
            && OnlyDust(Puts(cur, s, outputs), Removes(outputs)) && (forall o | o in outputs :: Simple(o))
            && Transferred(cur, s, s + Puts(cur, s, outputs), mint, CoinAddress(cur, mint, refs[1].address),
              CoinAddress(cur, mint, refs[3].address), amount)
  {
    var coin, other := TransferShape(cur, s, env, refs, amount);
    hide ProcessTransfer, EnvOf, Shaped, Puts, Removes, Transferred;
    var mint, sender, recipient := refs[0].address, refs[1].address, refs[3].address;
    var effects := TransferEffects(cur, mint, sender, recipient, coin, other, amount);
    ShapedEffects(cur, s, ProcessTransfer(env, amount).value, effects);
    assert effects[0] in effects && effects[|effects| - 1] in effects;
    TransferCore(cur, s, mint, sender, recipient, coin, other, amount);
  }

  // burning

  function BurnEffects(cur: Pubkey, mint: Pubkey, wallet: Pubkey, record: Mint, coin: CoinAccount,
        amount: U64): seq<Output> {
    [WriteAccountData(mint, Some(MintData(record.(supply := SaturatingSub(record.supply, amount)))))]
    + Debit(coin, CoinAddress(cur, mint, wallet), SaturatingSub(coin.balance, amount))
  }

  /** Burning takes the amount from the wallet's coins and, saturating, from the supply. */
  ghost predicate Burned(cur: Pubkey, s: Accounts, t: Accounts, mint: Pubkey, a: Pubkey, amount: U64) {
    && Elsewhere(cur, s, t, mint, a, a)
    && CoinsAt(cur, s, mint, a) >= amount && CoinsAt(cur, t, mint, a) == CoinsAt(cur, s, mint, a) - amount
    && SupplyAt(cur, s, mint) <= MAX_U64
    && SupplyAt(cur, t, mint) == SaturatingSub(SupplyAt(cur, s, mint), amount)
  }

  lemma BurnCore(cur: Pubkey, s: Accounts, mint: Pubkey, wallet: Pubkey, record: Mint, coin: CoinAccount, amount: U64)
    requires MintRead(cur, s, mint, record) && CoinRead(cur, s, mint, wallet, Some(coin)) && amount <= coin.balance
    requires Performed(cur, s, Debit(coin, CoinAddress(cur, mint, wallet), SaturatingSub(coin.balance, amount))[0])
    ensures var effects := BurnEffects(cur, mint, wallet, record, coin, amount);
            && Burned(cur, s, s + Puts(cur, s, effects), mint, CoinAddress(cur, mint, wallet), amount)
            && OnlyDust(Puts(cur, s, effects), Removes(effects))
  {
    var a, rest := CoinAddress(cur, mint, wallet), SaturatingSub(coin.balance, amount);
    var record' := record.(supply := SaturatingSub(record.supply, amount));
    var write := WriteAccountData(mint, Some(MintData(record')));
    OneOutput(cur, s, write);
    LastWrite(cur, s, [], mint, Some(MintData(record')));
    var debited := Debited(cur, s, [write], mint, wallet, coin, rest);
    hide Puts, Removes, Debit;
    var s1 := s[mint := s[mint].(data := Some(MintData(record')))];
    MintWritten(cur, s, mint, record, record');
    assert a != mint;
    CoinWritten(cur, s1, a, debited, mint, wallet, rest);
    assert s + Puts(cur, s, BurnEffects(cur, mint, wallet, record, coin, amount)) == s1[a := debited];
  }

  lemma BurnShape(cur: Pubkey, s: Accounts, env: Environment, refs: seq<AccountRef>, amount: U64)
    returns (record: Mint, coin: CoinAccount)
    requires EnvOf(cur, s, env, refs) && ProcessBurn(env, amount).Ok?
    ensures |refs| == 3
    ensures var mint, wallet := refs[0].address, refs[1].address;
            && MintRead(cur, s, mint, record) && CoinRead(cur, s, mint, wallet, Some(coin)) && amount <= coin.balance
            && Shaped(ProcessBurn(env, amount).value, BurnEffects(cur, mint, wallet, record, coin, amount))
  {
    var mint, wallet := refs[0].address, refs[1].address;
    ReadMint(cur, s, env, refs, 0);
    ReadCoin(cur, s, env, refs, 2, mint, wallet);
    record := ReadCoinMint(env.accounts[0].0, env.accounts[0].1, env).value;
    coin := ReadCoinAccount(env.accounts[2].0, env.accounts[2].1, mint, wallet, env).value.value;
  }

  lemma BurnEffect(cur: Pubkey, s: Accounts, env: Environment, refs: seq<AccountRef>, amount: U64)
    requires EnvOf(cur, s, env, refs) && ProcessBurn(env, amount).Ok?
    requires forall o | o in ProcessBurn(env, amount).value :: Performed(cur, s, o)
    ensures |refs| == 3
    ensures var outputs := ProcessBurn(env, amount).value;
            && OnlyDust(Puts(cur, s, outputs), Removes(outputs)) && (forall o | o in outputs :: Simple(o))
            && Burned(cur, s, s + Puts(cur, s, outputs), refs[0].address,
              CoinAddress(cur, refs[0].address, refs[1].address), amount)
  {
    var record, coin := BurnShape(cur, s, env, refs, amount);
    hide ProcessBurn, EnvOf, Shaped, Puts, Removes, Burned;
    var mint, wallet := refs[0].address, refs[1].address;
    var effects := BurnEffects(cur, mint, wallet, record, coin, amount);
    ShapedEffects(cur, s, ProcessBurn(env, amount).value, effects);
    assert effects[1] == Debit(coin, CoinAddress(cur, mint, wallet), SaturatingSub(coin.balance, amount))[0]
      && effects[1] in effects;
    BurnCore(cur, s, mint, wallet, record, coin, amount);
  }

  // creating a mint and changing its authority

  /** Neither coins nor supplies change. */
  ghost predicate Neutral(cur: Pubkey, s: Accounts, t: Accounts) {
    && (forall m :: SupplyAt(cur, t, m) == SupplyAt(cur, s, m))
    && (forall m, a :: CoinsAt(cur, t, m, a) == CoinsAt(cur, s, m, a))
  }

  lemma CreateShape(cur: Pubkey, s: Accounts, env: Environment, refs: seq<AccountRef>, i: Instruction)
    requires EnvOf(cur, s, env, refs) && i.Create? && Contract(env, Instruct(i)).Ok?
    ensures var outputs := Contract(env, Instruct(i)).value;
            && outputs != [] && (forall k | 1 <= k < |outputs| :: outputs[k].LogEntry?)
            && outputs[0].CreateOwnedAccount?
            && exists record :: outputs[0].data == Some(MintData(record)) && record.supply == 0
  {
    var record := Mint(Some(i.authority), 0, i.decimals, i.name, i.symbol);
    assert Contract(env, Instruct(i)).value[0].data == Some(MintData(record));
  }

  lemma OneCreated(cur: Pubkey, s: Accounts, outputs: seq<Output>)
    requires outputs != [] && outputs[0].CreateOwnedAccount? && forall k | 1 <= k < |outputs| :: outputs[k].LogEntry?
    ensures Puts(cur, s, outputs) == map[outputs[0].address := Account(false, 0, Some(cur), outputs[0].data)]
    ensures Removes(outputs) == {} && forall o | o in outputs :: Simple(o)
  {
    var create, logs := outputs[0], outputs[1..];
    assert outputs == [create] + logs;
    LogsChangeNothing(cur, s, logs, [create]);
    OneOutput(cur, s, create);
  }

  lemma CreateEffect(cur: Pubkey, s: Accounts, env: Environment, refs: seq<AccountRef>, i: Instruction)
    requires EnvOf(cur, s, env, refs) && i.Create? && Contract(env, Instruct(i)).Ok?
    requires forall o | o in Contract(env, Instruct(i)).value :: Performed(cur, s, o)
    ensures var outputs := Contract(env, Instruct(i)).value;
            && Removes(outputs) == {} && (forall o | o in outputs :: Simple(o))
            && Neutral(cur, s, s + Puts(cur, s, outputs))
  {
    hide Contract, EnvOf, Neutral, Puts, Removes;
    var outputs := Contract(env, Instruct(i)).value;
    CreateShape(cur, s, env, refs, i);
    OneCreated(cur, s, outputs);
    var create := outputs[0];
    assert create in outputs;
    NewMintIsNeutral(cur, s, create.address, create.data);
    assert s + Puts(cur, s, outputs) == s[create.address := Account(false, 0, Some(cur), create.data)];
  }

  lemma NewMintIsNeutral(cur: Pubkey, s: Accounts, a: Pubkey, data: Option<Data>)
    requires a !in s && exists record :: data == Some(MintData(record)) && record.supply == 0
    ensures Neutral(cur, s, s[a := Account(false, 0, Some(cur), data)])
  {
  }

  lemma AuthorityShape(cur: Pubkey, s: Accounts, env: Environment, refs: seq<AccountRef>, authority: Option<Pubkey>)
    returns (record: Mint)
    requires EnvOf(cur, s, env, refs) && ProcessSetAuthority(env, authority).Ok?
    ensures |refs| == 2 && MintRead(cur, s, refs[0].address, record)
    ensures Shaped(ProcessSetAuthority(env, authority).value,
      [WriteAccountData(refs[0].address, Some(MintData(record.(authority := authority))))])
  {
    ReadMint(cur, s, env, refs, 0);
    record := ReadCoinMint(env.accounts[0].0, env.accounts[0].1, env).value;
  }

  lemma AuthorityEffect(cur: Pubkey, s: Accounts, env: Environment, refs: seq<AccountRef>, authority: Option<Pubkey>)
    requires EnvOf(cur, s, env, refs) && ProcessSetAuthority(env, authority).Ok?
    ensures var outputs := ProcessSetAuthority(env, authority).value;
            && Removes(outputs) == {} && (forall o | o in outputs :: Simple(o))
            && Neutral(cur, s, s + Puts(cur, s, outputs))
  {
    var record := AuthorityShape(cur, s, env, refs, authority);
    hide ProcessSetAuthority, EnvOf, Shaped;
    var mint, record' := refs[0].address, record.(authority := authority);
    ShapedEffects(cur, s, ProcessSetAuthority(env, authority).value, [WriteAccountData(mint, Some(MintData(record')))]);
    OneOutput(cur, s, WriteAccountData(mint, Some(MintData(record'))));
    LastWrite(cur, s, [], mint, Some(MintData(record')));
    assert s + map[mint := s[mint].(data := Some(MintData(record')))]
      == s[mint := s[mint].(data := Some(MintData(record')))];
    MintWritten(cur, s, mint, record, record');
  }
}
