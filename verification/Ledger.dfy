/** Conservation of coins by single instructions and by single calls of the Currency contract. */
module Ledger {
  import opened Primitives
  import opened State
  import opened Unit
  import opened BlockMachine
  import opened Currency
  import opened Conservation

  // ----- one instruction

  /** When the coins change at two addresses, the total changes by the sum of both changes. */
  lemma TwoChanged(cur: Pubkey, s: Accounts, t: Accounts, mint: Pubkey, a: Pubkey, b: Pubkey)
    requires a != b
    requires forall x | x != a && x != b :: CoinsAt(cur, s, mint, x) == CoinsAt(cur, t, mint, x)
    ensures Total(cur, t, mint) + CoinsAt(cur, s, mint, a) + CoinsAt(cur, s, mint, b)
         == Total(cur, s, mint) + CoinsAt(cur, t, mint, a) + CoinsAt(cur, t, mint, b)
  {
    var keys := s.Keys + t.Keys + {a, b};
    SumMore(cur, s, mint, s.Keys, t.Keys + {a, b});
    SumMore(cur, t, mint, t.Keys, s.Keys + {a, b});
    assert s.Keys + (t.Keys + {a, b}) == keys && t.Keys + (s.Keys + {a, b}) == keys;
    SumRemove(cur, s, mint, keys, a);
    SumRemove(cur, t, mint, keys, a);
    SumRemove(cur, s, mint, keys - {a}, b);
    SumRemove(cur, t, mint, keys - {a}, b);
    SumSame(cur, s, t, mint, keys - {a} - {b});
  }

  /** No coins are lost: there are at least as many as the supplies say. */
  ghost predicate NothingLost(cur: Pubkey, s: Accounts) {
    forall mint :: Total(cur, s, mint) >= SupplyAt(cur, s, mint)
  }

  /** Mints that an instruction does not name keep their total. */
  lemma OthersConserved(cur: Pubkey, s: Accounts, t: Accounts, mint: Pubkey, a: Pubkey, b: Pubkey)
    requires Conserved(cur, s) && Elsewhere(cur, s, t, mint, a, b)
    ensures Conserved(cur, t) <==> Total(cur, t, mint) == SupplyAt(cur, t, mint)
    ensures NothingLost(cur, t) <==> Total(cur, t, mint) >= SupplyAt(cur, t, mint)
  {
    hide CoinsAt, SupplyAt, Total;
    forall m | m != mint ensures Total(cur, t, m) == SupplyAt(cur, t, m) {
      TotalSame(cur, s, t, m);
    }
  }

  /** Minting conserves unless the supply saturates while the recipient's balance does not follow. */
  lemma MintConserves(cur: Pubkey, s: Accounts, t: Accounts, mint: Pubkey, a: Pubkey, amount: U64)
    requires Conserved(cur, s) && Minted(cur, s, t, mint, a, amount)
    ensures Conserved(cur, t)
      <==> SupplyAt(cur, s, mint) + amount <= MAX_U64 || CoinsAt(cur, s, mint, a) == SupplyAt(cur, s, mint)
    ensures NothingLost(cur, t)
  {
    hide CoinsAt, SupplyAt, Total;
    OthersConserved(cur, s, t, mint, a, a);
    OneChanged(cur, s, t, mint, a);
    PartOfTotal(cur, s, mint, a);
    assert Total(cur, s, mint) == SupplyAt(cur, s, mint);
  }

  lemma SupplyFits(cur: Pubkey, s: Accounts, mint: Pubkey)
    ensures SupplyAt(cur, s, mint) <= MAX_U64
  {
  }

  /** A transfer conserves unless it goes from a wallet to itself. */
  lemma TransferConserves(cur: Pubkey, s: Accounts, t: Accounts, mint: Pubkey, a: Pubkey, b: Pubkey, amount: U64)
    requires Conserved(cur, s) && Transferred(cur, s, t, mint, a, b, amount)
    ensures Conserved(cur, t) <==> a != b || CoinsAt(cur, s, mint, b) == MAX_U64
    ensures NothingLost(cur, t)
  {
    SupplyFits(cur, s, mint);
    hide CoinsAt, SupplyAt, Total;
    OthersConserved(cur, s, t, mint, a, b);
    assert Total(cur, s, mint) == SupplyAt(cur, s, mint);
    if a == b {
      OneChanged(cur, s, t, mint, a);
    } else {
      TwoChanged(cur, s, t, mint, a, b);
      TwoPartsOfTotal(cur, s, mint, a, b);
    }
  }

  /** Burning conserves. */
  lemma BurnConserves(cur: Pubkey, s: Accounts, t: Accounts, mint: Pubkey, a: Pubkey, amount: U64)
    requires Conserved(cur, s) && Burned(cur, s, t, mint, a, amount)
    ensures Conserved(cur, t)
  {
    hide CoinsAt, SupplyAt, Total;
    OthersConserved(cur, s, t, mint, a, a);
    OneChanged(cur, s, t, mint, a);
    PartOfTotal(cur, s, mint, a);
    assert Total(cur, s, mint) == SupplyAt(cur, s, mint);
  }

  lemma NeutralConserves(cur: Pubkey, s: Accounts, t: Accounts)
    requires Neutral(cur, s, t)
    ensures Conserved(cur, t) <==> Conserved(cur, s)
  {
    hide CoinsAt, SupplyAt, Total;
    forall m ensures Total(cur, t, m) == Total(cur, s, m) {
      TotalSame(cur, s, t, m);
    }
  }

  // ----- one call of the contract

  /** The instructions that conserve: all but a mint that overflows the supply, unless the recipient
      holds all of it, and a transfer from a wallet to itself, unless its balance is full. */
  ghost predicate Safe(cur: Pubkey, s: Accounts, env: Environment, params: Params) {
    match params
    case Instruct(MintCoins(amount)) =>
      |env.accounts| == 4 ==>
        var mint, wallet := env.accounts[0].0, env.accounts[2].0;
        SupplyAt(cur, s, mint) + amount <= MAX_U64
          || CoinsAt(cur, s, mint, CoinAddress(cur, mint, wallet)) == SupplyAt(cur, s, mint)
    case Instruct(Transfer(amount)) =>
      |env.accounts| == 5 ==>
        var mint, sender, recipient := env.accounts[0].0, env.accounts[1].0, env.accounts[3].0;
        sender != recipient || CoinsAt(cur, s, mint, CoinAddress(cur, mint, recipient)) == MAX_U64
    case _ => true
  }

  lemma EnvNames(cur: Pubkey, s: Accounts, env: Environment, refs: seq<AccountRef>)
    requires EnvOf(cur, s, env, refs)
    ensures |env.accounts| == |refs|
    ensures forall i | 0 <= i < |refs| ::
      env.accounts[i].0 == refs[i].address && env.accounts[i].1.signer == refs[i].signer
  {
  }

  /** What the contract does in one call: it conserves exactly when the instruction is safe and never
      loses coins, and it deletes only what it has just emptied. */
  lemma ContractEffect(cur: Pubkey, s: Accounts, env: Environment, refs: seq<AccountRef>, params: Params)
    requires EnvOf(cur, s, env, refs) && Contract(env, params).Ok?
    requires forall o | o in Contract(env, params).value :: Performed(cur, s, o)
    ensures var outputs := Contract(env, params).value;
            && OnlyDust(Puts(cur, s, outputs), Removes(outputs))
            && (Conserved(cur, s) ==>
                  && (Conserved(cur, s + Puts(cur, s, outputs)) <==> Safe(cur, s, env, params))
                  && NothingLost(cur, s + Puts(cur, s, outputs)))
  {
    EnvNames(cur, s, env, refs);
    hide ProcessCreate, ProcessMint, ProcessTransfer, ProcessBurn, ProcessSetAuthority, Performed, EnvOf, CoinsAt,
      SupplyAt, Puts, Removes;
    hide Conserved, NothingLost, Minted, Transferred, Burned, Neutral;
    var t := s + Puts(cur, s, Contract(env, params).value);
    match params.instruction
    case Create(_, _, _, _, _) =>
      CreateEffect(cur, s, env, refs, params.instruction);
      NeutralConserves(cur, s, t);
    case MintCoins(amount) =>
      MintEffect(cur, s, env, refs, amount);
      if Conserved(cur, s) {
        MintConserves(cur, s, t, refs[0].address, CoinAddress(cur, refs[0].address, refs[2].address), amount);
      }
    case Transfer(amount) =>
      TransferEffect(cur, s, env, refs, amount);
      if Conserved(cur, s) {
        var mint := refs[0].address;
        TransferConserves(cur, s, t, mint, CoinAddress(cur, mint, refs[1].address),
          CoinAddress(cur, mint, refs[3].address), amount);
      }
    case Burn(amount) =>
      BurnEffect(cur, s, env, refs, amount);
      if Conserved(cur, s) {
        BurnConserves(cur, s, t, refs[0].address, CoinAddress(cur, refs[0].address, refs[1].address), amount);
      }
    case SetAuthority(authority) =>
      AuthorityEffect(cur, s, env, refs, authority);
      NeutralConserves(cur, s, t);
  }

  /** A mint whose whole supply is in one wallet. */
  function OneHolder(cur: Pubkey, mint: Pubkey, authority: Pubkey, wallet: Pubkey, supply: U64): Accounts {
    map[mint := Account(false, 0, Some(cur), Some(MintData(Mint(Some(authority), supply, 0, None, None)))),
        CoinAddress(cur, mint, wallet) := Account(false, 0, Some(cur),
          Some(CoinData(CoinAccount(mint, wallet, supply))))]
  }

  lemma OneHolderConserves(cur: Pubkey, mint: Pubkey, authority: Pubkey, wallet: Pubkey, supply: U64)
    requires mint == Program(1)
    ensures Conserved(cur, OneHolder(cur, mint, authority, wallet, supply))
  {
    var s, a := OneHolder(cur, mint, authority, wallet, supply), CoinAddress(cur, mint, wallet);
    assert s.Keys == {mint} + {a};
    forall m ensures Total(cur, s, m) == SupplyAt(cur, s, m) {
      SumMore(cur, s, m, {a}, {mint});
      assert {a} + {mint} == s.Keys;
      SumRemove(cur, s, m, {a}, a);
      assert {a} - {a} == {};
    }
  }

  /** Failure one: a wallet that sends 2 of its 5 coins to itself ends up with 7. */
  lemma SelfTransferMakesCoins()
    ensures var cur, mint, wallet := Program(0), Program(1), Curve(0);
            var coin := CoinAddress(cur, mint, wallet);
            var s := OneHolder(cur, mint, wallet, wallet, 5);
            var refs :=
              [AccountRef(mint, false, false), AccountRef(wallet, false, true), AccountRef(coin, true, false),
               AccountRef(wallet, false, true), AccountRef(coin, true, false)];
            var outputs := Contract(CreateEnvironment(s, refs, cur, None), Instruct(Transfer(2)));
            && outputs.Ok? && Conserved(cur, s)
            && CoinsAt(cur, s + Puts(cur, s, outputs.value), mint, coin) == 7
            && !Conserved(cur, s + Puts(cur, s, outputs.value))
  {
    var cur, mint, wallet := Program(0), Program(1), Curve(0);
    var coin := CoinAddress(cur, mint, wallet);
    var s := OneHolder(cur, mint, wallet, wallet, 5);
    var refs :=
      [AccountRef(mint, false, false), AccountRef(wallet, false, true), AccountRef(coin, true, false),
       AccountRef(wallet, false, true), AccountRef(coin, true, false)];
    OneHolderConserves(cur, mint, wallet, wallet, 5);
    var env := CreateEnvironment(s, refs, cur, None);
    hide Conserved, Puts, Removes, Transferred;
    assert Contract(env, Instruct(Transfer(2))).Ok?;
    ContractEffect(cur, s, env, refs, Instruct(Transfer(2)));
    TransferEffect(cur, s, env, refs, 2);
    SelfTransferBalance(cur, s, s + Puts(cur, s, Contract(env, Instruct(Transfer(2))).value), mint, coin, 2);
  }

  lemma SelfTransferBalance(cur: Pubkey, s: Accounts, t: Accounts, mint: Pubkey, a: Pubkey, amount: U64)
    requires Transferred(cur, s, t, mint, a, a, amount)
    ensures CoinsAt(cur, t, mint, a) == SaturatingAdd(CoinsAt(cur, s, mint, a), amount)
  {
  }

  /** Failure two: with the supply at its maximum, one more coin for a new wallet is not counted. */
  lemma FullSupplyMakesCoins()
    ensures var cur, mint, rich, poor := Program(0), Program(1), Curve(0), Curve(1);
            var s := OneHolder(cur, mint, rich, rich, MAX_U64);
            var refs :=
              [AccountRef(mint, true, false), AccountRef(rich, false, true), AccountRef(poor, false, false),
               AccountRef(CoinAddress(cur, mint, poor), true, false)];
            var outputs := Contract(CreateEnvironment(s, refs, cur, None), Instruct(MintCoins(1)));
            outputs.Ok? && Conserved(cur, s) && !Conserved(cur, s + Puts(cur, s, outputs.value))
  {
    var cur, mint, rich, poor := Program(0), Program(1), Curve(0), Curve(1);
    var s := OneHolder(cur, mint, rich, rich, MAX_U64);
    var refs :=
      [AccountRef(mint, true, false), AccountRef(rich, false, true), AccountRef(poor, false, false),
       AccountRef(CoinAddress(cur, mint, poor), true, false)];
    OneHolderConserves(cur, mint, rich, rich, MAX_U64);
    var env := CreateEnvironment(s, refs, cur, None);
    hide Conserved, Puts, Removes;
    assert Contract(env, Instruct(MintCoins(1))).Ok?;
    ContractEffect(cur, s, env, refs, Instruct(MintCoins(1)));
  }

  lemma MovesAreSimple(env: Environment, amount: U64)
    ensures ProcessTransfer(env, amount).Ok? ==> forall o | o in ProcessTransfer(env, amount).value :: Simple(o)
    ensures ProcessBurn(env, amount).Ok? ==> forall o | o in ProcessBurn(env, amount).value :: Simple(o)
  {
    hide ReadCoinMint, ReadCoinAccount, SaturatingSub, SaturatingAdd;
  }

  lemma ContractIsSimple(env: Environment, params: Params)
    requires Contract(env, params).Ok?
    ensures forall o | o in Contract(env, params).value :: Simple(o)
  {
    hide ReadCoinMint, ReadCoinAccount, SaturatingSub, SaturatingAdd, ProcessTransfer, ProcessBurn;
    match params.instruction
    case Transfer(amount) => MovesAreSimple(env, amount);
    case Burn(amount) => MovesAreSimple(env, amount);
    case _ =>
  }

  /** A unit made for the Currency contract, at the top or nested. */
  ghost predicate CurrencyUnit(vm: Machine, cur: Pubkey, s: Accounts, unit: ExecutionUnit, refs: seq<AccountRef>) {
    && unit.contract == cur && unit.entrypoint == Native(cur)
    && unit.env == CreateEnvironment(s, refs, cur, unit.env.caller)
  }

  /** The accounts that a call of the contract puts. */
  function PutsOf(cur: Pubkey, s: Accounts, unit: ExecutionUnit): Accounts {
    match Contract(unit.env, unit.params)
    case Ok(outputs) => Puts(cur, s, outputs)
    case Err(_) => map[]
  }

  lemma UnitEffect(vm: Machine, cur: Pubkey, s: Accounts, unit: ExecutionUnit, refs: seq<AccountRef>, fuel: nat)
    requires Hosts(vm, cur) && CurrencyUnit(vm, cur, s, unit, refs) && Execute(vm, s, unit, fuel).Ok?
    ensures Contract(unit.env, unit.params).Ok?
    ensures forall o | o in Contract(unit.env, unit.params).value :: Simple(o) && Performed(cur, s, o)
    ensures var diff := Execute(vm, s, unit, fuel).value.diff;
            && diff.data == PutsOf(cur, s, unit) && OnlyDust(diff.data, diff.deletes)
            && (Conserved(cur, s) ==>
                  && (Conserved(cur, diff.Over(s)) <==> Safe(cur, s, unit.env, unit.params))
                  && NothingLost(cur, diff.Over(s)))
  {
    hide ProcessOutputs, Conserved, NothingLost, Safe, OnlyDust, Puts, Removes, Performed, Simple, Contract;
    var outputs := Contract(unit.env, unit.params).value;
    assert UnitOk(s, unit);
    ContractIsSimple(unit.env, unit.params);
    SimpleOutputs(vm, cur, s, unit, outputs, fuel);
    ContractEffect(cur, s, unit.env, refs, unit.params);
  }

  /** A transaction that calls the contract at the top conserves exactly when it is safe. */
  lemma CallConserves(vm: Machine, cur: Pubkey, s: Accounts, tx: Transaction, fuel: nat)
    requires Hosts(vm, cur) && tx.contract == cur && ExecuteTransaction(vm, s, tx, fuel).Ok? && Conserved(cur, s)
    ensures Conserved(cur, ExecuteTransaction(vm, s, tx, fuel).value.diff.Over(s))
      <==> Safe(cur, s, CreateEnvironment(s, tx.accounts, cur, None), tx.params)
  {
    var unit := NewUnit(vm, s, tx).value;
    hide Execute, Conserved, Safe;
    UnitEffect(vm, cur, s, unit, tx.accounts, fuel);
  }

  // ----- transactions that leave the contract alone

  lemma ForeignPut(vm: Machine, cur: Pubkey, s: Accounts, contract: Pubkey, a: Pubkey, account: Account, mint: Pubkey)
    requires contract != cur && LegalPut(vm, s, contract, a, account)
    ensures CoinsAt(cur, s[a := account], mint, a) == CoinsAt(cur, s, mint, a)
    ensures SupplyAt(cur, s[a := account], a) == SupplyAt(cur, s, a)
  {
  }

  /** Coins and supplies depend on nothing but the account at their address. */
  lemma LocalReads(cur: Pubkey, s: Accounts, t: Accounts, mint: Pubkey, a: Pubkey)
    requires Get(s, a) == Get(t, a)
    ensures CoinsAt(cur, s, mint, a) == CoinsAt(cur, t, mint, a) && SupplyAt(cur, s, a) == SupplyAt(cur, t, a)
  {
    assert a in s <==> a in t;
  }

  lemma ForeignAt(vm: Machine, cur: Pubkey, s: Accounts, out: TransactionOutput, a: Pubkey, mint: Pubkey)
    requires Accounted(vm, s, out) && forall w | w in out.writes :: w.contract != cur
    ensures CoinsAt(cur, out.diff.Over(s), mint, a) == CoinsAt(cur, s, mint, a)
    ensures SupplyAt(cur, out.diff.Over(s), a) == SupplyAt(cur, s, a)
  {
    hide LegalPut;
    var t := out.diff.Over(s);
    if a in out.diff.data {
      MergedFrom(out.writes, a);
      var w :| w in out.writes && a in w.diff.data && w.diff.data[a] == out.diff.data[a];
      assert LegalWrite(vm, s, w);
      ForeignPut(vm, cur, s, w.contract, a, out.diff.data[a], mint);
      LocalReads(cur, t, s[a := out.diff.data[a]], mint, a);
    } else {
      LocalReads(cur, t, s, mint, a);
    }
  }

  /** Contracts other than Currency cannot touch coins or supplies. */
  lemma ForeignIsNeutral(vm: Machine, cur: Pubkey, s: Accounts, tx: Transaction, fuel: nat)
    requires ExecuteTransaction(vm, s, tx, fuel).Ok?
    requires forall w | w in ExecuteTransaction(vm, s, tx, fuel).value.writes :: w.contract != cur
    ensures Neutral(cur, s, ExecuteTransaction(vm, s, tx, fuel).value.diff.Over(s))
  {
    var out := ExecuteTransaction(vm, s, tx, fuel).value;
    TransactionAccounted(vm, s, tx, fuel);
    hide ExecuteTransaction, CoinsAt, SupplyAt;
    forall m, a ensures CoinsAt(cur, out.diff.Over(s), m, a) == CoinsAt(cur, s, m, a) {
      ForeignAt(vm, cur, s, out, a, m);
    }
    forall m ensures SupplyAt(cur, out.diff.Over(s), m) == SupplyAt(cur, s, m) { ForeignAt(vm, cur, s, out, m, m); }
  }

  lemma NeutralToItself(cur: Pubkey, s: Accounts)
    ensures Neutral(cur, s, s)
  {
  }

  lemma BumpIsNeutral(cur: Pubkey, view: Accounts, payer: Pubkey)
    ensures Neutral(cur, view, view[payer := Bumped(view, payer)])
  {
  }
}
