/** When the Currency contract accepts an instruction, and whose signature it needs. */
module Authority {
  import opened Primitives
  import opened State
  import opened Unit
  import opened BlockMachine
  import opened Currency
  import opened Conservation
  import opened Ledger
  import opened CallTree
  import opened Balance

  ghost predicate IsMint(cur: Pubkey, s: Accounts, mint: Pubkey) {
    exists record :: MintRead(cur, s, mint, record)
  }

  /** The account at `a` is the wallet's account for the mint, or may become it. */
  predicate Openable(cur: Pubkey, s: Accounts, mint: Pubkey, wallet: Pubkey, a: Pubkey) {
    && a == CoinAddress(cur, mint, wallet)
    && (a in s ==>
          && (s[a].owner == None || s[a].owner == Some(cur))
          && match s[a].data
             case None => true
             case Some(CoinData(coin)) => coin.mint == mint && coin.owner == wallet
             case _ => false)
  }

  /** It is, and holds at least the amount. */
  predicate Holds(cur: Pubkey, s: Accounts, mint: Pubkey, wallet: Pubkey, a: Pubkey, amount: U64) {
    Openable(cur, s, mint, wallet, a) && a in s && s[a].data.Some? && s[a].data.value.coin.balance >= amount
  }

  /** The mint's authority is the given account, and it signs. */
  ghost predicate Authorised(cur: Pubkey, s: Accounts, mint: Pubkey, authority: AccountRef) {
    authority.signer && exists record :: MintRead(cur, s, mint, record) && record.authority == Some(authority.address)
  }

  predicate NameOk(name: Option<string>, limit: nat) {
    name.Some? ==> 0 < |name.value| <= limit
  }

  // ----- acceptance

  lemma AcceptsCreate(cur: Pubkey, s: Accounts, env: Environment, refs: seq<AccountRef>, seed: Pubkey,
        authority: Pubkey, decimals: nat, name: Option<string>, symbol: Option<string>)
    requires EnvOf(cur, s, env, refs)
    ensures ProcessCreate(env, seed, authority, decimals, name, symbol).Ok? <==>
              && |refs| == 1 && refs[0].address == cur.Derive([seed])
              && (refs[0].address in s ==> s[refs[0].address].data == None && s[refs[0].address].owner == None)
              && NameOk(symbol, 10) && NameOk(name, 64) && decimals <= 20
  {
  }

  lemma ReadsMint(cur: Pubkey, s: Accounts, env: Environment, refs: seq<AccountRef>, i: nat)
    requires EnvOf(cur, s, env, refs) && i < |refs|
    ensures var read := ReadCoinMint(env.accounts[i].0, env.accounts[i].1, env);
            && (read.Ok? <==> IsMint(cur, s, refs[i].address))
            && (read.Ok? ==> MintRead(cur, s, refs[i].address, read.value))
  {
    var read := ReadCoinMint(env.accounts[i].0, env.accounts[i].1, env);
    if read.Ok? {
      ReadMint(cur, s, env, refs, i);
      assert MintRead(cur, s, refs[i].address, read.value);
    }
  }

  lemma ReadsCoin(cur: Pubkey, s: Accounts, env: Environment, refs: seq<AccountRef>, i: nat, mint: Pubkey,
        wallet: Pubkey)
    requires EnvOf(cur, s, env, refs) && i < |refs|
    ensures var a, read := refs[i].address, ReadCoinAccount(env.accounts[i].0, env.accounts[i].1, mint, wallet, env);
            && (read.Ok? <==> Openable(cur, s, mint, wallet, a))
            && (read.Ok? && read.value.Some? <==> Holds(cur, s, mint, wallet, a, 0))
            && (read.Ok? && read.value.Some? ==> s[a].data == Some(CoinData(read.value.value)))
  {
  }

  /** A mint is accepted exactly when the mint's authority signs and the recipient's account can take it. */
  lemma AcceptsMint(cur: Pubkey, s: Accounts, env: Environment, refs: seq<AccountRef>, amount: U64)
    requires EnvOf(cur, s, env, refs)
    ensures ProcessMint(env, amount).Ok? <==>
              && |refs| == 4 && amount > 0
              && Authorised(cur, s, refs[0].address, refs[1])
              && Openable(cur, s, refs[0].address, refs[2].address, refs[3].address)
  {
    if |refs| == 4 {
      ReadsMint(cur, s, env, refs, 0);
      ReadsCoin(cur, s, env, refs, 3, refs[0].address, refs[2].address);
    }
    hide ReadCoinMint, ReadCoinAccount, Openable;
  }

  /** A transfer is accepted exactly when the sender signs and holds the amount, and the recipient's
      account can take it. */
  lemma AcceptsTransfer(cur: Pubkey, s: Accounts, env: Environment, refs: seq<AccountRef>, amount: U64)
    requires EnvOf(cur, s, env, refs)
    ensures ProcessTransfer(env, amount).Ok? <==>
              && |refs| == 5 && amount > 0 && IsMint(cur, s, refs[0].address)
              && refs[1].signer && Holds(cur, s, refs[0].address, refs[1].address, refs[2].address, amount)
              && Openable(cur, s, refs[0].address, refs[3].address, refs[4].address)
  {
    if |refs| == 5 {
      ReadsMint(cur, s, env, refs, 0);
      ReadsCoin(cur, s, env, refs, 2, refs[0].address, refs[1].address);
      ReadsCoin(cur, s, env, refs, 4, refs[0].address, refs[3].address);
    }
    hide ReadCoinMint, ReadCoinAccount, Openable, IsMint;
  }

  /** A burn is accepted exactly when the wallet signs and holds the amount. */
  lemma AcceptsBurn(cur: Pubkey, s: Accounts, env: Environment, refs: seq<AccountRef>, amount: U64)
    requires EnvOf(cur, s, env, refs)
    ensures ProcessBurn(env, amount).Ok? <==>
              && |refs| == 3 && amount > 0 && IsMint(cur, s, refs[0].address)
              && refs[1].signer && Holds(cur, s, refs[0].address, refs[1].address, refs[2].address, amount)
  {
    if |refs| == 3 {
      ReadsMint(cur, s, env, refs, 0);
      ReadsCoin(cur, s, env, refs, 2, refs[0].address, refs[1].address);
    }
    hide ReadCoinMint, ReadCoinAccount, Openable, IsMint;
  }

  /** The authority changes exactly when the present one signs. */
  lemma AcceptsSetAuthority(cur: Pubkey, s: Accounts, env: Environment, refs: seq<AccountRef>,
        authority: Option<Pubkey>)
    requires EnvOf(cur, s, env, refs)
    ensures ProcessSetAuthority(env, authority).Ok? <==> |refs| == 2 && Authorised(cur, s, refs[0].address, refs[1])
  {
    if |refs| == 2 { ReadsMint(cur, s, env, refs, 0); }
    hide ReadCoinMint;
  }

  // ----- whose signature one call takes

  /** The call takes coins out of a wallet: it burns them or transfers them to another wallet. */
  predicate Debits(cur: Pubkey, u: ExecutionUnit) {
    var accounts := u.env.accounts;
    && u.contract == cur
    && match u.params
       case Instruct(Transfer(_)) => |accounts| == 5 && accounts[1].0 != accounts[3].0
       case Instruct(Burn(_)) => |accounts| == 3
       case _ => false
  }

  /** The account it takes them from. */
  function DebitedAt(cur: Pubkey, u: ExecutionUnit): Pubkey
    requires Debits(cur, u)
  {
    CoinAddress(cur, u.env.accounts[0].0, u.env.accounts[1].0)
  }

  /** The call mints coins. */
  predicate Issues(cur: Pubkey, u: ExecutionUnit) {
    u.contract == cur && u.params.Instruct? && u.params.instruction.MintCoins? && |u.env.accounts| == 4
  }

  predicate DebitsFrom(cur: Pubkey, u: ExecutionUnit, mint: Pubkey, a: Pubkey) {
    Debits(cur, u) && u.env.accounts[0].0 == mint && DebitedAt(cur, u) == a
  }

  predicate IssuesOf(cur: Pubkey, u: ExecutionUnit, mint: Pubkey) {
    Issues(cur, u) && u.env.accounts[0].0 == mint
  }

  /** What one call does to the coins at a and to the supply of a mint, and whose flag it was given. */
  ghost predicate Charges(cur: Pubkey, s: Accounts, t: Accounts, u: ExecutionUnit, mint: Pubkey, a: Pubkey) {
    && (CoinsAt(cur, t, mint, a) < CoinsAt(cur, s, mint, a) <==> DebitsFrom(cur, u, mint, a))
    && (SupplyAt(cur, t, mint) > SupplyAt(cur, s, mint) <==> IssuesOf(cur, u, mint) && SupplyAt(cur, s, mint) < MAX_U64)
    && (Debits(cur, u) || Issues(cur, u) ==> u.env.accounts[1].1.signer)
    && (Issues(cur, u) ==> Appoints(cur, s, u.env.accounts[0].0, u.env.accounts[1].0))
  }

  /** The account is the mint's authority. */
  ghost predicate Appoints(cur: Pubkey, s: Accounts, mint: Pubkey, authority: Pubkey) {
    exists record :: MintRead(cur, s, mint, record) && record.authority == Some(authority)
  }

  lemma NeutralCharges(cur: Pubkey, s: Accounts, t: Accounts, u: ExecutionUnit, mint: Pubkey, a: Pubkey)
    requires Neutral(cur, s, t) && !Debits(cur, u) && !Issues(cur, u)
    ensures Charges(cur, s, t, u, mint, a)
  {
    hide CoinsAt, SupplyAt, Debits, Issues;
  }

  lemma MintCharges(cur: Pubkey, s: Accounts, t: Accounts, u: ExecutionUnit, credited: Pubkey, amount: U64,
        mint: Pubkey, a: Pubkey)
    requires Issues(cur, u) && u.env.accounts[1].1.signer && Appoints(cur, s, u.env.accounts[0].0, u.env.accounts[1].0)
    requires amount > 0 && Minted(cur, s, t, u.env.accounts[0].0, credited, amount)
    ensures Charges(cur, s, t, u, mint, a)
  {
    hide CoinsAt, SupplyAt, Appoints;
  }

  lemma TransferCharges(cur: Pubkey, s: Accounts, t: Accounts, u: ExecutionUnit, amount: U64, mint: Pubkey, a: Pubkey)
    requires u.contract == cur && u.params == Instruct(Transfer(amount)) && |u.env.accounts| == 5
      && u.env.accounts[1].1.signer
    requires var accounts := u.env.accounts;
             Transferred(cur, s, t, accounts[0].0, CoinAddress(cur, accounts[0].0, accounts[1].0),
                         CoinAddress(cur, accounts[0].0, accounts[3].0), amount)
    ensures Charges(cur, s, t, u, mint, a)
  {
    SupplyFits(cur, s, mint);
    hide CoinsAt, SupplyAt;
    assert SupplyAt(cur, t, mint) == SupplyAt(cur, s, mint);
  }

  lemma BurnCharges(cur: Pubkey, s: Accounts, t: Accounts, u: ExecutionUnit, amount: U64, mint: Pubkey, a: Pubkey)
    requires u.contract == cur && u.params == Instruct(Burn(amount)) && |u.env.accounts| == 3
      && u.env.accounts[1].1.signer
    requires amount > 0
    requires var accounts := u.env.accounts;
             Burned(cur, s, t, accounts[0].0, CoinAddress(cur, accounts[0].0, accounts[1].0), amount)
    ensures Charges(cur, s, t, u, mint, a)
  {
    hide CoinsAt, SupplyAt;
    assert SupplyAt(cur, t, mint) <= SupplyAt(cur, s, mint);
  }

  /** Coins fall exactly at the account that the call debits, and a supply grows exactly when the call
      issues coins; either way the call was given the flag of the wallet or of the authority. */
  lemma CallCharges(vm: Machine, cur: Pubkey, s: Accounts, u: ExecutionUnit, refs: seq<AccountRef>, fuel: nat,
        mint: Pubkey, a: Pubkey)
    requires Hosts(vm, cur) && Ran(vm, s, u, refs, fuel) && u.contract == cur
    ensures Charges(cur, s, s + PutsOf(cur, s, u), u, mint, a)
  {
    hide ProcessCreate, ProcessMint, ProcessTransfer, ProcessBurn, ProcessSetAuthority, Performed, EnvOf, CoinsAt,
      SupplyAt, Puts, Removes;
    hide Authorised, Openable, Holds, IsMint, Minted, Transferred, Burned, Conserved, Safe, Neutral, Charges, Execute;
    UnitEffect(vm, cur, s, u, refs, fuel);
    var env, t := u.env, s + PutsOf(cur, s, u);
    MadeForCall(cur, s, u, refs);
    EnvNames(cur, s, env, refs);
    match u.params.instruction
    case Create(_, _, _, _, _) =>
      CreateEffect(cur, s, env, refs, u.params.instruction);
      NeutralCharges(cur, s, t, u, mint, a);
    case MintCoins(amount) =>
      MintEffect(cur, s, env, refs, amount);
      AcceptsMint(cur, s, env, refs, amount);
      AuthorisedAppoints(cur, s, refs[0].address, refs[1]);
      MintCharges(cur, s, t, u, CoinAddress(cur, refs[0].address, refs[2].address), amount, mint, a);
    case Transfer(amount) =>
      TransferEffect(cur, s, env, refs, amount);
      AcceptsTransfer(cur, s, env, refs, amount);
      TransferCharges(cur, s, t, u, amount, mint, a);
    case Burn(amount) =>
      BurnEffect(cur, s, env, refs, amount);
      AcceptsBurn(cur, s, env, refs, amount);
      BurnCharges(cur, s, t, u, amount, mint, a);
    case SetAuthority(authority) =>
      AuthorityEffect(cur, s, env, refs, authority);
      NeutralCharges(cur, s, t, u, mint, a);
  }

  lemma MadeForCall(cur: Pubkey, s: Accounts, u: ExecutionUnit, refs: seq<AccountRef>)
    requires u.contract == cur && u.env == CreateEnvironment(s, refs, u.contract, u.env.caller)
    ensures EnvOf(cur, s, u.env, refs)
  {
  }

  lemma AuthorisedAppoints(cur: Pubkey, s: Accounts, mint: Pubkey, ref: AccountRef)
    ensures Authorised(cur, s, mint, ref) <==> ref.signer && Appoints(cur, s, mint, ref.address)
  {
  }

  // ----- whose signature a transaction takes

  /** Those whose signatures a transaction carries: its payer and the accounts that it lists as signers. */
  predicate Signs(tx: Transaction, key: Pubkey) {
    key == tx.payer || exists ref :: ref in tx.accounts && ref.signer && ref.address == key
  }

  /** Coins at a shrink only if the wallet signed, and the supply grows only if the authority signed. */
  ghost predicate SignedFor(cur: Pubkey, s: Accounts, t: Accounts, tx: Transaction, mint: Pubkey, a: Pubkey) {
    && (CoinsAt(cur, t, mint, a) < CoinsAt(cur, s, mint, a) ==>
          exists wallet :: Signs(tx, wallet) && a == CoinAddress(cur, mint, wallet))
    && (SupplyAt(cur, t, mint) > SupplyAt(cur, s, mint) ==>
          exists authority :: Signs(tx, authority) && Appoints(cur, s, mint, authority))
  }

  /** Where the i-th call has the last word on an account that it debits, or on a mint whose supply it
      raises, it was given the flag of somebody who signs the transaction. */
  ghost predicate Honoured(cur: Pubkey, s: Accounts, calls: seq<ExecutionUnit>, tx: Transaction, i: nat)
    requires i < |calls|
  {
    var u := calls[i];
    && (Debits(cur, u) && Decides(cur, s, calls, i, DebitedAt(cur, u)) ==> Signs(tx, u.env.accounts[1].0))
    && (Issues(cur, u) ==>
          var mint := u.env.accounts[0].0;
          Decides(cur, s, calls, i, mint) && SupplyAt(cur, s, mint) < MAX_U64 ==> Signs(tx, u.env.accounts[1].0))
  }

  ghost predicate FlagsHonoured(cur: Pubkey, s: Accounts, calls: seq<ExecutionUnit>, tx: Transaction) {
    forall i | 0 <= i < |calls| :: Honoured(cur, s, calls, tx, i)
  }

  lemma CoinsNeedOwner(cur: Pubkey, s: Accounts, mint: Pubkey, a: Pubkey)
    ensures CoinsAt(cur, s, mint, a) > 0 ==> a in s && s[a].owner == Some(cur) && !a.HasPrivateKey()
  {
  }

  /** The final state at one address: as before, or as the deciding call left it. */
  lemma FinalAt(vm: Machine, cur: Pubkey, s: Accounts, tx: Transaction, fuel: nat, a: Pubkey, mint: Pubkey)
    requires Hosts(vm, cur) && ExecuteTransaction(vm, s, tx, fuel).Ok?
    ensures var out, calls := ExecuteTransaction(vm, s, tx, fuel).value, CallsOf(cur, UnitsOf(vm, s, tx, fuel));
            var t, t' := out.diff.Over(s), s + CallPuts(cur, s, calls);
            || (CoinsAt(cur, t, mint, a) == CoinsAt(cur, t', mint, a) && SupplyAt(cur, t, a) == SupplyAt(cur, t', a))
            || (CoinsAt(cur, t, mint, a) == CoinsAt(cur, s, mint, a) && SupplyAt(cur, t, a) == SupplyAt(cur, s, a)
                && (a in s && !a.HasPrivateKey() ==> s[a].owner != Some(cur)))
  {
    hide Execute, CoinsAt, SupplyAt, CallPuts, CallsOf, Overruled;
    var out := ExecuteTransaction(vm, s, tx, fuel).value;
    ExecuteHolds(vm, cur, s, NewUnit(vm, s, tx).value, tx.accounts, fuel, a);
    TransactionAccounted(vm, s, tx, fuel);
    if Overruled(cur, out, a) {
      OverruledIsForeign(vm, cur, s, out, a, mint);
    } else {
      LocalReads(cur, out.diff.Over(s), s + CallPuts(cur, s, CallsOf(cur, UnitsOf(vm, s, tx, fuel))), mint, a);
    }
  }

  /** A call of the transaction and what it charges. */
  lemma NthCall(vm: Machine, cur: Pubkey, s: Accounts, tx: Transaction, fuel: nat, i: nat, mint: Pubkey, a: Pubkey)
    requires Hosts(vm, cur) && ExecuteTransaction(vm, s, tx, fuel).Ok?
    requires i < |CallsOf(cur, UnitsOf(vm, s, tx, fuel))|
    ensures var u := CallsOf(cur, UnitsOf(vm, s, tx, fuel))[i];
            Charges(cur, s, s + PutsOf(cur, s, u), u, mint, a)
  {
    hide ExecuteTransaction, UnitsOf, CallsOf, Charges, Ran;
    var units := UnitsOf(vm, s, tx, fuel);
    var u := CallsOf(cur, units)[i];
    UnitsOfRan(vm, s, tx, fuel);
    CallsAreUnits(cur, units, u);
    var refs, f :| Ran(vm, s, u, refs, f);
    CallCharges(vm, cur, s, u, refs, f, mint, a);
  }

  /** Coins at a fall exactly when the call that decides on a debits it. */
  lemma CoinsFall(vm: Machine, cur: Pubkey, s: Accounts, tx: Transaction, fuel: nat, mint: Pubkey, a: Pubkey)
    requires Hosts(vm, cur) && ExecuteTransaction(vm, s, tx, fuel).Ok?
    ensures var calls := CallsOf(cur, UnitsOf(vm, s, tx, fuel));
            CoinsAt(cur, ExecuteTransaction(vm, s, tx, fuel).value.diff.Over(s), mint, a) < CoinsAt(cur, s, mint, a)
            <==> exists i: nat :: Decides(cur, s, calls, i, a) && DebitsFrom(cur, calls[i], mint, a)
  {
    hide ExecuteTransaction, UnitsOf, CallsOf, CoinsAt, SupplyAt, PutsOf, DebitsFrom, CallPuts, IssuesOf, Appoints,
      Debits, Issues;
    var calls, t := CallsOf(cur, UnitsOf(vm, s, tx, fuel)), ExecuteTransaction(vm, s, tx, fuel).value.diff.Over(s);
    FinalAt(vm, cur, s, tx, fuel, a, mint);
    CoinsNeedOwner(cur, s, mint, a);
    if CoinsAt(cur, t, mint, a) < CoinsAt(cur, s, mint, a) {
      if a in CallPuts(cur, s, calls) {
        DeciderDecides(cur, s, calls, a);
        var i := Decider(cur, s, calls, a);
        NthCall(vm, cur, s, tx, fuel, i, mint, a);
        LocalReads(cur, s + CallPuts(cur, s, calls), s + PutsOf(cur, s, calls[i]), mint, a);
      } else {
        LocalReads(cur, s + CallPuts(cur, s, calls), s, mint, a);
      }
    }
    forall i: nat | Decides(cur, s, calls, i, a) && DebitsFrom(cur, calls[i], mint, a)
      ensures CoinsAt(cur, t, mint, a) < CoinsAt(cur, s, mint, a)
    {
      NthCall(vm, cur, s, tx, fuel, i, mint, a);
      DecidesPuts(cur, s, calls, i, a);
      LocalReads(cur, s + CallPuts(cur, s, calls), s + PutsOf(cur, s, calls[i]), mint, a);
    }
  }

  lemma IssuedIsOwned(cur: Pubkey, s: Accounts, u: ExecutionUnit, mint: Pubkey)
    requires Charges(cur, s, s + PutsOf(cur, s, u), u, mint, mint) && IssuesOf(cur, u, mint)
    ensures mint in s && s[mint].owner == Some(cur) && !mint.HasPrivateKey()
  {
  }

  /** A supply that is not full grows exactly when the call that decides on the mint issues coins. */
  lemma SupplyGrows(vm: Machine, cur: Pubkey, s: Accounts, tx: Transaction, fuel: nat, mint: Pubkey)
    requires Hosts(vm, cur) && ExecuteTransaction(vm, s, tx, fuel).Ok?
    ensures var calls := CallsOf(cur, UnitsOf(vm, s, tx, fuel));
            SupplyAt(cur, ExecuteTransaction(vm, s, tx, fuel).value.diff.Over(s), mint) > SupplyAt(cur, s, mint)
            <==> SupplyAt(cur, s, mint) < MAX_U64
                 && exists i: nat :: Decides(cur, s, calls, i, mint) && IssuesOf(cur, calls[i], mint)
  {
    hide ExecuteTransaction, UnitsOf, CallsOf, CoinsAt, SupplyAt, PutsOf, DebitsFrom, CallPuts, IssuesOf, Debits,
      Issues;
    var calls, t := CallsOf(cur, UnitsOf(vm, s, tx, fuel)), ExecuteTransaction(vm, s, tx, fuel).value.diff.Over(s);
    FinalAt(vm, cur, s, tx, fuel, mint, mint);
    if SupplyAt(cur, t, mint) > SupplyAt(cur, s, mint) {
      if mint in CallPuts(cur, s, calls) {
        DeciderDecides(cur, s, calls, mint);
        var i := Decider(cur, s, calls, mint);
        NthCall(vm, cur, s, tx, fuel, i, mint, mint);
        LocalReads(cur, s + CallPuts(cur, s, calls), s + PutsOf(cur, s, calls[i]), mint, mint);
      } else {
        LocalReads(cur, s + CallPuts(cur, s, calls), s, mint, mint);
      }
    }
    if SupplyAt(cur, s, mint) < MAX_U64 {
      forall i: nat | Decides(cur, s, calls, i, mint) && IssuesOf(cur, calls[i], mint)
        ensures SupplyAt(cur, t, mint) > SupplyAt(cur, s, mint)
      {
        NthCall(vm, cur, s, tx, fuel, i, mint, mint);
        IssuedIsOwned(cur, s, calls[i], mint);
        DecidesPuts(cur, s, calls, i, mint);
        LocalReads(cur, s + CallPuts(cur, s, calls), s + PutsOf(cur, s, calls[i]), mint, mint);
      }
    }
  }

  lemma CoinAddressNames(cur: Pubkey, mint: Pubkey, wallet: Pubkey, other: Pubkey)
    ensures CoinAddress(cur, mint, wallet) == CoinAddress(cur, mint, other) <==> wallet == other
  {
    assert [mint, wallet][1] == wallet && [mint, other][1] == other;
  }

  /** At any nesting depth: a balance shrinks only through a Currency call that was given the flag of its
      wallet, and a supply grows only through one that was given the flag of its authority. */
  lemma SpentByFlag(vm: Machine, cur: Pubkey, s: Accounts, tx: Transaction, fuel: nat, mint: Pubkey, a: Pubkey)
    requires Hosts(vm, cur) && ExecuteTransaction(vm, s, tx, fuel).Ok?
    ensures var calls, t := CallsOf(cur, UnitsOf(vm, s, tx, fuel)),
      ExecuteTransaction(vm, s, tx, fuel).value.diff.Over(s);
            && (CoinsAt(cur, t, mint, a) < CoinsAt(cur, s, mint, a) ==>
                  exists u :: u in calls && DebitsFrom(cur, u, mint, a) && u.env.accounts[1].1.signer)
            && (SupplyAt(cur, t, mint) > SupplyAt(cur, s, mint) ==>
                  exists u :: u in calls && IssuesOf(cur, u, mint) && u.env.accounts[1].1.signer
                    && Appoints(cur, s, mint, u.env.accounts[1].0))
  {
    hide ExecuteTransaction, UnitsOf, CallsOf, CoinsAt, SupplyAt, PutsOf, CallPuts, Appoints;
    var calls, t := CallsOf(cur, UnitsOf(vm, s, tx, fuel)), ExecuteTransaction(vm, s, tx, fuel).value.diff.Over(s);
    CoinsFall(vm, cur, s, tx, fuel, mint, a);
    SupplyGrows(vm, cur, s, tx, fuel, mint);
    if CoinsAt(cur, t, mint, a) < CoinsAt(cur, s, mint, a) {
      var i: nat :| Decides(cur, s, calls, i, a) && DebitsFrom(cur, calls[i], mint, a);
      NthCall(vm, cur, s, tx, fuel, i, mint, a);
      assert calls[i] in calls;
    }
    if SupplyAt(cur, t, mint) > SupplyAt(cur, s, mint) {
      var i: nat :| Decides(cur, s, calls, i, mint) && IssuesOf(cur, calls[i], mint);
      NthCall(vm, cur, s, tx, fuel, i, mint, mint);
      assert calls[i] in calls;
    }
  }

  lemma SupplySigned(vm: Machine, cur: Pubkey, s: Accounts, tx: Transaction, fuel: nat, i: nat)
    requires Hosts(vm, cur) && ExecuteTransaction(vm, s, tx, fuel).Ok?
    requires i < |CallsOf(cur, UnitsOf(vm, s, tx, fuel))| && Issues(cur, CallsOf(cur, UnitsOf(vm, s, tx, fuel))[i])
    ensures var accounts := CallsOf(cur, UnitsOf(vm, s, tx, fuel))[i].env.accounts;
            Signs(tx, accounts[1].0)
            <==> exists authority :: Signs(tx, authority) && Appoints(cur, s, accounts[0].0, authority)
  {
    hide ExecuteTransaction, UnitsOf, CallsOf, Signs;
    var accounts := CallsOf(cur, UnitsOf(vm, s, tx, fuel))[i].env.accounts;
    NthCall(vm, cur, s, tx, fuel, i, accounts[0].0, accounts[0].0);
  }

  /** Exactly when a transaction spends and issues coins only with the signatures of those concerned:
      when the calls that have the last word were given no flag but those of the transaction's signers. */
  lemma TransactionSignedFor(vm: Machine, cur: Pubkey, s: Accounts, tx: Transaction, fuel: nat)
    requires Hosts(vm, cur) && ExecuteTransaction(vm, s, tx, fuel).Ok?
    ensures var t := ExecuteTransaction(vm, s, tx, fuel).value.diff.Over(s);
            (forall mint, a :: SignedFor(cur, s, t, tx, mint, a))
            <==> FlagsHonoured(cur, s, CallsOf(cur, UnitsOf(vm, s, tx, fuel)), tx)
  {
    hide ExecuteTransaction, UnitsOf, CallsOf, CoinsAt, SupplyAt, PutsOf, CallPuts, Authorised, Decides, Signs;
    var calls, t := CallsOf(cur, UnitsOf(vm, s, tx, fuel)), ExecuteTransaction(vm, s, tx, fuel).value.diff.Over(s);
    if FlagsHonoured(cur, s, calls, tx) {
      forall mint, a ensures SignedFor(cur, s, t, tx, mint, a) {
        HonouredSigns(vm, cur, s, tx, fuel, mint, a);
      }
    }
    if forall mint, a :: SignedFor(cur, s, t, tx, mint, a) {
      forall i | 0 <= i < |calls| ensures Honoured(cur, s, calls, tx, i) {
        SignedHonours(vm, cur, s, tx, fuel, i);
      }
    }
  }

  lemma HonouredSigns(vm: Machine, cur: Pubkey, s: Accounts, tx: Transaction, fuel: nat, mint: Pubkey, a: Pubkey)
    requires Hosts(vm, cur) && ExecuteTransaction(vm, s, tx, fuel).Ok?
    requires FlagsHonoured(cur, s, CallsOf(cur, UnitsOf(vm, s, tx, fuel)), tx)
    ensures SignedFor(cur, s, ExecuteTransaction(vm, s, tx, fuel).value.diff.Over(s), tx, mint, a)
  {
    hide ExecuteTransaction, UnitsOf, CallsOf, CoinsAt, SupplyAt, PutsOf, CallPuts, Authorised;
    var calls, t := CallsOf(cur, UnitsOf(vm, s, tx, fuel)), ExecuteTransaction(vm, s, tx, fuel).value.diff.Over(s);
    CoinsFall(vm, cur, s, tx, fuel, mint, a);
    SupplyGrows(vm, cur, s, tx, fuel, mint);
    if CoinsAt(cur, t, mint, a) < CoinsAt(cur, s, mint, a) {
      var i: nat :| Decides(cur, s, calls, i, a) && DebitsFrom(cur, calls[i], mint, a);
      assert Honoured(cur, s, calls, tx, i);
    }
    if SupplyAt(cur, t, mint) > SupplyAt(cur, s, mint) {
      var i: nat :| Decides(cur, s, calls, i, mint) && IssuesOf(cur, calls[i], mint);
      assert Honoured(cur, s, calls, tx, i);
      SupplySigned(vm, cur, s, tx, fuel, i);
    }
  }

  lemma SignedHonours(vm: Machine, cur: Pubkey, s: Accounts, tx: Transaction, fuel: nat, i: nat)
    requires Hosts(vm, cur) && ExecuteTransaction(vm, s, tx, fuel).Ok?
    requires forall mint, a ::
      SignedFor(cur, s, ExecuteTransaction(vm, s, tx, fuel).value.diff.Over(s), tx, mint, a)
    requires i < |CallsOf(cur, UnitsOf(vm, s, tx, fuel))|
    ensures Honoured(cur, s, CallsOf(cur, UnitsOf(vm, s, tx, fuel)), tx, i)
  {
    hide ExecuteTransaction, UnitsOf, CallsOf, CoinsAt, SupplyAt, PutsOf, CallPuts, Authorised, Decides, CoinAddress;
    var calls, t := CallsOf(cur, UnitsOf(vm, s, tx, fuel)), ExecuteTransaction(vm, s, tx, fuel).value.diff.Over(s);
    var accounts := calls[i].env.accounts;
    if Debits(cur, calls[i]) && Decides(cur, s, calls, i, DebitedAt(cur, calls[i])) {
      var a := DebitedAt(cur, calls[i]);
      CoinsFall(vm, cur, s, tx, fuel, accounts[0].0, a);
      assert DebitsFrom(cur, calls[i], accounts[0].0, a);
      assert SignedFor(cur, s, t, tx, accounts[0].0, a);
      var wallet :| Signs(tx, wallet) && a == CoinAddress(cur, accounts[0].0, wallet);
      CoinAddressNames(cur, accounts[0].0, accounts[1].0, wallet);
    }
    if Issues(cur, calls[i]) && Decides(cur, s, calls, i, accounts[0].0) && SupplyAt(cur, s, accounts[0].0) < MAX_U64 {
      SupplyGrows(vm, cur, s, tx, fuel, accounts[0].0);
      assert IssuesOf(cur, calls[i], accounts[0].0);
      assert SignedFor(cur, s, t, tx, accounts[0].0, accounts[0].0);
      SupplySigned(vm, cur, s, tx, fuel, i);
    }
  }

  /** Enough for that: every flag that a Currency call was given is the flag of a signer of the transaction. */
  lemma BackedFlagsAreHonoured(cur: Pubkey, s: Accounts, calls: seq<ExecutionUnit>, tx: Transaction)
    requires forall i | 0 <= i < |calls| && (Debits(cur, calls[i]) || Issues(cur, calls[i])) ::
      calls[i].env.accounts[1].1.signer
    requires forall u, j | u in calls && 0 <= j < |u.env.accounts| && u.env.accounts[j].1.signer ::
      Signs(tx, u.env.accounts[j].0)
    ensures FlagsHonoured(cur, s, calls, tx)
  {
    hide Decides, Signs;
    forall i | 0 <= i < |calls| && (Debits(cur, calls[i]) || Issues(cur, calls[i]))
      ensures Signs(tx, calls[i].env.accounts[1].0)
    {
      assert calls[i] in calls;
    }
  }

  /** A call of Currency at the top has only the flags of the transaction's signers. */
  lemma TopCallIsHonoured(vm: Machine, cur: Pubkey, s: Accounts, tx: Transaction, fuel: nat)
    requires Hosts(vm, cur) && tx.contract == cur && ExecuteTransaction(vm, s, tx, fuel).Ok?
    ensures FlagsHonoured(cur, s, CallsOf(cur, UnitsOf(vm, s, tx, fuel)), tx)
  {
    TopCallIsOnly(vm, cur, s, tx, fuel);
    var unit := NewUnit(vm, s, tx).value;
    hide ExecuteTransaction, UnitsOf, CallsOf, Decides, Charges;
    var calls := CallsOf(cur, UnitsOf(vm, s, tx, fuel));
    assert calls == [unit];
    NthCall(vm, cur, s, tx, fuel, 0, cur, cur);
    ChargesNeedFlag(cur, s, unit);
    forall u, j | u in calls && 0 <= j < |u.env.accounts| && u.env.accounts[j].1.signer
      ensures Signs(tx, u.env.accounts[j].0)
    {
      assert tx.accounts[j] in tx.accounts;
    }
    BackedFlagsAreHonoured(cur, s, calls, tx);
  }

  lemma ChargesNeedFlag(cur: Pubkey, s: Accounts, u: ExecutionUnit)
    requires Charges(cur, s, s + PutsOf(cur, s, u), u, cur, cur)
    ensures Debits(cur, u) || Issues(cur, u) ==> u.env.accounts[1].1.signer
  {
  }

  // ----- whole runs

  /** A transaction that fails or whose Currency calls honour its signatures. */
  ghost predicate Honest(vm: Machine, cur: Pubkey, view: Accounts, tx: Transaction, fuel: nat) {
    var s := view[tx.payer := Bumped(view, tx.payer)];
    ExecuteTransaction(vm, s, tx, fuel).Err?
      || FlagsHonoured(cur, s, CallsOf(cur, UnitsOf(vm, s, tx, fuel)), tx)
  }

  lemma StepSigned(vm: Machine, cur: Pubkey, view: Accounts, tx: Transaction, fuel: nat, mint: Pubkey, a: Pubkey)
    requires Hosts(vm, cur) && Honest(vm, cur, view, tx, fuel)
    requires CoinsAt(cur, ViewAfter(vm, view, tx, fuel), mint, a) < CoinsAt(cur, view, mint, a)
    ensures exists wallet :: Signs(tx, wallet) && a == CoinAddress(cur, mint, wallet)
  {
    hide ExecuteTransaction, CoinsAt, SupplyAt, FlagsHonoured, UnitsOf, CallsOf;
    var s := view[tx.payer := Bumped(view, tx.payer)];
    BumpIsNeutral(cur, view, tx.payer);
    if ExecuteTransaction(vm, s, tx, fuel).Ok? {
      HonouredSigns(vm, cur, s, tx, fuel, mint, a);
    }
  }

  /** Over any run of honest transactions, a wallet loses coins only if it signed one of them. */
  lemma {:induction false} SpentOnlyBySigning(vm: Machine, cur: Pubkey, view: Accounts, txs: seq<Transaction>,
        fuel: nat, mint: Pubkey, a: Pubkey)
    requires Hosts(vm, cur)
    requires forall i | 0 <= i < |txs| :: Honest(vm, cur, ViewsAfter(vm, view, txs[..i], fuel), txs[i], fuel)
    requires CoinsAt(cur, ViewsAfter(vm, view, txs, fuel), mint, a) < CoinsAt(cur, view, mint, a)
    ensures exists tx, wallet :: tx in txs && Signs(tx, wallet) && a == CoinAddress(cur, mint, wallet)
  {
    hide Honest, ViewAfter, CoinsAt, Signs;
    var n := |txs| - 1;
    var before := ViewsAfter(vm, view, txs[..n], fuel);
    if CoinsAt(cur, ViewsAfter(vm, view, txs, fuel), mint, a) < CoinsAt(cur, before, mint, a) {
      StepSigned(vm, cur, before, txs[n], fuel, mint, a);
      assert txs[n] in txs;
    } else {
      forall i | 0 <= i < n ensures Honest(vm, cur, ViewsAfter(vm, view, txs[..n][..i], fuel), txs[..n][i], fuel) {
        assert txs[..n][..i] == txs[..i];
      }
      SpentOnlyBySigning(vm, cur, view, txs[..n], fuel, mint, a);
      var tx, wallet :| tx in txs[..n] && Signs(tx, wallet) && a == CoinAddress(cur, mint, wallet);
      assert tx in txs;
    }
  }
}
