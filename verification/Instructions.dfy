/** What each instruction of the Currency contract leaves, account by account and field by field
    (src/vm/builtin/currency.rs:185-573). */
module Instructions {
  import opened Primitives
  import opened State
  import opened Unit
  import opened Currency
  import opened Conservation

  /** The coin record that an account holds. */
  function CoinRecord(s: Accounts, a: Pubkey): Option<CoinAccount> {
    if a in s && s[a].data.Some? && s[a].data.value.CoinData? then Some(s[a].data.value.coin) else None
  }

  function MintRecord(s: Accounts, a: Pubkey): Option<Mint> {
    if a in s && s[a].data.Some? && s[a].data.value.MintData? then Some(s[a].data.value.mint) else None
  }

  /** The least of a sum and the largest balance. */
  function Capped(n: nat): U64 {
    if n > MAX_U64 then MAX_U64 else n
  }

  /** A wallet's account with more coins: its record grows, or it is opened with them. */
  function TopUp(cur: Pubkey, s: Accounts, mint: Pubkey, wallet: Pubkey, amount: U64): Account {
    var a := CoinAddress(cur, mint, wallet);
    match CoinRecord(s, a)
    case Some(coin) => s[a].(data := Some(CoinData(coin.(balance := Capped(coin.balance + amount)))))
    case None => Account(false, 0, Some(cur), Some(CoinData(CoinAccount(mint, wallet, amount))))
  }

  /** The outputs leave these accounts put and these deleted, and no others. */
  predicate Leaves(cur: Pubkey, s: Accounts, outputs: Outputs, puts: Accounts, deletes: set<Pubkey>) {
    outputs.Ok? && Puts(cur, s, outputs.value) == puts && Removes(outputs.value) == deletes
  }

  ghost predicate Succeeded(cur: Pubkey, s: Accounts, outputs: Outputs) {
    outputs.Ok? && forall o | o in outputs.value :: Performed(cur, s, o)
  }

  /** A new mint has exactly the given authority, decimals, name and symbol, and no supply. */
  lemma CreateLeaves(cur: Pubkey, s: Accounts, env: Environment, refs: seq<AccountRef>, seed: Pubkey,
        authority: Pubkey, decimals: nat, name: Option<string>, symbol: Option<string>)
    requires EnvOf(cur, s, env, refs) && Succeeded(cur, s, ProcessCreate(env, seed, authority, decimals, name, symbol))
    ensures var record := Mint(Some(authority), 0, decimals, name, symbol);
            Leaves(cur, s, ProcessCreate(env, seed, authority, decimals, name, symbol),
              map[cur.Derive([seed]) := Account(false, 0, Some(cur), Some(MintData(record)))], {})
  {
    var outputs := ProcessCreate(env, seed, authority, decimals, name, symbol).value;
    var create := CreateOwnedAccount(cur.Derive([seed]),
      Some(MintData(Mint(Some(authority), 0, decimals, name, symbol))));
    var logs := outputs[1..];
    assert outputs == [create] + logs;
    hide ProcessCreate, EnvOf;
    LogsChangeNothing(cur, s, logs, [create]);
    OneOutput(cur, s, create);
  }

  /** Only the supply of the mint and the recipient's coins change. */
  lemma MintLeaves(cur: Pubkey, s: Accounts, env: Environment, refs: seq<AccountRef>, amount: U64)
    requires EnvOf(cur, s, env, refs) && Succeeded(cur, s, ProcessMint(env, amount))
    ensures |refs| == 4 && MintRecord(s, refs[0].address).Some?
    ensures var mint, wallet := refs[0].address, refs[2].address;
            var record := MintRecord(s, mint).value;
            Leaves(cur, s, ProcessMint(env, amount),
              map[CoinAddress(cur, mint, wallet) := TopUp(cur, s, mint, wallet, amount),
                  mint := s[mint].(data := Some(MintData(record.(supply := Capped(record.supply + amount)))))], {})
  {
    var record, coin := MintShape(cur, s, env, refs, amount);
    hide ProcessMint, EnvOf, Shaped, Puts, Removes, Credit;
    var mint, wallet := refs[0].address, refs[2].address;
    var a := CoinAddress(cur, mint, wallet);
    var effects := MintEffects(cur, mint, wallet, record, coin, amount);
    ShapedEffects(cur, s, ProcessMint(env, amount).value, effects);
    assert effects[0] in effects;
    var credit := Credit(coin, a, mint, wallet, amount);
    var account := Credited(cur, s, [], a, mint, wallet, coin, amount);
    OneOutput(cur, s, credit);
    LastWrite(cur, s, [credit], mint, Some(MintData(record.(supply := SaturatingAdd(record.supply, amount)))));
    assert a != mint;
    CreditedIs(cur, s, mint, wallet, coin, amount, account);
  }

  lemma TransferExact(cur: Pubkey, s: Accounts, mint: Pubkey, sender: Pubkey, recipient: Pubkey, coin: CoinAccount,
        other: Option<CoinAccount>, amount: U64)
    requires CoinRead(cur, s, mint, sender, Some(coin)) && CoinRead(cur, s, mint, recipient, other)
    requires 0 < amount <= coin.balance
    requires Performed(cur, s, Debit(coin, CoinAddress(cur, mint, sender), coin.balance - amount)[0])
    requires Performed(cur, s, Credit(other, CoinAddress(cur, mint, recipient), mint, recipient, amount))
    ensures var a, b := CoinAddress(cur, mint, sender), CoinAddress(cur, mint, recipient);
            var effects := TransferEffects(cur, mint, sender, recipient, coin, other, amount);
            && CoinRecord(s, a) == Some(coin)
            && Puts(cur, s, effects)
               == map[a := s[a].(data := Some(CoinData(coin.(balance := coin.balance - amount))))]
                  [b := TopUp(cur, s, mint, recipient, amount)]
            && Removes(effects) == if coin.balance == amount && a != b then {a} else {}
  {
    hide Puts, Removes, Credit, Debit, CoinsAt, CoinRead, Performed, TopUp, CoinRecord, CoinAddress;
    var a, b, rest := CoinAddress(cur, mint, sender), CoinAddress(cur, mint, recipient), coin.balance - amount;
    var debit := Debit(coin, a, rest);
    OneOutput(cur, s, LogEntry("", Text("")));
    assert [] + debit == debit;
    var debited := Debited(cur, s, [], mint, sender, coin, rest);
    var credited := Credited(cur, s, debit, b, mint, recipient, other, amount);
    DebitedIs(cur, s, mint, sender, coin, rest, debited);
    CreditedIs(cur, s, mint, recipient, other, amount, credited);
  }

  lemma DebitedIs(cur: Pubkey, s: Accounts, mint: Pubkey, wallet: Pubkey, coin: CoinAccount, rest: U64,
        account: Account)
    requires CoinRead(cur, s, mint, wallet, Some(coin))
    requires account == s[CoinAddress(cur, mint, wallet)].(data := Some(CoinData(CoinAccount(mint, wallet, rest))))
    ensures var a := CoinAddress(cur, mint, wallet);
            CoinRecord(s, a) == Some(coin) && account == s[a].(data := Some(CoinData(coin.(balance := rest))))
  {
  }

  lemma CreditedIs(cur: Pubkey, s: Accounts, mint: Pubkey, wallet: Pubkey, coin: Option<CoinAccount>, amount: U64,
        account: Account)
    requires CoinRead(cur, s, mint, wallet, coin)
    requires Performed(cur, s, Credit(coin, CoinAddress(cur, mint, wallet), mint, wallet, amount))
    requires var a, data := CoinAddress(cur, mint, wallet),
                            Some(CoinData(CoinAccount(mint, wallet, SaturatingAdd(Held(coin), amount))));
             account == if a in s then s[a].(data := data) else Account(false, 0, Some(cur), data)
    ensures account == TopUp(cur, s, mint, wallet, amount)
  {
  }

  lemma TransferIncludes(cur: Pubkey, mint: Pubkey, sender: Pubkey, recipient: Pubkey, coin: CoinAccount,
        other: Option<CoinAccount>, amount: U64)
    requires amount <= coin.balance
    ensures var effects := TransferEffects(cur, mint, sender, recipient, coin, other, amount);
            && Debit(coin, CoinAddress(cur, mint, sender), coin.balance - amount)[0] in effects
            && Credit(other, CoinAddress(cur, mint, recipient), mint, recipient, amount) in effects
  {
    var effects := TransferEffects(cur, mint, sender, recipient, coin, other, amount);
    assert effects[0] in effects && effects[|effects| - 1] in effects;
  }

  /** The sender's coins fall by the amount, the recipient's rise; a sender's account that is emptied is deleted,
      unless it is the recipient's. */
  lemma TransferLeaves(cur: Pubkey, s: Accounts, env: Environment, refs: seq<AccountRef>, amount: U64)
    requires EnvOf(cur, s, env, refs) && Succeeded(cur, s, ProcessTransfer(env, amount))
    ensures |refs| == 5
    ensures var mint, sender, recipient := refs[0].address, refs[1].address, refs[3].address;
            var a, b := CoinAddress(cur, mint, sender), CoinAddress(cur, mint, recipient);
            && CoinRecord(s, a).Some? && amount <= CoinRecord(s, a).value.balance
            && var coin := CoinRecord(s, a).value;
               Leaves(cur, s, ProcessTransfer(env, amount),
                 map[a := s[a].(data := Some(CoinData(coin.(balance := coin.balance - amount))))]
                 [b := TopUp(cur, s, mint, recipient, amount)],
                 if coin.balance == amount && a != b then {a} else {})
  {
    hide ProcessTransfer, EnvOf, Shaped, Puts, Removes, CoinRead, CoinRecord, TopUp, Performed, CoinAddress;
    hide TransferEffects, Debit, Credit, Simple;
    var coin, other := TransferShape(cur, s, env, refs, amount);
    var mint, sender, recipient := refs[0].address, refs[1].address, refs[3].address;
    var effects := TransferEffects(cur, mint, sender, recipient, coin, other, amount);
    ShapedEffects(cur, s, ProcessTransfer(env, amount).value, effects);
    TransferIncludes(cur, mint, sender, recipient, coin, other, amount);
    TransferExact(cur, s, mint, sender, recipient, coin, other, amount);
  }

  lemma CoinIsNoMint(cur: Pubkey, s: Accounts, mint: Pubkey, wallet: Pubkey, record: Mint, coin: CoinAccount)
    requires MintRead(cur, s, mint, record) && CoinRead(cur, s, mint, wallet, Some(coin))
    ensures CoinAddress(cur, mint, wallet) != mint && MintRecord(s, mint) == Some(record)
  {
  }

  lemma BurnExact(cur: Pubkey, s: Accounts, mint: Pubkey, wallet: Pubkey, record: Mint, coin: CoinAccount, amount: U64)
    requires MintRead(cur, s, mint, record) && CoinRead(cur, s, mint, wallet, Some(coin)) && amount <= coin.balance
    requires Performed(cur, s, Debit(coin, CoinAddress(cur, mint, wallet), coin.balance - amount)[0])
    ensures var a, supply := CoinAddress(cur, mint, wallet), if record.supply < amount then 0
      else record.supply - amount;
            var effects := BurnEffects(cur, mint, wallet, record, coin, amount);
            && MintRecord(s, mint) == Some(record) && CoinRecord(s, a) == Some(coin)
            && Puts(cur, s, effects)
               == map[mint := s[mint].(data := Some(MintData(record.(supply := supply)))),
                      a := s[a].(data := Some(CoinData(coin.(balance := coin.balance - amount))))]
            && Removes(effects) == if coin.balance == amount then {a} else {}
  {
    hide Puts, Removes, Debit, CoinsAt, CoinRead, Performed, CoinRecord;
    var a, rest := CoinAddress(cur, mint, wallet), coin.balance - amount;
    var data := Some(MintData(record.(supply := SaturatingSub(record.supply, amount))));
    OneOutput(cur, s, WriteAccountData(mint, data));
    LastWrite(cur, s, [], mint, data);
    var debited := Debited(cur, s, [WriteAccountData(mint, data)], mint, wallet, coin, rest);
    DebitedIs(cur, s, mint, wallet, coin, rest, debited);
    CoinIsNoMint(cur, s, mint, wallet, record, coin);
  }

  lemma BurnIncludes(cur: Pubkey, mint: Pubkey, wallet: Pubkey, record: Mint, coin: CoinAccount, amount: U64)
    requires amount <= coin.balance
    ensures Debit(coin, CoinAddress(cur, mint, wallet), coin.balance - amount)[0]
      in BurnEffects(cur, mint, wallet, record, coin, amount)
  {
    var effects := BurnEffects(cur, mint, wallet, record, coin, amount);
    assert effects[1] == Debit(coin, CoinAddress(cur, mint, wallet), coin.balance - amount)[0] && effects[1] in effects;
  }

  /** The wallet's coins and the supply fall by the amount; an account that is emptied is deleted. */
  lemma BurnLeaves(cur: Pubkey, s: Accounts, env: Environment, refs: seq<AccountRef>, amount: U64)
    requires EnvOf(cur, s, env, refs) && Succeeded(cur, s, ProcessBurn(env, amount))
    ensures |refs| == 3 && MintRecord(s, refs[0].address).Some?
    ensures var mint := refs[0].address;
            var a, record := CoinAddress(cur, mint, refs[1].address), MintRecord(s, mint).value;
            && CoinRecord(s, a).Some? && amount <= CoinRecord(s, a).value.balance
            && var coin := CoinRecord(s, a).value;
               var supply := if record.supply < amount then 0 else record.supply - amount;
               Leaves(cur, s, ProcessBurn(env, amount),
                 map[mint := s[mint].(data := Some(MintData(record.(supply := supply)))),
                     a := s[a].(data := Some(CoinData(coin.(balance := coin.balance - amount))))],
                 if coin.balance == amount then {a} else {})
  {
    hide ProcessBurn, EnvOf, Shaped, Puts, Removes, CoinRead, CoinRecord, MintRead, MintRecord, Performed, CoinAddress;
    hide BurnEffects, Debit, Simple;
    var record, coin := BurnShape(cur, s, env, refs, amount);
    var mint, wallet := refs[0].address, refs[1].address;
    var effects := BurnEffects(cur, mint, wallet, record, coin, amount);
    ShapedEffects(cur, s, ProcessBurn(env, amount).value, effects);
    BurnIncludes(cur, mint, wallet, record, coin, amount);
    BurnExact(cur, s, mint, wallet, record, coin, amount);
  }

  /** Only the authority of the mint changes, to the given one. */
  lemma AuthorityLeaves(cur: Pubkey, s: Accounts, env: Environment, refs: seq<AccountRef>, authority: Option<Pubkey>)
    requires EnvOf(cur, s, env, refs) && Succeeded(cur, s, ProcessSetAuthority(env, authority))
    ensures |refs| == 2 && MintRecord(s, refs[0].address).Some?
    ensures var mint := refs[0].address;
            var record := MintRecord(s, mint).value;
            Leaves(cur, s, ProcessSetAuthority(env, authority),
              map[mint := s[mint].(data := Some(MintData(record.(authority := authority))))], {})
  {
    var record := AuthorityShape(cur, s, env, refs, authority);
    hide ProcessSetAuthority, EnvOf, Shaped, Puts, Removes;
    var mint, data := refs[0].address, Some(MintData(record.(authority := authority)));
    ShapedEffects(cur, s, ProcessSetAuthority(env, authority).value, [WriteAccountData(mint, data)]);
    OneOutput(cur, s, WriteAccountData(mint, data));
    LastWrite(cur, s, [], mint, data);
  }
}
