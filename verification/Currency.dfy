/** The native Currency contract (src/vm/builtin/currency.rs). */
module Currency {
  import opened Primitives
  import opened State
  import opened Unit

  function SaturatingAdd(a: U64, b: U64): U64 {
    if a + b > MAX_U64 then MAX_U64 else a + b
  }

  function SaturatingSub(a: U64, b: U64): U64 {
    if a < b then 0 else a - b
  }

  function CoinAddress(currency: Pubkey, mint: Pubkey, wallet: Pubkey): Pubkey {
    currency.Derive([mint, wallet])
  }

  /** `read_coin_mint`: an off-curve account of the contract that holds a mint. */
  function ReadCoinMint(address: Pubkey, account: AccountView, env: Environment): Result<Mint, ContractError> {
    if address.HasPrivateKey() then Err(InvalidInputAccounts)
    else if account.owner != Some(env.address) then Err(InvalidAccountOwner)
    else
      match account.data
      case Some(MintData(mint)) => Ok(mint)
      case _ => Err(InvalidInputAccounts)
  }

  /** `read_coin_account`: the wallet's account for this mint, None when it has no data yet. */
  function ReadCoinAccount(address: Pubkey, account: AccountView, mint: Pubkey, wallet: Pubkey,
        env: Environment): Result<Option<CoinAccount>, ContractError> {
    if address != CoinAddress(env.address, mint, wallet) then Err(InvalidInputAccounts)
    else if account.owner.Some? && account.owner != Some(env.address) then Err(InvalidAccountOwner)
    else
      match account.data
      case None => Ok(None)
      case Some(CoinData(coin)) =>
        if coin.mint != mint then Err(InvalidInputAccounts)
        else if coin.owner != wallet then Err(InvalidAccountOwner)
        else Ok(Some(coin))
      case _ => Err(InvalidInputAccounts)
  }

  function OrEmpty(s: Option<string>): LogValue {
    Text(if s.Some? then s.value else "")
  }

  function ProcessCreate(env: Environment, seed: Pubkey, authority: Pubkey, decimals: nat, name: Option<string>,
        symbol: Option<string>): Outputs {
    if |env.accounts| != 1 then Err(InvalidInputAccounts) else
    var (address, value) := env.accounts[0];
    var expected := env.address.Derive([seed]);
    if expected != address then Err(InvalidInputAccounts)
    else if value.data.Some? || value.owner.Some? then Err(AccountAlreadyExists)
    else if symbol.Some? && (symbol.value == "" || |symbol.value| > 10) then Err(InvalidInputParameters)
    else if name.Some? && (name.value == "" || |name.value| > 64) then Err(InvalidInputParameters)
    else if decimals > 20 then Err(InvalidInputParameters)
    else
      var spec := Mint(Some(authority), 0, decimals, name, symbol);
      var logs :=
        [LogEntry("action", Text("create")), LogEntry("address", Key(address)),
         LogEntry("name", OrEmpty(name)), LogEntry("symbol", OrEmpty(symbol)),
         LogEntry("decimals", Amount(decimals))];
      Ok([CreateOwnedAccount(expected, Some(MintData(spec)))] + logs)
  }

  function ProcessMint(env: Environment, amount: U64): Outputs {
    if |env.accounts| != 4 then Err(InvalidInputAccounts)
    else if amount == 0 then Err(InvalidInputParameters)
    else
      var (mintAddress, mintAccount) := env.accounts[0];
      var (authority, authorityAccount) := env.accounts[1];
      var (wallet, _) := env.accounts[2];
      var (coinAddress, coinAccount) := env.accounts[3];
      match ReadCoinMint(mintAddress, mintAccount, env)
      case Err(e) => Err(e)
      case Ok(mint) =>
        if mint.authority.None? then Err(Other("Minting new coins is disabled for this currency"))
        else if mint.authority.value != authority then
          Err(Other("account not authorized to mint new coins of this currency"))
        else if !authorityAccount.signer then Err(MissingSigners)
        else
          var logs := [LogEntry("action", Text("mint")), LogEntry("to", Key(wallet)),
            LogEntry("amount", Amount(amount))];
          match ReadCoinAccount(coinAddress, coinAccount, mintAddress, wallet, env)
          case Err(e) => Err(e)
          case Ok(coin) =>
            Ok(logs
               + [Credit(coin, coinAddress, mintAddress, wallet, amount),
                  WriteAccountData(mintAddress, Some(MintData(mint.(supply := SaturatingAdd(mint.supply, amount)))))])
  }

  /** Add to an existing coin account or open one. */
  function Credit(coin: Option<CoinAccount>, address: Pubkey, mint: Pubkey, wallet: Pubkey, amount: U64): Output {
    match coin
    case Some(c) => WriteAccountData(address, Some(CoinData(c.(balance := SaturatingAdd(c.balance, amount)))))
    case None => CreateOwnedAccount(address, Some(CoinData(CoinAccount(mint, wallet, amount))))
  }

  /** Leave `rest` in an account, and delete the account once nothing is left. */
  function Debit(coin: CoinAccount, address: Pubkey, rest: U64): seq<Output> {
    [WriteAccountData(address, Some(CoinData(coin.(balance := rest))))]
    + if rest == 0 then [DeleteOwnedAccount(address)] else []
  }

  function ProcessTransfer(env: Environment, amount: U64): Outputs {
    if |env.accounts| != 5 then Err(InvalidInputAccounts)
    else if amount == 0 then Err(InvalidInputParameters)
    else
      var (mintAddress, mintAccount) := env.accounts[0];
      var (sender, senderAccount) := env.accounts[1];
      var (senderCoin, senderCoinAccount) := env.accounts[2];
      var (recipient, _) := env.accounts[3];
      var (recipientCoin, recipientCoinAccount) := env.accounts[4];
      match ReadCoinMint(mintAddress, mintAccount, env)
      case Err(e) => Err(e)
      case Ok(_) =>
        match ReadCoinAccount(senderCoin, senderCoinAccount, mintAddress, sender, env)
        case Err(e) => Err(e)
        case Ok(None) => Err(AccountDoesNotExist)
        case Ok(Some(coin)) =>
          if !senderAccount.signer then Err(MissingSigners)
          else if coin.balance < amount then Err(Other("Not enough balance in sender's account"))
          else
            var rest := SaturatingSub(coin.balance, amount);
            var logs :=
              [LogEntry("action", Text("transfer")), LogEntry("from", Key(sender)), LogEntry("coin", Key(mintAddress)),
               LogEntry("to", Key(recipient)), LogEntry("amount", Amount(amount))];
            match ReadCoinAccount(recipientCoin, recipientCoinAccount, mintAddress, recipient, env)
            case Err(e) => Err(e)
            case Ok(other) =>
              Ok(logs
                 + (Debit(coin, senderCoin, rest)
                    + [Credit(other, recipientCoin, mintAddress, recipient, amount)]))
  }

  function ProcessBurn(env: Environment, amount: U64): Outputs {
    if |env.accounts| != 3 then Err(InvalidInputAccounts)
    else if amount == 0 then Err(InvalidInputParameters)
    else
      var (mintAddress, mintAccount) := env.accounts[0];
      var (wallet, walletAccount) := env.accounts[1];
      var (coinAddress, coinAccount) := env.accounts[2];
      match ReadCoinMint(mintAddress, mintAccount, env)
      case Err(e) => Err(e)
      case Ok(mint) =>
        match ReadCoinAccount(coinAddress, coinAccount, mintAddress, wallet, env)
        case Err(e) => Err(e)
        case Ok(None) => Err(AccountDoesNotExist)
        case Ok(Some(coin)) =>
          if !walletAccount.signer then Err(MissingSigners)
          else if coin.balance < amount then Err(Other("Not enough balance in sender's account"))
          else
            var rest := SaturatingSub(coin.balance, amount);
            var logs :=
              [LogEntry("action", Text("burn")), LogEntry("wallet", Key(wallet)), LogEntry("amount", Amount(amount)),
               LogEntry("coin", Key(mintAddress))];
            Ok(logs
               + ([WriteAccountData(mintAddress, Some(MintData(mint.(supply := SaturatingSub(mint.supply, amount)))))]
                  + Debit(coin, coinAddress, rest)))
  }

  function ProcessSetAuthority(env: Environment, authority: Option<Pubkey>): Outputs {
    if |env.accounts| != 2 then Err(InvalidInputAccounts)
    else
      var (mintAddress, mintAccount) := env.accounts[0];
      var (current, currentAccount) := env.accounts[1];
      match ReadCoinMint(mintAddress, mintAccount, env)
      case Err(e) => Err(e)
      case Ok(mint) =>
        if mint.authority.None? then Err(Other("Authority has been removed for this coin"))
        else if mint.authority.value != current then Err(Other("account not authorized to change mint authority"))
        else if !currentAccount.signer then Err(MissingSigners)
        else
          var logs :=
            [LogEntry("action", Text("set-authority")), LogEntry("coin.address", Key(mintAddress)),
             LogEntry("coin.name", OrEmpty(mint.name)), LogEntry("coin.symbol", OrEmpty(mint.symbol)),
             LogEntry("to", if authority.Some? then Key(authority.value) else Text(""))];
          Ok(logs + [WriteAccountData(mintAddress, Some(MintData(mint.(authority := authority))))])
  }

  function Contract(env: Environment, params: Params): Outputs {
    match params
    case Raw(_) => Err(InvalidInputParameters)
    case Instruct(Create(seed, authority, decimals, name, symbol)) =>
      ProcessCreate(env, seed, authority, decimals, name, symbol)
    case Instruct(MintCoins(amount)) => ProcessMint(env, amount)
    case Instruct(Transfer(amount)) => ProcessTransfer(env, amount)
    case Instruct(Burn(amount)) => ProcessBurn(env, amount)
    case Instruct(SetAuthority(authority)) => ProcessSetAuthority(env, authority)
  }
}
