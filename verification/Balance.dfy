/** What all Currency calls of a transaction together do to coins and supplies: they conserve exactly when
    the changes of the calls that have the last word balance. */
module Balance {
  import opened Primitives
  import opened State
  import opened Unit
  import opened Currency
  import opened Conservation
  import opened Ledger
  import opened CallTree

  /** An account of Currency that existed is never overruled; where another contract has the last word,
      coins and supplies are as before. */
  lemma OverruledIsForeign(vm: Machine, cur: Pubkey, s: Accounts, out: TransactionOutput, a: Pubkey, mint: Pubkey)
    requires Accounted(vm, s, out) && Overruled(cur, out, a)
    ensures CoinsAt(cur, out.diff.Over(s), mint, a) == CoinsAt(cur, s, mint, a)
    ensures SupplyAt(cur, out.diff.Over(s), a) == SupplyAt(cur, s, a)
    ensures a in s && !a.HasPrivateKey() ==> s[a].owner != Some(cur)
  {
    var w :| w in out.writes && w.contract != cur && a in w.diff.data && w.diff.data[a] == out.diff.data[a];
    assert LegalWrite(vm, s, w);
    hide CoinsAt, SupplyAt;
    ForeignPut(vm, cur, s, w.contract, a, out.diff.data[a], mint);
    LocalReads(cur, out.diff.Over(s), s[a := out.diff.data[a]], mint, a);
  }

  // ----- the calls of the contract, anywhere in a transaction

  /** The coins of a mint that its supply does not count. */
  ghost function Surplus(cur: Pubkey, s: Accounts, mint: Pubkey): int {
    Total(cur, s, mint) - SupplyAt(cur, s, mint)
  }

  lemma {:induction false} SumsAdd(cur: Pubkey, s: Accounts, p: Accounts, q: Accounts, mint: Pubkey, keys: set<Pubkey>)
    requires p.Keys !! q.Keys
    ensures Sum(cur, s + p + q, mint, keys) + Sum(cur, s, mint, keys)
         == Sum(cur, s + p, mint, keys) + Sum(cur, s + q, mint, keys)
    decreases |keys|
  {
    hide CoinsAt, Sum;
    if keys == {} {
      EmptySum(cur, s, mint);
      EmptySum(cur, s + p, mint);
      EmptySum(cur, s + q, mint);
      EmptySum(cur, s + p + q, mint);
    } else {
      var a :| a in keys;
      SumRemove(cur, s, mint, keys, a);
      SumRemove(cur, s + p, mint, keys, a);
      SumRemove(cur, s + q, mint, keys, a);
      SumRemove(cur, s + p + q, mint, keys, a);
      SumsAdd(cur, s, p, q, mint, keys - {a});
      OnlyOnePuts(cur, s, p, q, mint, a);
    }
  }

  lemma EmptySum(cur: Pubkey, s: Accounts, mint: Pubkey)
    ensures Sum(cur, s, mint, {}) == 0
  {
  }

  lemma OnlyOnePuts(cur: Pubkey, s: Accounts, p: Accounts, q: Accounts, mint: Pubkey, a: Pubkey)
    requires p.Keys !! q.Keys
    ensures CoinsAt(cur, s + p + q, mint, a) + CoinsAt(cur, s, mint, a)
         == CoinsAt(cur, s + p, mint, a) + CoinsAt(cur, s + q, mint, a)
    ensures SupplyAt(cur, s + p + q, a) + SupplyAt(cur, s, a) == SupplyAt(cur, s + p, a) + SupplyAt(cur, s + q, a)
  {
    hide CoinsAt, SupplyAt;
    if a in p {
      LocalReads(cur, s + p + q, s + p, mint, a);
      LocalReads(cur, s, s + q, mint, a);
    } else {
      LocalReads(cur, s + p + q, s + q, mint, a);
      LocalReads(cur, s, s + p, mint, a);
    }
  }

  lemma TotalOver(cur: Pubkey, s: Accounts, mint: Pubkey, keys: set<Pubkey>)
    requires s.Keys <= keys
    ensures Total(cur, s, mint) == Sum(cur, s, mint, keys)
  {
    SumMore(cur, s, mint, s.Keys, keys);
    assert s.Keys + keys == keys;
  }

  /** Changes at different accounts add up. */
  lemma SurplusAdds(cur: Pubkey, s: Accounts, p: Accounts, q: Accounts, mint: Pubkey)
    requires p.Keys !! q.Keys
    ensures Surplus(cur, s + p + q, mint) + Surplus(cur, s, mint)
      == Surplus(cur, s + p, mint) + Surplus(cur, s + q, mint)
  {
    hide Total, Sum, CoinsAt, SupplyAt;
    var keys := (s + p + q).Keys;
    TotalOver(cur, s, mint, keys);
    TotalOver(cur, s + p, mint, keys);
    TotalOver(cur, s + q, mint, keys);
    TotalOver(cur, s + p + q, mint, keys);
    SumsAdd(cur, s, p, q, mint, keys);
    OnlyOnePuts(cur, s, p, q, mint, mint);
  }

  /** No account is put by two calls. */
  ghost predicate Apart(cur: Pubkey, s: Accounts, calls: seq<ExecutionUnit>) {
    forall i, j | 0 <= i < j < |calls| :: PutsOf(cur, s, calls[i]).Keys !! PutsOf(cur, s, calls[j]).Keys
  }

  ghost predicate AllSafe(cur: Pubkey, s: Accounts, calls: seq<ExecutionUnit>) {
    forall u | u in calls :: Safe(cur, s, u.env, u.params)
  }

  /** What a call does for conservation when it is the only one. */
  ghost predicate Alone(cur: Pubkey, s: Accounts, u: ExecutionUnit) {
    && NothingLost(cur, s + PutsOf(cur, s, u))
    && (Conserved(cur, s + PutsOf(cur, s, u)) <==> Safe(cur, s, u.env, u.params))
  }

  /** Surpluses cannot cancel each other, because no call loses coins. */
  lemma ZeroSum(cur: Pubkey, s: Accounts, p: Accounts, q: Accounts)
    requires Conserved(cur, s) && p.Keys !! q.Keys && NothingLost(cur, s + p) && NothingLost(cur, s + q)
    ensures NothingLost(cur, s + p + q)
    ensures Conserved(cur, s + p + q) <==> Conserved(cur, s + p) && Conserved(cur, s + q)
  {
    hide Total, SupplyAt;
    forall m ensures Total(cur, s + p + q, m) - SupplyAt(cur, s + p + q, m)
                     == Surplus(cur, s + p, m) + Surplus(cur, s + q, m)
    {
      assert Total(cur, s, m) == SupplyAt(cur, s, m);
      SurplusAdds(cur, s, p, q, m);
    }
    forall m
      ensures Total(cur, s + p, m) >= SupplyAt(cur, s + p, m) && Total(cur, s + q, m) >= SupplyAt(cur, s + q, m)
    {
    }
    if Conserved(cur, s + p + q) {
      forall m ensures Total(cur, s + p, m) == SupplyAt(cur, s + p, m) {
        assert Total(cur, s + p + q, m) == SupplyAt(cur, s + p + q, m);
      }
      forall m ensures Total(cur, s + q, m) == SupplyAt(cur, s + q, m) {
        assert Total(cur, s + p + q, m) == SupplyAt(cur, s + p + q, m);
      }
    }
  }

  /** Calls that put different accounts conserve exactly when all of them are safe. */
  lemma {:induction false} CallsConserve(cur: Pubkey, s: Accounts, calls: seq<ExecutionUnit>)
    requires Conserved(cur, s) && Apart(cur, s, calls) && forall u | u in calls :: Alone(cur, s, u)
    ensures NothingLost(cur, s + CallPuts(cur, s, calls))
    ensures Conserved(cur, s + CallPuts(cur, s, calls)) <==> AllSafe(cur, s, calls)
  {
    hide PutsOf, Conserved, NothingLost, Safe;
    if calls == [] {
      assert s + map[] == s;
      ConservedLosesNothing(cur, s);
    } else {
      var n := |calls| - 1;
      var p, q := CallPuts(cur, s, calls[..n]), PutsOf(cur, s, calls[n]);
      CallsConserve(cur, s, calls[..n]);
      assert Alone(cur, s, calls[n]);
      forall a | a in p ensures a !in q {
        var i := Decider(cur, s, calls[..n], a);
        DeciderDecides(cur, s, calls[..n], a);
        assert PutsOf(cur, s, calls[i]).Keys !! q.Keys;
      }
      ZeroSum(cur, s, p, q);
      assert s + (p + q) == s + p + q;
    }
  }

  lemma ConservedLosesNothing(cur: Pubkey, s: Accounts)
    requires Conserved(cur, s)
    ensures NothingLost(cur, s)
  {
    hide Total, SupplyAt;
    forall m ensures Total(cur, s, m) >= SupplyAt(cur, s, m) {
      assert Total(cur, s, m) == SupplyAt(cur, s, m);
    }
  }

  /** The calls of the contract in the whole call tree put different accounts, and no other contract puts
      any of these. */
  ghost predicate Separate(vm: Machine, cur: Pubkey, s: Accounts, tx: Transaction, fuel: nat) {
    var result, calls := ExecuteTransaction(vm, s, tx, fuel), CallsOf(cur, UnitsOf(vm, s, tx, fuel));
    && result.Ok? && Apart(cur, s, calls)
    && (forall a | a in CallPuts(cur, s, calls) :: Undisturbed(cur, result.value.writes, a))
  }

  lemma SeparateAt(vm: Machine, cur: Pubkey, s: Accounts, tx: Transaction, fuel: nat, a: Pubkey, mint: Pubkey)
    requires Hosts(vm, cur) && Separate(vm, cur, s, tx, fuel)
    ensures var t := ExecuteTransaction(vm, s, tx, fuel).value.diff.Over(s);
            var t0 := s + CallPuts(cur, s, CallsOf(cur, UnitsOf(vm, s, tx, fuel)));
            CoinsAt(cur, t, mint, a) == CoinsAt(cur, t0, mint, a) && SupplyAt(cur, t, a) == SupplyAt(cur, t0, a)
  {
    hide Execute, PutsOf, CoinsAt, SupplyAt, Apart;
    var out, unit := ExecuteTransaction(vm, s, tx, fuel).value, NewUnit(vm, s, tx).value;
    var t0 := s + CallPuts(cur, s, CallsOf(cur, UnitsOf(vm, s, tx, fuel)));
    ExecuteHolds(vm, cur, s, unit, tx.accounts, fuel, a);
    TransactionAccounted(vm, s, tx, fuel);
    hide ExecuteTransaction, CallPuts, CallsOf, LegalPut;
    var t := out.diff.Over(s);
    if Overruled(cur, out, a) {
      var w :| w in out.writes && w.contract != cur && a in w.diff.data && w.diff.data[a] == out.diff.data[a];
      assert LegalWrite(vm, s, w);
      ForeignPut(vm, cur, s, w.contract, a, out.diff.data[a], mint);
      LocalReads(cur, t, s[a := out.diff.data[a]], mint, a);
      LocalReads(cur, s, t0, mint, a);
    } else {
      LocalReads(cur, t, t0, mint, a);
    }
  }

  /** A transaction whose calls are separate, at whatever depth, conserves exactly when all of them are safe. */
  lemma SeparateCallsConserve(vm: Machine, cur: Pubkey, s: Accounts, tx: Transaction, fuel: nat)
    requires Hosts(vm, cur) && Separate(vm, cur, s, tx, fuel) && Conserved(cur, s)
    ensures Conserved(cur, ExecuteTransaction(vm, s, tx, fuel).value.diff.Over(s))
      <==> AllSafe(cur, s, CallsOf(cur, UnitsOf(vm, s, tx, fuel)))
  {
    hide ExecuteTransaction, UnitsOf, CallsOf, CallPuts, CoinsAt, SupplyAt, Conserved, Alone, Apart, AllSafe;
    var calls := CallsOf(cur, UnitsOf(vm, s, tx, fuel));
    var t, t0 := ExecuteTransaction(vm, s, tx, fuel).value.diff.Over(s), s + CallPuts(cur, s, calls);
    forall m, a ensures CoinsAt(cur, t, m, a) == CoinsAt(cur, t0, m, a) {
      SeparateAt(vm, cur, s, tx, fuel, a, m);
    }
    forall m ensures SupplyAt(cur, t, m) == SupplyAt(cur, t0, m) {
      SeparateAt(vm, cur, s, tx, fuel, m, m);
    }
    NeutralConserves(cur, t0, t);
    forall u | u in calls ensures Alone(cur, s, u) {
      CallAlone(vm, cur, s, tx, fuel, u);
    }
    CallsConserve(cur, s, calls);
  }

  lemma CallAlone(vm: Machine, cur: Pubkey, s: Accounts, tx: Transaction, fuel: nat, u: ExecutionUnit)
    requires Hosts(vm, cur) && Conserved(cur, s) && ExecuteTransaction(vm, s, tx, fuel).Ok?
    requires u in CallsOf(cur, UnitsOf(vm, s, tx, fuel))
    ensures Alone(cur, s, u)
  {
    hide ExecuteTransaction, UnitsOf, CallsOf, Execute, PutsOf, Conserved, NothingLost, Safe, Contract, Simple,
      Performed;
    UnitsOfRan(vm, s, tx, fuel);
    CallsAreUnits(cur, UnitsOf(vm, s, tx, fuel), u);
    var refs, f :| Ran(vm, s, u, refs, f);
    UnitEffect(vm, cur, s, u, refs, f);
  }

  lemma UnitIsOnly(vm: Machine, cur: Pubkey, s: Accounts, unit: ExecutionUnit, refs: seq<AccountRef>, fuel: nat)
    requires Hosts(vm, cur) && CurrencyUnit(vm, cur, s, unit, refs) && Execute(vm, s, unit, fuel).Ok?
    ensures CallsOf(cur, Units(vm, s, unit, fuel)) == [unit]
    ensures forall w | w in Execute(vm, s, unit, fuel).value.writes :: w.contract == cur
  {
    hide Contract, ProcessOutputs, Simple, Conserved, Safe, Puts, Performed;
    var outputs := Contract(unit.env, unit.params).value;
    UnitEffect(vm, cur, s, unit, refs, fuel);
    SimpleCallNothing(vm, s, unit, outputs, fuel);
    OneCall(cur, s, unit);
    OwnWrites(vm, s, unit, outputs, fuel);
    assert [unit] + [] == [unit];
  }

  /** A call of the contract at the top is the only one, and nothing disturbs it. */
  lemma TopCallIsOnly(vm: Machine, cur: Pubkey, s: Accounts, tx: Transaction, fuel: nat)
    requires Hosts(vm, cur) && tx.contract == cur && ExecuteTransaction(vm, s, tx, fuel).Ok?
    ensures Separate(vm, cur, s, tx, fuel)
    ensures CallsOf(cur, UnitsOf(vm, s, tx, fuel)) == [NewUnit(vm, s, tx).value]
    ensures NewUnit(vm, s, tx).value.env == CreateEnvironment(s, tx.accounts, cur, None)
      && NewUnit(vm, s, tx).value.params == tx.params
  {
    hide Contract, Execute, Units, CallsOf, PutsOf;
    UnitIsOnly(vm, cur, s, NewUnit(vm, s, tx).value, tx.accounts, fuel);
  }

  // ----- calls that overlap or are overruled

  /** What the call changes in the coins at an account. */
  function CoinShift(cur: Pubkey, s: Accounts, u: ExecutionUnit, mint: Pubkey, a: Pubkey): int {
    CoinsAt(cur, s + PutsOf(cur, s, u), mint, a) - CoinsAt(cur, s, mint, a)
  }

  function SupplyShift(cur: Pubkey, s: Accounts, u: ExecutionUnit, mint: Pubkey): int {
    SupplyAt(cur, s + PutsOf(cur, s, u), mint) - SupplyAt(cur, s, mint)
  }

  /** The accounts on which a call has the last word, other contracts included. */
  ghost function LastWords(cur: Pubkey, s: Accounts, calls: seq<ExecutionUnit>, out: TransactionOutput): set<Pubkey> {
    set a | a in CallPuts(cur, s, calls) && !Overruled(cur, out, a)
  }

  /** What the calls change in the coins at an account, each counted where it has the last word. */
  function Decided(cur: Pubkey, s: Accounts, calls: seq<ExecutionUnit>, mint: Pubkey, a: Pubkey): int {
    if Decider(cur, s, calls, a) < |calls| then CoinShift(cur, s, calls[Decider(cur, s, calls, a)], mint, a) else 0
  }

  ghost function Shifts(cur: Pubkey, s: Accounts, calls: seq<ExecutionUnit>, mint: Pubkey, keys: set<Pubkey>): int {
    if keys == {} then 0 else
      var a :| a in keys;
      Decided(cur, s, calls, mint, a) + Shifts(cur, s, calls, mint, keys - {a})
  }

  lemma {:induction false} ShiftsRemove(cur: Pubkey, s: Accounts, calls: seq<ExecutionUnit>, mint: Pubkey,
        keys: set<Pubkey>, a: Pubkey)
    requires a in keys
    ensures Shifts(cur, s, calls, mint, keys)
      == Decided(cur, s, calls, mint, a) + Shifts(cur, s, calls, mint, keys - {a})
    decreases |keys|
  {
    hide Decided;
    var b :| b in keys
      && Shifts(cur, s, calls, mint, keys) == Decided(cur, s, calls, mint, b) + Shifts(cur, s, calls, mint, keys - {b});
    if b == a {
    } else {
      ShiftsRemove(cur, s, calls, mint, keys - {b}, a);
      ShiftsRemove(cur, s, calls, mint, keys - {a}, b);
      assert keys - {b} - {a} == keys - {a} - {b};
    }
  }

  /** Per mint, the changes of balances add up to the change of the supply, where each account counts with
      the change by the call that has the last word on it. */
  ghost predicate Balanced(cur: Pubkey, s: Accounts, calls: seq<ExecutionUnit>, held: set<Pubkey>) {
    forall mint ::
      Shifts(cur, s, calls, mint, held)
      == if mint in held && Decider(cur, s, calls, mint) < |calls|
         then SupplyShift(cur, s, calls[Decider(cur, s, calls, mint)], mint) else 0
  }

  /** The final state at one address: as the call with the last word would leave it, or as before. */
  lemma HeldAt(vm: Machine, cur: Pubkey, s: Accounts, tx: Transaction, fuel: nat, a: Pubkey, mint: Pubkey)
    requires Hosts(vm, cur) && ExecuteTransaction(vm, s, tx, fuel).Ok?
    ensures var out, calls := ExecuteTransaction(vm, s, tx, fuel).value, CallsOf(cur, UnitsOf(vm, s, tx, fuel));
            var t, i := out.diff.Over(s), Decider(cur, s, calls, a);
            if a in LastWords(cur, s, calls, out) then
              && i < |calls|
              && CoinsAt(cur, t, mint, a) == CoinsAt(cur, s, mint, a) + CoinShift(cur, s, calls[i], mint, a)
              && SupplyAt(cur, t, a) == SupplyAt(cur, s, a) + SupplyShift(cur, s, calls[i], a)
            else CoinsAt(cur, t, mint, a) == CoinsAt(cur, s, mint, a) && SupplyAt(cur, t, a) == SupplyAt(cur, s, a)
  {
    hide Execute, CoinsAt, SupplyAt, CallPuts, CallsOf, Overruled, PutsOf, Decider;
    var out, calls := ExecuteTransaction(vm, s, tx, fuel).value, CallsOf(cur, UnitsOf(vm, s, tx, fuel));
    var t := out.diff.Over(s);
    ExecuteHolds(vm, cur, s, NewUnit(vm, s, tx).value, tx.accounts, fuel, a);
    TransactionAccounted(vm, s, tx, fuel);
    if Overruled(cur, out, a) {
      OverruledIsForeign(vm, cur, s, out, a, mint);
    } else if a in CallPuts(cur, s, calls) {
      DeciderDecides(cur, s, calls, a);
      LocalReads(cur, t, s + PutsOf(cur, s, calls[Decider(cur, s, calls, a)]), mint, a);
    } else {
      LocalReads(cur, t, s, mint, a);
    }
  }

  lemma {:induction false} SumShifts(cur: Pubkey, s: Accounts, t: Accounts, calls: seq<ExecutionUnit>,
        held: set<Pubkey>, mint: Pubkey, keys: set<Pubkey>)
    requires forall a | a in keys ::
      CoinsAt(cur, t, mint, a) == CoinsAt(cur, s, mint, a) + if a in held then Decided(cur, s, calls, mint, a) else 0
    ensures Sum(cur, t, mint, keys) == Sum(cur, s, mint, keys) + Shifts(cur, s, calls, mint, keys * held)
    decreases |keys|
  {
    hide CoinsAt, Sum, Decided, Shifts;
    if keys == {} {
      EmptySum(cur, s, mint);
      EmptySum(cur, t, mint);
      NoShifts(cur, s, calls, mint);
      assert keys * held == {};
    } else {
      var a :| a in keys;
      SumRemove(cur, s, mint, keys, a);
      SumRemove(cur, t, mint, keys, a);
      SumShifts(cur, s, t, calls, held, mint, keys - {a});
      if a in held {
        ShiftsRemove(cur, s, calls, mint, keys * held, a);
        assert keys * held - {a} == (keys - {a}) * held;
      } else {
        assert keys * held == (keys - {a}) * held;
      }
    }
  }

  lemma NoShifts(cur: Pubkey, s: Accounts, calls: seq<ExecutionUnit>, mint: Pubkey)
    ensures Shifts(cur, s, calls, mint, {}) == 0
  {
  }

  lemma TotalShifts(vm: Machine, cur: Pubkey, s: Accounts, tx: Transaction, fuel: nat, mint: Pubkey)
    requires Hosts(vm, cur) && ExecuteTransaction(vm, s, tx, fuel).Ok?
    ensures var out, calls := ExecuteTransaction(vm, s, tx, fuel).value, CallsOf(cur, UnitsOf(vm, s, tx, fuel));
            Total(cur, out.diff.Over(s), mint)
            == Total(cur, s, mint) + Shifts(cur, s, calls, mint, LastWords(cur, s, calls, out))
  {
    hide ExecuteTransaction, UnitsOf, CallsOf, CallPuts, Overruled, CoinsAt, SupplyAt, CoinShift, SupplyShift, Decider,
      Sum,
      Total, Shifts;
    var out, calls := ExecuteTransaction(vm, s, tx, fuel).value, CallsOf(cur, UnitsOf(vm, s, tx, fuel));
    var t, held := out.diff.Over(s), LastWords(cur, s, calls, out);
    var keys := t.Keys + held;
    TotalOver(cur, s, mint, keys);
    TotalOver(cur, t, mint, keys);
    forall a | a in keys
      ensures CoinsAt(cur, t, mint, a)
        == CoinsAt(cur, s, mint, a) + if a in held then Decided(cur, s, calls, mint, a) else 0
    {
      HeldAt(vm, cur, s, tx, fuel, a, mint);
    }
    SumShifts(cur, s, t, calls, held, mint, keys);
    assert keys * held == held;
  }

  /** Exactly when a transaction conserves, however its calls overlap and whatever overrules them. */
  lemma ConservesIfBalanced(vm: Machine, cur: Pubkey, s: Accounts, tx: Transaction, fuel: nat)
    requires Hosts(vm, cur) && ExecuteTransaction(vm, s, tx, fuel).Ok? && Conserved(cur, s)
    ensures var out, calls := ExecuteTransaction(vm, s, tx, fuel).value, CallsOf(cur, UnitsOf(vm, s, tx, fuel));
            Conserved(cur, out.diff.Over(s)) <==> Balanced(cur, s, calls, LastWords(cur, s, calls, out))
  {
    hide ExecuteTransaction, UnitsOf, CallsOf, LastWords, CoinsAt, SupplyAt, CoinShift, SupplyShift, Decider, Total,
      Shifts;
    var out, calls := ExecuteTransaction(vm, s, tx, fuel).value, CallsOf(cur, UnitsOf(vm, s, tx, fuel));
    var t, held := out.diff.Over(s), LastWords(cur, s, calls, out);
    forall m
      ensures Total(cur, t, m) == SupplyAt(cur, t, m)
        <==> Shifts(cur, s, calls, m, held)
             == if m in held && Decider(cur, s, calls, m) < |calls|
                then SupplyShift(cur, s, calls[Decider(cur, s, calls, m)], m) else 0
    {
      assert Total(cur, s, m) == SupplyAt(cur, s, m);
      TotalShifts(vm, cur, s, tx, fuel, m);
      HeldAt(vm, cur, s, tx, fuel, m, m);
    }
  }
}
