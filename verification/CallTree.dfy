/** The units that one transaction executes, at any nesting depth, and what the calls of the Currency
    contract among them leave behind (src/vm/unit.rs). */
module CallTree {
  import opened Primitives
  import opened State
  import opened Unit
  import opened Currency
  import opened Conservation
  import opened Ledger

  // ----- the units of a call tree

  /** A unit and the units nested in it, in the order of their execution. */
  function Units(vm: Machine, state: Accounts, unit: ExecutionUnit, fuel: nat): seq<ExecutionUnit>
    decreases fuel, 2, 0
  {
    [unit]
    + match RunContract(vm, unit)
      case Err(_) => []
      case Ok(outputs) => Called(vm, state, unit, outputs, fuel)
  }

  function Called(vm: Machine, state: Accounts, unit: ExecutionUnit, outputs: seq<Output>,
        fuel: nat): seq<ExecutionUnit>
    decreases fuel, 1, |outputs|
  {
    if outputs == [] then [] else
    Called(vm, state, unit, outputs[..|outputs| - 1], fuel) + CalledBy(vm, state, unit, outputs[|outputs| - 1], fuel)
  }

  function CalledBy(vm: Machine, state: Accounts, unit: ExecutionUnit, output: Output, fuel: nat): seq<ExecutionUnit>
    decreases fuel, 0
  {
    match output
    case ContractInvoke(contract, accounts, params) =>
      if fuel == 0 then [] else
      (match NewNested(vm, state, unit.contract, contract, accounts, params)
       case Err(_) => []
       case Ok(nested) => Units(vm, state, nested, fuel - 1))
    case _ => []
  }

  /** The units of a transaction. */
  function UnitsOf(vm: Machine, state: Accounts, tx: Transaction, fuel: nat): seq<ExecutionUnit> {
    match NewUnit(vm, state, tx)
    case Err(_) => []
    case Ok(unit) => Units(vm, state, unit, fuel)
  }

  /** Those that call the contract at cur. */
  function CallsOf(cur: Pubkey, units: seq<ExecutionUnit>): seq<ExecutionUnit> {
    if units == [] then [] else
    CallsOf(cur, units[..|units| - 1]) + (if units[|units| - 1].contract == cur then [units[|units| - 1]] else [])
  }

  /** What the calls put, later ones covering earlier ones. */
  function CallPuts(cur: Pubkey, s: Accounts, calls: seq<ExecutionUnit>): Accounts {
    if calls == [] then map[] else CallPuts(cur, s, calls[..|calls| - 1]) + PutsOf(cur, s, calls[|calls| - 1])
  }

  lemma {:induction false} CallsConcat(cur: Pubkey, a: seq<ExecutionUnit>, b: seq<ExecutionUnit>)
    ensures CallsOf(cur, a + b) == CallsOf(cur, a) + CallsOf(cur, b)
  {
    if b == [] {
      assert a + b == a;
    } else {
      assert (a + b)[..|a + b| - 1] == a + b[..|b| - 1];
      CallsConcat(cur, a, b[..|b| - 1]);
    }
  }

  lemma CoverAssociative(x: Accounts, y: Accounts, z: Accounts)
    ensures x + y + z == x + (y + z)
  {
  }

  lemma {:induction false} PutsConcat(cur: Pubkey, s: Accounts, a: seq<ExecutionUnit>, b: seq<ExecutionUnit>)
    ensures CallPuts(cur, s, a + b) == CallPuts(cur, s, a) + CallPuts(cur, s, b)
  {
    if b == [] {
      assert a + b == a && CallPuts(cur, s, a) + map[] == CallPuts(cur, s, a);
    } else {
      hide PutsOf;
      var init := b[..|b| - 1];
      assert (a + b)[..|a + b| - 1] == a + init;
      PutsConcat(cur, s, a, init);
      CoverAssociative(CallPuts(cur, s, a), CallPuts(cur, s, init), PutsOf(cur, s, b[|b| - 1]));
    }
  }

  // ----- every unit is made and run like any other

  /** The unit was made for these references and ran to completion. */
  ghost predicate Ran(vm: Machine, s: Accounts, unit: ExecutionUnit, refs: seq<AccountRef>, fuel: nat) {
    && unit.env == CreateEnvironment(s, refs, unit.contract, unit.env.caller)
    && Resolve(vm, s, unit.contract) == Ok(unit.entrypoint)
    && Execute(vm, s, unit, fuel).Ok?
  }

  ghost predicate Completed(vm: Machine, s: Accounts, unit: ExecutionUnit) {
    exists refs, fuel :: Ran(vm, s, unit, refs, fuel)
  }

  ghost predicate AllRan(vm: Machine, s: Accounts, units: seq<ExecutionUnit>) {
    forall u | u in units :: Completed(vm, s, u)
  }

  lemma RanConcat(vm: Machine, s: Accounts, a: seq<ExecutionUnit>, b: seq<ExecutionUnit>)
    requires AllRan(vm, s, a) && AllRan(vm, s, b)
    ensures AllRan(vm, s, a + b)
  {
    hide Completed;
  }

  lemma OneRan(vm: Machine, s: Accounts, unit: ExecutionUnit, refs: seq<AccountRef>, fuel: nat)
    requires Ran(vm, s, unit, refs, fuel)
    ensures AllRan(vm, s, [unit])
  {
    hide Ran;
    assert Completed(vm, s, unit);
  }

  lemma {:induction false} UnitsRan(vm: Machine, s: Accounts, unit: ExecutionUnit, refs: seq<AccountRef>, fuel: nat)
    requires Ran(vm, s, unit, refs, fuel)
    ensures AllRan(vm, s, Units(vm, s, unit, fuel))
    decreases fuel, 2, 0
  {
    hide AllRan, ProcessOutputs;
    var outputs := RunContract(vm, unit).value;
    CalledRan(vm, s, unit, outputs, fuel);
    OneRan(vm, s, unit, refs, fuel);
    RanConcat(vm, s, [unit], Called(vm, s, unit, outputs, fuel));
  }

  lemma {:induction false} CalledRan(vm: Machine, s: Accounts, unit: ExecutionUnit, outputs: seq<Output>, fuel: nat)
    requires ProcessOutputs(vm, s, unit, outputs, fuel).Ok?
    ensures AllRan(vm, s, Called(vm, s, unit, outputs, fuel))
    decreases fuel, 1, |outputs|
  {
    hide Ran, ProcessOutput, CalledBy;
    if outputs == [] {
      assert AllRan(vm, s, []);
    } else {
      var init, last := outputs[..|outputs| - 1], outputs[|outputs| - 1];
      CalledRan(vm, s, unit, init, fuel);
      CalledByRan(vm, s, unit, last, fuel);
      RanConcat(vm, s, Called(vm, s, unit, init, fuel), CalledBy(vm, s, unit, last, fuel));
    }
  }

  lemma {:induction false} CalledByRan(vm: Machine, s: Accounts, unit: ExecutionUnit, output: Output, fuel: nat)
    requires ProcessOutput(vm, s, unit, output, fuel).Ok?
    ensures AllRan(vm, s, CalledBy(vm, s, unit, output, fuel))
    decreases fuel, 0
  {
    if output.ContractInvoke? {
      var nested := NewNested(vm, s, unit.contract, output.contract, output.accounts, output.params).value;
      UnitsRan(vm, s, nested, output.accounts, fuel - 1);
    }
  }

  /** All units of a transaction that succeeds were made for some references and ran to completion. */
  lemma UnitsOfRan(vm: Machine, s: Accounts, tx: Transaction, fuel: nat)
    requires ExecuteTransaction(vm, s, tx, fuel).Ok?
    ensures AllRan(vm, s, UnitsOf(vm, s, tx, fuel))
  {
    hide AllRan, Execute;
    UnitsRan(vm, s, NewUnit(vm, s, tx).value, tx.accounts, fuel);
  }

  // ----- what the calls leave behind

  /** No other contract puts the account at a. */
  ghost predicate Undisturbed(cur: Pubkey, writes: seq<Write>, a: Pubkey) {
    forall w | w in writes && w.contract != cur :: a !in w.diff.data
  }

  /** Another contract put what the diff holds at a. */
  ghost predicate Overruled(cur: Pubkey, out: TransactionOutput, a: Pubkey) {
    a in out.diff.data && exists w ::
      w in out.writes && w.contract != cur && a in w.diff.data && w.diff.data[a] == out.diff.data[a]
  }

  /** The diff holds what the calls put, unless another contract put something later. */
  ghost predicate HoldsPuts(cur: Pubkey, s: Accounts, out: TransactionOutput, units: seq<ExecutionUnit>, a: Pubkey) {
    Get(out.diff.data, a) == Get(CallPuts(cur, s, CallsOf(cur, units)), a) || Overruled(cur, out, a)
  }

  lemma HoldsMerge(cur: Pubkey, s: Accounts, x: TransactionOutput, y: TransactionOutput, us: seq<ExecutionUnit>,
        vs: seq<ExecutionUnit>, a: Pubkey)
    requires HoldsPuts(cur, s, x, us, a) && HoldsPuts(cur, s, y, vs, a)
    ensures HoldsPuts(cur, s, x.Merge(y), us + vs, a)
  {
    CallsConcat(cur, us, vs);
    PutsConcat(cur, s, CallsOf(cur, us), CallsOf(cur, vs));
    hide CallsOf, CallPuts;
    var all := x.Merge(y).writes;
    assert forall w | w in x.writes || w in y.writes :: w in all;
    if a !in y.diff.data { assert x.Merge(y).diff.data.Keys == x.diff.data.Keys + y.diff.data.Keys; }
  }

  lemma HoldsNothing(cur: Pubkey, s: Accounts, a: Pubkey)
    ensures HoldsPuts(cur, s, NO_OUTPUT, [], a)
  {
  }

  lemma {:induction false} SimpleCallNothing(vm: Machine, s: Accounts, unit: ExecutionUnit, outputs: seq<Output>,
        fuel: nat)
    requires forall o | o in outputs :: Simple(o)
    ensures Called(vm, s, unit, outputs, fuel) == []
    decreases |outputs|
  {
    if outputs == [] {
    } else {
      assert outputs[|outputs| - 1] in outputs;
      SimpleCallNothing(vm, s, unit, outputs[..|outputs| - 1], fuel);
    }
  }

  lemma OneCall(cur: Pubkey, s: Accounts, unit: ExecutionUnit)
    ensures CallsOf(cur, [unit]) == if unit.contract == cur then [unit] else []
    ensures CallPuts(cur, s, [unit]) == PutsOf(cur, s, unit)
  {
    hide PutsOf;
    assert [unit][..0] == [] && map[] + PutsOf(cur, s, unit) == PutsOf(cur, s, unit);
  }

  /** At any nesting depth, the diff of an execution holds what the calls of the contract put. */
  lemma {:induction false} ExecuteHolds(vm: Machine, cur: Pubkey, s: Accounts, unit: ExecutionUnit,
        refs: seq<AccountRef>, fuel: nat, a: Pubkey)
    requires Hosts(vm, cur) && Ran(vm, s, unit, refs, fuel)
    ensures HoldsPuts(cur, s, Execute(vm, s, unit, fuel).value, Units(vm, s, unit, fuel), a)
    decreases fuel, 2, 0
  {
    if unit.contract == cur {
      CallHolds(vm, cur, s, unit, refs, fuel, a);
    } else {
      hide HoldsPuts, ProcessOutputs;
      var outputs := RunContract(vm, unit).value;
      OutputsHold(vm, cur, s, unit, refs, outputs, fuel, a);
      HoldsUnit(cur, s, Execute(vm, s, unit, fuel).value, unit, Called(vm, s, unit, outputs, fuel), a);
    }
  }

  lemma HoldsUnit(cur: Pubkey, s: Accounts, out: TransactionOutput, unit: ExecutionUnit, called: seq<ExecutionUnit>,
        a: Pubkey)
    requires HoldsPuts(cur, s, out, called, a) && unit.contract != cur
    ensures HoldsPuts(cur, s, out, [unit] + called, a)
  {
    CallsConcat(cur, [unit], called);
    OneCall(cur, s, unit);
    assert [] + CallsOf(cur, called) == CallsOf(cur, called);
  }

  lemma CallHolds(vm: Machine, cur: Pubkey, s: Accounts, unit: ExecutionUnit, refs: seq<AccountRef>, fuel: nat,
        a: Pubkey)
    requires Hosts(vm, cur) && Ran(vm, s, unit, refs, fuel) && unit.contract == cur
    ensures HoldsPuts(cur, s, Execute(vm, s, unit, fuel).value, Units(vm, s, unit, fuel), a)
  {
    hide ProcessOutputs, Contract, Simple, Performed, Puts, Removes, Conserved, Safe;
    UnitEffect(vm, cur, s, unit, refs, fuel);
    SimpleCallNothing(vm, s, unit, Contract(unit.env, unit.params).value, fuel);
    assert [unit] + [] == [unit];
    OneCall(cur, s, unit);
  }

  lemma {:induction false} OutputsHold(vm: Machine, cur: Pubkey, s: Accounts, unit: ExecutionUnit,
        refs: seq<AccountRef>, outputs: seq<Output>, fuel: nat, a: Pubkey)
    requires Hosts(vm, cur) && unit.contract != cur && ProcessOutputs(vm, s, unit, outputs, fuel).Ok?
    ensures HoldsPuts(cur, s, ProcessOutputs(vm, s, unit, outputs, fuel).value, Called(vm, s, unit, outputs, fuel), a)
    decreases fuel, 1, |outputs|
  {
    hide ProcessOutput, HoldsPuts, CalledBy;
    if outputs == [] {
      HoldsNothing(cur, s, a);
    } else {
      var init, last := outputs[..|outputs| - 1], outputs[|outputs| - 1];
      OutputsHold(vm, cur, s, unit, refs, init, fuel, a);
      OutputHolds(vm, cur, s, unit, refs, last, fuel, a);
      HoldsMerge(cur, s, ProcessOutputs(vm, s, unit, init, fuel).value, ProcessOutput(vm, s, unit, last, fuel).value,
                 Called(vm, s, unit, init, fuel), CalledBy(vm, s, unit, last, fuel), a);
    }
  }

  lemma {:induction false} OutputHolds(vm: Machine, cur: Pubkey, s: Accounts, unit: ExecutionUnit,
        refs: seq<AccountRef>, output: Output, fuel: nat, a: Pubkey)
    requires Hosts(vm, cur) && unit.contract != cur && ProcessOutput(vm, s, unit, output, fuel).Ok?
    ensures HoldsPuts(cur, s, ProcessOutput(vm, s, unit, output, fuel).value, CalledBy(vm, s, unit, output, fuel), a)
    decreases fuel, 0
  {
    match output
    case ContractInvoke(contract, accounts, params) =>
      var nested := NewNested(vm, s, unit.contract, contract, accounts, params).value;
      ExecuteHolds(vm, cur, s, nested, accounts, fuel - 1, a);
    case LogEntry(_, _) =>
    case _ =>
      var out := ProcessOutput(vm, s, unit, output, fuel).value;
      assert out.writes == [Write(unit.contract, out.diff)];
      assert out.writes[0] in out.writes;
  }

  // ----- the call that has the last word

  /** The call at position i is the last one that puts the account at a. */
  ghost predicate Decides(cur: Pubkey, s: Accounts, calls: seq<ExecutionUnit>, i: nat, a: Pubkey) {
    && i < |calls| && a in PutsOf(cur, s, calls[i])
    && (forall j | i < j < |calls| :: a !in PutsOf(cur, s, calls[j]))
  }

  /** The position of that call. */
  function Decider(cur: Pubkey, s: Accounts, calls: seq<ExecutionUnit>, a: Pubkey): nat {
    if calls == [] then 0
    else if a in PutsOf(cur, s, calls[|calls| - 1]) then |calls| - 1
    else Decider(cur, s, calls[..|calls| - 1], a)
  }

  lemma {:induction false} DeciderDecides(cur: Pubkey, s: Accounts, calls: seq<ExecutionUnit>, a: Pubkey)
    requires a in CallPuts(cur, s, calls)
    ensures var i := Decider(cur, s, calls, a);
            Decides(cur, s, calls, i, a) && CallPuts(cur, s, calls)[a] == PutsOf(cur, s, calls[i])[a]
  {
    hide PutsOf;
    var n := |calls| - 1;
    if a in PutsOf(cur, s, calls[n]) {
    } else {
      DeciderDecides(cur, s, calls[..n], a);
    }
  }

  lemma {:induction false} DecidesPuts(cur: Pubkey, s: Accounts, calls: seq<ExecutionUnit>, i: nat, a: Pubkey)
    requires Decides(cur, s, calls, i, a)
    ensures a in CallPuts(cur, s, calls) && CallPuts(cur, s, calls)[a] == PutsOf(cur, s, calls[i])[a]
  {
    hide PutsOf;
    var n := |calls| - 1;
    if i == n {
    } else {
      DecidesPuts(cur, s, calls[..n], i, a);
    }
  }

  lemma {:induction false} CallsAreUnits(cur: Pubkey, units: seq<ExecutionUnit>, u: ExecutionUnit)
    ensures u in CallsOf(cur, units) <==> u in units && u.contract == cur
  {
    if units == [] {
    } else {
      CallsAreUnits(cur, units[..|units| - 1], u);
    }
  }

  /** A unit whose outputs call nothing writes only in its own name. */
  lemma {:induction false} OwnWrites(vm: Machine, s: Accounts, unit: ExecutionUnit, outputs: seq<Output>, fuel: nat)
    requires ProcessOutputs(vm, s, unit, outputs, fuel).Ok? && forall o | o in outputs :: Simple(o)
    ensures forall w | w in ProcessOutputs(vm, s, unit, outputs, fuel).value.writes :: w.contract == unit.contract
    decreases |outputs|
  {
    if outputs == [] {
    } else {
      assert outputs[|outputs| - 1] in outputs;
      OwnWrites(vm, s, unit, outputs[..|outputs| - 1], fuel);
    }
  }
}
