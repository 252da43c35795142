/** Account state: diffs, overlays and the persisted store (src/vm/state.rs, src/storage/state.rs). */
module State {
  import opened Primitives

  const MAX_U64: nat := 0xFFFF_FFFF_FFFF_FFFF

  type U64 = n: nat | n <= MAX_U64

  /** Metadata of one coin type of the Currency contract. */
  datatype Mint = Mint(authority: Option<Pubkey>, supply: U64, decimals: nat, name: Option<string>,
    symbol: Option<string>)

  /** Balance of one wallet in one coin type. */
  datatype CoinAccount = CoinAccount(mint: Pubkey, owner: Pubkey, balance: U64)

  /** Contents of an account: the serialised records of the Currency contract are tagged values,
      everything else is uninterpreted bytes. */
  datatype Data = Bytes(bytes: seq<nat>) | MintData(mint: Mint) | CoinData(coin: CoinAccount)

  datatype Account = Account(executable: bool, nonce: nat, owner: Option<Pubkey>, data: Option<Data>)

  /** Any fully evaluated state: what `State::get` answers for each address. */
  type Accounts = map<Pubkey, Account>

  function Get(state: Accounts, address: Pubkey): Option<Account> {
    if address in state then Some(state[address]) else None
  }

  /** Changes made by a transaction or a block. An address may be both put and deleted: deleting
      leaves the data in place and putting revokes the delete. */
  datatype StateDiff = StateDiff(data: Accounts, deletes: set<Pubkey>) {

    function Set(address: Pubkey, account: Account): StateDiff {
      StateDiff(data[address := account], deletes - {address})
    }

    function Remove(address: Pubkey): StateDiff {
      StateDiff(data, deletes + {address})
    }

    function Merge(newer: StateDiff): StateDiff {
      StateDiff(data + newer.data, (deletes - newer.data.Keys) + newer.deletes)
    }

    /** What a reader sees through this diff: puts cover the base, deletes are ignored. */
    function Over(base: Accounts): Accounts {
      base + data
    }

    /** What the storage engine holds after the batch of puts and then deletes. */
    function ApplyTo(base: Accounts): Accounts {
      (base + data) - deletes
    }
  }

  const NO_CHANGE := StateDiff(map[], {})

  /** The loops of `StateDiff::merge`: fold the newer puts, then the newer deletes. */
  method MergeDiffs(older: StateDiff, newer: StateDiff) returns (merged: StateDiff)
    ensures merged == older.Merge(newer)
  {
    var data, deletes := older.data, older.deletes;
    var puts := newer.data.Keys;
    while puts != {}
      invariant puts <= newer.data.Keys
      invariant data == older.data + (map a | a in newer.data && a !in puts :: newer.data[a])
      invariant deletes == older.deletes - (newer.data.Keys - puts)
      decreases puts
    {
      var address :| address in puts;
      deletes := deletes - {address};
      data := data[address := newer.data[address]];
      puts := puts - {address};
    }
    var removals := newer.deletes;
    while removals != {}
      invariant removals <= newer.deletes
      invariant deletes == (older.deletes - newer.data.Keys) + (newer.deletes - removals)
      decreases removals
    {
      var address :| address in removals;
      deletes := deletes + {address};
      removals := removals - {address};
    }
    assert (map a | a in newer.data && a !in {} :: newer.data[a]) == newer.data;
    merged := StateDiff(data, deletes);
  }

  /** Merge a run of diffs, oldest first. */
  function MergeAll(diffs: seq<StateDiff>): StateDiff {
    if diffs == [] then NO_CHANGE else MergeAll(diffs[..|diffs| - 1]).Merge(diffs[|diffs| - 1])
  }

  /** Apply a run of diffs to a store, oldest first. */
  function ApplyAll(base: Accounts, diffs: seq<StateDiff>): Accounts {
    if diffs == [] then base else diffs[|diffs| - 1].ApplyTo(ApplyAll(base, diffs[..|diffs| - 1]))
  }

  /** Read through a run of diffs, the newest covering the older ones. */
  function OverAll(base: Accounts, diffs: seq<StateDiff>): Accounts {
    if diffs == [] then base else diffs[|diffs| - 1].Over(OverAll(base, diffs[..|diffs| - 1]))
  }

  /** Merging one change. */
  lemma MergeOne(d: StateDiff, a: Pubkey, account: Account)
    ensures d.Merge(NO_CHANGE.Set(a, account)) == d.Set(a, account)
    ensures d.Merge(NO_CHANGE.Remove(a)) == d.Remove(a)
    ensures d.Merge(NO_CHANGE) == d
  {
    assert d.data + map[] == d.data && (d.deletes - NO_CHANGE.data.Keys) + {} == d.deletes;
    assert NO_CHANGE.Set(a, account).data == map[a := account];
  }

  lemma MergeAssociative(a: StateDiff, b: StateDiff, c: StateDiff)
    ensures a.Merge(b).Merge(c) == a.Merge(b.Merge(c))
  {
    assert (a.data + b.data) + c.data == a.data + (b.data + c.data);
    assert ((((a.deletes - b.data.Keys) + b.deletes) - c.data.Keys) + c.deletes)
        == (a.deletes - (b.data + c.data).Keys) + ((b.deletes - c.data.Keys) + c.deletes);
  }

  /** Persisting a merged diff is persisting its parts in order. */
  lemma MergeComposes(base: Accounts, a: StateDiff, b: StateDiff)
    ensures a.Merge(b).ApplyTo(base) == b.ApplyTo(a.ApplyTo(base))
  {
    var once, twice := a.Merge(b).ApplyTo(base), b.ApplyTo(a.ApplyTo(base));
    assert once.Keys == twice.Keys;
    assert forall x | x in once :: once[x] == twice[x];
  }

  /** The persisted store after any run is the genesis store under one merged diff. */
  lemma {:induction false} ApplyAllIsOneMerge(base: Accounts, diffs: seq<StateDiff>)
    ensures ApplyAll(base, diffs) == MergeAll(diffs).ApplyTo(base)
  {
    if diffs == [] {
      assert (base + map[]) - {} == base;
    } else {
      var rest := diffs[..|diffs| - 1];
      ApplyAllIsOneMerge(base, rest);
      MergeComposes(base, MergeAll(rest), diffs[|diffs| - 1]);
    }
  }

  /** Where the read-through view and the persisted store differ: exactly at the addresses whose
      last change was a delete of something the view still shows. */
  lemma {:induction false} ViewVersusApplied(base: Accounts, diffs: seq<StateDiff>, address: Pubkey)
    ensures address !in MergeAll(diffs).deletes ==>
              Get(OverAll(base, diffs), address) == Get(ApplyAll(base, diffs), address)
    ensures address in MergeAll(diffs).deletes ==>
              Get(ApplyAll(base, diffs), address) == None
    ensures address in OverAll(base, diffs) <==> address in base || address in MergeAll(diffs).data
    ensures address in MergeAll(diffs).data ==>
              Get(OverAll(base, diffs), address) == Some(MergeAll(diffs).data[address])
  {
    if diffs == [] {
    } else {
      ViewVersusApplied(base, diffs[..|diffs| - 1], address);
    }
  }

  /** Splitting a run of diffs. */
  lemma {:induction false} AllConcat(base: Accounts, a: seq<StateDiff>, b: seq<StateDiff>)
    ensures OverAll(base, a + b) == OverAll(OverAll(base, a), b)
    ensures ApplyAll(base, a + b) == ApplyAll(ApplyAll(base, a), b)
  {
    if b == [] {
      assert a + b == a;
    } else {
      assert (a + b)[..|a + b| - 1] == a + b[..|b| - 1];
      AllConcat(base, a, b[..|b| - 1]);
    }
  }

  /** Readers above a diff that moves from the overlay into the store notice only its deletes, and
      only where no younger diff covers them. */
  lemma {:induction false} FinalizingUnderView(base: Accounts, root: StateDiff, above: seq<StateDiff>, address: Pubkey)
    ensures Get(OverAll(root.Over(base), above), address) != Get(OverAll(root.ApplyTo(base), above), address)
       <==> address in root.deletes && (address in base || address in root.data)
              && (forall i | 0 <= i < |above| :: address !in above[i].data)
  {
    if above == [] {
    } else {
      var rest, last := above[..|above| - 1], above[|above| - 1];
      FinalizingUnderView(base, root, rest, address);
      if address in last.data {
        assert above[|above| - 1].data == last.data;
      } else {
        assert forall i | 0 <= i < |rest| :: rest[i] == above[i];
        assert (forall i | 0 <= i < |above| :: address !in above[i].data)
          <==> (forall i | 0 <= i < |rest| :: address !in rest[i].data);
      }
    }
  }
}
