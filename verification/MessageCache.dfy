/** The message caches of the gossip layer (src/network/episub/cache.rs). */
module MessageCache {
  import opened Primitives

  /** A record of a message. Records are compared by their number of hops. */
  datatype Item<+P> = Item(id: nat, hop: nat, sender: nat, payload: P)

  datatype Timed<+P> = Timed(item: Item<P>, time: int)

  /** The map holds the best record of each message, the queue the first one, in order of arrival. */
  datatype Cache<+P> = Cache(data: map<nat, Timed<P>>, byTime: seq<Timed<P>>)

  /** What happens to a cache: an item arrives, old ones are removed, or the cache is left alone. */
  datatype Op<+P> = Insert(item: Item<P>, now: int) | Expire(since: int) | Idle

  function Inserted<P>(c: Cache<P>, item: Item<P>, now: int): Cache<P> {
    var timed := Timed(item, now);
    if item.id in c.data then
      if item.hop < c.data[item.id].item.hop then c.(data := c.data[item.id := timed]) else c
    else Cache(c.data[item.id := timed], c.byTime + [timed])
  }

  /** How many entries at the front of the queue are not newer than `since`. */
  function Stale<P>(byTime: seq<Timed<P>>, since: int): (n: nat)
    ensures n <= |byTime| && (forall i | 0 <= i < n :: byTime[i].time <= since)
    ensures n < |byTime| ==> byTime[n].time > since
  {
    if byTime == [] || byTime[0].time > since then 0 else 1 + Stale(byTime[1..], since)
  }

  function Ids<P>(byTime: seq<Timed<P>>): set<nat> {
    set i | 0 <= i < |byTime| :: byTime[i].item.id
  }

  function Expired<P>(c: Cache<P>, since: int): Cache<P> {
    var n := Stale(c.byTime, since);
    Cache(c.data - Ids(c.byTime[..n]), c.byTime[n..])
  }

  function Apply<P>(c: Cache<P>, op: Op<P>): Cache<P> {
    match op
    case Insert(item, now) => Inserted(c, item, now)
    case Expire(since) => Expired(c, since)
    case Idle => c
  }

  function Replay<P>(log: seq<Op<P>>): Cache<P> {
    if log == [] then Cache(map[], []) else Apply(Replay(log[..|log| - 1]), log[|log| - 1])
  }

  // ----- what a cache holds, told from its history alone

  /** The clock never runs backwards from one arrival to the next. */
  ghost predicate Clocked<P>(log: seq<Op<P>>) {
    forall i, j | 0 <= i < j < |log| && log[i].Insert? && log[j].Insert? :: log[i].now <= log[j].now
  }

  /** Arrival i was of a message that the cache did not hold. */
  predicate Fresh<P>(log: seq<Op<P>>, i: nat)
    requires i < |log|
  {
    log[i].Insert? && log[i].item.id !in Replay(log[..i]).data
  }

  /** The message that came with arrival i has not been removed since. */
  ghost predicate Lives<P>(log: seq<Op<P>>, i: nat)
    requires i < |log|
  {
    Fresh(log, i) && (forall j | i < j < |log| && log[j].Expire? :: log[j].since < log[i].now)
  }

  /** A best record of the message among all that arrived since arrival i. */
  ghost predicate Best<P>(log: seq<Op<P>>, i: nat, record: Timed<P>)
    requires i < |log| && log[i].Insert?
  {
    && (exists j | i <= j < |log| :: log[j] == Insert(record.item, record.time) && record.item.id == log[i].item.id)
    && (forall j | i <= j < |log| && log[j].Insert? && log[j].item.id == log[i].item.id ::
      record.item.hop <= log[j].item.hop)
  }

  /** Map and queue hold the same messages, each once, and the queue is sorted by time. */
  ghost predicate Agree<P>(c: Cache<P>) {
    && c.data.Keys == Ids(c.byTime)
    && (forall p, q | 0 <= p < q < |c.byTime| ::
      c.byTime[p].item.id != c.byTime[q].item.id && c.byTime[p].time <= c.byTime[q].time)
    && (forall k | k in c.data :: c.data[k].item.id == k)
  }

  /** The arrivals behind the entries of the queue. */
  ghost function Births<P>(log: seq<Op<P>>): (r: seq<nat>)
    ensures |r| == |Replay(log).byTime|
  {
    if log == [] then [] else
      var n := |log| - 1;
      var before := Births(log[..n]);
      match log[n]
      case Insert(item, now) => if item.id in Replay(log[..n]).data then before else before + [n]
      case Expire(since) => before[Stale(Replay(log[..n]).byTime, since)..]
      case Idle => before
  }

  /** Every entry of the queue is the arrival it stems from. */
  ghost predicate Rooted<P>(log: seq<Op<P>>, births: seq<nat>, byTime: seq<Timed<P>>) {
    && |births| == |byTime|
    && (forall p | 0 <= p < |births| :: births[p] < |log| && log[births[p]] == Insert(byTime[p].item, byTime[p].time))
    && (forall p, q | 0 <= p < q < |births| :: births[p] < births[q])
  }

  ghost predicate Alive<P>(log: seq<Op<P>>, births: seq<nat>) {
    forall i | 0 <= i < |log| :: i in births <==> Lives(log, i)
  }

  /** The map holds a best record of every message in the queue. */
  ghost predicate Optimal<P>(log: seq<Op<P>>, births: seq<nat>, c: Cache<P>)
    requires Rooted(log, births, c.byTime) && Agree(c)
  {
    forall p | 0 <= p < |births| :: c.byTime[p].item.id in c.data && Best(log, births[p], c.data[c.byTime[p].item.id])
  }

  /** The queue lists the living arrivals in order, and the map holds a best record for each. */
  ghost predicate Faithful<P>(log: seq<Op<P>>) {
    var c, births := Replay(log), Births(log);
    Agree(c) && Rooted(log, births, c.byTime) && Alive(log, births) && Optimal(log, births, c)
  }

  lemma IdsOf<P>(byTime: seq<Timed<P>>, id: nat)
    ensures id in Ids(byTime) <==> exists p :: 0 <= p < |byTime| && byTime[p].item.id == id
  {
  }

  /** The last operation and the living arrivals before it. */
  lemma LivesNext<P>(log: seq<Op<P>>, i: nat)
    requires i + 1 < |log|
    ensures var n := |log| - 1;
            Lives(log, i) <==> Lives(log[..n], i) && (log[n].Expire? ==> log[n].since < log[i].now)
  {
    var n := |log| - 1;
    assert log[..n][..i] == log[..i];
    if Lives(log, i) {
      forall j | i < j < n && log[..n][j].Expire? ensures log[..n][j].since < log[..n][i].now {
        assert log[j].Expire?;
      }
    }
    if Lives(log[..n], i) && (log[n].Expire? ==> log[n].since < log[i].now) {
      forall j | i < j < |log| && log[j].Expire? ensures log[j].since < log[i].now {
        if j < n { assert log[..n][j].Expire?; }
      }
    }
  }

  lemma BestNext<P>(log: seq<Op<P>>, i: nat, record: Timed<P>)
    requires i + 1 < |log| && log[i].Insert? && Best(log[..|log| - 1], i, record)
    ensures var last := log[|log| - 1];
            Best(log, i, if last.Insert? && last.item.id == log[i].item.id
              && last.item.hop < record.item.hop then Timed(last.item, last.now) else record)
  {
    var n := |log| - 1;
    forall j | i <= j < n && log[j].Insert? && log[j].item.id == log[i].item.id
      ensures record.item.hop <= log[j].item.hop
    {
      assert log[..n][j] == log[j];
    }
    var j :| i <= j < n && log[..n][j] == Insert(record.item, record.time) && record.item.id == log[..n][i].item.id;
    assert log[j] == Insert(record.item, record.time);
  }

  lemma LastBest<P>(log: seq<Op<P>>)
    requires |log| > 0 && log[|log| - 1].Insert?
    ensures Best(log, |log| - 1, Timed(log[|log| - 1].item, log[|log| - 1].now))
  {
  }

  lemma LastLives<P>(log: seq<Op<P>>)
    requires |log| > 0
    ensures var n := |log| - 1;
            Lives(log, n) <==> log[n].Insert? && log[n].item.id !in Replay(log[..n]).data
  {
  }

  /** Living arrivals stay until an expiry reaches them, and only the last operation can add one. */
  lemma AliveNext<P>(log: seq<Op<P>>, births: seq<nat>, births': seq<nat>)
    requires |log| > 0 && Alive(log[..|log| - 1], births)
    requires forall i | 0 <= i < |log| - 1 && i in births :: log[i].Insert?
    requires forall i | 0 <= i < |log| - 1 ::
               i in births' <==> i in births && (log[|log| - 1].Expire? ==> log[|log| - 1].since < log[i].now)
    requires |log| - 1 in births'
      <==> log[|log| - 1].Insert? && log[|log| - 1].item.id !in Replay(log[..|log| - 1]).data
    ensures Alive(log, births')
  {
    hide Lives;
    LastLives(log);
    forall i | 0 <= i < |log| - 1 ensures i in births' <==> Lives(log, i) {
      LivesNext(log, i);
      LivesInsert(log, i);
    }
  }

  lemma LivesInsert<P>(log: seq<Op<P>>, i: nat)
    requires i + 1 < |log|
    ensures Lives(log[..|log| - 1], i) ==> log[i].Insert?
  {
  }

  // ----- each operation keeps a cache faithful

  /** The cache before the last operation is faithful. */
  ghost predicate Before<P>(log: seq<Op<P>>, c: Cache<P>, births: seq<nat>) {
    && |log| > 0
    && c == Replay(log[..|log| - 1]) && births == Births(log[..|log| - 1])
    && Agree(c) && Rooted(log[..|log| - 1], births, c.byTime)
    && Alive(log[..|log| - 1], births) && Optimal(log[..|log| - 1], births, c)
  }

  lemma RootedNext<P>(log: seq<Op<P>>, c: Cache<P>, births: seq<nat>)
    requires Before(log, c, births)
    ensures Rooted(log, births, c.byTime)
    ensures forall p | 0 <= p < |births| :: log[..|log| - 1][births[p]] == log[births[p]]
  {
  }

  lemma BirthsInsert<P>(log: seq<Op<P>>, c: Cache<P>, births: seq<nat>)
    requires Before(log, c, births)
    ensures forall i | 0 <= i < |log| - 1 && i in births :: log[i].Insert?
    ensures |log| - 1 !in births
  {
    RootedNext(log, c, births);
    hide Agree, Alive, Optimal;
  }

  lemma IdsAppend<P>(byTime: seq<Timed<P>>, t: Timed<P>)
    ensures Ids(byTime + [t]) == Ids(byTime) + {t.item.id}
  {
    var more := byTime + [t];
    assert more[|byTime|] == t;
    forall id | id in Ids(byTime) ensures id in Ids(more) {
      var p :| 0 <= p < |byTime| && byTime[p].item.id == id;
      assert more[p].item.id == id;
    }
  }

  lemma FreshAgrees<P>(c: Cache<P>, item: Item<P>, now: int)
    requires Agree(c) && item.id !in c.data && (forall p | 0 <= p < |c.byTime| :: c.byTime[p].time <= now)
    ensures Agree(Inserted(c, item, now))
  {
    IdsAppend(c.byTime, Timed(item, now));
    forall p | 0 <= p < |c.byTime| ensures c.byTime[p].item.id in c.data {
      IdsOf(c.byTime, c.byTime[p].item.id);
    }
  }

  lemma RepeatAgrees<P>(c: Cache<P>, item: Item<P>, now: int)
    requires Agree(c) && item.id in c.data
    ensures Agree(Inserted(c, item, now)) && Inserted(c, item, now).byTime == c.byTime
  {
    assert c.data[item.id := Timed(item, now)].Keys == c.data.Keys;
  }

  /** A first arrival joins the end of the queue. */
  lemma FreshJoins<P>(log: seq<Op<P>>, c: Cache<P>, births: seq<nat>, item: Item<P>, now: int)
    requires Before(log, c, births) && Clocked(log)
    requires log[|log| - 1] == Insert(item, now) && item.id !in c.data
    ensures var c' := Inserted(c, item, now);
            Agree(c') && Rooted(log, births + [|log| - 1], c'.byTime)
  {
    RootedNext(log, c, births);
    hide Replay, Births, Lives, Best, Ids;
    forall p | 0 <= p < |c.byTime| ensures c.byTime[p].time <= now {
      assert log[births[p]].Insert?;
    }
    FreshAgrees(c, item, now);
    hide Agree;
  }

  lemma FreshFaithful<P>(log: seq<Op<P>>, c: Cache<P>, births: seq<nat>, item: Item<P>, now: int)
    requires Before(log, c, births) && Clocked(log)
    requires log[|log| - 1] == Insert(item, now) && item.id !in c.data
    ensures Faithful(log)
  {
    var n := |log| - 1;
    FreshJoins(log, c, births, item, now);
    RootedNext(log, c, births);
    var c', births' := Inserted(c, item, now), births + [n];
    assert Replay(log) == c' && Births(log) == births';
    hide Replay, Births, Lives, Best;
    AliveNext(log, births, births');
    forall p | 0 <= p <= |births|
      ensures c'.byTime[p].item.id in c'.data && Best(log, births'[p], c'.data[c'.byTime[p].item.id])
    {
      if p < |births| {
        assert c'.byTime[p] == c.byTime[p];
        BestNext(log, births[p], c.data[c.byTime[p].item.id]);
      } else {
        LastBest(log);
      }
    }
    assert Optimal(log, births', c');
    hide Agree, Rooted, Alive, Optimal;
  }

  lemma RepeatOptimal<P>(log: seq<Op<P>>, c: Cache<P>, births: seq<nat>, item: Item<P>, now: int)
    requires Before(log, c, births)
    requires log[|log| - 1] == Insert(item, now) && item.id in c.data
    ensures var c' := Inserted(c, item, now);
            Agree(c') && Rooted(log, births, c'.byTime) && Optimal(log, births, c')
  {
    hide Replay, Births, Lives, Best;
    RepeatAgrees(c, item, now);
    RootedNext(log, c, births);
    var c' := Inserted(c, item, now);
    forall p | 0 <= p < |births|
      ensures c'.byTime[p].item.id in c'.data && Best(log, births[p], c'.data[c'.byTime[p].item.id])
    {
      BestNext(log, births[p], c.data[c.byTime[p].item.id]);
    }
    hide Agree;
  }

  /** A repeated arrival changes at most the record in the map. */
  lemma RepeatFaithful<P>(log: seq<Op<P>>, c: Cache<P>, births: seq<nat>, item: Item<P>, now: int)
    requires Before(log, c, births)
    requires log[|log| - 1] == Insert(item, now) && item.id in c.data
    ensures Faithful(log)
  {
    hide Lives, Best, Agree, Optimal, Inserted, Rooted, Alive;
    BirthsInsert(log, c, births);
    RepeatOptimal(log, c, births, item, now);
    AliveNext(log, births, births);
  }

  lemma AgreeUnique<P>(c: Cache<P>)
    requires Agree(c)
    ensures forall p, q | 0 <= p < q < |c.byTime| :: c.byTime[p].item.id != c.byTime[q].item.id
  {
  }

  lemma SplitAgrees<P>(c: Cache<P>, k: nat)
    requires Agree(c) && k <= |c.byTime|
    ensures Agree(Cache(c.data - Ids(c.byTime[..k]), c.byTime[k..]))
  {
    SplitIds(c, k);
    hide Ids;
  }

  lemma SplitIds<P>(c: Cache<P>, k: nat)
    requires Agree(c) && k <= |c.byTime|
    ensures Ids(c.byTime[k..]) == Ids(c.byTime) - Ids(c.byTime[..k])
  {
    hide Agree;
    AgreeUnique(c);
    forall id ensures id in Ids(c.byTime[k..]) <==> id in Ids(c.byTime) - Ids(c.byTime[..k]) {
      if id in Ids(c.byTime) && id !in Ids(c.byTime[..k]) {
        var p :| 0 <= p < |c.byTime| && c.byTime[p].item.id == id;
        assert p >= k;
        assert c.byTime[k..][p - k].item.id == id;
      }
      if id in Ids(c.byTime[k..]) {
        var p :| 0 <= p < |c.byTime[k..]| && c.byTime[k..][p].item.id == id;
        assert c.byTime[k + p].item.id == id;
      }
    }
  }

  lemma NewerStays<P>(c: Cache<P>, since: int, p: nat)
    requires Agree(c) && Stale(c.byTime, since) <= p < |c.byTime|
    ensures c.byTime[p].time > since
  {
  }

  /** The entries that an expiry leaves are those of the arrivals after the cutoff. */
  lemma ExpireKeeps<P>(log: seq<Op<P>>, c: Cache<P>, births: seq<nat>, since: int, i: nat)
    requires Before(log, c, births) && i < |log| - 1
    ensures var k := Stale(c.byTime, since);
            i in births[k..] <==> i in births && log[i].Insert? && since < log[i].now
  {
    hide Agree, Alive, Optimal, Replay, Births;
    RootedNext(log, c, births);
    var k := Stale(c.byTime, since);
    if i in births {
      var p :| 0 <= p < |births| && births[p] == i;
      assert log[i] == Insert(c.byTime[p].item, c.byTime[p].time);
      if p >= k {
        assert births[k..][p - k] == i;
        NewerStays(c, since, p);
      }
    }
  }

  lemma ExpireRooted<P>(log: seq<Op<P>>, c: Cache<P>, births: seq<nat>, k: nat)
    requires Before(log, c, births) && k <= |births|
    ensures Rooted(log, births[k..], c.byTime[k..])
  {
    RootedNext(log, c, births);
    hide Agree, Alive, Optimal;
  }

  lemma ExpireOptimal<P>(log: seq<Op<P>>, c: Cache<P>, births: seq<nat>, since: int)
    requires Before(log, c, births) && log[|log| - 1] == Expire(since)
    ensures var c' := Expired(c, since);
            Agree(c') && Rooted(log, births[Stale(c.byTime, since)..], c'.byTime)
              && Optimal(log, births[Stale(c.byTime, since)..], c')
  {
    hide Replay, Births, Lives, Best, Ids, Alive;
    var k := Stale(c.byTime, since);
    var c', births' := Expired(c, since), births[k..];
    SplitAgrees(c, k);
    ExpireRooted(log, c, births, k);
    RootedNext(log, c, births);
    hide Rooted;
    forall p | 0 <= p < |births'|
      ensures c'.byTime[p].item.id in c'.data && Best(log, births'[p], c'.data[c'.byTime[p].item.id])
    {
      ExpireBest(log, c, births, k, p);
    }
  }

  lemma ExpireBest<P>(log: seq<Op<P>>, c: Cache<P>, births: seq<nat>, k: nat, p: nat)
    requires Before(log, c, births) && log[|log| - 1].Expire? && k + p < |births|
    ensures var id := c.byTime[k..][p].item.id;
            id in c.data && id !in Ids(c.byTime[..k]) && births[k..][p] < |log| && log[births[k..][p]].Insert?
              && Best(log, births[k..][p], c.data[id])
  {
    hide Replay, Births, Lives, Best, Alive, Ids;
    RootedNext(log, c, births);
    IdsOf(c.byTime, c.byTime[k + p].item.id);
    IdsOf(c.byTime[..k], c.byTime[k + p].item.id);
    BestNext(log, births[k + p], c.data[c.byTime[k + p].item.id]);
  }

  /** Removing old entries ends exactly the lives that began at or before the cutoff. */
  lemma ExpireFaithful<P>(log: seq<Op<P>>, c: Cache<P>, births: seq<nat>, since: int)
    requires Before(log, c, births) && log[|log| - 1] == Expire(since)
    ensures Faithful(log)
  {
    var n, k := |log| - 1, Stale(c.byTime, since);
    hide Lives, Best, Agree, Optimal, Expired, Rooted, Alive;
    BirthsInsert(log, c, births);
    ExpireOptimal(log, c, births, since);
    assert n !in births[k..];
    forall i | 0 <= i < n ensures i in births[k..] <==> i in births && since < log[i].now {
      ExpireKeeps(log, c, births, since, i);
    }
    AliveNext(log, births, births[k..]);
  }

  lemma IdleFaithful<P>(log: seq<Op<P>>, c: Cache<P>, births: seq<nat>)
    requires Before(log, c, births) && log[|log| - 1].Idle?
    ensures Faithful(log)
  {
    RootedNext(log, c, births);
    assert Replay(log) == c && Births(log) == births;
    hide Replay, Births, Lives, Best;
    AliveNext(log, births, births);
    forall p | 0 <= p < |births| ensures Best(log, births[p], c.data[c.byTime[p].item.id]) {
      BestNext(log, births[p], c.data[c.byTime[p].item.id]);
    }
  }

  /** Under a clock that never runs backwards, every cache is faithful to its history. */
  lemma {:induction false} CacheIsFaithful<P>(log: seq<Op<P>>)
    requires Clocked(log)
    ensures Faithful(log)
  {
    if log == [] {
    } else {
      var n := |log| - 1;
      CacheIsFaithful(log[..n]);
      var c, births := Replay(log[..n]), Births(log[..n]);
      hide Agree, Rooted, Alive, Optimal, Replay, Births;
      match log[n]
      case Insert(item, now) =>
        if item.id in c.data {
          RepeatFaithful(log, c, births, item, now);
        } else {
          FreshFaithful(log, c, births, item, now);
        }
      case Expire(since) => ExpireFaithful(log, c, births, since);
      case Idle => IdleFaithful(log, c, births);
    }
  }

  /** A living arrival is behind one entry of the queue, and the map holds a best record for it. */
  lemma LivingIsFound<P>(log: seq<Op<P>>, i: nat) returns (p: nat)
    requires Faithful(log) && i < |log| && Lives(log, i)
    ensures p < |Births(log)| && Births(log)[p] == i && Replay(log).byTime[p].item == log[i].item
    ensures log[i].Insert? && log[i].item.id in Replay(log).data && Best(log, i, Replay(log).data[log[i].item.id])
  {
    hide Replay, Births, Lives, Best, Agree;
    p :| 0 <= p < |Births(log)| && Births(log)[p] == i;
  }

  /** Two living arrivals are of different messages. */
  lemma OneLife<P>(log: seq<Op<P>>, i: nat, j: nat)
    requires Clocked(log) && i < |log| && j < |log| && Lives(log, i) && Lives(log, j)
      && log[i].item.id == log[j].item.id
    ensures i == j
  {
    CacheIsFaithful(log);
    var p := LivingIsFound(log, i);
    var q := LivingIsFound(log, j);
    hide Replay, Births, Lives;
  }

  /** A message is in the cache exactly when one of its arrivals is still alive. */
  lemma FoundIffLiving<P>(log: seq<Op<P>>, id: nat)
    requires Clocked(log)
    ensures id in Replay(log).data <==> exists i :: 0 <= i < |log| && Lives(log, i) && log[i].item.id == id
  {
    CacheIsFaithful(log);
    var c, births := Replay(log), Births(log);
    if i :| 0 <= i < |log| && Lives(log, i) && log[i].item.id == id {
      var p := LivingIsFound(log, i);
    }
    hide Replay, Births, Lives, Best;
    if id in c.data {
      IdsOf(c.byTime, id);
      var p :| 0 <= p < |c.byTime| && c.byTime[p].item.id == id;
      assert births[p] in births && Lives(log, births[p]);
    }
  }

  /** The record found for a message is a best one since its living arrival. */
  lemma FoundIsBest<P>(log: seq<Op<P>>, i: nat)
    requires Clocked(log) && i < |log| && Lives(log, i)
    ensures log[i].item.id in Replay(log).data && Best(log, i, Replay(log).data[log[i].item.id])
  {
    CacheIsFaithful(log);
    var p := LivingIsFound(log, i);
  }

  // ----- the cache itself

  /** A cut of the queue at time t, as a binary search finds it: any entry with that very time, or else
      the place where one would be inserted. */
  predicate IsCut<P>(byTime: seq<Timed<P>>, t: int, p: nat) {
    && p <= |byTime|
    && ((p < |byTime| && byTime[p].time == t)
        || ((forall i | 0 <= i < p :: byTime[i].time < t) && (forall i | p <= i < |byTime| :: byTime[i].time > t)))
  }

  /** The two ends of a span are cut in order, whichever entries the searches hit; the two searches for
      one and the same time hit the same entry. */
  ghost predicate CutInOrder<P>(byTime: seq<Timed<P>>, from: int, until: int) {
    from == until || forall p: nat, q: nat | IsCut(byTime, from, p) && IsCut(byTime, until, q) :: p <= q
  }

  /** The entries between two cuts. */
  ghost predicate IsRange<P>(byTime: seq<Timed<P>>, from: int, until: int, lo: nat, hi: nat) {
    && lo <= hi <= |byTime|
    && (forall i | lo <= i < hi :: from <= byTime[i].time <= until)
    && (forall i | 0 <= i < |byTime| && from < byTime[i].time < until :: lo <= i < hi)
  }

  lemma StaleIs<P>(byTime: seq<Timed<P>>, since: int, n: nat)
    requires n <= |byTime| && (forall i | 0 <= i < n :: byTime[i].time <= since)
    requires n < |byTime| ==> byTime[n].time > since
    ensures Stale(byTime, since) == n
  {
  }

  lemma Pushed<P>(log: seq<Op<P>>, op: Op<P>)
    requires Clocked(log)
    requires op.Insert? ==> forall i | 0 <= i < |log| && log[i].Insert? :: log[i].now <= op.now
    ensures Replay(log + [op]) == Apply(Replay(log), op) && Clocked(log + [op])
  {
    var more := log + [op];
    assert more[..|log|] == log && more[|log|] == op;
    hide Apply, Clocked;
    ClockedNext(log, op);
  }

  lemma ClockedNext<P>(log: seq<Op<P>>, op: Op<P>)
    requires Clocked(log)
    requires op.Insert? ==> forall i | 0 <= i < |log| && log[i].Insert? :: log[i].now <= op.now
    ensures Clocked(log + [op])
  {
  }

  lemma SortedByTime<P>(log: seq<Op<P>>)
    requires Clocked(log)
    ensures forall p, q | 0 <= p < q < |Replay(log).byTime| :: Replay(log).byTime[p].time <= Replay(log).byTime[q].time
  {
    CacheIsFaithful(log);
  }

  class ExpiringCache<P> {
    var data: map<nat, Timed<P>>
    var byTime: seq<Timed<P>>
    ghost var log: seq<Op<P>>

    ghost function State(): Cache<P>
      reads this
    {
      Cache(data, byTime)
    }

    ghost predicate Valid()
      reads this
    {
      State() == Replay(log) && Clocked(log)
    }

    /** The clock has reached `now`. */
    ghost predicate Reached(now: int)
      reads this
    {
      forall i | 0 <= i < |log| && log[i].Insert? :: log[i].now <= now
    }

    constructor ()
      ensures Valid() && log == []
    {
      data, byTime, log := map[], [], [];
    }

    /** The cache is left alone while something else happens. */
    ghost method Rest()
      requires Valid()
      modifies this`log
      ensures Valid() && log == old(log) + [Idle]
    {
      log := log + [Idle];
      assert log[..|log| - 1] == old(log);
    }

    method Insert(item: Item<P>, now: int) returns (added: bool)
      requires Valid() && Reached(now)
      modifies this
      ensures Valid() && log == old(log) + [Op.Insert(item, now)]
      ensures added == Fresh(log, |old(log)|)
    {
      var timed := Timed(item, now);
      if item.id in data {
        if item.hop < data[item.id].item.hop {
          data := data[item.id := timed];
        }
        added := false;
      } else {
        data := data[item.id := timed];
        byTime := byTime + [timed];
        added := true;
      }
      log := log + [Op.Insert(item, now)];
      assert log[..|log| - 1] == old(log);
    }

    /** The record for a message: one with the fewest hops among all since its living arrival. */
    method Get(id: nat) returns (record: Option<Item<P>>)
      requires Valid()
      ensures record == if id in data then Some(data[id].item) else None
      ensures record.Some? <==> exists i :: 0 <= i < |log| && Lives(log, i) && log[i].item.id == id
      ensures forall i | 0 <= i < |log| && Lives(log, i) && log[i].item.id == id ::
        record.Some? && Best(log, i, data[id])
    {
      record := if id in data then Some(data[id].item) else None;
      FoundIffLiving(log, id);
      hide Lives, Best, Replay, Clocked;
      forall i | 0 <= i < |log| && Lives(log, i) && log[i].item.id == id ensures id in data && Best(log, i, data[id]) {
        FoundIsBest(log, i);
      }
    }

    /** The first records of the messages that arrived in a span of time. */
    method IterRange(from: int, until: int) returns (range: seq<Timed<P>>)
      requires Valid() && CutInOrder(byTime, from, until)
      ensures exists lo: nat, hi: nat :: IsRange(byTime, from, until, lo, hi) && range == byTime[lo..hi]
    {
      SortedByTime(log);
      hide Replay, Clocked, IsRange, IsCut, CutInOrder;
      CutExists(byTime, from);
      CutExists(byTime, until);
      var lo: nat :| lo <= |byTime| && IsCut(byTime, from, lo);
      var hi: nat :| hi <= |byTime| && IsCut(byTime, until, hi);
      if from == until { hi := lo; }
      RangeOfCuts(byTime, from, until, lo, hi);
      range := byTime[lo..hi];
    }

    method RemoveOlderThan(since: int)
      requires Valid()
      modifies this
      ensures Valid() && log == old(log) + [Expire(since)]
    {
      hide Replay, Clocked;
      Pushed(log, Expire(since));
      ghost var n := 0;
      assert data - {} == data;
      while byTime != []
        invariant n <= |old(byTime)| && byTime == old(byTime)[n..]
        invariant data == old(data) - Ids(old(byTime)[..n])
        invariant log == old(log)
        invariant forall i | 0 <= i < n :: old(byTime)[i].time <= since
        decreases |byTime|
      {
        var entry := byTime[0];
        if entry.time > since { break; }
        data := data - {entry.item.id};
        byTime := byTime[1..];
        assert old(byTime)[..n + 1] == old(byTime)[..n] + [entry];
        IdsAppend(old(byTime)[..n], entry);
        n := n + 1;
      }
      StaleIs(old(byTime), since, n);
      log := log + [Expire(since)];
    }
  }

  lemma CutExists<P>(byTime: seq<Timed<P>>, t: int)
    requires forall p, q | 0 <= p < q < |byTime| :: byTime[p].time <= byTime[q].time
    ensures exists p: nat :: p <= |byTime| && IsCut(byTime, t, p)
  {
    var p: nat := 0;
    while p < |byTime| && byTime[p].time < t
      invariant p <= |byTime| && forall i | 0 <= i < p :: byTime[i].time < t
    {
      p := p + 1;
    }
    assert IsCut(byTime, t, p);
  }

  lemma RangeOfCuts<P>(byTime: seq<Timed<P>>, from: int, until: int, lo: nat, hi: nat)
    requires CutInOrder(byTime, from, until)
    requires IsCut(byTime, from, lo) && IsCut(byTime, until, hi) && (from == until ==> lo == hi)
    requires forall p, q | 0 <= p < q < |byTime| :: byTime[p].time <= byTime[q].time
    ensures IsRange(byTime, from, until, lo, hi) && lo <= hi <= |byTime|
  {
    assert lo <= hi;
  }

  /** A span that does not end before it starts is cut in order. So is any span without an entry from
      its end to its start, and of those nothing is returned. */
  lemma SpansInOrder<P>(byTime: seq<Timed<P>>, from: int, until: int)
    requires forall p, q | 0 <= p < q < |byTime| :: byTime[p].time <= byTime[q].time
    requires from <= until || forall i | 0 <= i < |byTime| :: !(until <= byTime[i].time <= from)
    ensures CutInOrder(byTime, from, until)
    ensures forall lo: nat, hi: nat | from > until && IsRange(byTime, from, until, lo, hi) :: lo == hi
  {
    forall p: nat, q: nat | IsCut(byTime, from, p) && IsCut(byTime, until, q) && from != until ensures p <= q {
      if q < |byTime| {
        assert byTime[q].time >= until;
      }
    }
    forall lo: nat, hi: nat | from > until && IsRange(byTime, from, until, lo, hi) ensures lo == hi {
      if lo < |byTime| {
        var t := byTime[lo].time;
        assert from <= t <= until || hi <= lo;
      }
    }
  }
}
