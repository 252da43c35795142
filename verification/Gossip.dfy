/** The epidemic broadcast tree of one topic (src/network/episub/tree.rs). */
module Gossip {
  import opened MessageCache

  type Peer = nat
  type Bytes = seq<nat>

  datatype Config = Config(local: Peer, historyWindow: nat, inflate: Bytes -> Bytes, optimizeSenderTree: bool)

  datatype Rpc = Message(id: nat, hop: nat, payload: Bytes) | Prune

  /** What the tree asks of the layer above and of its peers. */
  datatype Event = Deliver(id: nat, payload: Bytes) | Notify(peer: Peer, rpc: Rpc)

  /** What happens to a tree, and when. */
  datatype Act =
    | Publish(now: int, id: nat, payload: Bytes)
    | Receive(now: int, peer: Peer, id: nat, hop: nat, payload: Bytes)
    | Observe(now: int, peer: Peer, id: nat, hop: nat)
    | Forget(now: int)

  // ----- the caches of a tree, told from its history

  datatype Logs = Logs(received: seq<Op<Bytes>>, observed: seq<Op<()>>) {
    function Push(r: Op<Bytes>, o: Op<()>): Logs {
      Logs(received + [r], observed + [o])
    }

    predicate Knows(id: nat) {
      id in Replay(received).data || id in Replay(observed).data
    }
  }

  function After(cfg: Config, logs: Logs, act: Act): Logs {
    match act
    case Publish(now, id, payload) =>
      if logs.Knows(id) then logs.Push(Idle, Idle) else logs.Push(Insert(Item(id, 0, cfg.local, payload), now), Idle)
    case Receive(now, peer, id, hop, payload) => logs.Push(Insert(Item(id, hop, peer, payload), now), Idle)
    case Observe(now, peer, id, hop) => logs.Push(Idle, Insert(Item(id, hop, peer, ()), now))
    case Forget(now) => logs.Push(Expire(now - cfg.historyWindow), Expire(now - cfg.historyWindow))
  }

  function History(cfg: Config, acts: seq<Act>): (logs: Logs)
    ensures |logs.received| == |acts| == |logs.observed|
  {
    if acts == [] then Logs([], []) else After(cfg, History(cfg, acts[..|acts| - 1]), acts[|acts| - 1])
  }

  /** The clock of the run never goes backwards. */
  ghost predicate Timely(acts: seq<Act>) {
    forall i, j | 0 <= i < j < |acts| :: acts[i].now <= acts[j].now
  }

  /** Action k delivers a message to the layer above. */
  predicate Delivers(cfg: Config, acts: seq<Act>, k: nat)
    requires k < |acts|
  {
    acts[k].Receive? && acts[k].id !in Replay(History(cfg, acts[..k]).received).data
  }

  /** Action k publishes a message of the layer above. */
  predicate Publishes(cfg: Config, acts: seq<Act>, k: nat)
    requires k < |acts|
  {
    acts[k].Publish? && !History(cfg, acts[..k]).Knows(acts[k].id)
  }

  /** Action k makes the tree hold message `id`. */
  predicate Brings(cfg: Config, acts: seq<Act>, k: nat, id: nat)
    requires k < |acts|
  {
    (Delivers(cfg, acts, k) || Publishes(cfg, acts, k)) && acts[k].id == id
  }

  lemma OneOpEach(cfg: Config, logs: Logs, act: Act)
    ensures var after := After(cfg, logs, act);
            && |after.received| == |logs.received| + 1 && logs.received <= after.received
            && |after.observed| == |logs.observed| + 1 && logs.observed <= after.observed
  {
  }

  lemma {:induction false} HistoryPrefix(cfg: Config, acts: seq<Act>, k: nat)
    requires k <= |acts|
    ensures History(cfg, acts).received[..k] == History(cfg, acts[..k]).received
    ensures History(cfg, acts).observed[..k] == History(cfg, acts[..k]).observed
    decreases |acts|
  {
    if k == |acts| {
      assert acts[..k] == acts;
    } else {
      var n := |acts| - 1;
      assert acts[..n][..k] == acts[..k];
      HistoryPrefix(cfg, acts[..n], k);
      hide After;
      OneOpEach(cfg, History(cfg, acts[..n]), acts[n]);
    }
  }

  lemma HistoryAt(cfg: Config, acts: seq<Act>, k: nat)
    requires k < |acts|
    ensures var logs := History(cfg, acts);
            After(cfg, History(cfg, acts[..k]), acts[k]) == Logs(logs.received[..k + 1], logs.observed[..k + 1])
    ensures History(cfg, acts).received[..k] == History(cfg, acts[..k]).received
  {
    HistoryPrefix(cfg, acts, k);
    HistoryPrefix(cfg, acts, k + 1);
    assert acts[..k + 1][..k] == acts[..k];
  }

  /** The operations that an action causes. */
  lemma OpsOf(cfg: Config, acts: seq<Act>, i: nat)
    requires i < |acts|
    ensures var logs := History(cfg, acts);
            && (Fresh(logs.received, i) <==> Delivers(cfg, acts, i) || Publishes(cfg, acts, i))
            && (logs.received[i].Insert?
              ==> !acts[i].Forget? && logs.received[i].item.id == acts[i].id && logs.received[i].now == acts[i].now)
            && (logs.observed[i].Insert? ==> logs.observed[i].now == acts[i].now)
            && (logs.received[i].Expire? <==> acts[i].Forget?)
            && (acts[i].Forget? ==> logs.received[i] == Expire(acts[i].now - cfg.historyWindow))
  {
    HistoryAt(cfg, acts, i);
    var logs := History(cfg, acts);
    assert logs.received[..i + 1][i] == logs.received[i] && logs.observed[..i + 1][i] == logs.observed[i];
    hide History, Replay;
  }

  lemma TimelyLogs(cfg: Config, acts: seq<Act>)
    requires Timely(acts)
    ensures Clocked(History(cfg, acts).received) && Clocked(History(cfg, acts).observed)
  {
    hide History, Fresh, Delivers, Publishes;
    forall i | 0 <= i < |acts| ensures var logs := History(cfg, acts);
      && (logs.received[i].Insert? ==> logs.received[i].now == acts[i].now)
      && (logs.observed[i].Insert? ==> logs.observed[i].now == acts[i].now)
    {
      OpsOf(cfg, acts, i);
    }
  }

  /** Message `id`, brought by action i, was forgotten before action k: some pruning in between came
      at least a whole history window after action i. */
  predicate Forgotten(cfg: Config, acts: seq<Act>, i: nat, k: nat)
    requires i < k <= |acts|
  {
    exists j | i < j < k :: acts[j].Forget? && acts[j].now - acts[i].now >= cfg.historyWindow
  }

  lemma LivesUnlessForgotten(cfg: Config, acts: seq<Act>, i: nat)
    requires i < |acts|
    ensures Lives(History(cfg, acts).received, i)
       <==> (Delivers(cfg, acts, i) || Publishes(cfg, acts, i)) && !Forgotten(cfg, acts, i, |acts|)
  {
    var log := History(cfg, acts).received;
    OpsOf(cfg, acts, i);
    hide History, Fresh, Delivers, Publishes;
    forall j | i < j < |acts|
      ensures log[j].Expire? <==> acts[j].Forget?
      ensures acts[j].Forget? ==> log[j].since == acts[j].now - cfg.historyWindow
    {
      OpsOf(cfg, acts, j);
    }
  }

  lemma Restrict(cfg: Config, acts: seq<Act>, i: nat, k: nat)
    requires i < k <= |acts|
    ensures Delivers(cfg, acts[..k], i) == Delivers(cfg, acts, i)
      && Publishes(cfg, acts[..k], i) == Publishes(cfg, acts, i)
    ensures Forgotten(cfg, acts[..k], i, k) == Forgotten(cfg, acts, i, k)
  {
    assert acts[..k][..i] == acts[..i] && acts[..k][i] == acts[i];
    hide History;
    if Forgotten(cfg, acts, i, k) {
      var j :| i < j < k && acts[j].Forget? && acts[j].now - acts[i].now >= cfg.historyWindow;
      assert acts[..k][j] == acts[j];
    }
  }

  /** Exact delivery: a received message is delivered if and only if every earlier delivery or
      publication of its id has been forgotten. */
  lemma DeliveredExactly(cfg: Config, acts: seq<Act>, k: nat)
    requires Timely(acts) && k < |acts| && acts[k].Receive?
    ensures Delivers(cfg, acts, k)
      <==> forall i | 0 <= i < k && Brings(cfg, acts, i, acts[k].id) :: Forgotten(cfg, acts, i, k)
  {
    var before, id := acts[..k], acts[k].id;
    var log := History(cfg, before).received;
    assert Timely(before);
    TimelyLogs(cfg, before);
    FoundIffLiving(log, id);
    assert Delivers(cfg, acts, k) <==> !(exists i :: 0 <= i < |log| && Lives(log, i) && log[i].item.id == id);
    hide History, Lives, Delivers, Publishes, Forgotten, Replay;
    forall i | 0 <= i < k
      ensures Lives(log, i) && log[i].item.id == id <==> Brings(cfg, acts, i, id) && !Forgotten(cfg, acts, i, k)
    {
      LivesUnlessForgotten(cfg, before, i);
      OpsOf(cfg, before, i);
      Restrict(cfg, acts, i, k);
      LivesInsertAt(log, i);
    }
  }

  lemma LivesInsertAt<P>(log: seq<Op<P>>, i: nat)
    requires i < |log|
    ensures Lives(log, i) ==> log[i].Insert?
  {
  }

  /** At most once: two deliveries of one message, or a delivery after a publication, are at least a
      history window apart. */
  lemma AtMostOnce(cfg: Config, acts: seq<Act>, i: nat, k: nat)
    requires Timely(acts) && i < k < |acts|
    requires Delivers(cfg, acts, k) && Brings(cfg, acts, i, acts[k].id)
    ensures acts[k].now - acts[i].now >= cfg.historyWindow
  {
    DeliveredExactly(cfg, acts, k);
    hide Delivers, Publishes;
    assert Forgotten(cfg, acts, i, k);
  }

  /** One copy of a message to each of the peers. */
  function Fanout(peers: set<Peer>, rpc: Rpc): multiset<Event> {
    multiset(set p | p in peers :: Notify(p, rpc))
  }

  lemma FanoutNext(peers: set<Peer>, p: Peer, rpc: Rpc)
    requires p !in peers
    ensures Fanout(peers + {p}, rpc) == Fanout(peers, rpc) + multiset{Notify(p, rpc)}
  {
    var events := set q | q in peers :: Notify(q, rpc);
    assert (set q | q in peers + {p} :: Notify(q, rpc)) == events + {Notify(p, rpc)};
    assert Notify(p, rpc) !in events;
  }

  class PlumTree {
    const cfg: Config
    const observed: ExpiringCache<()>
    const received: ExpiringCache<Bytes>
    var lazy: set<Peer>
    var eager: set<Peer>
    var outEvents: seq<Event>
    ghost var acts: seq<Act>

    ghost predicate Valid()
      reads this, received, observed
    {
      && (received as object) != observed
      && received.Valid() && observed.Valid()
      && Logs(received.log, observed.log) == History(cfg, acts)
      && Timely(acts)
    }

    /** The clock has reached `now`. */
    ghost predicate Reached(now: int)
      reads this
    {
      forall i | 0 <= i < |acts| :: acts[i].now <= now
    }

    constructor (cfg: Config)
      ensures Valid() && fresh(received) && fresh(observed)
      ensures this.cfg == cfg && acts == [] && outEvents == [] && eager == {} && lazy == {}
    {
      this.cfg := cfg;
      received := new ExpiringCache<Bytes>();
      observed := new ExpiringCache<()>();
      eager, lazy, outEvents, acts := {}, {}, [], [];
    }

    /** Once the caches have done what an action asks of them, it joins the history. */
    ghost method Record(act: Act)
      requires Timely(acts) && Reached(act.now)
      requires (received as object) != observed && received.Valid() && observed.Valid()
      requires Logs(received.log, observed.log) == After(cfg, History(cfg, acts), act)
      modifies this`acts
      ensures Valid() && acts == old(acts) + [act]
    {
      acts := acts + [act];
      assert acts[..|acts| - 1] == old(acts);
    }

    lemma CachesReached(now: int)
      requires Valid() && Reached(now)
      ensures received.Reached(now) && observed.Reached(now)
    {
      hide History, Fresh, Delivers, Publishes, Replay;
      forall i | 0 <= i < |acts|
        ensures received.log[i].Insert? ==> received.log[i].now <= now
        ensures observed.log[i].Insert? ==> observed.log[i].now <= now
      {
        OpsOf(cfg, acts, i);
      }
    }

    method PushTo(peers: set<Peer>, rpc: Rpc)
      modifies this`outEvents
      ensures old(outEvents) <= outEvents
      ensures multiset(outEvents[|old(outEvents)|..]) == Fanout(peers, rpc)
    {
      var rest := peers;
      ghost var sent := [];
      while rest != {}
        invariant rest <= peers && outEvents == old(outEvents) + sent
        invariant multiset(sent) == Fanout(peers - rest, rpc)
        decreases rest
      {
        var peer :| peer in rest;
        outEvents := outEvents + [Notify(peer, rpc)];
        sent := sent + [Notify(peer, rpc)];
        FanoutNext(peers - rest, peer, rpc);
        assert peers - (rest - {peer}) == (peers - rest) + {peer};
        rest := rest - {peer};
      }
      assert peers - {} == peers && outEvents[|old(outEvents)|..] == sent;
    }

    method NeighborUp(peer: Peer)
      requires Valid()
      modifies this`eager
      ensures Valid() && eager == old(eager) + {peer}
    {
      eager := eager + {peer};
    }

    method NeighborDown(peer: Peer)
      requires Valid()
      modifies this`eager, this`lazy
      ensures Valid() && eager == old(eager) - {peer} && lazy == old(lazy) - {peer}
    {
      eager := eager - {peer};
      lazy := lazy - {peer};
    }

    /** A message of the layer above goes to all eager peers, unless its id is known. */
    method Publish(now: int, id: nat, payload: Bytes)
      requires Valid() && Reached(now)
      modifies this`outEvents, this`acts, received, observed`log
      ensures Valid() && acts == old(acts) + [Act.Publish(now, id, payload)]
      ensures old(outEvents) <= outEvents
      ensures multiset(outEvents[|old(outEvents)|..])
           == if Publishes(cfg, acts, |old(acts)|) then Fanout(eager, Message(id, 1, payload)) else multiset{}
    {
      ghost var act, past := Act.Publish(now, id, payload), acts;
      CachesReached(now);
      assert (past + [act])[..|past|] == past;
      var seenHere := received.Get(id);
      var seenThere := observed.Get(id);
      if seenHere.Some? || seenThere.Some? {
        received.Rest();
      } else {
        PushTo(eager, Message(id, 1, payload));
        var added := received.Insert(Item(id, 0, cfg.local, payload), now);
      }
      observed.Rest();
      Record(act);
    }

    /** A message from a peer is delivered and passed on to the other eager peers when it is new;
        otherwise the peer may be demoted. */
    method InjectMessage(now: int, peer: Peer, id: nat, hop: nat, payload: Bytes)
      requires Valid() && Reached(now)
      modifies this, received, observed`log
      ensures Valid() && acts == old(acts) + [Receive(now, peer, id, hop, payload)]
      ensures Delivers(cfg, acts, |old(acts)|) ==>
                && eager == old(eager) && lazy == old(lazy)
                && old(outEvents) + [Deliver(id, cfg.inflate(payload))] <= outEvents
                && multiset(outEvents[|old(outEvents)| + 1..]) == Fanout(eager - {peer}, Message(id, hop + 1, payload))
      ensures !Delivers(cfg, acts, |old(acts)|) ==>
                if cfg.optimizeSenderTree && peer in old(eager) then
                  && outEvents == old(outEvents) + [Notify(peer, Prune)]
                  && eager == old(eager) - {peer} && lazy == old(lazy) + {peer}
                else outEvents == old(outEvents) && eager == old(eager) && lazy == old(lazy)
    {
      ghost var act, past := Receive(now, peer, id, hop, payload), acts;
      CachesReached(now);
      assert (past + [act])[..|past|] == past;
      var added := received.Insert(Item(id, hop, peer, payload), now);
      observed.Rest();
      Record(act);
      OpsOf(cfg, acts, |past|);
      hide Fresh, Delivers, Publishes, Valid, After;
      if added {
        outEvents := outEvents + [Deliver(id, cfg.inflate(payload))];
        PushTo(eager - {peer}, Message(id, hop + 1, payload));
      } else if cfg.optimizeSenderTree {
        if peer in eager {
          InjectPrune(peer);
          outEvents := outEvents + [Notify(peer, Prune)];
        }
      }
    }

    method InjectIhave(now: int, peer: Peer, id: nat, hop: nat)
      requires Valid() && Reached(now)
      modifies this`acts, observed, received`log
      ensures Valid() && acts == old(acts) + [Observe(now, peer, id, hop)]
    {
      CachesReached(now);
      var added := observed.Insert(Item(id, hop, peer, ()), now);
      received.Rest();
      Record(Observe(now, peer, id, hop));
    }

    method InjectPrune(peer: Peer)
      modifies this`eager, this`lazy
      ensures eager == old(eager) - {peer} && lazy == old(lazy) + {peer}
    {
      eager := eager - {peer};
      lazy := lazy + {peer};
    }

    /** A grafting peer becomes eager and gets those messages it asks for that are still held, each as
        its best record. */
    method InjectGraft(peer: Peer, ids: seq<nat>)
      requires Valid()
      modifies this`eager, this`lazy, this`outEvents
      ensures Valid() && eager == old(eager) + {peer} && lazy == old(lazy) - {peer}
      ensures outEvents == old(outEvents) + Replies(received.State(), peer, ids)
    {
      hide History, Replay, Clocked, Timely, Lives, Best;
      lazy := lazy - {peer};
      eager := eager + {peer};
      for k := 0 to |ids|
        invariant Valid() && eager == old(eager) + {peer} && lazy == old(lazy) - {peer}
        invariant outEvents == old(outEvents) + Replies(received.State(), peer, ids[..k])
      {
        assert ids[..k + 1][..k] == ids[..k];
        var record := received.Get(ids[k]);
        if record.Some? {
          outEvents := outEvents + [Notify(peer, Message(record.value.id, record.value.hop, record.value.payload))];
        }
      }
      assert ids[..|ids|] == ids;
    }

    method PruneHistory(now: int)
      requires Valid() && Reached(now)
      modifies this`acts, received, observed
      ensures Valid() && acts == old(acts) + [Forget(now)]
    {
      hide History, Replay, Clocked, Timely;
      var cutoff := now - cfg.historyWindow;
      observed.RemoveOlderThan(cutoff);
      received.RemoveOlderThan(cutoff);
      Record(Forget(now));
    }
  }

  function Replies(c: Cache<Bytes>, peer: Peer, ids: seq<nat>): seq<Event> {
    if ids == [] then [] else
      var before, id := Replies(c, peer, ids[..|ids| - 1]), ids[|ids| - 1];
      if id in c.data then
        before + [Notify(peer, Message(c.data[id].item.id, c.data[id].item.hop, c.data[id].item.payload))]
      else before
  }

  /** The i-th operation is a living arrival of the message. */
  ghost predicate Holding(log: seq<Op<Bytes>>, i: nat, id: nat) {
    i < |log| && Lives(log, i) && log[i].item.id == id
  }

  /** The answer is a record of the message with the fewest hops since the living arrival. */
  ghost predicate Answers(log: seq<Op<Bytes>>, peer: Peer, id: nat, answer: Event) {
    exists i: nat, r: Timed<Bytes> ::
      Holding(log, i, id) && Best(log, i, r) && answer == Notify(peer, Message(id, r.item.hop, r.item.payload))
  }

  /** Each requested message that has a living arrival is answered once, in the order of the requests; others
      are not. */
  lemma GraftAnswers(log: seq<Op<Bytes>>, peer: Peer, ids: seq<nat>, k: nat)
    requires Clocked(log) && k < |ids|
    ensures var c := Replay(log);
            var before, after := Replies(c, peer, ids[..k]), Replies(c, peer, ids[..k + 1]);
            && Replies(c, peer, ids[..0]) == []
            && if exists i: nat :: Holding(log, i, ids[k])
               then |after| == |before| + 1 && after[..|before|] == before
                 && Answers(log, peer, ids[k], after[|before|])
               else after == before
  {
    var c, id := Replay(log), ids[k];
    hide Replay, Lives, Best, Clocked;
    assert ids[..k + 1][..k] == ids[..k];
    FoundIffLiving(log, id);
    if id in c.data {
      var i :| 0 <= i < |log| && Lives(log, i) && log[i].item.id == id;
      assert Holding(log, i, id);
      FoundIsBest(log, i);
      BestIs(log, i, c.data[id]);
    }
  }

  lemma BestIs(log: seq<Op<Bytes>>, i: nat, r: Timed<Bytes>)
    requires i < |log| && log[i].Insert? && Best(log, i, r)
    ensures r.item.id == log[i].item.id
  {
  }
}
