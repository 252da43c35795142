/** The consensus state machine (src/consensus/chain.rs) as a function of its inputs. The pool of
    orphaned blocks lives in `Adoption`: here a run is any sequence of offered blocks and polls. */
module Consensus {
  import opened Primitives
  import opened State
  import opened Blocks
  import opened Stakes
  import opened ForkTree

  /** What the genesis file and the environment fix for the whole run. Signature checks and the
      virtual machine are arbitrary functions; `execute` includes the state hash comparison. */
  datatype Config = Config(
    epochBlocks: nat,
    stakes: Stakes,
    minimumStake: nat,
    quorum: nat,
    maxJustificationAge: nat,
    accounts: Accounts,
    voteSigned: Vote -> bool,
    blockSigned: Block -> bool,
    execute: (Accounts, Block) -> Option<StateDiff>)
  {
    predicate MayTakePart(v: Pubkey) {
      v in stakes && stakes[v] >= minimumStake
    }

    function Validators(): set<Pubkey> {
      set v | v in stakes && stakes[v] >= minimumStake
    }

    ghost function TotalStake(): nat {
      Weight(stakes, Validators())
    }

    /** The only facts used about the quorum, which the code computes in floating point as the
        total stake times 0.67 rounded up. */
    ghost predicate Valid() {
      && epochBlocks > 0
      && 100 * quorum >= 67 * TotalStake()
      && quorum <= TotalStake()
    }

    function Epoch(h: Hash): nat
      requires epochBlocks > 0
    {
      Height(h) / epochBlocks
    }
  }

  datatype Event =
    | Voted(target: Hash, justification: Hash)
    | Discarded(hash: Hash)
    | Missing(hash: Hash)
    | Included(hash: Hash)
    | Confirmed(hash: Hash, votes: nat)
    | Finalized(hash: Hash, diff: StateDiff, votes: nat)

  /** The state of one node. `queue` holds the pending events in the order `poll_next` delivers
      them: the deque's back comes first. `popped` and `counted` are history variables that no
      transition reads: the events delivered so far and the votes applied so far. */
  datatype Chain = Chain(
    finalized: Hash,
    store: Accounts,
    roots: seq<Hash>,
    nodes: Nodes,
    waiting: map<Hash, seq<Vote>>,
    ownVotes: map<nat, (Hash, Hash)>,
    history: map<nat, set<Hash>>,
    queue: seq<Event>,
    popped: seq<Event>,
    counted: set<Vote>)

  function Start(g: Config): Chain {
    Chain(Genesis, g.accounts, [], map[], map[], map[], map[], [], [], {})
  }

  /** Everything a consumer sees when it polls until the queue is empty. */
  function Stream(s: Chain): seq<Event> {
    s.popped + s.queue
  }

  predicate InFinalizedHistory(g: Config, s: Chain, h: Hash) {
    || h == s.finalized
    || (exists e | e in s.history :: h in s.history[e])
    || (|s.history| < g.maxJustificationAge && h == Genesis)
  }

  // ----- inclusion of blocks

  datatype Attempt = Consumed | Orphaned | Rejected

  function InsertBlock(s: Chain, h: Hash, diff: StateDiff): Chain
    requires h.Of?
  {
    s.(nodes := AddLeaf(s.nodes, h, diff),
       roots := if h.block.parent == s.finalized then s.roots + [h] else s.roots,
       queue := s.queue + [Included(h)])
  }

  function TryInclude(g: Config, s: Chain, b: Block): (Chain, Attempt) {
    var h := Of(b);
    if h in s.nodes || h == s.finalized then (s, Consumed)
    else if b.parent != s.finalized && b.parent !in s.nodes then (s, Orphaned)
    else if b.height != Height(b.parent) + 1 then (s, Rejected)
    else
      match g.execute(ViewAt(s.nodes, s.store, b.parent), b)
      case None => (s, Rejected)
      case Some(diff) => (InsertBlock(s, h, diff), Consumed)
  }

  function PathDepth(nodes: Nodes, h: Hash): nat {
    if Path(nodes, h) == [] then 0 else |Path(nodes, h)| - 1
  }

  /** The last of the best heads over all trees, by votes and then depth. */
  function BestHead(nodes: Nodes, roots: seq<Hash>): Hash
    requires roots != []
  {
    var head := Head(nodes, roots[|roots| - 1]);
    if |roots| == 1 then head else
    var best := BestHead(nodes, roots[..|roots| - 1]);
    if VotesOf(nodes, best) > VotesOf(nodes, head)
       || (VotesOf(nodes, best) == VotesOf(nodes, head) && PathDepth(nodes, best) > PathDepth(nodes, head))
    then best else head
  }

  function HeadHash(s: Chain): Hash {
    if s.roots == [] then s.finalized else BestHead(s.nodes, s.roots)
  }

  predicate MayVote(g: Config, s: Chain, target: Hash)
    requires g.epochBlocks > 0
  {
    var epoch := g.Epoch(target);
    epoch in s.ownVotes ==>
      var (j, t) := s.ownVotes[epoch];
      (j == s.finalized || InFinalizedHistory(g, s, j)) && IsDescendantOf(s.nodes, target, t)
  }

  function CommitAndVote(g: Config, s: Chain, target: Hash): Chain
    requires g.epochBlocks > 0
  {
    if target in s.nodes && MayVote(g, s, target) then
      s.(ownVotes := s.ownVotes[g.Epoch(target) := (s.finalized, target)],
         queue := s.queue + [Voted(target, s.finalized)])
    else s
  }

  /** `include` up to the point where waiting orphans are adopted. */
  function Offer(g: Config, s: Chain, b: Block): (Chain, Attempt)
    requires g.epochBlocks > 0
  {
    if !g.MayTakePart(b.proposer) || b.height <= Height(s.finalized) || !g.blockSigned(b) then (s, Rejected)
    else
      var (s', attempt) := TryInclude(g, s, b);
      if attempt.Consumed? && HeadHash(s') == Of(b) then (CommitAndVote(g, s', Of(b)), Consumed)
      else (s', attempt)
  }

  // ----- votes

  /** Confirmation events for the path of h in delivery order: the oldest block first. */
  function NewlyConfirmed(before: Nodes, after: Nodes, h: Hash, quorum: nat): seq<Event> {
    if h !in before || h !in after then [] else
    (if h.Of? then NewlyConfirmed(before, after, h.block.parent, quorum) else [])
    + (if before[h].votes < quorum <= after[h].votes then [Confirmed(h, after[h].votes)] else [])
  }

  function CountVote(g: Config, s: Chain, v: Vote): Chain {
    var after := AddVotes(s.nodes, v.target, v.validator, StakeOf(g.stakes, v.validator));
    s.(nodes := after,
       queue := NewlyConfirmed(s.nodes, after, v.target, g.quorum) + s.queue,
       counted := s.counted + {v})
  }

  function Waiting(waiting: map<Hash, seq<Vote>>, h: Hash): seq<Vote> {
    if h in waiting then waiting[h] else []
  }

  function IngestVote(g: Config, s: Chain, v: Vote): Chain {
    if !g.MayTakePart(v.validator) || !g.voteSigned(v) then s
    else if v.target !in s.nodes then
      s.(waiting := s.waiting[v.target := Waiting(s.waiting, v.target) + [v]])
    else if !InFinalizedHistory(g, s, v.justification) && !IsDescendantOf(s.nodes, v.target, v.justification) then s
    else CountVote(g, s, v)
  }

  function IngestVotes(g: Config, s: Chain, vs: seq<Vote>): Chain
    decreases |vs|
  {
    if vs == [] then s else IngestVotes(g, IngestVote(g, s, vs[0]), vs[1..])
  }

  function IngestWaiting(g: Config, s: Chain, h: Hash): Chain {
    IngestVotes(g, s.(waiting := s.waiting - {h}), Waiting(s.waiting, h))
  }

  // ----- finality

  function Parent(nodes: Nodes, h: Hash): Option<Hash> {
    if h.Of? && h.block.parent in nodes then Some(h.block.parent) else None
  }

  /** The checkpoint one epoch below h: the epoch start of the block before h's epoch. */
  function Checkpoint(g: Config, nodes: Nodes, h: Hash): Option<Hash>
    requires g.epochBlocks > 0
  {
    match Parent(nodes, EpochStart(nodes, h, g.epochBlocks))
    case None => None
    case Some(p) => Some(EpochStart(nodes, p, g.epochBlocks))
  }

  predicate Finalizable(g: Config, nodes: Nodes, root: Hash)
    requires g.epochBlocks > 0
  {
    && VotesOf(nodes, root) >= g.quorum
    && var first := Checkpoint(g, nodes, Head(nodes, root));
       && first.Some? && VotesOf(nodes, first.value) >= g.quorum
       && var second := Checkpoint(g, nodes, first.value);
          second.Some? && VotesOf(nodes, second.value) >= g.quorum
  }

  /** Index of the first finalizable root, or the number of roots. */
  function FindFinalizable(g: Config, nodes: Nodes, roots: seq<Hash>): (i: nat)
    requires g.epochBlocks > 0
    ensures i <= |roots|
    ensures i < |roots| ==> Finalizable(g, nodes, roots[i])
    ensures forall j | 0 <= j < i :: !Finalizable(g, nodes, roots[j])
  {
    if roots == [] then 0
    else if Finalizable(g, nodes, roots[0]) then 0
    else 1 + FindFinalizable(g, nodes, roots[1..])
  }

  function DiscardEvents(hs: seq<Hash>): seq<Event> {
    if hs == [] then [] else [Discarded(hs[0])] + DiscardEvents(hs[1..])
  }

  function FinalizeRoot(g: Config, s: Chain, i: nat): Chain
    requires g.epochBlocks > 0 && i < |s.roots| && s.roots[i] in s.nodes
  {
    var r := s.roots[i];
    var node := s.nodes[r];
    s.(finalized := r,
       store := node.diff.ApplyTo(s.store),
       roots := node.children,
       nodes := Promote(s.nodes, r),
       ownVotes := s.ownVotes - {g.Epoch(r)},
       queue := s.queue + DiscardEvents(Sweep(s.nodes, Without(s.roots, i))) + [Finalized(r, node.diff, node.votes)])
  }

  /** `while self.try_finalize_roots() {}`: the forest shrinks with every finalized root. */
  function FinalizeAll(g: Config, s: Chain): Chain
    requires g.epochBlocks > 0
    decreases |s.nodes|
  {
    var i := FindFinalizable(g, s.nodes, s.roots);
    if i < |s.roots| && s.roots[i] in s.nodes then
      PromoteShrinks(s.nodes, s.roots[i]);
      FinalizeAll(g, FinalizeRoot(g, s, i))
    else s
  }

  lemma PromoteShrinks(nodes: Nodes, r: Hash)
    requires r in nodes
    ensures |Promote(nodes, r)| < |nodes|
  {
    var after := Promote(nodes, r);
    if Descends(r, r) { DescendsDeeper(r, r); }
    assert after.Keys <= nodes.Keys - {r};
    SubsetSize(after.Keys, nodes.Keys - {r});
    assert |after.Keys| <= |nodes.Keys - {r}|;
  }

  lemma {:induction false} SubsetSize<T>(a: set<T>, b: set<T>)
    requires a <= b
    ensures |a| <= |b|
  {
    if a == {} {
    } else {
      var x :| x in a;
      SubsetSize(a - {x}, b - {x});
    }
  }

  // ----- polling

  function MissingEvents(hs: seq<Hash>): seq<Event> {
    if hs == [] then [] else [Missing(hs[0])] + MissingEvents(hs[1..])
  }

  function PostBlockIncluded(g: Config, s: Chain, h: Hash, missing: seq<Hash>): Chain
    requires g.epochBlocks > 0
  {
    var counted := IngestVotes(g, s, if h.Of? then h.block.votes else []);
    var final := FinalizeAll(g, IngestWaiting(g, counted, h));
    final.(queue := final.queue + MissingEvents(missing))
  }

  function PostBlockFinalized(g: Config, s: Chain, h: Hash): Chain
    requires g.epochBlocks > 0
  {
    var epoch := g.Epoch(s.finalized);
    var entry := (if epoch in s.history then s.history[epoch] else {}) + {h};
    var oldest := if epoch < g.maxJustificationAge then 0 else epoch - g.maxJustificationAge;
    s.(history := map e | e in s.history.Keys + {epoch} && e >= oldest :: if e == epoch then entry else s.history[e])
  }

  /** `poll_next`; `missing` are the parents whose replay is requested, which depends on the clock. */
  function Poll(g: Config, s: Chain, missing: seq<Hash>): Chain
    requires g.epochBlocks > 0
  {
    if s.queue == [] then s else
    var s' := s.(queue := s.queue[1..], popped := s.popped + [s.queue[0]]);
    match s.queue[0]
    case Included(h) => PostBlockIncluded(g, s', h, missing)
    case Finalized(h, _, _) => PostBlockFinalized(g, s', h)
    case _ => s'
  }

  // ----- runs

  datatype Action = OfferBlock(block: Block) | PollEvent(missing: seq<Hash>)

  function Step(g: Config, s: Chain, a: Action): Chain
    requires g.epochBlocks > 0
  {
    match a
    case OfferBlock(b) => Offer(g, s, b).0
    case PollEvent(missing) => Poll(g, s, missing)
  }

  function Run(g: Config, actions: seq<Action>): Chain
    requires g.epochBlocks > 0
  {
    if actions == [] then Start(g) else Step(g, Run(g, actions[..|actions| - 1]), actions[|actions| - 1])
  }
}
