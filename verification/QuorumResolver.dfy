/**
 The quorum state machine: how the two registers that describe synchronous replication are changed one
 step at a time. `synchronous_standby_names` in PostgreSQL means "ANY numsync OF sync"; the `/sync` key in
 the DCS means "ANY quorum OF voters".

 This module gives the values the state machine computes. Module `QuorumStateResolvers` holds the object
 whose methods mutate its fields the way the program does, proved against these functions.
 */
module QuorumResolver {
  import opened Names
  import opened Options

  /** A new value of the `/sync` key, a new value of `synchronous_standby_names`, or the hint to start over. */
  datatype Transition =
    | Quorum(leader: Node, num: int, names: set<Node>)
    | Sync(leader: Node, num: int, names: set<Node>)
    | Restart(leader: Node, num: int, names: set<Node>)
  {
    predicate SameKind(other: Transition) {
      (Quorum? && other.Quorum?) || (Sync? && other.Sync?) || (Restart? && other.Restart?)
    }
  }

  /** The fields of the resolver; `trace` collects the transitions yielded so far. */
  datatype State = State(
    leader: Node,
    quorum: int,
    voters: set<Node>,
    numsync: int,
    sync: set<Node>,
    confirmed: int,
    active: set<Node>,
    wanted: int,
    leaderWanted: Node,
    trace: seq<Transition>)
  {
    /** `check_invariants` does not raise. */
    predicate Safe() {
      var v := voters + {leader};
      var s := sync + {leaderWanted};
      && (voters != {} ==> |v + s| <= quorum + numsync + 1)
      && (v <= s || s <= v)
    }

    function Yield(t: Transition): State {
      this.(trace := trace + [t])
    }
  }

  datatype Error = QuorumError | AssertionFailed

  /** A phase either runs to its end or raises; the fields it changed before raising stay changed. */
  datatype Outcome = Ok(state: State) | Raised(error: Error, state: State)
  {
    predicate IsFailure() { Raised? }

    function PropagateFailure(): Outcome
      requires Raised?
    {
      this
    }

    function Extract(): State
      requires Ok?
    {
      state
    }
  }

  /** The constructor: `numsync` can not be bigger than the number of listed nodes. */
  function Create(leader: Node, quorum: int, voters: set<Node>, numsync: int, sync: set<Node>,
                  confirmed: int, active: set<Node>, wanted: int, leaderWanted: Node): State
  {
    State(leader, quorum, voters, Min(numsync, |sync|), sync, confirmed, active, wanted, leaderWanted, [])
  }

  /** Updates quorum, voters and optionally the leader, unless that changes nothing. */
  function QuorumUpdate(s: State, quorum: int, voters: set<Node>, leader: Option<Node>, adjust: bool): Outcome {
    if quorum < 0 || (quorum > 0 && quorum >= |voters|) then
      Raised(QuorumError, s)
    else
      var reset := leader.None? && s.confirmed == 0 && s.voters == {};
      var newLeader := if leader.Some? then leader.value else s.leader;
      var v := if reset then {} else voters;
      var q :=
        if leader.Some? then quorum
        else if reset then 0
        else if adjust then quorum + Max(s.numsync - s.confirmed, 0)
        else quorum;
      var same := newLeader == s.leader && q == s.quorum && v == s.voters;
      if same && s.voters != {} then
        Ok(s)
      else
        var hinted := if same then s.Yield(Restart(s.leader, s.quorum, s.voters)) else s;
        var updated := hinted.(leader := newLeader, quorum := q, voters := v);
        if updated.Safe() then Ok(updated.Yield(Quorum(newLeader, q, v))) else Raised(QuorumError, updated)
  }

  /** Updates numsync and sync. */
  function SyncUpdate(s: State, numsync: int, sync: set<Node>): Outcome {
    if numsync < 0 || numsync > |sync| then
      Raised(QuorumError, s)
    else
      var updated := s.(numsync := numsync, sync := sync);
      if updated.Safe() then Ok(updated.Yield(Sync(s.leader, numsync, sync))) else Raised(QuorumError, updated)
  }

  // ---------- recovery from an interrupted run ----------

  /** Case 1, first step: dead nodes that are not being synced leave voters. */
  function EvictDead(s: State): Outcome {
    var gone := s.voters - (s.sync + s.active);
    if gone == {} then Ok(s)
    else QuorumUpdate(s, |s.voters| - |gone| - s.numsync, s.voters - gone, None, s.sync - s.active == {})
  }

  /** Case 1, second step: start syncing to voters that are alive. */
  function SyncAlive(s: State): Outcome {
    var add := s.voters * s.active - s.sync;
    if add == {} then Ok(s) else SyncUpdate(s, s.numsync, s.sync + add)
  }

  /** Case 1: voters is a superset of sync. */
  function ShrinkVoters(s: State): Outcome {
    var s1 :- EvictDead(s);
    SyncAlive(s1)
  }

  /** Case 2, first step: dead nodes leave sync if that keeps it non-empty and in touch with voters. */
  function DropDead(s: State): Outcome {
    var gone := s.sync - s.active;
    var kept := s.sync - gone;
    if gone != {} && kept != {} && (s.voters == {} || kept * s.voters != {})
    then SyncUpdate(s, Min(s.numsync, |s.sync| - |gone|), kept)
    else Ok(s)
  }

  /** Case 2, second step: nodes that are already synced and active become voters. */
  function AdmitSynced(s: State): Outcome {
    var add := (s.sync - s.voters) * s.active;
    if add == {} then Ok(s) else QuorumUpdate(s, |s.voters + add| - s.numsync, s.voters + add, None, true)
  }

  /** Case 2, third step: nodes that did not become voters leave sync. */
  function DropUnadmitted(s: State): Outcome {
    var rest := s.sync - s.voters;
    if rest == {} then Ok(s) else SyncUpdate(s, Min(s.numsync, |s.sync| - |rest|), s.sync - rest)
  }

  /** Case 2: sync is a superset of voters. */
  function GrowVoters(s: State): Outcome {
    var s1 :- DropDead(s);
    var s2 :- AdmitSynced(s1);
    DropUnadmitted(s2)
  }

  /** Makes voters and sync the same set, and asserts that they are. */
  function MatchSets(s: State): Outcome {
    var s1 :- if s.sync < s.voters then ShrinkVoters(s) else if s.voters < s.sync then GrowVoters(s) else Ok(s);
    if s1.voters == s1.sync then Ok(s1) else Raised(AssertionFailed, s1)
  }

  /** Cases 3 and 4: the replication factor or the quorum is bigger than needed. */
  function SettleMargin(s: State): Outcome {
    if s.quorum + Min(s.numsync, s.confirmed) - |s.voters + s.sync| > 0 then
      if s.numsync > s.wanted then SyncUpdate(s, Max(s.wanted, |s.voters| - s.quorum), s.sync)
      else QuorumUpdate(s, |s.sync| - s.numsync, s.voters, None, true)
    else if s.numsync == s.wanted && s.quorum + s.numsync - |s.voters + s.sync| > 0 && s.numsync > s.confirmed then
      QuorumUpdate(s, |s.sync| - s.numsync, s.voters, None, true)
    else
      Ok(s)
  }

  function HandleNonSteadyCases(s: State): Outcome {
    var s1 :- MatchSets(s);
    SettleMargin(s1)
  }

  // ---------- changes of the desired state ----------

  /** The chosen nodes leave `sync` first and `voters` after; numsync may grow to the wanted value. */
  function RemoveChosen(s: State, gone: set<Node>, remove: set<Node>): Outcome {
    var sync := s.sync - remove;
    var s1 :- SyncUpdate(s, Min(if s.wanted > s.numsync then s.wanted else s.numsync, |sync|), sync);
    var voters := s1.voters - remove;
    QuorumUpdate(s1, |voters| - s1.numsync, voters, None, gone * s1.sync == {})
  }

  /** As many gone nodes as fit into the quorum are removed first. */
  function RemoveWithinQuorum(s: State, gone: set<Node>): Outcome {
    RemoveChosen(s, gone, Sorted(false, gone, s.quorum))
  }

  /** Gone nodes that do not fit into the quorum leave `voters` first and `sync` after. */
  function RemoveBeyondQuorum(s: State, gone: set<Node>): Outcome {
    if s.quorum != 0 then Raised(AssertionFailed, s)
    else
      var numsync := s.numsync - |gone|;
      var sync := s.sync - gone;
      var voters := s.voters - gone;
      var decrease := numsync - Min(s.wanted, |sync|);
      var quorum := if decrease != 0 then Min(decrease, |voters| - 1) else 0;
      var s1 :- QuorumUpdate(s, quorum, voters, None, false);
      SyncUpdate(s1, numsync, sync)
  }

  function RemoveGoneNodes(s: State): Outcome {
    var gone := s.sync - s.active;
    if gone == {} then Ok(s)
    else if s.sync == gone then
      var s1 :- QuorumUpdate(s, 0, {}, None, false);
      SyncUpdate(s1, 0, {})
    else
      var s1 :- if s.quorum != 0 then RemoveWithinQuorum(s, gone) else Ok(s);
      var left := if s.quorum != 0 then gone * s1.sync else gone;
      if left == {} then Ok(s1) else RemoveBeyondQuorum(s1, left)
  }

  /** The nodes that bring numsync to the wanted value; all of them when there is only the leader. */
  function NodesToReach(s: State, joining: set<Node>, wanted: int): (add: set<Node>)
    ensures add <= joining && |add| == if s.sync == {} then |joining| else SliceLength(wanted - s.numsync, |joining|)
    ensures forall x, y | x in add && y in joining - add :: Precedes(true, x, y)
  {
    if s.sync != {} then Sorted(true, joining, wanted - s.numsync) else joining
  }

  /** The chosen nodes join `sync` and then `voters`. */
  function JoinChosen(s: State, add: set<Node>, wanted: int): Outcome {
    var s1 :- SyncUpdate(s, if s.sync != {} then s.numsync + |add| else wanted, s.sync + add);
    QuorumUpdate(s1, |s1.voters + add| - wanted, s1.voters + add, None, true)
  }

  /** First get to the requested replication factor. */
  function AddToReachFactor(s: State, joining: set<Node>, wanted: int): Outcome {
    JoinChosen(s, NodesToReach(s, joining, wanted), wanted)
  }

  /** The remaining new nodes join `voters` and then `sync`. */
  function AddTheRest(s: State, joining: set<Node>, wanted: int): Outcome {
    var s1 :- QuorumUpdate(s, |s.voters + joining| - wanted, s.voters + joining, None, wanted > s.confirmed);
    SyncUpdate(s1, wanted, s1.sync + joining)
  }

  function AddNewNodes(s: State): Outcome {
    var joining := s.active - s.sync;
    if joining == {} then Ok(s)
    else
      var wanted := Min(s.wanted, |s.sync + joining|);
      var s1 :- if wanted > s.numsync then AddToReachFactor(s, joining, wanted) else Ok(s);
      var rest := if wanted > s.numsync then joining - s1.sync else joining;
      if rest == {} then Ok(s1) else AddTheRest(s1, rest, wanted)
  }

  function HandleReplicationFactorChange(s: State): Outcome {
    var increase := Min(s.wanted, |s.sync|) - s.numsync;
    if increase > 0 then
      var s1 :- SyncUpdate(s, s.numsync + increase, s.sync);
      QuorumUpdate(s1, |s1.voters| - s1.numsync, s1.voters, None, true)
    else if increase < 0 then
      var s1 :- if s.quorum - increase < |s.voters|
                then QuorumUpdate(s, |s.voters| - s.numsync - increase, s.voters, None, s.wanted > s.confirmed)
                else Ok(s);
      SyncUpdate(s1, s1.numsync + increase, s1.sync)
    else
      Ok(s)
  }

  // ---------- the whole run ----------

  /** The voters once the leader has changed: the old leader replaces the new one. */
  function VotersAfterFailover(s: State): set<Node> {
    s.voters - {s.leaderWanted} + {s.leader}
  }

  /** If sync is empty, `synchronous_standby_names` is updated before the leader changes. */
  function SeedSync(s: State): Outcome {
    var voters := VotersAfterFailover(s);
    if s.sync == {} then SyncUpdate(s, |voters| - s.quorum, voters) else Ok(s)
  }

  /** The body of the `try` block: adopt the new leader, or check the registers as they were found. */
  function AdoptLeader(s: State): Outcome {
    if s.leaderWanted != s.leader then
      var s1 :- SeedSync(s);
      QuorumUpdate(s1, s1.quorum, VotersAfterFailover(s), Some(s1.leaderWanted), true)
    else if s.Safe() then Ok(s)
    else Raised(QuorumError, s)
  }

  /** Right after a promotion no replica may be connected yet: the run ends before it removes them. */
  predicate WaitsForReplicas(s: State, adopted: Outcome) {
    s.leaderWanted != s.leader && adopted.Ok? && adopted.state.sync * adopted.state.active == {}
  }

  /** The number of confirmed nodes is lost on restart and failover; it is calculated from the quorum. */
  function AssumeConfirmed(s: State): State {
    if s.confirmed == 0 && s.sync * s.active != {}
    then s.(confirmed := Min(|s.sync * s.active|, |s.voters| - s.quorum))
    else s
  }

  /** The part of the run that follows once the `/sync` key names the right leader. */
  function Reconcile(s: State): Outcome {
    var s1 :- HandleNonSteadyCases(AssumeConfirmed(s));
    var s2 :- RemoveGoneNodes(s1);
    var s3 :- AddNewNodes(s2);
    HandleReplicationFactorChange(s3)
  }

  function GenerateTransitions(s: State): Outcome {
    var adopted := AdoptLeader(s);
    if WaitsForReplicas(s, adopted) then adopted
    else
      var s1 :- if adopted.Ok? then adopted
                else QuorumUpdate(adopted.state, |adopted.state.sync| - adopted.state.numsync, adopted.state.sync,
                                  None, true);
      if s1.leader != s1.leaderWanted then Raised(AssertionFailed, s1) else Reconcile(s1)
  }

  // ---------- what the caller sees ----------

  /** `__iter__`: of neighbours of the same kind only the last is yielded, and nothing after a restart. */
  function Merge(transitions: seq<Transition>): seq<Transition> {
    if transitions == [] then []
    else if |transitions| > 1 && transitions[0].SameKind(transitions[1]) then Merge(transitions[1..])
    else if transitions[0].Restart? then [transitions[0]]
    else [transitions[0]] + Merge(transitions[1..])
  }

  /** Iterating over the resolver: a run that raises exposes nothing. */
  function Transitions(s: State): Option<seq<Transition>> {
    var r := GenerateTransitions(s);
    if r.Ok? then Some(Merge(r.state.trace)) else None
  }
}
