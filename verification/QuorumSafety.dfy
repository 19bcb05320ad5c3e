/**
 Every pair of registers that a run of the quorum state machine exposes is safe: any set of nodes that can
 acknowledge a commit meets any set of nodes that can elect a leader. The run may be stopped after any
 transition, and merging transitions exposes nothing that the unmerged run does not.
 */
module QuorumSafety {
  import opened Names
  import opened Options
  import opened QuorumResolver

  /** The `/sync` key (leader, quorum, voters) and `synchronous_standby_names` (numsync, sync). */
  datatype Registers = Registers(leader: Node, quorum: int, voters: set<Node>, numsync: int, sync: set<Node>)
  {
    /** The nodes that vote in a leader race, the former leader included. */
    function Electorate(): set<Node> { voters + {leader} }

    /** The nodes whose acknowledgement the primary `me` counts, itself included. */
    function Acknowledgers(me: Node): set<Node> { sync + {me} }

    /** At most this many of the listed standbys have to acknowledge a commit. */
    function Factor(): int { Min(numsync, |sync|) }

    /** A quorum of the electorate and an acknowledging set are too big to be disjoint. */
    predicate Overlap(me: Node) {
      |Electorate() + Acknowledgers(me)| <= quorum + Factor() + 1
    }

    predicate Nested(me: Node) {
      Electorate() <= Acknowledgers(me) || Acknowledgers(me) <= Electorate()
    }

    /** What holds of the two registers at every moment while `me` is the primary. */
    predicate Good(me: Node) {
      && quorum >= 0
      && leader !in voters
      && me !in sync
      && Nested(me)
      && ((voters == {} && leader == me) || Overlap(me))
    }

    function Clamped(): Registers { this.(numsync := Factor()) }
  }

  function Apply(r: Registers, t: Transition): Registers {
    match t
    case Quorum(leader, num, names) => r.(leader := leader, quorum := num, voters := names)
    case Sync(_, num, names) => r.(numsync := num, sync := names)
    case Restart(_, _, _) => r
  }

  function Replay(r: Registers, ts: seq<Transition>): Registers {
    if ts == [] then r else Apply(Replay(r, ts[..|ts| - 1]), ts[|ts| - 1])
  }

  function Of(s: State): Registers {
    Registers(s.leader, s.quorum, s.voters, s.numsync, s.sync)
  }

  /** The resolver the primary `me` builds from the registers and from what it observes. */
  function Observe(r: Registers, confirmed: int, active: set<Node>, wanted: int, me: Node): State {
    Create(r.leader, r.quorum, r.voters, r.numsync, r.sync, confirmed, active, wanted, me)
  }

  // ---------- every yielded transition keeps the registers good ----------

  /** Stopped after any number of the transitions, the registers are good and the last transition names their leader. */
  ghost predicate AllGood(init: Registers, ts: seq<Transition>, me: Node) {
    forall k | 0 <= k <= |ts| :: GoodAfter(init, ts, me, k)
  }

  ghost predicate GoodAfter(init: Registers, ts: seq<Transition>, me: Node, k: nat)
    requires k <= |ts|
  {
    var r := Replay(init, ts[..k]);
    r.Good(me) && (k > 0 ==> ts[k - 1].leader == r.leader)
  }

  /** The transitions yielded so far take the registers from `init` to what the resolver believes they are. */
  ghost predicate Tracks(init: Registers, me: Node, s: State) {
    && s.leaderWanted == me && me !in s.active
    && Replay(init, s.trace).Clamped() == Of(s)
    && AllGood(init, s.trace, me)
  }

  lemma AllGoodSnoc(init: Registers, ts: seq<Transition>, t: Transition, me: Node)
    requires AllGood(init, ts, me)
    requires Apply(Replay(init, ts), t).Good(me) && Apply(Replay(init, ts), t).leader == t.leader
    ensures Replay(init, ts + [t]) == Apply(Replay(init, ts), t)
    ensures AllGood(init, ts + [t], me)
  {
    var us := ts + [t];
    assert us[..|us| - 1] == ts && us[..|us|] == us;
    hide Registers.Good, Apply;
    forall k | 0 <= k <= |us|
      ensures GoodAfter(init, us, me, k)
    {
      if k < |us| {
        assert us[..k] == ts[..k] && GoodAfter(init, ts, me, k);
      }
    }
  }

  lemma AllGoodLast(init: Registers, ts: seq<Transition>, me: Node)
    requires AllGood(init, ts, me)
    ensures Replay(init, ts).Good(me)
  {
    assert ts[..|ts|] == ts && GoodAfter(init, ts, me, |ts|);
  }

  /** A state that passes `check_invariants` is good once the `/sync` key names the primary or has voters. */
  lemma SafeIsGood(s: State)
    requires s.Safe() && s.quorum >= 0 && s.numsync <= |s.sync|
    requires s.leader !in s.voters && s.leaderWanted !in s.sync
    requires s.voters != {} || s.leader == s.leaderWanted
    ensures Of(s).Good(s.leaderWanted)
  {}

  lemma ClampedIsGood(r: Registers, me: Node)
    ensures r.Clamped().Good(me) <==> r.Good(me)
  {}

  lemma QuorumUpdateTracks(
      init: Registers, me: Node, s: State, quorum: int, voters: set<Node>, leader: Option<Node>, adjust: bool)
    requires Tracks(init, me, s)
    requires if leader.Some? then leader.value == s.leaderWanted else s.leader == s.leaderWanted
    requires s.leaderWanted !in voters
    requires QuorumUpdate(s, quorum, voters, leader, adjust).Ok?
    ensures Tracks(init, me, QuorumUpdate(s, quorum, voters, leader, adjust).state)
  {
    var r := QuorumUpdate(s, quorum, voters, leader, adjust).state;
    AllGoodLast(init, s.trace, me);
    var now := Replay(init, s.trace);
    ClampedIsGood(now, me);
    assert me !in s.sync && s.numsync <= |s.sync|;
    if r != s {
      assert r.Safe() && r.quorum >= 0 && me !in r.voters;
      SafeIsGood(r);
    }
    hide State.Safe, Registers.Good, AllGood, Replay;
    if r != s {
      var t := Quorum(me, r.quorum, r.voters);
      var after := Apply(now, t);
      assert after.Clamped() == Of(r);
      ClampedIsGood(after, me);
      if |r.trace| == |s.trace| + 1 {
        AllGoodSnoc(init, s.trace, t, me);
      } else {
        var hint := Restart(s.leader, s.quorum, s.voters);
        AllGoodSnoc(init, s.trace, hint, me);
        AllGoodSnoc(init, s.trace + [hint], t, me);
      }
    }
  }

  lemma SyncUpdateTracks(init: Registers, me: Node, s: State, numsync: int, sync: set<Node>)
    requires Tracks(init, me, s)
    requires s.leaderWanted !in sync
    requires SyncUpdate(s, numsync, sync).Ok?
    requires || s.leader == s.leaderWanted || s.voters != {}
             || Of(SyncUpdate(s, numsync, sync).state).Overlap(s.leaderWanted)
    ensures Tracks(init, me, SyncUpdate(s, numsync, sync).state)
  {
    var r := SyncUpdate(s, numsync, sync).state;
    AllGoodLast(init, s.trace, s.leaderWanted);
    assert Of(r).Good(s.leaderWanted);
    assert Apply(Replay(init, s.trace), Sync(s.leader, numsync, sync)).Clamped() == Of(r);
    AllGoodSnoc(init, s.trace, Sync(s.leader, numsync, sync), s.leaderWanted);
  }

  /** Holds of the resolver between two updates once the `/sync` key names the primary. */
  ghost predicate Running(init: Registers, me: Node, s: State) {
    Tracks(init, me, s) && s.leader == s.leaderWanted
  }

  lemma RunningKeepsOwnName(init: Registers, me: Node, s: State)
    requires Running(init, me, s)
    ensures s.leader !in s.voters && s.leader !in s.sync && s.leader !in s.active
  {
    AllGoodLast(init, s.trace, s.leaderWanted);
  }

  lemma QuorumStep(init: Registers, me: Node, s: State, quorum: int, voters: set<Node>, adjust: bool)
    requires Running(init, me, s) && s.leader !in voters
    ensures var r := QuorumUpdate(s, quorum, voters, None, adjust);
            r.Ok? ==> Running(init, me, r.state) && r.state.leader == s.leader
  {
    if QuorumUpdate(s, quorum, voters, None, adjust).Ok? {
      QuorumUpdateTracks(init, me, s, quorum, voters, None, adjust);
    }
  }

  lemma SyncStep(init: Registers, me: Node, s: State, numsync: int, sync: set<Node>)
    requires Running(init, me, s) && s.leader !in sync
    ensures var r := SyncUpdate(s, numsync, sync);
            r.Ok? ==> Running(init, me, r.state) && r.state.leader == s.leader
  {
    if SyncUpdate(s, numsync, sync).Ok? {
      SyncUpdateTracks(init, me, s, numsync, sync);
    }
  }

  lemma ShrinkVotersRuns(init: Registers, me: Node, s: State)
    requires Running(init, me, s) && ShrinkVoters(s).Ok?
    ensures Running(init, me, ShrinkVoters(s).state)
  {
    hide QuorumUpdate, SyncUpdate, Running;
    RunningKeepsOwnName(init, me, s);
    var gone := s.voters - (s.sync + s.active);
    QuorumStep(init, me, s, |s.voters| - |gone| - s.numsync, s.voters - gone, s.sync - s.active == {});
    var s1 := EvictDead(s).state;
    hide EvictDead;
    RunningKeepsOwnName(init, me, s1);
    SyncStep(init, me, s1, s1.numsync, s1.sync + (s1.voters * s1.active - s1.sync));
  }

  lemma DropDeadRuns(init: Registers, me: Node, s: State)
    requires Running(init, me, s) && DropDead(s).Ok?
    ensures Running(init, me, DropDead(s).state)
  {
    hide SyncUpdate, Running;
    RunningKeepsOwnName(init, me, s);
    var gone := s.sync - s.active;
    SyncStep(init, me, s, Min(s.numsync, |s.sync| - |gone|), s.sync - gone);
  }

  lemma AdmitSyncedRuns(init: Registers, me: Node, s: State)
    requires Running(init, me, s) && AdmitSynced(s).Ok?
    ensures Running(init, me, AdmitSynced(s).state)
  {
    hide QuorumUpdate, Running;
    RunningKeepsOwnName(init, me, s);
    var add := (s.sync - s.voters) * s.active;
    QuorumStep(init, me, s, |s.voters + add| - s.numsync, s.voters + add, true);
  }

  lemma DropUnadmittedRuns(init: Registers, me: Node, s: State)
    requires Running(init, me, s) && DropUnadmitted(s).Ok?
    ensures Running(init, me, DropUnadmitted(s).state)
  {
    hide SyncUpdate, Running;
    RunningKeepsOwnName(init, me, s);
    var rest := s.sync - s.voters;
    SyncStep(init, me, s, Min(s.numsync, |s.sync| - |rest|), s.sync - rest);
  }

  lemma GrowVotersRuns(init: Registers, me: Node, s: State)
    requires Running(init, me, s) && GrowVoters(s).Ok?
    ensures Running(init, me, GrowVoters(s).state)
  {
    hide Running, DropDead, AdmitSynced, DropUnadmitted;
    DropDeadRuns(init, me, s);
    var s1 := DropDead(s).state;
    AdmitSyncedRuns(init, me, s1);
    DropUnadmittedRuns(init, me, AdmitSynced(s1).state);
  }

  lemma NonSteadyRuns(init: Registers, me: Node, s: State)
    requires Running(init, me, s) && HandleNonSteadyCases(s).Ok?
    ensures Running(init, me, HandleNonSteadyCases(s).state)
  {
    hide QuorumUpdate, SyncUpdate, Running, ShrinkVoters, GrowVoters;
    if s.sync < s.voters {
      ShrinkVotersRuns(init, me, s);
    } else if s.voters < s.sync {
      GrowVotersRuns(init, me, s);
    }
    var s1 := MatchSets(s).state;
    RunningKeepsOwnName(init, me, s1);
    SyncStep(init, me, s1, Max(s1.wanted, |s1.voters| - s1.quorum), s1.sync);
    QuorumStep(init, me, s1, |s1.sync| - s1.numsync, s1.voters, true);
  }

  lemma RemoveChosenRuns(init: Registers, me: Node, s: State, gone: set<Node>, remove: set<Node>)
    requires Running(init, me, s) && RemoveChosen(s, gone, remove).Ok?
    ensures Running(init, me, RemoveChosen(s, gone, remove).state)
  {
    hide QuorumUpdate, SyncUpdate, Running;
    RunningKeepsOwnName(init, me, s);
    var sync := s.sync - remove;
    var numsync := Min(if s.wanted > s.numsync then s.wanted else s.numsync, |sync|);
    SyncStep(init, me, s, numsync, sync);
    var s1 := SyncUpdate(s, numsync, sync).state;
    RunningKeepsOwnName(init, me, s1);
    QuorumStep(init, me, s1, |s1.voters - remove| - s1.numsync, s1.voters - remove, gone * s1.sync == {});
  }

  lemma RemoveBeyondQuorumRuns(init: Registers, me: Node, s: State, gone: set<Node>)
    requires Running(init, me, s) && RemoveBeyondQuorum(s, gone).Ok?
    ensures Running(init, me, RemoveBeyondQuorum(s, gone).state)
  {
    hide QuorumUpdate, SyncUpdate, Running;
    RunningKeepsOwnName(init, me, s);
    var numsync := s.numsync - |gone|;
    var decrease := numsync - Min(s.wanted, |s.sync - gone|);
    var quorum := if decrease != 0 then Min(decrease, |s.voters - gone| - 1) else 0;
    QuorumStep(init, me, s, quorum, s.voters - gone, false);
    var s1 := QuorumUpdate(s, quorum, s.voters - gone, None, false).state;
    SyncStep(init, me, s1, numsync, s.sync - gone);
  }

  lemma RemoveRuns(init: Registers, me: Node, s: State)
    requires Running(init, me, s) && RemoveGoneNodes(s).Ok?
    ensures Running(init, me, RemoveGoneNodes(s).state)
  {
    hide QuorumUpdate, SyncUpdate, Running, RemoveChosen, RemoveBeyondQuorum;
    var gone := s.sync - s.active;
    if gone == {} {
    } else if s.sync == gone {
      QuorumStep(init, me, s, 0, {}, false);
      SyncStep(init, me, QuorumUpdate(s, 0, {}, None, false).state, 0, {});
    } else {
      if s.quorum != 0 {
        RemoveChosenRuns(init, me, s, gone, Sorted(false, gone, s.quorum));
      }
      var s1 := if s.quorum != 0 then RemoveWithinQuorum(s, gone).state else s;
      var left := if s.quorum != 0 then gone * s1.sync else gone;
      if left != {} {
        RemoveBeyondQuorumRuns(init, me, s1, left);
      }
    }
  }

  lemma JoinChosenRuns(init: Registers, me: Node, s: State, add: set<Node>, wanted: int)
    requires Running(init, me, s) && s.leader !in add && JoinChosen(s, add, wanted).Ok?
    ensures Running(init, me, JoinChosen(s, add, wanted).state)
    ensures JoinChosen(s, add, wanted).state.leader == s.leader
  {
    hide QuorumUpdate, SyncUpdate, Running;
    RunningKeepsOwnName(init, me, s);
    var numsync := if s.sync != {} then s.numsync + |add| else wanted;
    SyncStep(init, me, s, numsync, s.sync + add);
    var s1 := SyncUpdate(s, numsync, s.sync + add).state;
    RunningKeepsOwnName(init, me, s1);
    QuorumStep(init, me, s1, |s1.voters + add| - wanted, s1.voters + add, true);
  }

  lemma AddRuns(init: Registers, me: Node, s: State)
    requires Running(init, me, s) && AddNewNodes(s).Ok?
    ensures Running(init, me, AddNewNodes(s).state)
  {
    hide QuorumUpdate, SyncUpdate, Running, JoinChosen, NodesToReach;
    RunningKeepsOwnName(init, me, s);
    var joining := s.active - s.sync;
    if joining != {} {
      var wanted := Min(s.wanted, |s.sync + joining|);
      if wanted > s.numsync {
        JoinChosenRuns(init, me, s, NodesToReach(s, joining, wanted), wanted);
      }
      var s1 := if wanted > s.numsync then AddToReachFactor(s, joining, wanted).state else s;
      var rest := if wanted > s.numsync then joining - s1.sync else joining;
      if rest != {} {
        RunningKeepsOwnName(init, me, s1);
        QuorumStep(init, me, s1, |s1.voters + rest| - wanted, s1.voters + rest, wanted > s1.confirmed);
        var s2 := QuorumUpdate(s1, |s1.voters + rest| - wanted, s1.voters + rest, None, wanted > s1.confirmed).state;
        RunningKeepsOwnName(init, me, s2);
        SyncStep(init, me, s2, wanted, s2.sync + rest);
      }
    }
  }

  lemma FactorRuns(init: Registers, me: Node, s: State)
    requires Running(init, me, s) && HandleReplicationFactorChange(s).Ok?
    ensures Running(init, me, HandleReplicationFactorChange(s).state)
  {
    hide QuorumUpdate, SyncUpdate, Running;
    RunningKeepsOwnName(init, me, s);
    var increase := Min(s.wanted, |s.sync|) - s.numsync;
    if increase > 0 {
      SyncStep(init, me, s, s.numsync + increase, s.sync);
      var s1 := SyncUpdate(s, s.numsync + increase, s.sync).state;
      RunningKeepsOwnName(init, me, s1);
      QuorumStep(init, me, s1, |s1.voters| - s1.numsync, s1.voters, true);
    } else if increase < 0 {
      var quorum := |s.voters| - s.numsync - increase;
      QuorumStep(init, me, s, quorum, s.voters, s.wanted > s.confirmed);
      var s1 := if s.quorum - increase < |s.voters|
                then QuorumUpdate(s, quorum, s.voters, None, s.wanted > s.confirmed).state else s;
      RunningKeepsOwnName(init, me, s1);
      SyncStep(init, me, s1, s1.numsync + increase, s1.sync);
    }
  }

  lemma ReconcileRuns(init: Registers, me: Node, s: State)
    requires Running(init, me, s) && Reconcile(s).Ok?
    ensures Running(init, me, Reconcile(s).state)
  {
    hide HandleNonSteadyCases, RemoveGoneNodes, AddNewNodes, HandleReplicationFactorChange;
    var s0 := AssumeConfirmed(s);
    assert Running(init, me, s0);
    hide Running;
    NonSteadyRuns(init, me, s0);
    var s1 := HandleNonSteadyCases(s0).state;
    RemoveRuns(init, me, s1);
    var s2 := RemoveGoneNodes(s1).state;
    AddRuns(init, me, s2);
    FactorRuns(init, me, AddNewNodes(s2).state);
  }

  // ---------- the change of leader ----------

  lemma SeedSyncTracks(init: Registers, me: Node, s: State)
    requires Tracks(init, me, s) && s.leaderWanted != s.leader && SeedSync(s).Ok?
    ensures Tracks(init, me, SeedSync(s).state)
    ensures SeedSync(s).state.leaderWanted == s.leaderWanted && SeedSync(s).state.leader == s.leader
  {
    AllGoodLast(init, s.trace, s.leaderWanted);
    if s.sync == {} {
      var voters := VotersAfterFailover(s);
      var s1 := SyncUpdate(s, |voters| - s.quorum, voters).state;
      assert Of(s1).Electorate() + Of(s1).Acknowledgers(s.leaderWanted) == voters + {s.leaderWanted};
      SyncUpdateTracks(init, me, s, |voters| - s.quorum, voters);
    }
  }

  lemma AdoptLeaderTracks(init: Registers, me: Node, s: State)
    requires Tracks(init, me, s) && s.leaderWanted != s.leader && AdoptLeader(s).Ok?
    ensures Tracks(init, me, AdoptLeader(s).state) && AdoptLeader(s).state.leader == s.leaderWanted
  {
    SeedSyncTracks(init, me, s);
    var s1 := SeedSync(s).state;
    hide SeedSync, Tracks;
    QuorumUpdateTracks(init, me, s1, s1.quorum, VotersAfterFailover(s), Some(s1.leaderWanted), true);
  }

  /** A change of leader that failed half way is overwritten from `sync`; nobody has seen it. */
  lemma RewriteTracks(init: Registers, me: Node, s: State, bad: State)
    requires Tracks(init, me, s)
    requires bad == s.(leader := s.leaderWanted, voters := bad.voters) && bad.voters != {} && !bad.Safe()
    ensures var r := QuorumUpdate(bad, |bad.sync| - bad.numsync, bad.sync, None, true);
            r.Ok? ==> Tracks(init, me, r.state)
  {
    AllGoodLast(init, s.trace, s.leaderWanted);
    var r := QuorumUpdate(bad, |bad.sync| - bad.numsync, bad.sync, None, true);
    if r.Ok? {
      assert r.state != bad by {
        assert bad.sync + {me} + (bad.sync + {me}) == bad.sync + {me};
        assert bad.voters == bad.sync && bad.quorum >= |bad.sync| - bad.numsync ==> bad.Safe();
      }
      SafeIsGood(r.state);
      AllGoodSnoc(init, s.trace, Quorum(me, r.state.quorum, r.state.voters), me);
    }
  }

  /** A change of leader that raises has either not begun or left the fields in a state that is not safe. */
  lemma RaisedChangeOfLeader(s: State, voters: set<Node>)
    requires s.leader != s.leaderWanted
    requires QuorumUpdate(s, s.quorum, voters, Some(s.leaderWanted), true).Raised?
    ensures var bad := QuorumUpdate(s, s.quorum, voters, Some(s.leaderWanted), true).state;
            bad == s || (bad == s.(leader := s.leaderWanted, voters := voters) && !bad.Safe())
  {}

  lemma QuorumUpdateKeepsLeader(s: State, quorum: int, voters: set<Node>, adjust: bool)
    ensures var r := QuorumUpdate(s, quorum, voters, None, adjust).state;
            r.leader == s.leader && r.leaderWanted == s.leaderWanted
  {}

  /** When the change of leader breaks the invariant, the fallback rewrites the key from `sync`. */
  lemma FallbackTracks(init: Registers, me: Node, s: State)
    requires Tracks(init, me, s) && s.leaderWanted != s.leader
    requires AdoptLeader(s).Raised?
    ensures var bad := AdoptLeader(s).state;
            var r := QuorumUpdate(bad, |bad.sync| - bad.numsync, bad.sync, None, true);
            r.Ok? && r.state.leader == r.state.leaderWanted ==> Tracks(init, me, r.state)
  {
    hide Tracks, QuorumUpdate, SyncUpdate, State.Safe;
    var bad := AdoptLeader(s).state;
    QuorumUpdateKeepsLeader(bad, |bad.sync| - bad.numsync, bad.sync, true);
    if SeedSync(s).Ok? {
      SeedSyncTracks(init, me, s);
      var s1 := SeedSync(s).state;
      RaisedChangeOfLeader(s1, VotersAfterFailover(s));
      if bad != s1 {
        assert s.leader in bad.voters;
        RewriteTracks(init, me, s1, bad);
      }
    } else {
      SeedSyncKeepsLeader(s);
    }
  }

  lemma SeedSyncKeepsLeader(s: State)
    ensures SeedSync(s).state.leader == s.leader && SeedSync(s).state.leaderWanted == s.leaderWanted
  {}

  lemma GenerateTracks(init: Registers, me: Node, s: State)
    requires Tracks(init, me, s) && GenerateTransitions(s).Ok?
    ensures Tracks(init, me, GenerateTransitions(s).state)
  {
    var adopted := AdoptLeader(s);
    if s.leaderWanted == s.leader {
      AllGoodLast(init, s.trace, s.leaderWanted);
      assert adopted == Ok(s);
      ReconcileRuns(init, me, s);
    } else if adopted.Ok? {
      AdoptLeaderTracks(init, me, s);
      if !WaitsForReplicas(s, adopted) {
        ReconcileRuns(init, me, adopted.state);
      }
    } else {
      FallbackTracks(init, me, s);
      var bad := adopted.state;
      ReconcileRuns(init, me, QuorumUpdate(bad, |bad.sync| - bad.numsync, bad.sync, None, true).state);
    }
  }

  // ---------- merging ----------

  lemma ReplayCons(r: Registers, t: Transition, ts: seq<Transition>)
    ensures Replay(r, [t] + ts) == Replay(Apply(r, t), ts)
  {
    var us := [t] + ts;
    if ts == [] {
      assert us[..|us| - 1] == [];
    } else {
      ReplayCons(r, t, ts[..|ts| - 1]);
      assert us[..|us| - 1] == [t] + ts[..|ts| - 1];
    }
  }

  /** The position in the unmerged run of the transition that the merged run yields as its `i`-th. */
  function Origin(ts: seq<Transition>, i: nat): nat
    requires i < |Merge(ts)|
  {
    if |ts| > 1 && ts[0].SameKind(ts[1]) then 1 + Origin(ts[1..], i)
    else if i == 0 then 0
    else 1 + Origin(ts[1..], i - 1)
  }

  /** The length of the run up to, and not including, its first restart. */
  function UntilRestart(ts: seq<Transition>): (n: nat)
    ensures n <= |ts|
    ensures forall i | 0 <= i < n :: !ts[i].Restart?
    ensures n < |ts| ==> ts[n].Restart?
  {
    if ts == [] || ts[0].Restart? then 0 else 1 + UntilRestart(ts[1..])
  }

  /** The merged run is a selection from the unmerged run, in the same order. */
  lemma {:induction false} MergeSelects(ts: seq<Transition>, i: nat)
    requires i < |Merge(ts)|
    ensures Origin(ts, i) < |ts| && Merge(ts)[i] == ts[Origin(ts, i)]
    ensures i + 1 < |Merge(ts)| ==> Origin(ts, i) < Origin(ts, i + 1)
    decreases |ts|
  {
    var rest := ts[1..];
    if |ts| > 1 && ts[0].SameKind(ts[1]) {
      MergeSelects(rest, i);
    } else if i > 0 {
      MergeSelects(rest, i - 1);
    }
  }

  /** Neighbours in the merged run differ in kind, and nothing comes after a restart. */
  lemma {:induction false} MergeAlternates(ts: seq<Transition>)
    ensures ts != [] ==> Merge(ts) != [] && Merge(ts)[0].SameKind(ts[0])
    ensures forall i | 0 <= i < |Merge(ts)| - 1 :: !Merge(ts)[i].Restart? && !Merge(ts)[i].SameKind(Merge(ts)[i + 1])
    ensures (ts != [] && Merge(ts)[|Merge(ts)| - 1].Restart?) <==> UntilRestart(ts) < |ts|
  {
    if ts != [] {
      var rest := ts[1..];
      MergeAlternates(rest);
      if !(|ts| > 1 && ts[0].SameKind(ts[1])) && !ts[0].Restart? {
        assert Merge(ts) == [ts[0]] + Merge(rest);
        AlternatesFrom(ts[0], rest);
      }
    }
  }

  lemma AlternatesFrom(t: Transition, ts: seq<Transition>)
    requires !t.Restart? && (ts != [] ==> !t.SameKind(ts[0]) && Merge(ts) != [] && Merge(ts)[0].SameKind(ts[0]))
    requires ts == [] ==> Merge(ts) == []
    requires forall i | 0 <= i < |Merge(ts)| - 1 :: !Merge(ts)[i].Restart? && !Merge(ts)[i].SameKind(Merge(ts)[i + 1])
    ensures var m := [t] + Merge(ts);
      forall i | 0 <= i < |m| - 1 :: !m[i].Restart? && !m[i].SameKind(m[i + 1])
  {
    var n, m := Merge(ts), [t] + Merge(ts);
    hide Merge;
    forall i | 0 <= i < |m| - 1
      ensures !m[i].Restart? && !m[i].SameKind(m[i + 1])
    {
      assert m[i + 1] == n[i];
      if i > 0 { assert m[i] == n[i - 1]; }
    }
  }

  /** Overwriting a register twice is overwriting it once: the first write need not be seen. */
  lemma SkipFirst(r: Registers, t: Transition, ts: seq<Transition>)
    requires ts != [] && t.SameKind(ts[0])
    ensures Replay(r, [t] + ts) == Replay(r, ts)
  {
    ReplayCons(r, t, ts);
    assert ts == [ts[0]] + ts[1..];
    ReplayCons(Apply(r, t), ts[0], ts[1..]);
    ReplayCons(r, ts[0], ts[1..]);
  }

  /** Every state the merged run exposes is a state of the unmerged run. */
  lemma {:induction false} MergeExposes(r: Registers, ts: seq<Transition>, i: nat)
    requires i < |Merge(ts)|
    ensures Origin(ts, i) < |ts|
    ensures Replay(r, Merge(ts)[..i + 1]) == Replay(r, ts[..Origin(ts, i) + 1])
    decreases |ts|
  {
    hide Replay, Apply;
    var m, n := Merge(ts), Origin(ts, i);
    var rest := ts[1..];
    MergeSelects(ts, i);
    if |ts| > 1 && ts[0].SameKind(ts[1]) {
      MergeExposes(r, rest, i);
      assert ts[..n + 1] == [ts[0]] + rest[..n];
      SkipFirst(r, ts[0], rest[..n]);
    } else if i == 0 {
      assert m[..1] == [ts[0]] == ts[..1];
    } else {
      MergeExposes(Apply(r, ts[0]), rest, i - 1);
      assert m[..i + 1] == [ts[0]] + Merge(rest)[..i];
      assert ts[..n + 1] == [ts[0]] + rest[..n];
      ReplayCons(r, ts[0], Merge(rest)[..i]);
      ReplayCons(r, ts[0], rest[..n]);
    }
  }

  /** The merged run ends where the unmerged run is when it first asks for a restart. */
  lemma {:induction false} MergeReaches(r: Registers, ts: seq<Transition>)
    ensures Replay(r, Merge(ts)) == Replay(r, ts[..UntilRestart(ts)])
    decreases |ts|
  {
    if ts != [] {
      var rest := ts[1..];
      var n := UntilRestart(ts);
      if ts[0].Restart? {
        if |ts| > 1 && ts[0].SameKind(ts[1]) {
          MergeReaches(r, rest);
          assert UntilRestart(rest) == 0;
        } else {
          assert Merge(ts)[..|Merge(ts)| - 1] == [];
        }
      } else {
        assert ts[..n] == [ts[0]] + rest[..n - 1];
        if |ts| > 1 && ts[0].SameKind(ts[1]) {
          MergeReaches(r, rest);
          assert UntilRestart(rest) > 0;
          SkipFirst(r, ts[0], rest[..n - 1]);
        } else {
          MergeReaches(Apply(r, ts[0]), rest);
          ReplayCons(r, ts[0], Merge(rest));
          ReplayCons(r, ts[0], rest[..n - 1]);
        }
      }
    }
  }

  lemma MergeKeepsGood(init: Registers, ts: seq<Transition>, me: Node)
    requires AllGood(init, ts, me)
    ensures AllGood(init, Merge(ts), me)
  {
    var m := Merge(ts);
    hide Registers.Good, Merge, Origin;
    forall k | 0 <= k <= |m|
      ensures GoodAfter(init, m, me, k)
    {
      if k == 0 {
        assert m[..0] == ts[..0] && GoodAfter(init, ts, me, 0);
      } else {
        MergeSelects(ts, k - 1);
        MergeExposes(init, ts, k - 1);
        assert GoodAfter(init, ts, me, Origin(ts, k - 1) + 1);
      }
    }
  }

  // ---------- one pass over the registers ----------

  /**
   Whatever the primary observes, applying any number of the transitions the resolver yields goes through
   good registers only. If the run raises, no transition is yielded at all.
   */
  lemma PassIsSafe(init: Registers, confirmed: int, active: set<Node>, wanted: int, me: Node)
    requires init.Good(me) && me !in active
    ensures var ts := Transitions(Observe(init, confirmed, active, wanted, me));
            ts.Some? ==> AllGood(init, ts.value, me)
  {
    var s := Observe(init, confirmed, active, wanted, me);
    hide GenerateTransitions;
    var r := GenerateTransitions(s);
    if r.Ok? {
      assert Tracks(init, me, s) by {
        assert s.trace[..0] == [];
      }
      GenerateTracks(init, me, s);
      MergeKeepsGood(init, r.state.trace, me);
    }
  }
}
