/**
 When the phases of the quorum state machine raise, exactly, and what they reach when they do not.
 */
module QuorumPhases {
  import opened Names
  import opened Options
  import opened QuorumResolver

  /** A resolver that knows the right leader, holds safe registers and does not list the leader as a standby. */
  predicate Consistent(s: State) {
    && s.leader == s.leaderWanted
    && s.leader !in s.voters && s.leader !in s.sync && s.leader !in s.active
    && Balanced(s.quorum, s.voters, s.numsync, s.sync)
    && s.quorum >= 0
    && 0 <= s.numsync <= |s.sync|
    && (s.sync != {} ==> s.numsync >= 1)
    && (s.voters != {} ==> s.sync != {})
  }

  /** The updates change the registers only, never what the resolver was told about the desired state. */
  predicate SameGoal(s: State, r: State) {
    r == s.(quorum := r.quorum, voters := r.voters, numsync := r.numsync, sync := r.sync, trace := r.trace)
  }

  predicate Steady(s: State) {
    Consistent(s) && s.voters == s.sync
  }

  // ---------- the two updates, as arithmetic ----------

  /** With the leader out of both sets, `check_invariants` compares the standbys alone. */
  predicate Balanced(quorum: int, voters: set<Node>, numsync: int, sync: set<Node>) {
    || (voters <= sync && (voters != {} ==> |sync| <= quorum + numsync))
    || (sync <= voters && (voters != {} ==> |voters| <= quorum + numsync))
  }

  lemma SafeIsBalanced(s: State)
    requires s.leader == s.leaderWanted && s.leader !in s.voters && s.leader !in s.sync
    ensures s.Safe() <==> Balanced(s.quorum, s.voters, s.numsync, s.sync)
  {
    var me := {s.leader};
    var v, y := s.voters + me, s.sync + me;
    assert s.voters <= s.sync ==> v + y == s.sync + me;
    assert s.sync <= s.voters ==> v + y == s.voters + me;
    assert s.voters <= s.sync <==> v <= y by {
      assert s.voters == v - me && s.sync == y - me;
    }
    assert s.sync <= s.voters <==> y <= v by {
      assert s.voters == v - me && s.sync == y - me;
    }
  }

  predicate ValidQuorum(quorum: int, voters: set<Node>) {
    quorum >= 0 && (quorum > 0 ==> quorum < |voters|)
  }

  /** With nobody confirmed and no voters yet, the `/sync` key stays empty. */
  predicate Resets(s: State) {
    s.confirmed == 0 && s.voters == {}
  }

  function AdjustedQuorum(s: State, quorum: int, adjust: bool): int {
    if Resets(s) then 0 else if adjust then quorum + Max(s.numsync - s.confirmed, 0) else quorum
  }

  function AdjustedVoters(s: State, voters: set<Node>): set<Node> {
    if Resets(s) then {} else voters
  }

  lemma QuorumUpdateExact(s: State, quorum: int, voters: set<Node>, adjust: bool)
    requires s.leader == s.leaderWanted && s.leader !in voters && s.leader !in s.sync
    ensures var r := QuorumUpdate(s, quorum, voters, None, adjust);
            var q, v := AdjustedQuorum(s, quorum, adjust), AdjustedVoters(s, voters);
            && (r.Ok? <==> ValidQuorum(quorum, voters) && ((s.voters != {} && q == s.quorum && v == s.voters)
                                                           || Balanced(q, v, s.numsync, s.sync)))
            && (r.Ok? ==> r.state == s.(quorum := q, voters := v, trace := r.state.trace))
  {
    var q, v := AdjustedQuorum(s, quorum, adjust), AdjustedVoters(s, voters);
    SafeIsBalanced(s.(quorum := q, voters := v));
    SafeIsBalanced(s.Yield(Restart(s.leader, s.quorum, s.voters)).(quorum := q, voters := v));
    hide State.Safe, Balanced;
  }

  lemma SyncUpdateExact(s: State, numsync: int, sync: set<Node>)
    requires s.leader == s.leaderWanted && s.leader !in s.voters && s.leader !in sync
    ensures var r := SyncUpdate(s, numsync, sync);
            && (r.Ok? <==> 0 <= numsync <= |sync| && Balanced(s.quorum, s.voters, numsync, sync))
            && (r.Ok? ==> r.state == s.(numsync := numsync, sync := sync, trace := r.state.trace))
  {
    SafeIsBalanced(s.(numsync := numsync, sync := sync));
    hide State.Safe, Balanced;
  }

  // ---------- recovery from an interrupted run ----------

  /** What an interrupted run may have left behind for the next run to recover from it. */
  predicate Recoverable(s: State) {
    if s.voters < s.sync then
      var alive := s.sync * s.active;
      || s.voters == {}
      || alive == {}
      || s.voters <= s.active
      || (s.voters * s.active == {}
          && s.numsync <= |s.voters + alive|
          && |s.sync| <= |s.voters + alive| + Max(s.numsync - s.confirmed, 0))
    else
      true
  }

  /** The registers that recovery leaves behind, computed from those it finds. */
  function Matched(s: State): State {
    var alive := s.sync * s.active;
    if s.sync < s.voters then
      var v := s.voters * (s.sync + s.active);
      s.(voters := v, sync := v, quorum := EvictedQuorum(s, v))
    else if s.voters < s.sync then
      if alive == {} then s.(sync := s.voters, numsync := Min(s.numsync, |s.voters|))
      else if s.voters <= s.active then
        var n := Min(s.numsync, |alive|);
        if alive == s.voters then s.(sync := alive, numsync := n)
        else if Resets(s) then s.(sync := {}, numsync := 0, quorum := 0)
        else s.(voters := alive, sync := alive, numsync := n, quorum := |alive| - n + Max(n - s.confirmed, 0))
      else
        var v := s.voters + alive;
        s.(voters := v, sync := v, quorum := |v| - s.numsync + Max(s.numsync - s.confirmed, 0))
    else
      s
  }

  function EvictedQuorum(s: State, v: set<Node>): int {
    if v == s.voters then s.quorum
    else |v| - s.numsync + (if s.sync <= s.active then Max(s.numsync - s.confirmed, 0) else 0)
  }

  /** The registers once replication factor and quorum are no bigger than needed. */
  function Settled(s: State): State {
    var quorum := if Resets(s) then 0 else |s.sync| - s.numsync + Max(s.numsync - s.confirmed, 0);
    if s.quorum + Min(s.numsync, s.confirmed) > |s.sync| then
      if s.numsync > s.wanted then s.(numsync := Max(s.wanted, |s.sync| - s.quorum)) else s.(quorum := quorum)
    else if s.numsync == s.wanted && s.quorum + s.numsync > |s.sync| && s.numsync > s.confirmed then
      s.(quorum := quorum)
    else
      s
  }

  /** Two states that differ in the transitions yielded so far at most. */
  predicate SameRegisters(s: State, r: State) { r == s.(trace := r.trace) }

  lemma VotersShrink(s: State, voters: set<Node>, adjust: bool)
    requires Consistent(s) && s.sync <= voters < s.voters
    ensures var r := QuorumUpdate(s, |voters| - s.numsync, voters, None, adjust);
            var quorum := |voters| - s.numsync + (if adjust then Max(s.numsync - s.confirmed, 0) else 0);
            r.Ok? && Consistent(r.state) && SameRegisters(s.(quorum := quorum, voters := voters), r.state)
  {
    SubsetSize(s.sync, voters);
    hide QuorumUpdate;
    QuorumUpdateExact(s, |voters| - s.numsync, voters, adjust);
  }

  lemma EvictDeadRecovers(s: State)
    requires Consistent(s) && s.sync < s.voters
    ensures EvictDead(s).Ok?
    ensures var r := EvictDead(s).state;
            && Consistent(r) && r.voters == s.voters * (s.sync + s.active)
            && SameRegisters(s.(quorum := EvictedQuorum(s, r.voters), voters := r.voters), r)
  {
    hide QuorumUpdate, Consistent;
    var gone := s.voters - (s.sync + s.active);
    var voters := s.voters * (s.sync + s.active);
    assert s.voters - gone == voters;
    SubsetSize(gone, s.voters);
    if gone == {} {
      assert EvictDead(s) == Ok(s) && voters == s.voters;
    } else {
      SplitBy(s.sync, s.active);
      assert EvictDead(s) == QuorumUpdate(s, |voters| - s.numsync, voters, None, s.sync <= s.active);
      hide EvictDead;
      VotersShrink(s, voters, s.sync <= s.active);
    }
  }

  lemma SyncAliveRecovers(s: State)
    requires Consistent(s) && s.sync <= s.voters <= s.sync + s.active
    ensures SyncAlive(s).Ok? && Steady(SyncAlive(s).state) && SameRegisters(s.(sync := s.voters), SyncAlive(s).state)
  {
    hide SyncUpdate;
    var add := s.voters * s.active - s.sync;
    assert s.sync + add == s.voters;
    SubsetSize(s.sync, s.voters);
    SyncUpdateExact(s, s.numsync, s.voters);
  }

  lemma ShrinkVotersRecovers(s: State)
    requires Consistent(s) && s.sync < s.voters
    ensures ShrinkVoters(s).Ok? && Steady(ShrinkVoters(s).state) && SameRegisters(Matched(s), ShrinkVoters(s).state)
  {
    hide EvictDead, SyncAlive, EvictedQuorum, Consistent;
    EvictDeadRecovers(s);
    SyncAliveRecovers(EvictDead(s).state);
  }

  /** Dropping dead nodes succeeds when all voters are alive. */
  lemma DropDeadRecovers(s: State)
    requires Consistent(s) && s.voters < s.sync && s.voters <= s.active && s.sync * s.active != {}
    ensures DropDead(s).Ok?
    ensures var r := DropDead(s).state;
            Consistent(r) && SameRegisters(s.(numsync := Min(s.numsync, |r.sync|), sync := s.sync * s.active), r)
  {
    hide SyncUpdate;
    var gone := s.sync - s.active;
    var alive := s.sync * s.active;
    assert s.sync - gone == alive && alive * s.voters == s.voters && (gone == {} ==> alive == s.sync);
    SubsetSize(gone, s.sync);
    if gone == {} {
      assert DropDead(s) == Ok(s);
    } else {
      assert DropDead(s) == SyncUpdate(s, Min(s.numsync, |alive|), alive);
      hide DropDead;
      SyncUpdateExact(s, Min(s.numsync, |alive|), alive);
    }
  }

  /** If some voters are dead, dropping dead nodes fails or cuts sync down below voters. */
  lemma DropDeadParts(s: State)
    requires Consistent(s) && s.voters < s.sync && !(s.voters <= s.active) && s.voters * s.active != {}
    ensures DropDead(s).Ok? ==> DropDead(s).state.sync < DropDead(s).state.voters
  {
    hide SyncUpdate;
    var gone := s.sync - s.active;
    var alive := s.sync * s.active;
    assert s.sync - gone == alive && alive * s.voters == s.voters * s.active;
    assert !(s.voters <= alive);
    SyncUpdateExact(s, Min(s.numsync, |s.sync| - |gone|), alive);
  }

  /** All listed nodes become voters, unless nobody is confirmed. */
  function AdmittedAll(s: State): State {
    if s.voters == s.sync then s
    else if Resets(s) then s.(quorum := 0)
    else s.(voters := s.sync, quorum := |s.sync| - s.numsync + Max(s.numsync - s.confirmed, 0))
  }

  lemma AdmitSyncedRecovers(s: State)
    requires Consistent(s) && s.voters <= s.sync <= s.active
    ensures AdmitSynced(s).Ok?
    ensures var r := AdmitSynced(s).state;
            && SameRegisters(AdmittedAll(s), r) && r.quorum >= 0
            && Balanced(r.quorum, r.voters, r.numsync, r.sync)
  {
    hide QuorumUpdate;
    var add := (s.sync - s.voters) * s.active;
    assert s.voters + add == s.sync;
    if add == {} {
      assert AdmitSynced(s) == Ok(s) && s.voters == s.sync;
    } else {
      assert AdmitSynced(s) == QuorumUpdate(s, |s.sync| - s.numsync, s.sync, None, true);
      hide AdmitSynced;
      QuorumUpdateExact(s, |s.sync| - s.numsync, s.sync, true);
    }
  }

  lemma DropUnadmittedRecovers(s: State)
    requires s.leader == s.leaderWanted && s.leader !in s.sync && s.leader !in s.active && s.quorum >= 0
    requires s.voters <= s.sync && (s.voters != {} ==> |s.sync| <= s.quorum + s.numsync)
    requires 0 <= s.numsync <= |s.sync| && (s.sync != {} ==> s.numsync >= 1)
    ensures DropUnadmitted(s).Ok? && Steady(DropUnadmitted(s).state)
    ensures SameRegisters(s.(sync := s.voters, numsync := Min(s.numsync, |s.voters|)), DropUnadmitted(s).state)
  {
    hide SyncUpdate;
    if s.voters == s.sync {
      assert DropUnadmitted(s) == Ok(s);
    } else {
      var rest := s.sync - s.voters;
      SubsetSize(s.voters, s.sync);
      SubsetSize(rest, s.sync);
      assert rest != {} && s.sync - rest == s.voters;
      assert DropUnadmitted(s) == SyncUpdate(s, Min(s.numsync, |s.voters|), s.voters);
      hide DropUnadmitted;
      SyncUpdateExact(s, Min(s.numsync, |s.voters|), s.voters);
    }
  }

  /** All voters are alive. */
  lemma GrowAliveVoters(s: State)
    requires Consistent(s) && s.voters < s.sync && s.voters <= s.active && s.sync * s.active != {}
    ensures GrowVoters(s).Ok? && Steady(GrowVoters(s).state) && SameRegisters(Matched(s), GrowVoters(s).state)
  {
    hide DropDead, AdmitSynced, DropUnadmitted;
    DropDeadRecovers(s);
    var s1 := DropDead(s).state;
    AdmitSyncedRecovers(s1);
    DropUnadmittedRecovers(AdmitSynced(s1).state);
  }

  /** Nobody is alive. */
  lemma GrowDeadVoters(s: State)
    requires Consistent(s) && s.voters < s.sync && s.sync * s.active == {}
    ensures GrowVoters(s).Ok? && Steady(GrowVoters(s).state) && SameRegisters(Matched(s), GrowVoters(s).state)
  {
    hide DropUnadmitted, SyncUpdate, QuorumUpdate;
    assert s.sync - (s.sync - s.active) == {};
    assert DropDead(s) == Ok(s) && (s.sync - s.voters) * s.active == {};
    DropUnadmittedRecovers(s);
  }

  /** Some voters are dead, and a node that is alive in sync is a voter: the sets part. */
  lemma GrowMixedVoters(s: State)
    requires Consistent(s) && s.voters < s.sync
    requires !(s.voters <= s.active) && s.voters * s.active != {}
    ensures GrowVoters(s).Ok? ==> GrowVoters(s).state.voters != GrowVoters(s).state.sync
  {
    hide SyncUpdate, QuorumUpdate;
    DropDeadParts(s);
    var r := DropDead(s);
    hide DropDead;
    if r.Ok? {
      assert r.state.sync - r.state.voters == {};
      assert (r.state.sync - r.state.voters) * r.state.active == {};
    }
  }

  /** All voters are dead, and some other node in sync is alive. */
  lemma GrowReplacedVoters(s: State)
    requires Consistent(s) && s.voters < s.sync
    requires s.voters != {} && s.voters * s.active == {} && s.sync * s.active != {}
    ensures GrowVoters(s).Ok? <==> Recoverable(s)
    ensures GrowVoters(s).Ok? ==> Steady(GrowVoters(s).state) && SameRegisters(Matched(s), GrowVoters(s).state)
  {
    hide QuorumUpdate, SyncUpdate, DropUnadmitted;
    var alive := s.sync * s.active;
    assert forall x | x in s.voters && x in s.active :: x in s.voters * s.active;
    assert s.sync - (s.sync - s.active) == alive && alive * s.voters == {};
    assert DropDead(s) == Ok(s);
    var voters := s.voters + alive;
    assert (s.sync - s.voters) * s.active == alive;
    assert s.voters <= voters <= s.sync;
    QuorumUpdateExact(s, |voters| - s.numsync, voters, true);
    var r := QuorumUpdate(s, |voters| - s.numsync, voters, None, true);
    assert AdmitSynced(s) == r;
    hide AdmitSynced, DropDead;
    SubsetSize(voters, s.sync);
    assert r.Ok? <==> s.numsync <= |voters| && |s.sync| <= |voters| + Max(s.numsync - s.confirmed, 0);
    if r.Ok? {
      DropUnadmittedRecovers(r.state);
    }
  }

  /**
   Recovery from interruption: voters and sync become the same set, by safe steps and without raising,
   exactly when the state is recoverable; the registers it leaves are known beforehand.
   */
  lemma MatchSetsExact(s: State)
    requires Consistent(s)
    ensures MatchSets(s).Ok? <==> Recoverable(s)
    ensures MatchSets(s).Ok? ==> Steady(MatchSets(s).state) && SameRegisters(Matched(s), MatchSets(s).state)
  {
    hide ShrinkVoters, GrowVoters;
    if s.sync < s.voters {
      ShrinkVotersRecovers(s);
    } else if s.voters < s.sync {
      if s.sync * s.active == {} {
        GrowDeadVoters(s);
      } else if s.voters <= s.active {
        GrowAliveVoters(s);
      } else if s.voters * s.active != {} {
        GrowMixedVoters(s);
      } else {
        GrowReplacedVoters(s);
      }
    }
  }

  // ---------- replication factor or quorum bigger than needed ----------

  /** Bringing the margin down never raises. */
  lemma SettleMarginTotal(s: State)
    requires Steady(s) && s.wanted >= 1
    ensures SettleMargin(s).Ok?
    ensures var r := SettleMargin(s).state;
            && Steady(r) && SameRegisters(Settled(s), r)
            && (s.quorum == |s.sync| - s.numsync ==> r == s)
  {
    hide QuorumUpdate, SyncUpdate;
    assert s.voters + s.sync == s.sync;
    SyncUpdateExact(s, Max(s.wanted, |s.voters| - s.quorum), s.sync);
    QuorumUpdateExact(s, |s.sync| - s.numsync, s.voters, true);
  }

  // ---------- removing gone nodes ----------

  /** Gone nodes leave sync first; what is left of it holds a replication factor at least as big. */
  lemma ShrinkSync(s: State, remove: set<Node>)
    requires Steady(s) && remove < s.sync && |remove| <= s.quorum
    ensures var sync := s.sync - remove;
            var numsync := Min(Max(s.wanted, s.numsync), |sync|);
            var r := SyncUpdate(s, numsync, sync);
            && r.Ok? && r.state == s.(numsync := numsync, sync := sync, trace := r.state.trace)
            && |sync| == |s.sync| - |remove| && numsync >= 1
  {
    var sync := s.sync - remove;
    SubsetSize(remove, s.sync);
    SyncUpdateExact(s, Min(Max(s.wanted, s.numsync), |sync|), sync);
  }

  /** Voters follow sync. */
  lemma FollowSync(s: State, adjust: bool)
    requires s.leader == s.leaderWanted && s.leader !in s.sync && s.leader !in s.active
    requires s.sync < s.voters && 1 <= s.numsync <= |s.sync|
    ensures var r := QuorumUpdate(s, |s.sync| - s.numsync, s.sync, None, adjust);
            && r.Ok? && Steady(r.state)
            && r.state == s.(quorum := |s.sync| - s.numsync + (if adjust then Max(s.numsync - s.confirmed, 0) else 0),
                             voters := s.sync, trace := r.state.trace)
  {
    QuorumUpdateExact(s, |s.sync| - s.numsync, s.sync, adjust);
    hide QuorumUpdate;
  }

  lemma RemoveChosenTotal(s: State, gone: set<Node>, remove: set<Node>)
    requires Steady(s)
    requires remove != {} && remove < s.sync && |remove| <= s.quorum
    ensures RemoveChosen(s, gone, remove).Ok?
    ensures var r := RemoveChosen(s, gone, remove).state;
            && Steady(r) && SameGoal(s, r)
            && r.sync == s.sync - remove && |r.sync| == |s.sync| - |remove|
            && r.numsync == Min(Max(s.wanted, s.numsync), |r.sync|)
            && r.quorum == |r.sync| - r.numsync + (if gone * r.sync == {} then Max(r.numsync - s.confirmed, 0) else 0)
  {
    hide QuorumUpdate, SyncUpdate;
    ShrinkSync(s, remove);
    var sync := s.sync - remove;
    var s1 := SyncUpdate(s, Min(Max(s.wanted, s.numsync), |sync|), sync).state;
    assert s1.voters - remove == sync && sync < s1.voters;
    hide Steady;
    FollowSync(s1, gone * sync == {});
  }

  /** The gone nodes do not fit into what is left of the quorum, which is nothing: all of sync is required. */
  lemma RemoveBeyondQuorumTotal(s: State, gone: set<Node>)
    requires Steady(s) && s.quorum == 0 && s.numsync == |s.sync|
    requires gone != {} && gone < s.sync
    ensures RemoveBeyondQuorum(s, gone).Ok?
    ensures var r := RemoveBeyondQuorum(s, gone).state;
            && Steady(r) && SameGoal(s, r) && r.sync == s.sync - gone
            && r.numsync == |r.sync| && r.quorum == |r.sync| - Min(Max(s.wanted, 1), |r.sync|)
  {
    hide QuorumUpdate, SyncUpdate;
    var sync := s.sync - gone;
    SubsetSize(gone, s.sync);
    assert sync != {} && s.voters - gone == sync;
    var quorum := |sync| - Min(Max(s.wanted, 1), |sync|);
    QuorumUpdateExact(s, quorum, sync, false);
    var s1 := QuorumUpdate(s, quorum, sync, None, false).state;
    SyncUpdateExact(s1, |sync|, sync);
  }

  /** Of the gone nodes that leave first, there are as many as the quorum, and they are the last in sorted order. */
  lemma LastLeaveFirst(s: State, gone: set<Node>) returns (first: set<Node>)
    requires RemoveWithinQuorum(s, gone).Ok? && s.quorum >= 0
    ensures first <= gone && |first| == Min(s.quorum, |gone|)
    ensures forall x, y | x in first && y in gone - first :: Leq(y, x)
    ensures RemoveWithinQuorum(s, gone).state.sync == s.sync - first
  {
    first := Sorted(false, gone, s.quorum);
    forall x, y | x in first && y in gone - first ensures Leq(y, x) { assert Precedes(false, x, y); }
    hide State.Safe;
  }

  /** What removing the gone nodes leaves of quorum and numsync, when some nodes are gone and some are not. */
  predicate RemovalResult(s: State, r: State) {
    var alive := s.sync * s.active;
    if |s.sync| - |alive| <= s.quorum then
      && r.numsync == Min(Max(s.wanted, s.numsync), |alive|)
      && r.quorum == |alive| - r.numsync + Max(r.numsync - s.confirmed, 0)
    else
      r.numsync == |alive| && r.quorum == |alive| - Min(Max(s.wanted, 1), |alive|)
  }

  lemma RemoveAll(s: State)
    requires Steady(s) && s.sync != {} && s.sync * s.active == {}
    ensures RemoveGoneNodes(s).Ok?
    ensures var r := RemoveGoneNodes(s).state;
            Steady(r) && SameGoal(s, r) && r.sync == {} && r.numsync == 0 && r.quorum == 0
  {
    hide QuorumUpdate, SyncUpdate;
    SplitBy(s.sync, s.active);
    QuorumUpdateExact(s, 0, {}, false);
    SyncUpdateExact(QuorumUpdate(s, 0, {}, None, false).state, 0, {});
  }

  /** The quorum has room for all gone nodes. */
  lemma RemoveFits(s: State, gone: set<Node>)
    requires Steady(s)
    requires gone == s.sync - s.active && gone != {} && s.sync * s.active != {} && |gone| <= s.quorum
    ensures RemoveGoneNodes(s).Ok?
    ensures var r := RemoveGoneNodes(s).state;
            Steady(r) && SameGoal(s, r) && r.sync == s.sync * s.active && RemovalResult(s, r)
  {
    hide RemoveChosen, RemoveBeyondQuorum;
    var remove := Sorted(false, gone, s.quorum);
    SubsetSize(remove, gone);
    SubsetSize(gone, s.sync);
    var alive := s.sync * s.active;
    assert s.sync - gone == alive && gone * alive == {};
    RemoveChosenTotal(s, gone, gone);
    hide Steady;
  }

  /** Removing as many gone nodes as fit uses the quorum up, and then every listed node is required. */
  lemma RemoveUsesQuorumUp(s: State, gone: set<Node>, remove: set<Node>)
    requires Steady(s) && s.quorum > 0
    requires remove < gone && gone < s.sync && |remove| == s.quorum
    ensures var r := RemoveChosen(s, gone, remove);
            && r.Ok? && Steady(r.state) && SameGoal(s, r.state) && r.state.sync == s.sync - remove
            && r.state.quorum == 0 && r.state.numsync == |r.state.sync|
            && gone * r.state.sync == gone - remove
  {
    hide RemoveChosen;
    RemoveChosenTotal(s, gone, remove);
    assert gone * (s.sync - remove) == gone - remove;
    SubsetSize(remove, gone);
  }

  /** Some gone nodes do not fit into the quorum. */
  lemma RemoveOverflows(s: State, gone: set<Node>)
    requires Steady(s)
    requires gone == s.sync - s.active && s.sync * s.active != {} && |gone| > s.quorum
    ensures RemoveGoneNodes(s).Ok?
    ensures var r := RemoveGoneNodes(s).state;
            Steady(r) && SameGoal(s, r) && r.sync == s.sync * s.active && RemovalResult(s, r)
  {
    hide RemoveChosen, RemoveBeyondQuorum;
    SplitBy(s.sync, s.active);
    assert gone < s.sync;
    if s.quorum == 0 {
      RemoveBeyondQuorumTotal(s, gone);
    } else {
      var remove := Sorted(false, gone, s.quorum);
      assert |remove| == s.quorum && remove != gone;
      RemoveUsesQuorumUp(s, gone, remove);
      hide Steady, RemovalResult, SameGoal;
      var s1 := RemoveChosen(s, gone, remove).state;
      var left := gone - remove;
      assert left != {};
      assert RemoveGoneNodes(s) == RemoveBeyondQuorum(s1, left);
      hide RemoveGoneNodes;
      RemoveOverflowRest(s, gone, remove, s1);
    }
  }

  lemma RemoveOverflowRest(s: State, gone: set<Node>, remove: set<Node>, s1: State)
    requires gone == s.sync - s.active && s.sync * s.active != {} && |gone| > s.quorum
    requires remove < gone
    requires Steady(s1) && SameGoal(s, s1) && s1.sync == s.sync - remove && s1.quorum == 0 && s1.numsync == |s1.sync|
    ensures RemoveBeyondQuorum(s1, gone - remove).Ok?
    ensures var r := RemoveBeyondQuorum(s1, gone - remove).state;
            Steady(r) && SameGoal(s, r) && r.sync == s.sync * s.active && RemovalResult(s, r)
  {
    hide RemoveBeyondQuorum;
    var left := gone - remove;
    SplitBy(s.sync, s.active);
    assert s1.sync - left == s.sync * s.active && left < s1.sync && left != {};
    RemoveBeyondQuorumTotal(s1, left);
    hide Steady;
  }

  /**
   Removing gone nodes is total, whatever factor is wanted: it never raises, its assertion that the quorum is used up
   holds, and it leaves voters and sync equal to the nodes that are still active.
   */
  lemma RemoveGoneNodesTotal(s: State)
    requires Steady(s)
    ensures RemoveGoneNodes(s).Ok?
    ensures var r := RemoveGoneNodes(s).state;
            && Steady(r) && SameGoal(s, r) && r.sync == s.sync * s.active
            && (s.sync <= s.active ==> r == s)
            && (s.sync * s.active != {} && !(s.sync <= s.active) ==> RemovalResult(s, r))
            && (r.sync == {} && s.sync != {} ==> r.quorum == 0)
  {
    var gone := s.sync - s.active;
    SplitBy(s.sync, s.active);
    if gone != {} {
      hide RemoveGoneNodes;
      if s.sync * s.active == {} {
        RemoveAll(s);
      } else if |gone| <= s.quorum {
        RemoveFits(s, gone);
      } else {
        RemoveOverflows(s, gone);
      }
    }
  }

  // ---------- adding new nodes ----------

  function Joining(s: State): set<Node> { s.active - s.sync }

  /** The replication factor that is in reach once the new nodes have joined. */
  function Reach(s: State): int { Min(s.wanted, |s.sync + Joining(s)|) }

  /** Even with all new nodes counted, numsync stays below the factor in reach. */
  predicate Short(s: State) {
    s.sync != {} && s.numsync + |Joining(s)| < Reach(s)
  }

  /** The shortfall is not made up for by nodes that are not confirmed yet: the quorum would be too small. */
  predicate AddFails(s: State) {
    && Joining(s) != {} && Short(s)
    && var n := s.numsync + |Joining(s)|;
       n + Max(n - s.confirmed, 0) < Reach(s)
  }

  lemma AddTheRestTotal(s: State, rest: set<Node>, wanted: int)
    requires Steady(s) && s.sync != {} && rest != {} && rest !! s.sync && s.leader !in rest
    requires 1 <= wanted <= s.numsync
    ensures AddTheRest(s, rest, wanted).Ok?
    ensures var r := AddTheRest(s, rest, wanted).state;
            && Steady(r) && SameGoal(s, r) && r.sync == s.sync + rest && r.numsync == wanted
            && r.quorum == |r.sync| - wanted + (if wanted > s.confirmed then Max(s.numsync - s.confirmed, 0) else 0)
  {
    hide QuorumUpdate, SyncUpdate;
    var v := s.voters + rest;
    DisjointUnionSize(s.sync, rest);
    QuorumUpdateExact(s, |v| - wanted, v, wanted > s.confirmed);
    var s1 := QuorumUpdate(s, |v| - wanted, v, None, wanted > s.confirmed).state;
    SyncUpdateExact(s1, wanted, v);
  }

  /** The first new nodes join an existing sync set. */
  lemma JoinChosenExact(s: State, add: set<Node>, wanted: int)
    requires Steady(s) && s.sync != {} && add != {} && add !! s.sync && s.leader !in add
    requires 1 <= wanted <= |s.sync| + |add| && s.numsync + |add| <= wanted
    ensures var n := s.numsync + |add|;
            var r := JoinChosen(s, add, wanted);
            && (r.Ok? <==> n + Max(n - s.confirmed, 0) >= wanted)
            && (r.Ok? ==> && Steady(r.state) && SameGoal(s, r.state)
                          && r.state.sync == s.sync + add && r.state.numsync == n
                          && r.state.quorum == |s.sync + add| - wanted + Max(n - s.confirmed, 0))
  {
    hide QuorumUpdate, SyncUpdate;
    var n := s.numsync + |add|;
    var v := s.sync + add;
    DisjointUnionSize(s.sync, add);
    SyncUpdateExact(s, n, v);
    var s1 := SyncUpdate(s, n, v).state;
    assert s1.voters + add == v;
    QuorumUpdateExact(s1, |v| - wanted, v, true);
  }

  /** There was only the leader: all nodes join at once, and become voters when one of them is confirmed. */
  lemma AddToEmpty(s: State, joining: set<Node>, wanted: int)
    requires Steady(s) && s.sync == {} && joining != {} && s.leader !in joining && 1 <= wanted <= |joining|
    ensures JoinChosen(s, joining, wanted).Ok?
    ensures var r := JoinChosen(s, joining, wanted).state;
            && Consistent(r) && SameGoal(s, r) && r.sync == joining && r.numsync == wanted
            && (if s.confirmed == 0 then r.voters == {} && r.quorum == 0
                else r.voters == joining && r.quorum == |joining| - wanted + Max(wanted - s.confirmed, 0))
  {
    hide QuorumUpdate, SyncUpdate;
    assert s.sync + joining == joining && s.voters + joining == joining;
    SyncUpdateExact(s, wanted, joining);
    var s1 := SyncUpdate(s, wanted, joining).state;
    QuorumUpdateExact(s1, |joining| - wanted, joining, true);
  }

  /** What adding new nodes leaves of quorum and numsync when the factor in reach is reached. */
  predicate AdditionResult(s: State, r: State) {
    var w := Reach(s);
    && r.numsync == w
    && if s.sync == {} && s.confirmed == 0 then r.voters == {} && r.quorum == 0
       else
         && r.voters == r.sync
         && r.quorum == |r.sync| - w + (if w > s.confirmed then Max(s.numsync, w) - s.confirmed else 0)
  }

  /** The new nodes that are left once the factor in reach is reached. */
  lemma AddAfterReach(s: State, s1: State, add: set<Node>)
    requires s.wanted >= 1 && s.sync != {} && s.leader !in s.active && s.numsync < Reach(s)
    requires add <= Joining(s) && Steady(s1) && SameGoal(s, s1)
    requires s1.sync == s.sync + add && s1.numsync == Reach(s) >= 1
    requires s1.quorum == |s1.sync| - Reach(s) + Max(Reach(s) - s.confirmed, 0)
    ensures var rest := Joining(s) - s1.sync;
            var r := if rest == {} then Ok(s1) else AddTheRest(s1, rest, Reach(s));
            r.Ok? && Steady(r.state) && SameGoal(s, r.state) && r.state.sync == s.sync + Joining(s)
            && AdditionResult(s, r.state)
  {
    hide AddTheRest;
    var rest := Joining(s) - s1.sync;
    assert s1.sync + rest == s.sync + Joining(s);
    if rest != {} {
      AddTheRestTotal(s1, rest, Reach(s));
      hide Steady;
    } else {
      assert s1.sync == s.sync + Joining(s);
    }
  }

  /** The factor in reach is reached with some of the new nodes; the rest follows. */
  lemma AddReaches(s: State, joining: set<Node>)
    requires Steady(s) && s.wanted >= 1 && s.sync != {}
    requires joining == Joining(s) != {} && s.numsync < Reach(s) <= s.numsync + |joining|
    ensures AddNewNodes(s).Ok?
    ensures var r := AddNewNodes(s).state;
            Steady(r) && SameGoal(s, r) && r.sync == s.sync + joining && AdditionResult(s, r)
  {
    hide JoinChosen, AddTheRest, AdditionResult;
    var w := Reach(s);
    DisjointUnionSize(s.sync, joining);
    var add := NodesToReach(s, joining, w);
    assert |add| == w - s.numsync && add <= joining;
    hide NodesToReach;
    JoinChosenExact(s, add, w);
    var s1 := JoinChosen(s, add, w).state;
    var rest := joining - s1.sync;
    assert AddNewNodes(s) == if rest == {} then Ok(s1) else AddTheRest(s1, rest, w);
    hide AddNewNodes;
    AddAfterReach(s, s1, add);
  }

  /** The new nodes are too few to reach the factor in reach. */
  lemma AddShort(s: State, joining: set<Node>)
    requires Steady(s) && s.wanted >= 1 && Short(s) && joining == Joining(s) != {}
    ensures AddNewNodes(s).Ok? <==> !AddFails(s)
    ensures var r := AddNewNodes(s).state;
            AddNewNodes(s).Ok? ==>
              && Steady(r) && SameGoal(s, r) && r.sync == s.sync + joining
              && r.numsync == s.numsync + |joining|
              && r.quorum == |r.sync| - Reach(s) + Max(r.numsync - s.confirmed, 0)
  {
    hide JoinChosen, AddTheRest;
    var w := Reach(s);
    DisjointUnionSize(s.sync, joining);
    var add := NodesToReach(s, joining, w);
    SubsetSize(add, joining);
    assert add == joining;
    hide NodesToReach;
    JoinChosenExact(s, joining, w);
    assert joining - (s.sync + joining) == {};
    hide Steady;
  }

  /** numsync is big enough already. */
  lemma AddToEnough(s: State, joining: set<Node>)
    requires Steady(s) && s.wanted >= 1 && s.sync != {} && joining == Joining(s) != {} && Reach(s) <= s.numsync
    ensures AddNewNodes(s).Ok?
    ensures var r := AddNewNodes(s).state;
            Steady(r) && SameGoal(s, r) && r.sync == s.sync + joining && AdditionResult(s, r)
  {
    hide AddTheRest;
    DisjointUnionSize(s.sync, joining);
    AddTheRestTotal(s, joining, Reach(s));
  }

  lemma AddFirst(s: State, joining: set<Node>)
    requires Steady(s) && s.wanted >= 1 && s.sync == {} && joining == Joining(s) != {}
    ensures AddNewNodes(s).Ok?
    ensures var r := AddNewNodes(s).state;
            Consistent(r) && SameGoal(s, r) && r.sync == s.sync + joining && AdditionResult(s, r)
  {
    hide JoinChosen;
    assert s.sync + joining == joining && joining - joining == {};
    AddToEmpty(s, joining, Reach(s));
    hide Consistent;
  }

  /**
   Adding new nodes raises exactly when the factor in reach lies beyond the new nodes and beyond what the
   unconfirmed ones among them make up for. Otherwise all active nodes end up in sync.
   */
  lemma AddNewNodesExact(s: State)
    requires Steady(s) && s.wanted >= 1
    ensures AddNewNodes(s).Ok? <==> !AddFails(s)
    ensures var r := AddNewNodes(s).state;
            AddNewNodes(s).Ok? ==>
              && Consistent(r) && SameGoal(s, r) && r.sync == s.sync + s.active
              && (r.voters == r.sync || (r.voters == {} && r.numsync == Min(s.wanted, |r.sync|)))
              && (Joining(s) == {} ==> r == s)
              && (Joining(s) != {} && !Short(s) ==> AdditionResult(s, r))
              && (Joining(s) != {} && Short(s) ==>
                    && r.voters == r.sync && r.numsync == s.numsync + |Joining(s)|
                    && r.quorum == |r.sync| - Reach(s) + Max(r.numsync - s.confirmed, 0))
  {
    var joining := Joining(s);
    SplitBy(s.active, s.sync);
    assert s.sync + joining == s.sync + s.active;
    assert joining == {} ==> AddNewNodes(s) == Ok(s) && s.sync + s.active == s.sync;
    hide AddNewNodes;
    if joining != {} {
      if s.sync == {} {
        AddFirst(s, joining);
      } else if Reach(s) <= s.numsync {
        AddToEnough(s, joining);
      } else if Short(s) {
        AddShort(s, joining);
      } else {
        AddReaches(s, joining);
      }
    }
  }

  // ---------- changing the replication factor ----------

  /** The quorum is raised too far for the first test and not far enough for the smaller numsync. */
  predicate FactorFails(s: State) {
    var w := Min(s.wanted, |s.sync|);
    w < s.numsync && s.quorum + s.numsync - w >= |s.voters| && s.quorum + w < |s.voters|
  }

  /** The quorum of `n` voters once the factor has been applied. */
  function FactorQuorum(n: int, quorum: int, numsync: int, wanted: int, confirmed: int): int {
    var w := Min(wanted, n);
    if w == numsync then quorum
    else if w > numsync then n - w + Max(w - confirmed, 0)
    else if quorum + numsync - w >= n then quorum
    else n - w + (if wanted > confirmed then Max(numsync - confirmed, 0) else 0)
  }

  /** Applying the replication factor raises exactly when the quorum falls between two stools. */
  lemma FactorChangeExact(s: State)
    requires Steady(s) && s.wanted >= 1
    ensures HandleReplicationFactorChange(s).Ok? <==> !FactorFails(s)
    ensures var r, w := HandleReplicationFactorChange(s).state, Min(s.wanted, |s.sync|);
            HandleReplicationFactorChange(s).Ok? ==>
              && Steady(r) && SameGoal(s, r) && r.sync == s.sync && r.numsync == w
              && (w == s.numsync ==> r == s)
              && r.quorum == FactorQuorum(|s.sync|, s.quorum, s.numsync, s.wanted, s.confirmed)
  {
    hide QuorumUpdate, SyncUpdate;
    var w := Min(s.wanted, |s.sync|);
    SyncUpdateExact(s, w, s.sync);
    if w > s.numsync {
      QuorumUpdateExact(SyncUpdate(s, w, s.sync).state, |s.voters| - w, s.voters, true);
    } else if w < s.numsync {
      QuorumUpdateExact(s, |s.voters| - w, s.voters, s.wanted > s.confirmed);
      SyncUpdateExact(QuorumUpdate(s, |s.voters| - w, s.voters, None, s.wanted > s.confirmed).state, w, s.sync);
    }
  }

  // ---------- a quorum that no number of voters can reach ----------

  /**
   Adding nodes raises the quorum by all required nodes that are not confirmed, also by those that the factor no longer
   requires. It exceeds the number of voters exactly if the old factor exceeds the new one and the confirmed nodes
   together, or if the number of confirmed nodes is negative, as it may be when it is computed from such a quorum.
   */
  lemma AddOvershootsExact(s: State)
    requires Steady(s) && s.wanted >= 1 && s.sync != {} && Joining(s) != {} && AddNewNodes(s).Ok?
    ensures var r, w := AddNewNodes(s).state, Reach(s);
            r.quorum > |r.voters| <==>
              && s.confirmed < w
              && if Short(s) then w + s.confirmed < s.numsync + |Joining(s)|
                 else s.confirmed < 0 || w + s.confirmed < s.numsync
  {
    hide AddNewNodes;
    AddNewNodesExact(s);
  }

  /** Applying the factor keeps an excess, or raises the quorum for all unconfirmed nodes of the old factor. */
  predicate FactorOvershoots(s: State) {
    var n, w := |s.sync|, Min(s.wanted, |s.sync|);
    if w > s.numsync then s.confirmed < 0
    else if w == s.numsync || s.quorum + s.numsync - w >= n then s.quorum > n
    else s.confirmed < s.wanted && s.confirmed + w < s.numsync
  }

  lemma FactorOvershootsExact(s: State)
    requires Steady(s) && s.wanted >= 1 && HandleReplicationFactorChange(s).Ok?
    ensures var r := HandleReplicationFactorChange(s).state; r.quorum > |r.voters| <==> FactorOvershoots(s)
  {
    hide HandleReplicationFactorChange;
    FactorChangeExact(s);
  }

  /** A factor of zero or less is refused, unless it is zero and the quorum already asks for all voters. */
  lemma NoFactorExact(s: State)
    requires Steady(s) && s.sync != {} && s.wanted <= 0
    ensures HandleReplicationFactorChange(s).Ok? <==> s.wanted == 0 && s.quorum >= |s.sync|
  {
    SyncUpdateExact(s, s.wanted, s.sync);
    hide SyncUpdate, QuorumUpdate;
    assert |s.sync| > 0;
  }
}
