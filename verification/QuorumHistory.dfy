/**
 Commits acknowledged in the past. The registers alone say nothing about them: when the number of required
 standbys grows, nodes that were not needed for an old commit become enough to elect a leader. The resolver
 counts only confirmed nodes for that, and raises the quorum by the number of unconfirmed ones.
 */
module QuorumHistory {
  import opened Names
  import opened Options
  import opened QuorumResolver
  import opened QuorumPhases
  import opened QuorumConvergence
  import opened QuorumPass
  import opened QuorumSafety
  import opened LeaderRace

  /** Counting no more than the confirmed nodes, the quorum still meets every acknowledging set. */
  predicate Covered(r: Registers, confirmed: int) {
    r.quorum + Min(r.numsync, confirmed) >= |r.voters|
  }

  /**
   The registers after `k` transitions: the `/sync` key keeps its leader, all standbys stay listed, and a new key leaves
   no listed standby without a vote.
   */
  ghost predicate CoveredAt(init: Registers, ts: seq<Transition>, confirmed: int, k: nat)
    requires k <= |ts|
  {
    var r := Replay(init, ts[..k]);
    && Covered(r, confirmed) && r.leader == init.leader && init.sync <= r.sync
    && (k > 0 && ts[k - 1].Quorum? ==> r.sync <= r.voters)
  }

  ghost predicate AllCovered(init: Registers, ts: seq<Transition>, confirmed: int) {
    forall k | 0 <= k <= |ts| :: CoveredAt(init, ts, confirmed, k)
  }

  ghost predicate Covers(init: Registers, s: State) {
    && Replay(init, s.trace) == Of(s) && s.leader == init.leader && init.sync <= s.sync
    && AllCovered(init, s.trace, s.confirmed)
  }

  lemma AllCoveredSnoc(init: Registers, ts: seq<Transition>, t: Transition, confirmed: int)
    requires AllCovered(init, ts, confirmed)
    requires var r := Apply(Replay(init, ts), t);
             && Covered(r, confirmed) && r.leader == init.leader && init.sync <= r.sync
             && (t.Quorum? ==> r.sync <= r.voters)
    ensures Replay(init, ts + [t]) == Apply(Replay(init, ts), t)
    ensures AllCovered(init, ts + [t], confirmed)
  {
    var us := ts + [t];
    assert us[..|ts|] == ts && us[..|us|] == us;
    hide Covered;
    forall k | 0 <= k <= |us|
      ensures CoveredAt(init, us, confirmed, k)
    {
      if k < |us| {
        assert us[..k] == ts[..k] && CoveredAt(init, ts, confirmed, k);
      }
    }
  }

  lemma QuorumUpdateCovers(init: Registers, s: State, quorum: int, voters: set<Node>, adjust: bool)
    requires Covers(init, s) && s.confirmed != 0 && voters != {}
    requires var r := QuorumUpdate(s, quorum, voters, None, adjust);
             r.Ok? && Covered(Of(r.state), s.confirmed) && r.state.sync <= r.state.voters
    ensures Covers(init, QuorumUpdate(s, quorum, voters, None, adjust).state)
  {
    hide State.Safe, AllCovered, Covered, Replay;
    var r := QuorumUpdate(s, quorum, voters, None, adjust).state;
    if r != s {
      AllCoveredSnoc(init, s.trace, Quorum(r.leader, r.quorum, r.voters), s.confirmed);
    }
  }

  lemma SyncUpdateCovers(init: Registers, s: State, numsync: int, sync: set<Node>)
    requires Covers(init, s) && s.sync <= sync
    requires var r := SyncUpdate(s, numsync, sync); r.Ok? && Covered(Of(r.state), s.confirmed)
    ensures Covers(init, SyncUpdate(s, numsync, sync).state)
  {
    hide State.Safe, AllCovered, Covered, Replay;
    AllCoveredSnoc(init, s.trace, Sync(s.leader, numsync, sync), s.confirmed);
  }

  // ---------- unconfirmed standbys never weaken the quorum ----------

  predicate Guarded(s: State) {
    Steady(s) && s.sync != {} && s.sync <= s.active && s.wanted >= 1 && s.confirmed >= 1 && Covered(Of(s), s.confirmed)
  }

  /** The quorum for which the margin is settled. */
  lemma ResettleCovers(init: Registers, s: State)
    requires Guarded(s) && Covers(init, s)
    ensures var r := QuorumUpdate(s, |s.sync| - s.numsync, s.voters, None, true);
            r.Ok? && Covers(init, r.state) && Guarded(r.state)
  {
    QuorumUpdateExact(s, |s.sync| - s.numsync, s.voters, true);
    hide Covers, QuorumUpdate;
    QuorumUpdateCovers(init, s, |s.sync| - s.numsync, s.voters, true);
  }

  lemma LowerNumsyncCovers(init: Registers, s: State, numsync: int)
    requires Guarded(s) && Covers(init, s) && 1 <= numsync <= s.numsync && s.quorum + numsync >= |s.sync|
    ensures var r := SyncUpdate(s, numsync, s.sync);
            r.Ok? && Covers(init, r.state) && Guarded(r.state)
  {
    SyncUpdateExact(s, numsync, s.sync);
    hide Covers, SyncUpdate;
    SyncUpdateCovers(init, s, numsync, s.sync);
  }

  lemma SettleMarginCovers(init: Registers, s: State)
    requires Guarded(s) && Covers(init, s)
    ensures SettleMargin(s).Ok? && Covers(init, SettleMargin(s).state) && Guarded(SettleMargin(s).state)
  {
    hide Covers, QuorumUpdate, SyncUpdate, Guarded, SettleMargin;
    SettleMarginCases(s);
    if SettleMargin(s) == QuorumUpdate(s, |s.sync| - s.numsync, s.voters, None, true) {
      ResettleCovers(init, s);
    } else if SettleMargin(s) != Ok(s) {
      LowerNumsyncCovers(init, s, Max(s.wanted, |s.sync| - s.quorum));
    }
  }

  lemma SettleMarginCases(s: State)
    requires Guarded(s)
    ensures
      || SettleMargin(s) == Ok(s)
      || SettleMargin(s) == QuorumUpdate(s, |s.sync| - s.numsync, s.voters, None, true)
      || var numsync := Max(s.wanted, |s.sync| - s.quorum);
         && SettleMargin(s) == SyncUpdate(s, numsync, s.sync)
         && 1 <= numsync <= s.numsync && s.quorum + numsync >= |s.sync|
  {
    hide QuorumUpdate, SyncUpdate;
  }

  /** The nodes that bring numsync to the factor in reach. */
  lemma JoinChosenCovers(init: Registers, s: State, add: set<Node>, wanted: int)
    requires Guarded(s) && Covers(init, s)
    requires add != {} && add !! s.sync && add <= s.active && s.numsync + |add| == wanted
    ensures var r := JoinChosen(s, add, wanted);
            r.Ok? && Covers(init, r.state) && Guarded(r.state) && r.state.sync == s.sync + add
            && r.state.numsync == wanted && SameGoal(s, r.state)
  {
    hide Covers, QuorumUpdate, SyncUpdate;
    var v := s.sync + add;
    DisjointUnionSize(s.sync, add);
    JoinChosenExact(s, add, wanted);
    SyncUpdateExact(s, wanted, v);
    SyncUpdateCovers(init, s, wanted, v);
    var s1 := SyncUpdate(s, wanted, v).state;
    assert s1.voters + add == v;
    QuorumUpdateExact(s1, |v| - wanted, v, true);
    QuorumUpdateCovers(init, s1, |v| - wanted, v, true);
  }

  lemma AddTheRestCovers(init: Registers, s: State, rest: set<Node>, wanted: int)
    requires Guarded(s) && Covers(init, s)
    requires rest != {} && rest !! s.sync && rest <= s.active && 1 <= wanted <= s.numsync
    ensures var r := AddTheRest(s, rest, wanted);
            r.Ok? && Covers(init, r.state) && Guarded(r.state) && r.state.sync == s.sync + rest && SameGoal(s, r.state)
  {
    hide Covers, QuorumUpdate, SyncUpdate;
    var v := s.voters + rest;
    DisjointUnionSize(s.sync, rest);
    AddTheRestTotal(s, rest, wanted);
    QuorumUpdateExact(s, |v| - wanted, v, wanted > s.confirmed);
    QuorumUpdateCovers(init, s, |v| - wanted, v, wanted > s.confirmed);
    var s1 := QuorumUpdate(s, |v| - wanted, v, None, wanted > s.confirmed).state;
    SyncUpdateExact(s1, wanted, v);
    SyncUpdateCovers(init, s1, wanted, v);
  }

  lemma AddReachesCovers(init: Registers, s: State, joining: set<Node>)
    requires Guarded(s) && Covers(init, s)
    requires joining == Joining(s) != {} && s.numsync < Reach(s) <= s.numsync + |joining|
    ensures var r := AddNewNodes(s); r.Ok? && Covers(init, r.state) && Guarded(r.state)
  {
    hide Covers, JoinChosen, AddTheRest;
    var w := Reach(s);
    var add := NodesToReach(s, joining, w);
    assert |add| == w - s.numsync && add <= joining;
    hide NodesToReach;
    JoinChosenCovers(init, s, add, w);
    var s1 := JoinChosen(s, add, w).state;
    var rest := joining - s1.sync;
    hide Guarded;
    if rest != {} {
      AddTheRestCovers(init, s1, rest, w);
    }
  }

  lemma AddNewNodesCovers(init: Registers, s: State)
    requires Guarded(s) && Covers(init, s) && (Joining(s) == {} || !Short(s))
    ensures var r := AddNewNodes(s);
            r.Ok? && Covers(init, r.state) && Guarded(r.state) && SameGoal(s, r.state)
  {
    hide Covers, AddTheRest;
    AddNewNodesExact(s);
    var joining := Joining(s);
    if joining != {} {
      if s.numsync < Reach(s) {
        AddReachesCovers(init, s, joining);
      } else {
        AddTheRestCovers(init, s, joining, Reach(s));
      }
    }
  }

  lemma FactorChangeCovers(init: Registers, s: State)
    requires Guarded(s) && Covers(init, s) && HandleReplicationFactorChange(s).Ok?
    ensures Covers(init, HandleReplicationFactorChange(s).state)
    ensures HandleReplicationFactorChange(s).state.confirmed == s.confirmed
  {
    hide Covers, QuorumUpdate, SyncUpdate;
    FactorChangeExact(s);
    var w := Min(s.wanted, |s.sync|);
    SyncUpdateExact(s, w, s.sync);
    if w > s.numsync {
      SyncUpdateCovers(init, s, w, s.sync);
      ResettleCovers(init, SyncUpdate(s, w, s.sync).state);
    } else if w < s.numsync {
      if s.quorum + s.numsync - w < |s.sync| {
        var adjust := s.wanted > s.confirmed;
        QuorumUpdateExact(s, |s.voters| - w, s.voters, adjust);
        QuorumUpdateCovers(init, s, |s.voters| - w, s.voters, adjust);
        LowerNumsyncCovers(init, QuorumUpdate(s, |s.voters| - w, s.voters, None, adjust).state, w);
      } else {
        LowerNumsyncCovers(init, s, w);
      }
    }
  }

  /**
   Unconfirmed standbys never weaken the quorum: with all listed standbys connected and new ones not too few,
   every transition keeps the quorum covered by confirmed nodes.
   */
  lemma UnconfirmedNeverWeaken(s: State)
    requires Guarded(s) && s.trace == [] && (s.active == s.sync || !Short(s))
    requires Reconcile(s).Ok?
    ensures AllCovered(Of(s), Reconcile(s).state.trace, s.confirmed)
  {
    var init := Of(s);
    CoversAtStart(s);
    assert AssumeConfirmed(s) == s;
    SettledStaysLong(s);
    var s1 := SettleMargin(s).state;
    hide Covers, Guarded, Short, SettleMargin, RemoveGoneNodes, AddNewNodes, HandleReplicationFactorChange;
    SettleMarginCovers(init, s);
    AddNewNodesCovers(init, s1);
    FactorChangeCovers(init, AddNewNodes(s1).state);
    assert HandleNonSteadyCases(s) == SettleMargin(s);
    hide HandleNonSteadyCases;
    assert Reconcile(s) == HandleReplicationFactorChange(AddNewNodes(s1).state);
    CoversIsCovered(init, Reconcile(s).state);
  }

  lemma CoversAtStart(s: State)
    requires Guarded(s) && s.trace == []
    ensures Covers(Of(s), s)
  {
    assert forall k | 0 <= k <= |s.trace| :: s.trace[..k] == [];
  }

  lemma CoversIsCovered(init: Registers, s: State)
    requires Covers(init, s)
    ensures AllCovered(init, s.trace, s.confirmed)
  {}

  /** Settling the margin leaves the nodes alone, and new nodes that are not too few. */
  lemma SettledStaysLong(s: State)
    requires Guarded(s) && (s.active == s.sync || !Short(s))
    ensures SettleMargin(s).Ok?
    ensures var r := SettleMargin(s).state;
      r.confirmed == s.confirmed && RemoveGoneNodes(r) == Ok(r) && (Joining(r) == {} || !Short(r))
  {
    hide SettleMargin, RemoveGoneNodes;
    SettleMarginTotal(s);
    RemoveGoneNodesTotal(SettleMargin(s).state);
    SplitBy(s.active, s.sync);
  }

  /** Merging transitions keeps that. */
  lemma MergeKeepsCovered(init: Registers, ts: seq<Transition>, confirmed: int)
    requires AllCovered(init, ts, confirmed)
    ensures AllCovered(init, Merge(ts), confirmed)
  {
    var m := Merge(ts);
    hide Covered, Merge, Origin;
    forall k | 0 <= k <= |m|
      ensures CoveredAt(init, m, confirmed, k)
    {
      if k == 0 {
        assert m[..0] == ts[..0] && CoveredAt(init, ts, confirmed, 0);
      } else {
        MergeSelects(ts, k - 1);
        MergeExposes(init, ts, k - 1);
        assert CoveredAt(init, ts, confirmed, Origin(ts, k - 1) + 1);
      }
    }
  }

  /** Registers that require more standbys than are listed behave like those that require all of them. */
  lemma {:induction false} UnclampedCovered(r: Registers, ts: seq<Transition>, confirmed: int, k: nat)
    requires k <= |ts| && CoveredAt(r.Clamped(), ts, confirmed, k)
    ensures CoveredAt(r, ts, confirmed, k)
  {
    ReplayUnclamped(r, ts[..k]);
  }

  lemma {:induction false} ReplayUnclamped(r: Registers, ts: seq<Transition>)
    ensures var a, b := Replay(r, ts), Replay(r.Clamped(), ts); b == a.(numsync := b.numsync) && b.numsync <= a.numsync
    decreases |ts|
  {
    if ts != [] { ReplayUnclamped(r, ts[..|ts| - 1]); }
  }

  /**
   Unconfirmed standbys never weaken the quorum, as the caller sees it: every prefix of the yielded transitions keeps
   the quorum covered by confirmed nodes.
   */
  lemma PassIsCovered(r: Registers, confirmed: int, active: set<Node>, wanted: int, me: Node)
    requires var s := Observe(r, confirmed, active, wanted, me); Guarded(s) && (s.active == s.sync || !Short(s))
    ensures var ts := Transitions(Observe(r, confirmed, active, wanted, me));
            ts.Some? ==> AllCovered(r, ts.value, confirmed)
  {
    var s := Observe(r, confirmed, active, wanted, me);
    RaisedAsReconciled(s);
    hide Reconcile, Guarded, Short, Covered, GenerateTransitions;
    if Reconcile(s).Ok? {
      UnconfirmedNeverWeaken(s);
      var ts := Reconcile(s).state.trace;
      MergeKeepsCovered(Of(s), ts, confirmed);
      forall k | 0 <= k <= |Merge(ts)|
        ensures CoveredAt(r, Merge(ts), confirmed, k)
      {
        assert CoveredAt(Of(s), Merge(ts), confirmed, k);
        UnclampedCovered(r, Merge(ts), confirmed, k);
      }
    }
  }

  /**
   After a restart of the primary, with nobody known to be confirmed: every prefix of the yielded transitions keeps the
   quorum covered by the nodes assumed to be confirmed, and no key counts more old standbys than there are active ones.
   */
  lemma PassIsCoveredAfterRestart(r: Registers, active: set<Node>, wanted: int, me: Node, k: nat)
    requires var c := Min(|r.sync * active|, |r.voters| - r.quorum);
             var s := Observe(r, c, active, wanted, me);
             r.Good(me) && Guarded(s) && (s.active == s.sync || !Short(s))
    requires var o := Transitions(Observe(r, 0, active, wanted, me)); o.Some? && k <= |o.value|
    ensures var ts := Transitions(Observe(r, 0, active, wanted, me)).value;
            var q := Replay(r, ts[..k]);
            && q.quorum + Min(q.numsync, Min(|r.sync * active|, |r.voters| - r.quorum)) >= |q.voters|
            && |q.voters| - q.quorum <= |r.sync * active|
  {
    var c := Min(|r.sync * active|, |r.voters| - r.quorum);
    assert r.sync * active != {};
    ConfirmedIsAssumed(r, active, wanted, me);
    PassIsCovered(r, c, active, wanted, me);
    var ts := Transitions(Observe(r, 0, active, wanted, me)).value;
    hide Transitions, Guarded, Short, Registers.Good;
    assert CoveredAt(r, ts, c, k);
  }

  /** New nodes that are too few for the factor in reach do weaken the quorum, if the run gets that far. */
  lemma ShortWeakens(s: State)
    requires Guarded(s) && Joining(s) != {} && Short(s) && AddNewNodes(s).Ok?
    ensures !Covered(Of(AddNewNodes(s).state), s.confirmed)
  {
    hide AddNewNodes;
    AddNewNodesExact(s);
  }

  // ---------- what that means for a commit acknowledged earlier ----------

  /** Enough voters hold the commit for every quorum to include one of them, the former leader aside. */
  predicate Durable(r: Registers, holders: set<Node>) {
    |holders * r.voters| >= |r.voters| - r.quorum
  }

  /** A commit is durable when it is acknowledged. */
  lemma AcknowledgedIsDurable(r: Registers, acks: set<Node>, holders: set<Node>)
    requires r.Good(r.leader) && acks <= r.sync && |acks| >= r.Factor() && acks <= holders
    ensures Durable(r, holders)
  {
    if r.voters != {} {
      assert r.Electorate() + r.Acknowledgers(r.leader) == r.voters + r.sync + {r.leader};
      UnionSize(r.voters, r.sync);
      SplitBy(acks, r.voters);
      SubsetSize(acks - r.voters, r.sync - r.voters);
      SubsetSize(acks * r.voters, holders * r.voters);
    }
  }

  /** A covered `/sync` key keeps a commit durable that as many standbys hold as are counted. */
  lemma CoveredIsDurable(r: Registers, confirmed: int, holders: set<Node>)
    requires Covered(r, confirmed) && r.sync <= r.voters && |holders * r.sync| >= Min(r.numsync, confirmed)
    ensures Durable(r, holders)
  {
    SubsetSize(holders * r.sync, holders * r.voters);
  }

  /**
   A commit that is durable before a pass stays durable after each of its transitions, if at every write of
   the `/sync` key as many listed standbys hold it as the resolver counts as confirmed. `holders[k]` are the
   nodes that hold it after `k` transitions.
   */
  lemma {:induction false} CommitSurvivesPass(init: Registers, ts: seq<Transition>, confirmed: int,
                                              holders: seq<set<Node>>, k: nat)
    requires AllCovered(init, ts, confirmed) && k <= |ts| && |holders| == |ts| + 1
    requires forall i | 0 <= i < |ts| :: holders[i] <= holders[i + 1]
    requires Durable(init, holders[0])
    requires forall i | 0 < i <= |ts| && ts[i - 1].Quorum? ::
               var r := Replay(init, ts[..i]); |holders[i] * r.sync| >= Min(r.numsync, confirmed)
    ensures Durable(Replay(init, ts[..k]), holders[k])
  {
    if k > 0 {
      CommitSurvivesPass(init, ts, confirmed, holders, k - 1);
      var before, after := Replay(init, ts[..k - 1]), Replay(init, ts[..k]);
      assert ts[..k][..k - 1] == ts[..k - 1];
      assert after == Apply(before, ts[k - 1]);
      assert CoveredAt(init, ts, confirmed, k);
      if ts[k - 1].Quorum? {
        CoveredIsDurable(after, confirmed, holders[k]);
      } else {
        SubsetSize(holders[k - 1] * before.voters, holders[k] * before.voters);
      }
    }
  }

  /** Whoever wins the race by votes holds every durable commit. */
  lemma WinnerHoldsDurableCommit(race: Race, statuses: seq<Status>, holders: set<Node>, lsn: int)
    requires race.quorumMode && race.key.leader !in race.key.voters && Durable(race.key, holders)
    requires |race.VotersFor(statuses)| > race.Quorum()
    requires Truthful(race, statuses, holders + {race.key.leader}, lsn)
    ensures race.position >= lsn
  {
    var voters := race.VotersFor(statuses);
    forall z | z in voters ensures z in race.VotingSet() { VoterReports(race, statuses, z); }
    var all := holders * race.key.voters + {race.key.leader};
    assert |all| == |holders * race.key.voters| + 1 && |race.key.Electorate()| == |race.key.voters| + 1;
    var z := Pigeonhole(voters, all, race.key.Electorate());
    VoterIsNotAhead(race, statuses, holders + {race.key.leader}, lsn, z);
  }

  /**
   From the acknowledgement to the election: a commit acknowledged when a pass begins is held by whoever wins by votes
   after any number of its transitions, if at every write of the key as many listed standbys hold the commit as are
   counted as confirmed.
   */
  lemma AcknowledgedSurvivesPass(
      r: Registers, confirmed: int, active: set<Node>, wanted: int, ts: seq<Transition>, acks: set<Node>, lsn: int,
      holders: seq<set<Node>>, k: nat, race: Race, statuses: seq<Status>)
    requires r.Good(r.leader) && r.leader !in active && Acknowledged(r, acks, lsn)
    requires var s := Observe(r, confirmed, active, wanted, r.leader);
             Guarded(s) && (s.active == s.sync || !Short(s)) && Transitions(s) == Some(ts)
    requires |holders| == |ts| + 1 && k <= |ts| && acks <= holders[0]
    requires forall i | 0 <= i < |ts| :: holders[i] <= holders[i + 1]
    requires forall i | 0 < i <= |ts| && ts[i - 1].Quorum? ::
               var q := Replay(r, ts[..i]); |holders[i] * q.sync| >= Min(q.numsync, confirmed)
    requires race.key == Replay(r, ts[..k]) && race.quorumMode && |race.VotersFor(statuses)| > race.Quorum()
    requires Truthful(race, statuses, holders[k] + {r.leader}, lsn)
    ensures race.position >= lsn
  {
    PassIsSafe(r, confirmed, active, wanted, r.leader);
    PassIsCovered(r, confirmed, active, wanted, r.leader);
    AcknowledgedIsDurable(r, acks, holders[0]);
    hide Transitions, Guarded, Short;
    CommitSurvivesPass(r, ts, confirmed, holders, k);
    assert GoodAfter(r, ts, r.leader, k) && CoveredAt(r, ts, confirmed, k);
    WinnerHoldsDurableCommit(race, statuses, holders[k], lsn);
  }

  // ---------- exactly when a commit stays durable ----------

  /** The pass leaves a key without voters, which elects nobody but the leader that holds all commits. */
  predicate LeavesKeyEmpty(s: State) {
    var m := Recovered(s);
    AwaitsConfirmation(s) || (m.confirmed == 0 && m.sync * m.active == {} && !(m.active <= m.sync))
  }

  /**
   A commit is durable after a pass exactly if enough of the active nodes hold it for the quorum the pass ends with, or
   if the key has no voters; whether it was durable before does not matter.
   */
  lemma PassDurableExact(s: State, holders: set<Node>)
    requires Consistent(s) && s.wanted >= 1 && s.trace == [] && Transitions(s).Some?
    ensures Durable(Replay(Of(s), Transitions(s).value), holders) <==>
            LeavesKeyEmpty(s) || |holders * s.active| >= |s.active| - ChangedQuorum(Recovered(s))
  {
    PassExact(s);
    RaisedAsReconciled(s);
    ReconcileExact(s);
    RecoveredKeepsActive(s);
    hide Transitions, Reconcile, GenerateTransitions, ChangedQuorum, Recovered, PassFails;
    assert holders * {} == {};
  }

  lemma RecoveredKeepsActive(s: State)
    ensures Recovered(s).active == s.active
  {
    MatchedKeepsGoal(AssumeConfirmed(s));
    MatchedKeepsGoal(Matched(AssumeConfirmed(s)));
    hide Matched, Settled;
  }

  /** The standby that holds a commit goes away, and the other one wins the race on its own. */
  lemma RemovalWitness(a: Node, b: Node, l: Node)
    requires a != b && a != l && b != l
    ensures var s := State(l, 1, {a, b}, 1, {a, b}, 1, {b}, 1, l, []);
            && Tight(s) && Transitions(s).Some?
            && var after := Replay(Of(s), Transitions(s).value);
               var race := Race(b, 10, true, true, after);
               && after == Registers(l, 0, {b}, 1, {b})
               && Durable(Of(s), {a}) && !Durable(after, {a})
               && race.Wins([]) && Truthful(race, [], {a, l}, 20) && race.position < 20
  {
    var ab := {a, b};
    var s := State(l, 1, ab, 1, ab, 1, {b}, 1, l, []);
    assert |ab| == 2 && {a} * ab == {a} && |{a}| == 1 && |{b}| == 1 && {a} * {b} == {};
    PassConverges(s);
    hide Transitions;
    var race := Race(b, 10, true, true, Registers(l, 0, {b}, 1, {b}));
    assert race.VotersFor([]) == {b};
  }

  // ---------- the factor is raised ----------

  lemma RaisedFactorUpdates(s: State, w: int)
    requires Steady(s) && s.quorum == |s.sync| - s.numsync && s.numsync < w <= |s.sync| && w <= s.confirmed
    ensures var s1 := s.(numsync := w).Yield(Sync(s.leader, w, s.sync));
            && SyncUpdate(s, w, s.sync) == Ok(s1)
            && QuorumUpdate(s1, |s.voters| - w, s.voters, None, true) ==
                 Ok(s1.(quorum := |s.sync| - w).Yield(Quorum(s.leader, |s.sync| - w, s.sync)))
  {
    var s1 := s.(numsync := w).Yield(Sync(s.leader, w, s.sync));
    SafeIsBalanced(s.(numsync := w));
    SafeIsBalanced(s1.(quorum := |s.sync| - w));
    assert s1.(quorum := |s.sync| - w) == s1.(leader := s.leader, quorum := |s.sync| - w, voters := s.voters);
    hide State.Safe, Balanced;
  }

  /** The whole pass when the factor is raised to `w`, all nodes are connected and enough are confirmed. */
  lemma RaisedFactor(s: State, w: int)
    requires Tight(s) && s.wanted >= 1 && s.active == s.sync && w == Min(s.wanted, |s.sync|)
    requires s.numsync < w <= s.confirmed
    ensures var trace := s.trace + [Sync(s.leader, w, s.sync)] + [Quorum(s.leader, |s.sync| - w, s.sync)];
            Reconcile(s) == Ok(s.(numsync := w, quorum := |s.sync| - w, trace := trace))
  {
    TightIsSettled(s);
    hide HandleNonSteadyCases, RemoveGoneNodes, AddNewNodes, SyncUpdate, QuorumUpdate;
    RemoveGoneNodesTotal(s);
    SplitBy(s.active, s.sync);
    AddNewNodesExact(s);
    RaisedFactorUpdates(s, w);
  }

  /**
   The condition on confirmed nodes is needed: the pass that raises the factor lowers the quorum right away,
   and a commit stays durable exactly if the new number of standbys holds it at that moment. Before, one
   that the old number of standbys holds is durable.
   */
  lemma RaisedFactorDurable(s: State, w: int, holders: set<Node>)
    requires Tight(s) && s.wanted >= 1 && s.active == s.sync && w == Min(s.wanted, |s.sync|)
    requires s.numsync < w <= s.confirmed && s.trace == []
    ensures var after := Replay(Of(s), Reconcile(s).state.trace);
            && (Durable(Of(s), holders) <==> |holders * s.sync| >= s.numsync)
            && (Durable(after, holders) <==> |holders * s.sync| >= w)
  {
    RaisedFactor(s, w);
    var trace := [Sync(s.leader, w, s.sync), Quorum(s.leader, |s.sync| - w, s.sync)];
    assert s.trace + [trace[0]] + [trace[1]] == trace;
    hide Reconcile;
    assert trace[..1] == [trace[0]] && trace[..1][..0] == [];
  }

  /** A node that missed such a commit wins the race on its own. */
  lemma StaleConfirmationWitness(a: Node, b: Node, l: Node)
    requires a != b && a != l && b != l
    ensures var s := State(l, 1, {a, b}, 1, {a, b}, 2, {a, b}, 2, l, []);
            var after := Replay(Of(s), Reconcile(s).state.trace);
            var race := Race(b, 10, true, true, after);
            && Tight(s) && Durable(Of(s), {a}) && !Durable(after, {a})
            && race.Wins([]) && Truthful(race, [], {a, l}, 20) && race.position < 20
  {
    var ab := {a, b};
    assert |ab| == 2 && {a} * ab == {a} && |{a}| == 1;
    var s := State(l, 1, ab, 1, ab, 2, ab, 2, l, []);
    RaisedFactorDurable(s, 2, {a});
    RaisedFactor(s, 2);
    var trace := [Sync(l, 2, ab), Quorum(l, 0, ab)];
    assert [] + [trace[0]] + [trace[1]] == trace;
    hide Reconcile, Durable;
    assert trace[..1] == [trace[0]] && trace[..1][..0] == [];
    var race := Race(b, 10, true, true, Registers(l, 0, ab, 2, ab));
    assert race.VotersFor([]) == {b} && |{b}| == 1;
  }
}
