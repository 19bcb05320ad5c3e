/**
 A whole pass as its caller sees it: the registers after the merged transitions, computed from the registers and the
 observations at its start.
 */
module QuorumPass {
  import opened Names
  import opened Options
  import opened QuorumResolver
  import opened QuorumSafety
  import opened QuorumPhases
  import opened QuorumConvergence

  /** The transitions yielded so far lead from `init` to the resolver's own registers, and none of them is a restart. */
  ghost predicate Leads(init: Registers, s: State) {
    Replay(init, s.trace) == Of(s) && forall i | 0 <= i < |s.trace| :: !s.trace[i].Restart?
  }

  lemma ReplaySnoc(init: Registers, ts: seq<Transition>, t: Transition)
    ensures Replay(init, ts + [t]) == Apply(Replay(init, ts), t)
  {
    assert (ts + [t])[..|ts|] == ts;
  }

  lemma SyncLeads(init: Registers, s: State, numsync: int, sync: set<Node>)
    requires Leads(init, s)
    ensures var r := SyncUpdate(s, numsync, sync);
      r.Ok? ==> Leads(init, r.state) && r.state.confirmed == s.confirmed && r.state.voters == s.voters
  {
    hide State.Safe;
    ReplaySnoc(init, s.trace, Sync(s.leader, numsync, sync));
  }

  /** The update changes the key; only a key that stays empty asks for a restart. */
  predicate Moves(s: State, quorum: int, voters: set<Node>, adjust: bool) {
    s.voters != {} || AdjustedVoters(s, voters) != {} || AdjustedQuorum(s, quorum, adjust) != s.quorum
  }

  lemma QuorumLeads(init: Registers, s: State, quorum: int, voters: set<Node>, adjust: bool)
    requires Leads(init, s) && Moves(s, quorum, voters, adjust)
    ensures var r := QuorumUpdate(s, quorum, voters, None, adjust);
      r.Ok? ==> Leads(init, r.state) && r.state.confirmed == s.confirmed && r.state.voters == AdjustedVoters(s, voters)
  {
    var q, v := AdjustedQuorum(s, quorum, adjust), AdjustedVoters(s, voters);
    var t := Quorum(s.leader, q, v);
    assert
      var r := QuorumUpdate(s, quorum, voters, None, adjust);
      r.Ok? ==> r.state == s.(quorum := q, voters := v) || r.state == s.(quorum := q, voters := v).Yield(t)
    by {
      hide State.Safe;
    }
    hide QuorumUpdate, AdjustedQuorum, AdjustedVoters;
    ReplaySnoc(init, s.trace, t);
  }

  // ---------- the phases ----------

  lemma MatchSetsLeads(init: Registers, s: State)
    requires Leads(init, s) && (!Resets(s) || s.sync * s.active == {})
    ensures MatchSets(s).Ok? ==> Leads(init, MatchSets(s).state)
  {
    hide Leads, ShrinkVoters, GrowVoters;
    if s.sync < s.voters {
      ShrinkLeads(init, s);
    } else if s.voters < s.sync {
      GrowLeads(init, s);
    }
  }

  lemma ShrinkLeads(init: Registers, s: State)
    requires Leads(init, s) && s.sync < s.voters
    ensures ShrinkVoters(s).Ok? ==> Leads(init, ShrinkVoters(s).state)
  {
    hide Leads, QuorumUpdate, SyncUpdate;
    var gone := s.voters - (s.sync + s.active);
    QuorumLeads(init, s, |s.voters| - |gone| - s.numsync, s.voters - gone, s.sync - s.active == {});
    var s1 := EvictDead(s);
    if s1.Ok? {
      SyncLeads(init, s1.state, s1.state.numsync, s1.state.sync + (s1.state.voters * s1.state.active - s1.state.sync));
    }
  }

  lemma GrowLeads(init: Registers, s: State)
    requires Leads(init, s) && (!Resets(s) || s.sync * s.active == {})
    ensures GrowVoters(s).Ok? ==> Leads(init, GrowVoters(s).state)
  {
    hide Leads, DropDead, AdmitSynced, DropUnadmitted;
    DropDeadLeads(init, s);
    if DropDead(s).Ok? {
      var s1 := DropDead(s).state;
      AdmitSyncedLeads(init, s1);
      if AdmitSynced(s1).Ok? {
        DropUnadmittedLeads(init, AdmitSynced(s1).state);
      }
    }
  }

  lemma DropDeadLeads(init: Registers, s: State)
    requires Leads(init, s)
    ensures DropDead(s).Ok? ==> Leads(init, DropDead(s).state)
    ensures DropDead(s).Ok? ==> (Resets(DropDead(s).state) <==> Resets(s))
    ensures DropDead(s).Ok? && s.sync * s.active == {} ==> DropDead(s) == Ok(s)
  {
    hide Leads, SyncUpdate;
    var gone := s.sync - s.active;
    assert s.sync - gone == s.sync * s.active;
    SyncLeads(init, s, Min(s.numsync, |s.sync| - |gone|), s.sync - gone);
  }

  lemma AdmitSyncedLeads(init: Registers, s: State)
    requires Leads(init, s) && (!Resets(s) || s.sync * s.active == {})
    ensures AdmitSynced(s).Ok? ==> Leads(init, AdmitSynced(s).state)
  {
    hide Leads, QuorumUpdate;
    var add := (s.sync - s.voters) * s.active;
    assert add <= s.sync * s.active;
    if add != {} {
      QuorumLeads(init, s, |s.voters + add| - s.numsync, s.voters + add, true);
    }
  }

  lemma DropUnadmittedLeads(init: Registers, s: State)
    requires Leads(init, s)
    ensures DropUnadmitted(s).Ok? ==> Leads(init, DropUnadmitted(s).state)
  {
    hide Leads, SyncUpdate;
    var rest := s.sync - s.voters;
    SyncLeads(init, s, Min(s.numsync, |s.sync| - |rest|), s.sync - rest);
  }

  lemma SettleMarginLeads(init: Registers, s: State)
    requires Leads(init, s) && Steady(s) && s.wanted >= 1
    ensures SettleMargin(s).Ok? ==> Leads(init, SettleMargin(s).state)
  {
    hide Leads, QuorumUpdate, SyncUpdate;
    assert s.voters + s.sync == s.sync;
    SyncLeads(init, s, Max(s.wanted, |s.voters| - s.quorum), s.sync);
    if Moves(s, |s.sync| - s.numsync, s.voters, true) {
      QuorumLeads(init, s, |s.sync| - s.numsync, s.voters, true);
    }
  }

  lemma RemoveChosenLeads(init: Registers, s: State, gone: set<Node>, remove: set<Node>)
    requires Leads(init, s) && s.voters != {}
    ensures RemoveChosen(s, gone, remove).Ok? ==> Leads(init, RemoveChosen(s, gone, remove).state)
  {
    hide Leads, QuorumUpdate, SyncUpdate;
    var sync := s.sync - remove;
    var numsync := Min(if s.wanted > s.numsync then s.wanted else s.numsync, |sync|);
    var s1 := SyncUpdate(s, numsync, sync);
    SyncLeads(init, s, numsync, sync);
    if s1.Ok? {
      var voters := s.voters - remove;
      QuorumLeads(init, s1.state, |voters| - s1.state.numsync, voters, gone * s1.state.sync == {});
    }
  }

  lemma RemoveBeyondQuorumLeads(init: Registers, s: State, gone: set<Node>)
    requires Leads(init, s) && s.voters != {}
    ensures RemoveBeyondQuorum(s, gone).Ok? ==> Leads(init, RemoveBeyondQuorum(s, gone).state)
  {
    hide Leads, QuorumUpdate, SyncUpdate;
    var numsync := s.numsync - |gone|;
    var decrease := numsync - Min(s.wanted, |s.sync - gone|);
    var quorum := if decrease != 0 then Min(decrease, |s.voters - gone| - 1) else 0;
    QuorumLeads(init, s, quorum, s.voters - gone, false);
    var s1 := QuorumUpdate(s, quorum, s.voters - gone, None, false);
    if s1.Ok? { SyncLeads(init, s1.state, numsync, s.sync - gone); }
  }

  lemma RemoveLeads(init: Registers, s: State)
    requires Leads(init, s) && Steady(s) && s.wanted >= 1
    ensures RemoveGoneNodes(s).Ok? ==> Leads(init, RemoveGoneNodes(s).state)
  {
    hide Leads, QuorumUpdate, SyncUpdate, RemoveChosen, RemoveBeyondQuorum;
    var gone := s.sync - s.active;
    if gone == {} {
    } else if s.sync == gone {
      QuorumLeads(init, s, 0, {}, false);
      var s1 := QuorumUpdate(s, 0, {}, None, false);
      if s1.Ok? { SyncLeads(init, s1.state, 0, {}); }
    } else if s.quorum == 0 {
      RemoveBeyondQuorumLeads(init, s, gone);
    } else {
      var remove := Sorted(false, gone, s.quorum);
      RemoveChosenLeads(init, s, gone, remove);
      RemoveChosenTotal(s, gone, remove);
      var s1 := RemoveWithinQuorum(s, gone);
      if s1.Ok? && gone * s1.state.sync != {} {
        RemoveBeyondQuorumLeads(init, s1.state, gone * s1.state.sync);
      }
    }
  }

  lemma JoinChosenLeads(init: Registers, s: State, add: set<Node>, wanted: int)
    requires Leads(init, s) && !Resets(s) && add != {}
    ensures JoinChosen(s, add, wanted).Ok? ==>
      Leads(init, JoinChosen(s, add, wanted).state) && !Resets(JoinChosen(s, add, wanted).state)
  {
    hide Leads, SyncUpdate, QuorumUpdate;
    var numsync := if s.sync != {} then s.numsync + |add| else wanted;
    SyncLeads(init, s, numsync, s.sync + add);
    var s1 := SyncUpdate(s, numsync, s.sync + add);
    if s1.Ok? {
      QuorumLeads(init, s1.state, |s1.state.voters + add| - wanted, s1.state.voters + add, true);
    }
  }

  lemma AddTheRestLeads(init: Registers, s: State, rest: set<Node>, wanted: int)
    requires Leads(init, s) && !Resets(s) && rest != {}
    ensures AddTheRest(s, rest, wanted).Ok? ==> Leads(init, AddTheRest(s, rest, wanted).state)
  {
    hide Leads, QuorumUpdate, SyncUpdate;
    QuorumLeads(init, s, |s.voters + rest| - wanted, s.voters + rest, wanted > s.confirmed);
    var s1 := QuorumUpdate(s, |s.voters + rest| - wanted, s.voters + rest, None, wanted > s.confirmed);
    if s1.Ok? { SyncLeads(init, s1.state, wanted, s1.state.sync + rest); }
  }

  lemma AddLeads(init: Registers, s: State)
    requires Leads(init, s) && (!Resets(s) || Joining(s) == {})
    ensures AddNewNodes(s).Ok? ==> Leads(init, AddNewNodes(s).state)
  {
    hide Leads, JoinChosen, AddTheRest, NodesToReach;
    var joining := s.active - s.sync;
    if joining != {} {
      var wanted := Min(s.wanted, |s.sync + joining|);
      var add := NodesToReach(s, joining, wanted);
      if wanted > s.numsync {
        assert |add| > 0;
        JoinChosenLeads(init, s, add, wanted);
      }
      var o := if wanted > s.numsync then JoinChosen(s, add, wanted) else Ok(s);
      if o.Ok? {
        var rest := if wanted > s.numsync then joining - o.state.sync else joining;
        if rest != {} { AddTheRestLeads(init, o.state, rest, wanted); }
      }
    }
  }

  lemma FactorLeads(init: Registers, s: State)
    requires Leads(init, s) && Consistent(s) && s.wanted >= 1
    requires s.voters == s.sync || s.numsync == Min(s.wanted, |s.sync|)
    ensures HandleReplicationFactorChange(s).Ok? ==> Leads(init, HandleReplicationFactorChange(s).state)
  {
    hide Leads, QuorumUpdate, SyncUpdate;
    var increase := Min(s.wanted, |s.sync|) - s.numsync;
    if increase > 0 {
      SyncLeads(init, s, s.numsync + increase, s.sync);
      SyncUpdateExact(s, s.numsync + increase, s.sync);
      var s1 := SyncUpdate(s, s.numsync + increase, s.sync);
      if s1.Ok? { QuorumLeads(init, s1.state, |s1.state.voters| - s1.state.numsync, s1.state.voters, true); }
    } else if increase < 0 {
      var quorum := |s.voters| - s.numsync - increase;
      QuorumLeads(init, s, quorum, s.voters, s.wanted > s.confirmed);
      var o := if s.quorum - increase < |s.voters|
               then QuorumUpdate(s, quorum, s.voters, None, s.wanted > s.confirmed) else Ok(s);
      if o.Ok? { SyncLeads(init, o.state, o.state.numsync + increase, o.state.sync); }
    }
  }

  // ---------- restarts ----------

  /** The transitions up to the first restart lead to the resolver's registers: what comes after adds nothing. */
  ghost predicate Stops(init: Registers, s: State) {
    Replay(init, s.trace[..UntilRestart(s.trace)]) == Of(s)
  }

  lemma LeadsStops(init: Registers, s: State)
    requires Leads(init, s)
    ensures Stops(init, s)
  {
    assert UntilRestart(s.trace) == |s.trace| && s.trace[..|s.trace|] == s.trace;
  }

  lemma {:induction false} FirstRestart(ts: seq<Transition>, us: seq<Transition>)
    requires forall i | 0 <= i < |ts| :: !ts[i].Restart?
    requires us != [] && us[0].Restart?
    ensures UntilRestart(ts + us) == |ts|
  {
    var all := ts + us;
    assert all[|ts|] == us[0];
    assert forall i | 0 <= i < |ts| :: all[i] == ts[i];
  }

  /** A key that stays empty asks for a restart, and is written once more as it is. */
  lemma QuorumStops(init: Registers, s: State, quorum: int, voters: set<Node>, adjust: bool)
    requires Leads(init, s)
    ensures var r := QuorumUpdate(s, quorum, voters, None, adjust); r.Ok? ==> Stops(init, r.state)
  {
    var r := QuorumUpdate(s, quorum, voters, None, adjust);
    if Moves(s, quorum, voters, adjust) {
      QuorumLeads(init, s, quorum, voters, adjust);
      if r.Ok? { LeadsStops(init, r.state); }
    } else if r.Ok? {
      hide State.Safe;
      var us := [Restart(s.leader, s.quorum, s.voters), Quorum(s.leader, s.quorum, s.voters)];
      assert r.state.trace == s.trace + us;
      FirstRestart(s.trace, us);
      assert (s.trace + us)[..|s.trace|] == s.trace;
    }
  }

  /** The first nodes of a cluster in which nobody is confirmed. */
  lemma AddFirstStops(init: Registers, s: State)
    requires Leads(init, s) && Steady(s) && s.wanted >= 1 && s.sync == {} && Joining(s) != {} && AddNewNodes(s).Ok?
    ensures Stops(init, AddNewNodes(s).state)
  {
    hide Leads, SyncUpdate, QuorumUpdate, Stops;
    var joining := s.active - s.sync;
    var wanted := Min(s.wanted, |s.sync + joining|);
    assert joining == Joining(s) && s.sync + joining == joining && |joining| > 0;
    var s1 := SyncUpdate(s, wanted, joining);
    SyncLeads(init, s, wanted, joining);
    SyncUpdateExact(s, wanted, joining);
    if s1.Ok? {
      var voters := s1.state.voters + joining;
      QuorumStops(init, s1.state, |voters| - wanted, voters, true);
      QuorumUpdateExact(s1.state, |voters| - wanted, voters, true);
    }
  }

  // ---------- the whole pass ----------

  lemma ChangeStops(init: Registers, s: State)
    requires Leads(init, s) && Steady(s) && s.wanted >= 1 && Change(s).Ok?
    ensures Stops(init, Change(s).state)
  {
    hide Leads, Stops, RemoveGoneNodes, AddNewNodes, HandleReplicationFactorChange;
    RemoveLeads(init, s);
    RemoveGoneNodesTotal(s);
    var s1 := RemoveGoneNodes(s).state;
    AddNewNodesExact(s1);
    var s2 := AddNewNodes(s1).state;
    if Resets(s1) && Joining(s1) != {} {
      AddFirstStops(init, s1);
      assert s1.sync + s1.active == s1.sync + Joining(s1);
      KeepsFactor(s2);
    } else {
      AddLeads(init, s1);
      FactorLeads(init, s2);
      LeadsStops(init, Change(s).state);
    }
  }

  lemma ReconcileStops(init: Registers, s: State)
    requires Consistent(s) && s.wanted >= 1 && Reconcile(s).Ok? && Leads(init, s) && !AwaitsConfirmation(s)
    ensures Stops(init, Reconcile(s).state)
  {
    var s0 := AssumeConfirmed(s);
    ConsistentWithAnyConfirmed(s);
    assert Leads(init, s0);
    assert !Resets(s0) || s0.sync * s0.active == {};
    assert Reconcile(s) == if HandleNonSteadyCases(s0).Ok? then Change(HandleNonSteadyCases(s0).state)
                           else HandleNonSteadyCases(s0);
    hide Leads, Stops, Reconcile, Change, MatchSets, SettleMargin, Recoverable, Matched, Settled, Consistent;
    MatchSetsLeads(init, s0);
    MatchSetsExact(s0);
    var s1 := MatchSets(s0).state;
    MatchedKeepsGoal(s0);
    SettleMarginLeads(init, s1);
    SettleMarginTotal(s1);
    MatchedKeepsGoal(s1);
    ChangeStops(init, SettleMargin(s1).state);
  }

  /** Nobody is confirmed, the key has no voters, and listed nodes are active: the pass waits for them to catch up. */
  predicate AwaitsConfirmation(s: State) {
    AssumeConfirmed(s).confirmed == 0 && s.voters == {} && s.sync * s.active != {}
  }

  /** The registers at the end of a pass, computed from the registers and the observations at its start. */
  function Ended(s: State): State {
    var alive := s.sync * s.active;
    if AwaitsConfirmation(s) then s.(numsync := Min(s.numsync, |alive|), sync := alive) else Changed(Recovered(s))
  }

  lemma MergeStops(init: Registers, s: State)
    requires Stops(init, s)
    ensures Replay(init, Merge(s.trace)) == Of(s)
  {
    MergeReaches(init, s.trace);
  }

  // ---------- a pass that waits for confirmation ----------

  /** Phases only add to what has been yielded. */
  predicate Extends(s: State, o: Outcome) {
    o.Ok? ==> s.trace <= o.state.trace
  }

  lemma UpdatesExtend(s: State, quorum: int, voters: set<Node>, adjust: bool, numsync: int, sync: set<Node>)
    ensures Extends(s, QuorumUpdate(s, quorum, voters, None, adjust)) && Extends(s, SyncUpdate(s, numsync, sync))
  {
    hide State.Safe;
  }

  lemma UpdateExtends()
    ensures forall s, quorum, voters, adjust {:trigger QuorumUpdate(s, quorum, voters, None, adjust)} ::
      Extends(s, QuorumUpdate(s, quorum, voters, None, adjust))
    ensures forall s, numsync, sync {:trigger SyncUpdate(s, numsync, sync)} :: Extends(s, SyncUpdate(s, numsync, sync))
  {
    forall s, quorum, voters, adjust
      ensures Extends(s, QuorumUpdate(s, quorum, voters, None, adjust))
    {
      UpdatesExtend(s, quorum, voters, adjust, 0, {});
    }
    forall s, numsync, sync
      ensures Extends(s, SyncUpdate(s, numsync, sync))
    {
      UpdatesExtend(s, 0, {}, true, numsync, sync);
    }
  }

  lemma RecoveryExtends(s: State)
    ensures Extends(s, DropUnadmitted(s)) && Extends(s, SettleMargin(s)) && Extends(s, HandleReplicationFactorChange(s))
  {
    hide QuorumUpdate, SyncUpdate;
    UpdateExtends();
  }

  lemma RemovalsExtend(s: State, gone: set<Node>, remove: set<Node>)
    ensures Extends(s, RemoveChosen(s, gone, remove)) && Extends(s, RemoveBeyondQuorum(s, gone))
  {
    hide QuorumUpdate, SyncUpdate;
    UpdateExtends();
  }

  lemma RemoveExtends(s: State)
    ensures Extends(s, RemoveGoneNodes(s))
  {
    hide QuorumUpdate, SyncUpdate, RemoveChosen, RemoveBeyondQuorum;
    var gone := s.sync - s.active;
    var remove := Sorted(false, gone, s.quorum);
    RemovalsExtend(s, gone, remove);
    var s1 := RemoveChosen(s, gone, remove);
    if s1.Ok? { RemovalsExtend(s1.state, gone * s1.state.sync, {}); }
    if gone != {} && s.sync == gone {
      UpdateExtends();
    }
  }

  lemma AdditionsExtend(s: State, add: set<Node>, wanted: int)
    ensures Extends(s, JoinChosen(s, add, wanted)) && Extends(s, AddTheRest(s, add, wanted))
  {
    hide QuorumUpdate, SyncUpdate;
    UpdateExtends();
  }

  lemma AddExtends(s: State)
    ensures Extends(s, AddNewNodes(s))
  {
    hide JoinChosen, AddTheRest, NodesToReach;
    var joining := s.active - s.sync;
    var wanted := Min(s.wanted, |s.sync + joining|);
    var add := NodesToReach(s, joining, wanted);
    AdditionsExtend(s, add, wanted);
    AdditionsExtend(s, joining, wanted);
    var s1 := JoinChosen(s, add, wanted);
    if s1.Ok? { AdditionsExtend(s1.state, joining - s1.state.sync, wanted); }
  }

  lemma ChangeExtends(s: State)
    ensures Extends(s, Change(s))
  {
    hide RemoveGoneNodes, AddNewNodes, HandleReplicationFactorChange;
    RemoveExtends(s);
    if RemoveGoneNodes(s).Ok? {
      var s1 := RemoveGoneNodes(s).state;
      AddExtends(s1);
      if AddNewNodes(s1).Ok? { RecoveryExtends(AddNewNodes(s1).state); }
    }
  }

  /** The listed nodes that are active stay listed, and then the pass asks for a restart. */
  lemma AwaitsAfterDropping(s: State)
    requires Consistent(s) && s.trace == [] && s.confirmed == 0 && s.quorum == 0 && s.voters == {}
    requires s.sync * s.active != {}
    ensures var alive := s.sync * s.active;
      var s1 := s.(numsync := Min(s.numsync, |alive|), sync := alive);
      && DropDead(s).Ok? && SameRegisters(s1, DropDead(s).state) && Leads(Of(s), DropDead(s).state)
      && AdmitSynced(DropDead(s).state).Ok?
      && var t := DropDead(s).state.trace;
         AdmitSynced(DropDead(s).state).state.trace == t + [Restart(s.leader, 0, {}), Quorum(s.leader, 0, {})]
  {
    DropDeadRecovers(s);
    var d := DropDead(s).state;
    DropDeadLeads(Of(s), s);
    hide DropDead;
    assert (d.sync - d.voters) * d.active == d.sync;
    AdmitSyncedRecovers(d);
    hide State.Safe;
    assert AdmitSynced(d) == QuorumUpdate(d, |d.voters + d.sync| - d.numsync, d.voters + d.sync, None, true);
  }

  lemma AwaitingPassEnds(s: State)
    requires Consistent(s) && s.wanted >= 1 && s.trace == [] && Reconcile(s).Ok? && AwaitsConfirmation(s)
    ensures Replay(Of(s), Merge(Reconcile(s).state.trace)) == Of(Ended(s))
  {
    assert s.confirmed == 0 && s.quorum == 0 && AssumeConfirmed(s) == s;
    AwaitsAfterDropping(s);
    assert s.voters < s.sync;
    var d := DropDead(s).state;
    var a := AdmitSynced(d).state;
    hide DropDead, AdmitSynced, DropUnadmitted, SettleMargin, Change, Consistent, RemoveGoneNodes, AddNewNodes;
    hide HandleReplicationFactorChange;
    assert MatchSets(s).Ok? && MatchSets(s) == DropUnadmitted(a);
    var m := MatchSets(s).state;
    hide MatchSets;
    AwaitingPassExtends(s, a, m);
    RestartsAt(Of(s), d, a.trace[|d.trace|], Reconcile(s).state.trace);
  }

  lemma AwaitingPassExtends(s: State, a: State, m: State)
    requires Reconcile(s).Ok? && AssumeConfirmed(s) == s && MatchSets(s) == Ok(m) == DropUnadmitted(a)
    ensures a.trace <= Reconcile(s).state.trace
  {
    hide MatchSets, SettleMargin, DropUnadmitted, RemoveGoneNodes, AddNewNodes, HandleReplicationFactorChange;
    assert SettleMargin(m).Ok? && Reconcile(s) == Change(SettleMargin(m).state);
    hide Reconcile, Change;
    RecoveryExtends(a);
    RecoveryExtends(m);
    ChangeExtends(SettleMargin(m).state);
  }

  lemma RestartsAt(init: Registers, d: State, t: Transition, ts: seq<Transition>)
    requires Leads(init, d) && t.Restart? && d.trace + [t] <= ts
    ensures Replay(init, Merge(ts)) == Of(d)
  {
    var us := ts[|d.trace|..];
    assert ts == d.trace + us && us[0] == t;
    FirstRestart(d.trace, us);
    MergeReaches(init, ts);
  }

  /**
   What a pass does to the registers, from safe registers that name the primary: exactly when it raises, and where its
   merged transitions lead, by what is known at its start.
   */
  lemma PassExact(s: State)
    requires Consistent(s) && s.wanted >= 1 && s.trace == []
    ensures Transitions(s).Some? <==> !PassFails(s)
    ensures Transitions(s).Some? ==> Replay(Of(s), Transitions(s).value) == Of(Ended(s))
  {
    RaisedAsReconciled(s);
    ReconcileExact(s);
    hide Reconcile, GenerateTransitions, PassFails, Recovered, Changed, Consistent, AwaitsConfirmation, Stops;
    if Reconcile(s).Ok? {
      if AwaitsConfirmation(s) {
        AwaitingPassEnds(s);
      } else {
        ReconcileStops(Of(s), s);
        MergeStops(Of(s), Reconcile(s).state);
      }
    }
  }

  // ---------- nobody is known to be confirmed ----------

  /**
   After a restart of the primary no standby counts as confirmed yet. The pass is then the one for as many confirmed
   nodes as the quorum leaves out, and no more than there are active nodes among the listed ones.
   */
  lemma ConfirmedIsAssumed(r: Registers, active: set<Node>, wanted: int, me: Node)
    requires r.leader == me && r.Good(me) && r.sync * active != {}
    ensures var c := Min(|r.sync * active|, |r.voters| - r.quorum);
      Transitions(Observe(r, 0, active, wanted, me)) == Transitions(Observe(r, c, active, wanted, me))
  {
    var c := Min(|r.sync * active|, |r.voters| - r.quorum);
    var s, t := Observe(r, 0, active, wanted, me), Observe(r, c, active, wanted, me);
    assert t == s.(confirmed := c) && s.Safe() && t.Safe();
    assert AssumeConfirmed(s) == t && AssumeConfirmed(t) == t;
    hide State.Safe, HandleNonSteadyCases, RemoveGoneNodes, AddNewNodes, HandleReplicationFactorChange, Merge;
    assert Reconcile(s) == Reconcile(t);
    hide Reconcile;
    assert GenerateTransitions(s) == GenerateTransitions(t);
  }

  /** With none of the known standbys active, the new ones are listed and the key is left without voters. */
  lemma StartsAnew(s: State)
    requires Consistent(s) && s.wanted >= 1 && s.trace == [] && s.confirmed == 0
    requires s.active != {} && (s.sync + s.voters) * s.active == {}
    ensures Transitions(s).Some?
    ensures Replay(Of(s), Transitions(s).value) ==
            Registers(s.leader, 0, {}, Min(s.wanted, |s.active|), s.active)
  {
    assert s.sync * s.active == {} by { assert s.sync * s.active <= (s.sync + s.voters) * s.active; }
    assert AssumeConfirmed(s) == s;
    StaysApart(s);
    PassExact(s);
    var m := Recovered(s);
    assert !(m.active <= m.sync) by {
      var x :| x in s.active;
      assert x !in m.sync * m.active;
    }
    hide Transitions, Consistent;
  }

  lemma StaysApart(s: State)
    requires Consistent(s) && (s.sync + s.voters) * s.active == {}
    ensures Recoverable(s)
    ensures var m := Settled(Matched(s));
      && SameGoal(s, m) && m.sync * m.active == {} && m.sync == m.voters
  {
    assert s.sync * s.active == {} by { assert s.sync * s.active <= (s.sync + s.voters) * s.active; }
    assert Recoverable(s);
    MatchedKeepsGoal(s);
    MatchedKeepsGoal(Matched(s));
    var m := Matched(s);
    assert m.sync <= s.sync + s.voters && m.sync == m.voters;
    hide Matched, Recoverable, Consistent;
    assert m.sync * s.active <= (s.sync + s.voters) * s.active;
  }

  /** Standbys that are listed, and of which some are confirmed, become voters. */
  lemma ListedBecomeVoters(me: Node, confirmed: int, active: set<Node>, wanted: int)
    requires active != {} && me !in active && wanted >= 1 && confirmed >= 1
    ensures var w := Min(wanted, |active|);
      var r := Registers(me, 0, {}, w, active);
      var o := Transitions(Observe(r, confirmed, active, wanted, me));
      && o.Some?
      && Replay(r, o.value) == Registers(me, |active| - w + Max(w - confirmed, 0), active, w, active)
  {
    var w := Min(wanted, |active|);
    var r := Registers(me, 0, {}, w, active);
    var s := Observe(r, confirmed, active, wanted, me);
    assert Of(s) == r && AssumeConfirmed(s) == s && active * active == active;
    assert Consistent(s);
    PassExact(s);
    var q := |active| - w + Max(w - confirmed, 0);
    assert Matched(s) == s.(voters := active, quorum := q);
    assert Recovered(s) == s.(voters := active, quorum := q);
    hide Transitions;
  }

  /** From an empty key the new standbys are listed, and the pass asks for a restart. */
  lemma FirstTransitions(me: Node, numsync: int, active: set<Node>, wanted: int)
    requires active != {} && me !in active && wanted >= 1 && numsync >= 0
    ensures var w := Min(wanted, |active|);
      Transitions(Observe(Registers(me, 0, {}, numsync, {}), 0, active, wanted, me)) ==
        Some([Sync(me, w, active), Restart(me, 0, {})])
  {
    var w := Min(wanted, |active|);
    var s := Observe(Registers(me, 0, {}, numsync, {}), 0, active, wanted, me);
    RaisedAsReconciled(s);
    FirstPhases(s);
    var ts := [Sync(me, w, active), Restart(me, 0, {}), Quorum(me, 0, {})];
    hide Reconcile, GenerateTransitions;
    MergeFirst(ts[0], ts[1], ts[2]);
  }

  lemma FirstPhases(s: State)
    requires Consistent(s) && s.sync == {} && s.quorum == 0 && s.confirmed == 0 && s.trace == []
    requires s.active != {} && s.wanted >= 1
    ensures var w := Min(s.wanted, |s.active|);
      var ts := [Sync(s.leader, w, s.active), Restart(s.leader, 0, {}), Quorum(s.leader, 0, {})];
      Reconcile(s) == Ok(s.(numsync := w, sync := s.active, trace := ts))
  {
    assert s.sync * s.active == {} && AssumeConfirmed(s) == s;
    assert HandleNonSteadyCases(s) == Ok(s) && RemoveGoneNodes(s) == Ok(s);
    FirstAddition(s);
    hide HandleNonSteadyCases, RemoveGoneNodes, AddNewNodes, HandleReplicationFactorChange;
    KeepsFactor(AddNewNodes(s).state);
  }

  lemma FirstAddition(s: State)
    requires Consistent(s) && s.sync == {} && s.quorum == 0 && s.confirmed == 0 && s.trace == []
    requires s.active != {} && s.wanted >= 1
    ensures var w := Min(s.wanted, |s.active|);
      var ts := [Sync(s.leader, w, s.active), Restart(s.leader, 0, {}), Quorum(s.leader, 0, {})];
      AddNewNodes(s) == Ok(s.(numsync := w, sync := s.active, trace := ts))
  {
    var w := Min(s.wanted, |s.active|);
    var s1 := s.(numsync := w, sync := s.active).Yield(Sync(s.leader, w, s.active));
    SyncUpdateExact(s, w, s.active);
    assert SyncUpdate(s, w, s.active) == Ok(s1);
    var s2 := s1.Yield(Restart(s.leader, 0, {})).Yield(Quorum(s.leader, 0, {}));
    QuorumUpdateExact(s1, |s.active| - w, s.active, true);
    assert QuorumUpdate(s1, |s.active| - w, s.active, None, true) == Ok(s2);
    hide SyncUpdate, QuorumUpdate;
    assert s.active - s.sync == s.active && s.sync + s.active == s.active;
    assert s1.voters + s.active == s.active && s.active - s.active == {};
    assert JoinChosen(s, s.active, w) == Ok(s2);
  }

  lemma MergeFirst(s: Transition, r: Transition, q: Transition)
    requires s.Sync? && r.Restart? && q.Quorum?
    ensures Merge([s, r, q]) == [s, r]
  {
    var ts := [s, r, q];
    assert ts[1..] == [r, q] && Merge([r, q]) == [r];
    assert Merge(ts) == [s] + Merge(ts[1..]);
  }

  // ---------- registers that are found broken ----------

  /** The key rewritten from the listed standbys. */
  function Rewritten(s: State): State {
    s.(voters := s.sync, quorum := |s.sync| - s.numsync + Max(s.numsync - s.confirmed, 0))
  }

  /**
   When the registers violate the invariant although the key names the primary, the pass rewrites the key from the
   listed standbys and goes on from there.
   */
  lemma RepairPassExact(s: State)
    requires s.leader == s.leaderWanted && !s.Safe() && s.wanted >= 1 && s.trace == []
    requires s.leader !in s.sync && s.leader !in s.active
    requires 0 <= s.numsync <= |s.sync| && (s.sync != {} ==> s.numsync >= 1)
    ensures Transitions(s).Some? <==> !PassFails(Rewritten(s))
    ensures Transitions(s).Some? ==>
      Replay(Of(s), Transitions(s).value) == Of(Changed(Recovered(Rewritten(s))))
  {
    assert s.voters != {};
    var u := QuorumUpdate(s, |s.sync| - s.numsync, s.sync, None, true);
    QuorumUpdateExact(s, |s.sync| - s.numsync, s.sync, true);
    assert u.Ok? && SameRegisters(Rewritten(s), u.state);
    QuorumLeads(Of(s), s, |s.sync| - s.numsync, s.sync, true);
    assert GenerateTransitions(s) == Reconcile(u.state) by {
      hide Reconcile, QuorumUpdate;
    }
    var a := u.state;
    assert Consistent(a) && !AwaitsConfirmation(a);
    RecoveredIgnoresTrace(Rewritten(s), a);
    hide GenerateTransitions, Reconcile, Consistent, PassFails, Recovered, Changed, Leads, Stops;
    hide QuorumUpdate, State.Safe;
    ReconcileExact(a);
    if Reconcile(a).Ok? {
      ReconcileStops(Of(s), a);
      MergeStops(Of(s), Reconcile(a).state);
    }
  }

  lemma RecoveredIgnoresTrace(s: State, r: State)
    requires SameRegisters(s, r)
    ensures (PassFails(s) <==> PassFails(r)) && SameRegisters(Recovered(s), Recovered(r))
    ensures SameRegisters(Changed(Recovered(s)), Changed(Recovered(r)))
  {
    assert SameRegisters(AssumeConfirmed(s), AssumeConfirmed(r));
    MatchingIgnoresTrace(AssumeConfirmed(s), AssumeConfirmed(r));
    hide AssumeConfirmed, Matched, Settled, Recoverable, ChangeFails, Changed;
    SettledIgnoresTrace(Matched(AssumeConfirmed(s)), Matched(AssumeConfirmed(r)));
    ChangeIgnoresTrace(Recovered(s), Recovered(r));
  }

  lemma MatchingIgnoresTrace(s: State, r: State)
    requires SameRegisters(s, r)
    ensures SameRegisters(Matched(s), Matched(r)) && (Recoverable(s) <==> Recoverable(r))
  {}

  // ---------- convergence ----------

  /** The optimal registers for the active nodes and the wanted factor. */
  function Best(me: Node, active: set<Node>, wanted: int): Registers {
    var w := Min(wanted, |active|);
    Registers(me, |active| - w, active, w, active)
  }

  /**
   One-pass convergence for the caller: from tight registers, with enough nodes confirmed, the merged transitions lead
   to the optimal registers, and from there a pass yields nothing.
   */
  lemma PassConverges(s: State)
    requires Tight(s) && s.wanted >= 1 && s.trace == []
    requires s.confirmed >= Min(s.wanted, |s.active|)
    requires s.numsync == Min(s.wanted, |s.sync|) || s.active == s.sync
    ensures Transitions(s).Some? && Replay(Of(s), Transitions(s).value) == Best(s.leader, s.active, s.wanted)
    ensures var best := Best(s.leader, s.active, s.wanted);
      forall confirmed :: Transitions(Observe(best, confirmed, s.active, s.wanted, s.leader)) == Some([])
  {
    var best := Best(s.leader, s.active, s.wanted);
    forall confirmed
      ensures Transitions(Observe(best, confirmed, s.active, s.wanted, s.leader)) == Some([])
    {
      OptimalIsQuiet(Observe(best, confirmed, s.active, s.wanted, s.leader));
    }
    Converges(s);
    RaisedAsReconciled(s);
    ReconcileExact(s);
    assert !AwaitsConfirmation(s);
    hide GenerateTransitions, Reconcile, Consistent, PassFails, Changed, Recovered;
    var r := GenerateTransitions(s).state;
    ReconcileStops(Of(s), s);
    MergeStops(Of(s), r);
  }
}
