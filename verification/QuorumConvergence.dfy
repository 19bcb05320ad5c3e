/**
 Where a whole run of the quorum state machine ends: the one optimal state for the active nodes and the
 wanted replication factor. And concrete states from which the program does not get there.
 */
module QuorumConvergence {
  import opened Names
  import opened Options
  import opened QuorumResolver
  import opened QuorumPhases

  /** The optimal state the class documentation gives. */
  predicate Optimal(s: State) {
    && s.sync == s.active && s.voters == s.active
    && s.numsync == Min(s.wanted, |s.active|)
    && s.quorum == |s.active| - s.numsync
  }

  /** The steady registers are exactly as tight as the invariant allows. */
  predicate Tight(s: State) {
    Steady(s) && s.quorum == |s.sync| - s.numsync
  }

  // ---------- exactly when a run raises ----------

  lemma ConsistentWithAnyConfirmed(s: State)
    ensures Consistent(s) <==> Consistent(AssumeConfirmed(s))
    ensures Recoverable(s.(confirmed := AssumeConfirmed(s).confirmed)) <==> Recoverable(AssumeConfirmed(s))
  {}

  /** The three phases that follow once voters and sync match. */
  function Change(s: State): Outcome {
    var s1 :- RemoveGoneNodes(s);
    var s2 :- AddNewNodes(s1);
    HandleReplicationFactorChange(s2)
  }

  /**
   From a steady state the run raises when new nodes ask for more than they bring, when the factor is
   lowered under a raised quorum, or when removing nodes raises the quorum for unconfirmed ones and the
   factor is to be lowered at the same time.
   */
  predicate ChangeFails(s: State) {
    if s.sync <= s.active then
      if s.active == s.sync then FactorFails(s) else AddFails(s)
    else
      var w := Min(s.wanted, |s.active|);
      && s.active != {} && s.active <= s.sync && |s.sync| - |s.active| <= s.quorum
      && w < s.confirmed && s.confirmed + w <= Min(Max(s.wanted, s.numsync), |s.active|)
  }

  /** What removing the gone nodes leaves of numsync. */
  function LeftNumsync(s: State): int {
    var alive := s.sync * s.active;
    if s.sync <= s.active then s.numsync
    else if |s.sync| - |alive| <= s.quorum then Min(Max(s.wanted, s.numsync), |alive|)
    else |alive|
  }

  /** What removing the gone nodes leaves of the quorum. */
  function LeftQuorum(s: State): int {
    var alive, numsync := s.sync * s.active, LeftNumsync(s);
    if s.sync <= s.active then s.quorum
    else if alive == {} then 0
    else if |s.sync| - |alive| <= s.quorum then |alive| - numsync + Max(numsync - s.confirmed, 0)
    else |alive| - Min(s.wanted, |alive|)
  }

  /** The quorum at the end of the run, computed from the steady state it starts from. */
  function ChangedQuorum(s: State): int {
    var n := |s.active|;
    var w, numsync := Min(s.wanted, n), LeftNumsync(s);
    if s.active <= s.sync then FactorQuorum(n, LeftQuorum(s), numsync, s.wanted, s.confirmed)
    else if s.sync * s.active == {} && s.confirmed == 0 then 0
    else n - w + (if w > s.confirmed then Max(numsync, w) - s.confirmed else 0)
  }

  /** The registers at the end of the run; with nobody confirmed and only new nodes, the `/sync` key stays empty. */
  function Changed(s: State): State {
    var voters := if !(s.active <= s.sync) && s.sync * s.active == {} && s.confirmed == 0 then {} else s.active;
    s.(quorum := ChangedQuorum(s), voters := voters, numsync := Min(s.wanted, |s.active|), sync := s.active)
  }

  /** When some nodes are gone and others joined, the new nodes never ask for too much. */
  lemma RemovalNeverShort(s: State, r: State)
    requires Steady(s) && s.wanted >= 1 && !(s.sync <= s.active)
    requires SameGoal(s, r) && r.sync == s.sync * s.active && (r.sync != {} ==> RemovalResult(s, r))
    ensures !Short(r)
  {
    var alive := s.sync * s.active;
    DisjointUnionSize(alive, Joining(r));
  }

  /** When some nodes are gone and none joined, what the factor change finds is known beforehand. */
  lemma RemovalBeforeFactor(s: State, r: State)
    requires Steady(s) && s.wanted >= 1 && !(s.sync <= s.active) && s.active <= s.sync
    requires SameGoal(s, r) && r.sync == s.active && r.voters == r.sync
    requires if s.active == {} then r.numsync == 0 else RemovalResult(s, r)
    ensures FactorFails(r) <==> ChangeFails(s)
  {
    assert s.sync * s.active == s.active;
  }

  /** Sync is the active nodes with the wanted factor, and voters has followed unless nobody is confirmed. */
  predicate Arrived(s: State, r: State) {
    && Consistent(r) && SameGoal(s, r) && r.sync == s.active
    && r.numsync == Min(s.wanted, |s.active|) && (r.voters == r.sync || r.voters == {})
  }

  lemma ChangeSameNodes(s: State)
    requires Steady(s) && s.wanted >= 1 && s.active == s.sync
    ensures Change(s).Ok? <==> !FactorFails(s)
    ensures Change(s).Ok? ==> Arrived(s, Change(s).state) && SameRegisters(Changed(s), Change(s).state)
  {
    hide RemoveGoneNodes, AddNewNodes, HandleReplicationFactorChange;
    RemoveGoneNodesTotal(s);
    SplitBy(s.active, s.sync);
    AddNewNodesExact(s);
    FactorChangeExact(s);
    hide FactorFails;
  }

  lemma ChangeMoreNodes(s: State)
    requires Steady(s) && s.wanted >= 1 && s.sync < s.active
    ensures Change(s).Ok? <==> !AddFails(s)
    ensures Change(s).Ok? ==> Arrived(s, Change(s).state) && SameRegisters(Changed(s), Change(s).state)
  {
    hide RemoveGoneNodes, AddNewNodes, HandleReplicationFactorChange, AddFails;
    RemoveGoneNodesTotal(s);
    SplitBy(s.active, s.sync);
    AddNewNodesExact(s);
    if AddNewNodes(s).Ok? {
      var s1 := AddNewNodes(s).state;
      assert s1.sync == s.active && s.sync + Joining(s) == s.active;
      if s1.numsync == Min(s.wanted, |s.active|) {
        KeepsFactor(s1);
      } else {
        FactorChangeExact(s1);
      }
    }
  }

  lemma ChangeOtherNodes(s: State)
    requires Steady(s) && s.wanted >= 1 && !(s.sync <= s.active) && !(s.active <= s.sync)
    ensures Change(s).Ok? && Arrived(s, Change(s).state) && SameRegisters(Changed(s), Change(s).state)
  {
    hide RemoveGoneNodes, AddNewNodes, HandleReplicationFactorChange;
    RemoveGoneNodesTotal(s);
    var s1 := RemoveGoneNodes(s).state;
    RemovalNeverShort(s, s1);
    OtherNodesQuorum(s, s1);
    SplitBy(s.active, s.sync);
    assert Joining(s1) == s.active - s.sync && s1.active == s.active;
    hide RemovalResult, Consistent, LeftNumsync, LeftQuorum, ChangedQuorum, Short, SameGoal;
    AddedAfterRemoval(s1);
    KeepsFactor(AddNewNodes(s1).state);
  }

  lemma AddedAfterRemoval(s: State)
    requires Steady(s) && s.wanted >= 1 && Joining(s) != {} && !Short(s) && s.sync <= s.active
    ensures AddNewNodes(s).Ok?
    ensures var r, w := AddNewNodes(s).state, Min(s.wanted, |s.active|);
      && Consistent(r) && SameGoal(s, r) && r.sync == s.active && r.numsync == w
      && (if s.sync == {} && s.confirmed == 0 then r.voters == {} && r.quorum == 0
          else && r.voters == s.active
               && r.quorum == |s.active| - w + (if w > s.confirmed then Max(s.numsync, w) - s.confirmed else 0))
  {
    hide AddNewNodes;
    AddNewNodesExact(s);
    assert s.sync + s.active == s.active && s.sync + Joining(s) == s.active;
    hide Consistent;
  }

  lemma OtherNodesQuorum(s: State, s1: State)
    requires Steady(s) && s.wanted >= 1 && !(s.sync <= s.active) && !(s.active <= s.sync)
    requires s1.sync == s.sync * s.active && SameGoal(s, s1) && Consistent(s1)
    requires s1.sync != {} ==> RemovalResult(s, s1)
    ensures var w := Min(s.wanted, |s.active|);
      ChangedQuorum(s) == if s1.sync == {} && s1.confirmed == 0 then 0
                          else |s.active| - w + (if w > s1.confirmed then Max(s1.numsync, w) - s1.confirmed else 0)
  {
    assert s1.sync == {} ==> s1.numsync == 0 && LeftNumsync(s) == 0;
  }

  lemma ChangeFewerNodes(s: State)
    requires Steady(s) && s.wanted >= 1 && s.active < s.sync
    ensures Change(s).Ok? <==> !ChangeFails(s)
    ensures Change(s).Ok? ==> Arrived(s, Change(s).state) && SameRegisters(Changed(s), Change(s).state)
  {
    hide RemoveGoneNodes, AddNewNodes, HandleReplicationFactorChange, ChangeFails;
    RemoveGoneNodesTotal(s);
    var s1 := RemoveGoneNodes(s).state;
    assert s.sync * s.active == s.active;
    RemovalBeforeFactor(s, s1);
    assert s1.numsync == LeftNumsync(s) && s1.quorum == LeftQuorum(s);
    hide RemovalResult, FactorFails, LeftNumsync, LeftQuorum, FactorQuorum, Consistent;
    assert Joining(s1) == {};
    assert AddNewNodes(s1) == Ok(s1) by { AddNewNodesExact(s1); }
    FactorChangeExact(s1);
  }

  /** Exactly when the phases after recovery raise, and the quorum they reach, in terms of the state they start from. */
  lemma ChangeExact(s: State)
    requires Steady(s) && s.wanted >= 1
    ensures Change(s).Ok? <==> !ChangeFails(s)
    ensures Change(s).Ok? ==> Arrived(s, Change(s).state) && SameRegisters(Changed(s), Change(s).state)
  {
    hide Change, Arrived, AddFails, FactorFails, Steady, Changed;
    if s.sync == s.active {
      ChangeSameNodes(s);
    } else if s.sync <= s.active {
      ChangeMoreNodes(s);
    } else if s.active <= s.sync {
      ChangeFewerNodes(s);
    } else {
      ChangeOtherNodes(s);
    }
  }

  lemma KeepsFactor(s: State)
    requires s.numsync == Min(s.wanted, |s.sync|)
    ensures HandleReplicationFactorChange(s) == Ok(s)
  {}

  /** The steady state that recovery and settling lead to, computed from the registers and observations at the start. */
  function Recovered(s: State): State { Settled(Matched(AssumeConfirmed(s))) }

  /** The interrupted state is not recoverable, or adding nodes or lowering the factor finds no room for its quorum. */
  predicate PassFails(s: State) {
    !Recoverable(AssumeConfirmed(s)) || ChangeFails(Recovered(s))
  }

  /**
   From registers that name the right leader and are safe: exactly when the run raises, by what is known at its
   start. When it does not raise, sync becomes the active nodes with the wanted factor, and the key is known.
   */
  lemma ReconcileExact(s: State)
    requires Consistent(s) && s.wanted >= 1
    ensures Reconcile(s).Ok? <==> !PassFails(s)
    ensures var r := Reconcile(s).state;
            Reconcile(s).Ok? ==> Arrived(AssumeConfirmed(s), r) && SameRegisters(Changed(Recovered(s)), r)
  {
    var s0 := AssumeConfirmed(s);
    ConsistentWithAnyConfirmed(s);
    assert s0.active == s.active && s0.wanted == s.wanted;
    assert Reconcile(s) == if HandleNonSteadyCases(s0).Ok? then Change(HandleNonSteadyCases(s0).state)
                           else HandleNonSteadyCases(s0);
    hide Reconcile, Change, HandleNonSteadyCases, Recoverable, AssumeConfirmed, Matched, Settled;
    hide ChangeFails, Changed, Consistent, Arrived;
    RecoverExact(s0);
    if HandleNonSteadyCases(s0).Ok? {
      var s2 := HandleNonSteadyCases(s0).state;
      ChangeIgnoresTrace(Recovered(s), s2);
      ChangeExact(s2);
      ArrivedFrom(s0, s2, Change(s2));
    }
  }

  lemma RecoverExact(s: State)
    requires Consistent(s) && s.wanted >= 1
    ensures HandleNonSteadyCases(s).Ok? <==> Recoverable(s)
    ensures var r := HandleNonSteadyCases(s).state;
            HandleNonSteadyCases(s).Ok? ==> Steady(r) && SameGoal(s, r) && SameRegisters(Settled(Matched(s)), r)
  {
    hide MatchSets, SettleMargin, Recoverable, Matched, Settled, Consistent;
    MatchSetsExact(s);
    if MatchSets(s).Ok? {
      MatchedKeepsGoal(s);
      MatchedKeepsGoal(Matched(s));
      SettleMarginTotal(MatchSets(s).state);
      SettledIgnoresTrace(Matched(s), MatchSets(s).state);
    }
  }

  lemma ArrivedFrom(s: State, s2: State, o: Outcome)
    requires SameGoal(s, s2) && (o.Ok? ==> Arrived(s2, o.state))
    ensures o.Ok? ==> Arrived(s, o.state)
  {}

  lemma MatchedKeepsGoal(s: State)
    ensures SameGoal(s, Matched(s)) && SameGoal(s, Settled(s))
  {}

  lemma SettledIgnoresTrace(s: State, r: State)
    requires SameRegisters(s, r)
    ensures SameRegisters(Settled(s), Settled(r))
  {}

  lemma ChangeIgnoresTrace(s: State, r: State)
    requires SameRegisters(s, r)
    ensures (ChangeFails(s) <==> ChangeFails(r)) && SameRegisters(Changed(s), Changed(r))
  {
    FailureIgnoresTrace(s, r);
    LeftIgnoresTrace(s, r);
    hide AddFails, FactorFails, LeftNumsync, LeftQuorum, FactorQuorum;
  }

  lemma FailureIgnoresTrace(s: State, r: State)
    requires SameRegisters(s, r)
    ensures (AddFails(s) <==> AddFails(r)) && (FactorFails(s) <==> FactorFails(r))
  {}

  lemma LeftIgnoresTrace(s: State, r: State)
    requires SameRegisters(s, r)
    ensures LeftNumsync(s) == LeftNumsync(r) && LeftQuorum(s) == LeftQuorum(r)
  {}

  // ---------- a factor of zero or less ----------

  /** New nodes are refused. */
  lemma NoFactorForNewNodes(s: State)
    requires s.wanted <= 0 && s.numsync >= 0 && Joining(s) != {}
    ensures AddNewNodes(s).Raised?
  {
    assert s.voters + Joining(s) != {};
  }

  /** Nothing is left to require. */
  lemma NoFactorForNobody(s: State)
    requires s.wanted <= 0 && s.sync == {} && s.voters == {} && s.numsync == 0
    ensures HandleReplicationFactorChange(s).Ok? <==> s.wanted == 0
  {}

  /** The pass ends with no more nodes than it began with and a quorum that asks for all of them. */
  predicate AcceptsNoFactor(s: State) {
    || s.active == {}
    || (s.active == s.sync && s.quorum >= |s.sync|)
    || (s.active < s.sync && |s.sync| - |s.active| <= s.quorum && s.confirmed <= 0)
  }

  /** From a steady state with a factor of at least one, the last phase refuses to go below unless that is so. */
  lemma NoFactorChange(s: State)
    requires Steady(s) && s.wanted <= 0 && s.sync != {}
    ensures Change(s).Ok? <==> s.wanted == 0 && AcceptsNoFactor(s)
  {
    hide RemoveGoneNodes, AddNewNodes, HandleReplicationFactorChange, Consistent;
    NoFactorRemoves(s);
    var s1 := RemoveGoneNodes(s).state;
    if Joining(s1) != {} {
      NoFactorForNewNodes(s1);
      assert !(s.active <= s.sync);
    } else {
      NothingToAdd(s1);
      assert s1.sync == s.active;
      if s1.sync == {} {
        NoFactorForNobody(s1);
      } else {
        NoFactorExact(s1);
      }
    }
  }

  lemma NothingToAdd(s: State)
    requires Joining(s) == {}
    ensures AddNewNodes(s) == Ok(s) && s.active <= s.sync
  {
    SplitBy(s.active, s.sync);
  }

  lemma NoFactorRemoves(s: State)
    requires Steady(s) && s.wanted <= 0 && s.sync != {}
    ensures RemoveGoneNodes(s).Ok?
    ensures var r := RemoveGoneNodes(s).state;
      && Steady(r) && SameGoal(s, r) && r.sync == s.sync * s.active && r.numsync >= 0
      && (r.sync == {} ==> r.numsync == 0)
      && (r.sync == s.active != {} ==> (r.quorum >= |r.sync| <==> AcceptsNoFactor(s)))
  {
    hide RemoveGoneNodes;
    RemoveGoneNodesTotal(s);
    SplitBy(s.sync, s.active);
    assert s.sync * s.active == s.active ==> s.active <= s.sync;
  }

  lemma RemoveAllFrom(s: State)
    requires Consistent(s.(numsync := 1)) && s.numsync == 0
    requires s.sync != {} && s.sync * s.active == {} && s.voters == s.sync
    ensures RemoveGoneNodes(s).Ok?
    ensures var r := RemoveGoneNodes(s).state; r.sync == {} && r.voters == {} && r.numsync == 0 && SameGoal(s, r)
  {
    SplitBy(s.sync, s.active);
    QuorumUpdateExact(s, 0, {}, false);
    SyncUpdateExact(QuorumUpdate(s, 0, {}, None, false).state, 0, {});
    hide QuorumUpdate, SyncUpdate;
  }

  /** With nothing required, the quorum of the nodes that stay would be all of them. */
  lemma RemoveSomeFails(s: State)
    requires s.numsync == 0 && s.wanted <= 0 && s.quorum > 0 && s.voters == s.sync
    requires s.sync * s.active != {} && !(s.sync <= s.active)
    ensures RemoveGoneNodes(s).Raised?
  {
    var gone := s.sync - s.active;
    SplitBy(s.sync, s.active);
    var remove := Sorted(false, gone, s.quorum);
    assert s.voters - remove != {} by {
      var x :| x in s.sync * s.active;
      assert x in s.voters - remove;
    }
    assert RemoveWithinQuorum(s, gone).Raised? by {
      hide State.Safe, Sorted;
    }
    hide RemoveWithinQuorum, RemoveBeyondQuorum, Sorted;
  }

  /** The quorum asks for all voters already: nothing is required once the margin is settled. */
  lemma NoFactorBeyondQuorum(s: State)
    requires Steady(s.(numsync := 1)) && s.numsync == 0 && s.wanted <= 0 && s.sync != {} && s.quorum >= |s.sync|
    ensures Change(s).Ok? <==> s.wanted == 0 && (s.active == {} || s.active == s.sync)
  {
    SplitBy(s.sync, s.active);
    if s.sync * s.active == {} {
      RemoveAllFrom(s);
      var s1 := RemoveGoneNodes(s).state;
      hide RemoveGoneNodes;
      if s.active != {} {
        assert Joining(s1) != {};
        NoFactorForNewNodes(s1);
      } else {
        assert AddNewNodes(s1) == Ok(s1);
        NoFactorForNobody(s1);
      }
    } else if s.sync <= s.active {
      assert RemoveGoneNodes(s) == Ok(s);
      if Joining(s) != {} {
        NoFactorForNewNodes(s);
      } else {
        assert AddNewNodes(s) == Ok(s) && s.active == s.sync;
        SyncUpdateExact(s, s.wanted, s.sync);
      }
    } else {
      RemoveSomeFails(s);
    }
  }

  lemma NoFactorEmpty(s: State)
    requires Steady(s) && s.wanted <= 0 && s.sync == {}
    ensures Change(s).Ok? <==> s.wanted == 0 && s.active == {}
  {
    assert RemoveGoneNodes(s) == Ok(s);
    hide RemoveGoneNodes;
    if Joining(s) != {} {
      NoFactorForNewNodes(s);
    } else {
      assert AddNewNodes(s) == Ok(s) && s.active == {};
      NoFactorForNobody(s);
    }
  }

  /** The margin is positive: settling it for a factor of zero or less leaves nothing required. */
  predicate SettlesToNothing(s: State) {
    s.sync != {} && s.quorum >= |s.sync| && s.quorum + Min(s.numsync, s.confirmed) > |s.sync|
  }

  /** Settling the margin for a factor of zero or less. */
  lemma NoFactorSettles(s: State)
    requires Steady(s) && s.wanted <= 0
    ensures var r := SettleMargin(s);
      && (s.wanted == 0 ==> r.Ok?)
      && (r.Ok? && SettlesToNothing(s) ==> SameRegisters(s.(numsync := 0), r.state))
      && (r.Ok? && s.sync != {} && !SettlesToNothing(s) ==>
            Steady(r.state) && SameRegisters(s.(numsync := r.state.numsync), r.state))
      && (r.Ok? && s.sync == {} ==> Steady(r.state) && SameRegisters(s.(quorum := r.state.quorum), r.state))
  {
    hide QuorumUpdate, SyncUpdate;
    assert s.voters + s.sync == s.sync;
    SyncUpdateExact(s, Max(s.wanted, |s.voters| - s.quorum), s.sync);
    QuorumUpdateExact(s, |s.sync| - s.numsync, s.voters, true);
  }

  lemma NoFactorFromSteady(s: State)
    requires Steady(s) && s.wanted <= 0
    ensures var r := SettleMargin(s);
      (r.Ok? && Change(r.state).Ok?) <==>
      s.wanted == 0 && if SettlesToNothing(s) then s.active == {} || s.active == s.sync else AcceptsNoFactor(s)
  {
    hide SettleMargin, Change;
    NoFactorSettles(s);
    var r := SettleMargin(s);
    if r.Ok? {
      if s.sync == {} {
        NoFactorEmpty(r.state);
      } else if SettlesToNothing(s) {
        NoFactorBeyondQuorum(r.state);
      } else {
        NoFactorChange(r.state);
      }
    }
  }

  /**
   A pass with a factor of zero or less: a negative factor is always refused, and zero is accepted exactly when no node
   is active, when no node joins or leaves and the quorum asks for all voters, or when nodes only leave, the quorum has
   room for them, and no node counts as confirmed.
   */
  lemma NoFactorPassExact(s: State)
    requires Consistent(s) && s.wanted <= 0
    ensures var m := Matched(AssumeConfirmed(s));
      Reconcile(s).Ok? <==>
        && s.wanted == 0 && Recoverable(AssumeConfirmed(s))
        && (|| s.active == {}
            || (s.active == m.sync && m.quorum >= |m.sync|)
            || (&& m.confirmed <= 0 && s.active < m.sync
                && m.quorum + m.confirmed <= |m.sync| && |m.sync| - |s.active| <= m.quorum))
  {
    var s0 := AssumeConfirmed(s);
    ConsistentWithAnyConfirmed(s);
    assert s0.active == s.active && s0.wanted == s.wanted;
    assert Reconcile(s) == if HandleNonSteadyCases(s0).Ok? then Change(HandleNonSteadyCases(s0).state)
                           else HandleNonSteadyCases(s0);
    hide Reconcile, Change, MatchSets, SettleMargin, Recoverable, AssumeConfirmed, Matched;
    MatchSetsExact(s0);
    if MatchSets(s0).Ok? {
      MatchedKeepsGoal(s0);
      NoFactorFromSteady(MatchSets(s0).state);
    }
  }

  /** Zero is refused in the state that is optimal for a factor of one. */
  lemma NoFactorWitness(a: Node, l: Node)
    requires a != l
    ensures var s := State(l, 0, {a}, 1, {a}, 1, {a}, 0, l, []);
            Consistent(s) && GenerateTransitions(s).Raised?
  {
    var s := State(l, 0, {a}, 1, {a}, 1, {a}, 0, l, []);
    RaisedAsReconciled(s);
    NoFactorPassExact(s);
    hide Reconcile, GenerateTransitions;
  }

  /** Zero is accepted when a node leaves, the quorum asks for all voters and nobody is confirmed. */
  lemma NoFactorAcceptedWitness(a: Node, b: Node, l: Node)
    requires a != b && a != l && b != l
    ensures var s := State(l, 2, {a, b}, 1, {a, b}, 0, {a}, 0, l, []);
            Consistent(s) && GenerateTransitions(s).Ok?
  {
    var s := State(l, 2, {a, b}, 1, {a, b}, 0, {a}, 0, l, []);
    assert |s.sync| == 2 && |s.active| == 1 && s.sync * s.active == {a};
    RaisedAsReconciled(s);
    NoFactorPassExact(s);
    hide Reconcile, GenerateTransitions;
  }

  // ---------- exactly when a run leaves a quorum out of reach ----------

  /** The run ends with a quorum of more than all voters, by the steady state it starts from. */
  predicate Overshoots(s: State) {
    var n, c := |s.active|, s.confirmed;
    var w := Min(s.wanted, n);
    if s.active == s.sync then FactorOvershoots(s)
    else if s.active <= s.sync then n > 0 && if |s.sync| - n <= s.quorum then c < 0 else w < n < 2 * w && c + w < n
    else c < w && !(s.sync * s.active == {} && c == 0) && (c < 0 || c + w < LeftNumsync(s))
  }

  lemma SameNodesOvershoot(s: State)
    requires Steady(s) && s.wanted >= 1 && s.active == s.sync
    ensures Changed(s).quorum > |Changed(s).voters| <==> Overshoots(s)
  {}

  lemma FewerNodesOvershoot(s: State)
    requires Steady(s) && s.wanted >= 1 && s.active < s.sync && !ChangeFails(s)
    ensures Changed(s).quorum > |Changed(s).voters| <==> Overshoots(s)
  {
    assert s.sync * s.active == s.active;
  }

  lemma OtherNodesOvershoot(s: State)
    requires Steady(s) && s.wanted >= 1 && !(s.active <= s.sync)
    ensures Changed(s).quorum > |Changed(s).voters| <==> Overshoots(s)
  {
    hide LeftNumsync;
  }

  /** Exactly when a whole run leaves such a quorum, against which nobody can win a race by votes. */
  lemma PassOvershootsExact(s: State)
    requires Consistent(s) && s.wanted >= 1 && Reconcile(s).Ok?
    ensures Reconcile(s).state.quorum > |Reconcile(s).state.voters| <==> Overshoots(Recovered(s))
  {
    ReconcileExact(s);
    RecoveredIsSteady(s);
    hide Reconcile, Recovered, Consistent, ChangeFails, Recoverable, Changed, Overshoots;
    var m := Recovered(s);
    if m.active == m.sync {
      SameNodesOvershoot(m);
    } else if m.active <= m.sync {
      FewerNodesOvershoot(m);
    } else {
      OtherNodesOvershoot(m);
    }
  }

  /** The excess persists while nothing changes. */
  lemma OvershootPersistsWitness(a: Node, b: Node, c: Node, l: Node)
    requires |{a, b, c}| == 3 && l !in {a, b, c}
    ensures var s := State(l, 4, {a, b, c}, 2, {a, b, c}, 1, {a, b, c}, 1, l, []);
            Steady(s) && GenerateTransitions(s).Ok? && GenerateTransitions(s).state.quorum > 3
  {
    var abc := {a, b, c};
    var s := State(l, 4, abc, 2, abc, 1, abc, 1, l, []);
    RaisedAsReconciled(s);
    ReconcileExact(s);
    PassOvershootsExact(s);
    hide Reconcile, GenerateTransitions;
  }

  lemma RecoveredIsSteady(s: State)
    requires Consistent(s) && s.wanted >= 1 && Recoverable(AssumeConfirmed(s))
    ensures Steady(Recovered(s)) && Recovered(s).wanted == s.wanted
  {
    ConsistentWithAnyConfirmed(s);
    hide Matched, Settled, Recoverable, HandleNonSteadyCases;
    RecoverExact(AssumeConfirmed(s));
  }

  // ---------- convergence ----------

  /** Removing gone nodes from tight registers leaves tight registers. */
  lemma RemoveStaysTight(s: State)
    requires Tight(s) && s.wanted >= 1 && s.numsync == Min(s.wanted, |s.sync|)
    requires s.confirmed >= Min(s.wanted, |s.active|)
    ensures RemoveGoneNodes(s).Ok?
    ensures var r := RemoveGoneNodes(s).state;
            Tight(r) && SameGoal(s, r) && r.sync == s.sync * s.active && r.numsync == Min(s.wanted, |r.sync|)
  {
    hide RemoveGoneNodes;
    RemoveGoneNodesTotal(s);
    SplitBy(s.sync, s.active);
    SubsetSize(s.sync * s.active, s.active);
    hide Consistent;
  }

  lemma AddStaysTight(s: State)
    requires Tight(s) && s.wanted >= 1 && s.numsync == Min(s.wanted, |s.sync|) && s.sync <= s.active
    requires s.confirmed >= Min(s.wanted, |s.active|)
    ensures AddNewNodes(s).Ok?
    ensures Tight(AddNewNodes(s).state) && SameGoal(s, AddNewNodes(s).state) && Optimal(AddNewNodes(s).state)
  {
    hide AddNewNodes;
    AddNewNodesExact(s);
    SplitBy(s.active, s.sync);
    SubsetSize(s.sync, s.active);
    assert s.sync + s.active == s.active && s.sync + Joining(s) == s.active;
    assert |Joining(s)| == |s.active| - |s.sync|;
    hide Consistent;
  }

  /** The factor changes while all nodes stay: the registers end up tight again. */
  lemma FactorStaysTight(s: State)
    requires Tight(s) && s.wanted >= 1 && s.sync == s.active && s.confirmed >= Min(s.wanted, |s.active|)
    ensures HandleReplicationFactorChange(s).Ok? && Optimal(HandleReplicationFactorChange(s).state)
  {
    hide HandleReplicationFactorChange;
    FactorChangeExact(s);
    hide Consistent;
  }

  lemma TightIsSettled(s: State)
    requires Tight(s) && s.wanted >= 1
    ensures HandleNonSteadyCases(s) == Ok(s)
  {
    hide SettleMargin;
    SettleMarginTotal(s);
  }

  /**
   One-pass convergence: from tight registers, with enough nodes confirmed, one run reaches the optimal
   state without raising, whatever nodes came and went if the factor stays, and for any factor if the
   nodes stay.
   */
  lemma Converges(s: State)
    requires Tight(s) && s.wanted >= 1
    requires s.confirmed >= Min(s.wanted, |s.active|)
    requires s.numsync == Min(s.wanted, |s.sync|) || s.active == s.sync
    ensures GenerateTransitions(s).Ok? && Optimal(GenerateTransitions(s).state)
  {
    SafeIsBalanced(s);
    assert s.confirmed == 0 ==> s.active == {};
    assert AssumeConfirmed(s) == s;
    assert GenerateTransitions(s) == Reconcile(s);
    TightIsSettled(s);
    hide HandleNonSteadyCases, RemoveGoneNodes, AddNewNodes, HandleReplicationFactorChange, GenerateTransitions;
    if s.numsync == Min(s.wanted, |s.sync|) {
      RemoveStaysTight(s);
      var s1 := RemoveGoneNodes(s).state;
      AddStaysTight(s1);
      KeepsFactor(AddNewNodes(s1).state);
    } else {
      RemoveGoneNodesTotal(s);
      AddNewNodesExact(s);
      SplitBy(s.active, s.sync);
      FactorStaysTight(s);
    }
  }

  /** The optimal state yields no further transitions, whatever number of nodes is confirmed. */
  lemma OptimalIsQuiet(s: State)
    requires s.leader == s.leaderWanted && s.leader !in s.active && s.wanted >= 1 && Optimal(s)
    ensures GenerateTransitions(s) == Ok(AssumeConfirmed(s))
    ensures s.trace == [] ==> Transitions(s) == Some([])
  {
    SafeIsBalanced(s);
    var s0 := AssumeConfirmed(s);
    assert Tight(s0) && Optimal(s0);
    assert GenerateTransitions(s) == Reconcile(s);
    TightIsSettled(s0);
    hide HandleNonSteadyCases, RemoveGoneNodes, AddNewNodes, HandleReplicationFactorChange;
    RemoveGoneNodesTotal(s0);
    AddNewNodesExact(s0);
    SplitBy(s0.active, s0.sync);
    KeepsFactor(s0);
  }

  // ---------- states from which the program does not get there ----------

  /** An interrupted run left a node in sync that is not a voter yet; then a voter went away. */
  lemma NotRecoveredWitness()
    ensures var s := State("L", 1, {"a", "b"}, 2, {"a", "b", "c"}, 2, {"a", "c"}, 2, "L", []);
            Consistent(s) && GenerateTransitions(s).Raised?
  {
    var s := State("L", 1, {"a", "b"}, 2, {"a", "b", "c"}, 2, {"a", "c"}, 2, "L", []);
    assert "a" in s.voters * s.active && "b" !in s.active;
    assert |s.sync| == 3;
    RaisedAsReconciled(s);
    ReconcileExact(s);
  }

  lemma RaisedAsReconciled(s: State)
    requires Consistent(s)
    ensures GenerateTransitions(s) == Reconcile(s)
  {
    SafeIsBalanced(s);
    hide Reconcile, State.Safe;
  }

  /** A third node joins while the factor is raised from one to three; both old nodes are confirmed. */
  lemma RaisingFactorWitness(a: Node, b: Node, c: Node, l: Node)
    requires |{a, b}| == 2 && c !in {a, b} && l !in {a, b, c}
    ensures var s := State(l, 1, {a, b}, 1, {a, b}, 2, {a, b, c}, 3, l, []);
            Tight(s) && GenerateTransitions(s).Raised?
  {
    var two, three := {a, b}, {a, b, c};
    var s := State(l, 1, two, 1, two, 2, three, 3, l, []);
    assert three == two + {c} && |three| == 3;
    assert Joining(s) == {c} && s.sync + Joining(s) == three && s.sync * s.active == two;
    assert AssumeConfirmed(s) == s && Recovered(s) == s;
    assert AddFails(s) && ChangeFails(s);
    RaisedAsReconciled(s);
    hide Reconcile, GenerateTransitions, ChangeFails, Recovered;
    ReconcileExact(s);
  }

  /** A fifth node joins while the factor is lowered from four to two and one node is confirmed: a quorum of 6 of 5. */
  lemma OvershootWitness(a: Node, b: Node, c: Node, d: Node, e: Node, l: Node)
    requires |{a, b, c, d}| == 4 && e !in {a, b, c, d} && l !in {a, b, c, d, e}
    ensures var s := State(l, 3, {a, b, c, d}, 4, {a, b, c, d}, 1, {a, b, c, d, e}, 2, l, []);
            && Steady(s) && GenerateTransitions(s).Ok?
            && GenerateTransitions(s).state.quorum == 6 && |GenerateTransitions(s).state.voters| == 5
  {
    var four, five := {a, b, c, d}, {a, b, c, d, e};
    var s := State(l, 3, four, 4, four, 1, five, 2, l, []);
    assert five == four + {e} && |five| == 5;
    SplitBy(five, four);
    assert Joining(s) == {e} && s.sync + Joining(s) == five && s.sync * s.active == four;
    assert AssumeConfirmed(s) == s && Recovered(s) == s;
    RaisedAsReconciled(s);
    ReconcileExact(s);
    hide Reconcile, GenerateTransitions;
  }

  /** The factor is lowered while one of three required nodes is not confirmed yet. */
  lemma LoweringFactorWitness()
    ensures var s := State("L", 1, {"a", "b", "c"}, 3, {"a", "b", "c"}, 2, {"a", "b", "c"}, 1, "L", []);
            Steady(s) && GenerateTransitions(s).Raised?
  {
    var s := State("L", 1, {"a", "b", "c"}, 3, {"a", "b", "c"}, 2, {"a", "b", "c"}, 1, "L", []);
    assert |s.sync| == 3 && s.voters + s.sync == s.sync;
    assert HandleNonSteadyCases(s) == Ok(s);
    RaisedAsReconciled(s);
    ReconcileExact(s);
  }
}
