/**
 The first pass of a new primary: it takes over the `/sync` key that still names the old leader, and goes on with the
 phases of an ordinary pass if any replica is connected.
 */
module QuorumFailover {
  import opened Names
  import opened Options
  import opened QuorumResolver
  import opened QuorumSafety
  import opened QuorumPhases
  import opened QuorumConvergence
  import opened QuorumPass
  import opened QuorumCluster

  /** The resolver once it has put its own name into the key, and the old leader among the voters. */
  function TakenOver(s: State): State { s.(leader := s.leaderWanted, voters := s.sync) }

  /** A handoff of which the key can be taken over requires at least one standby. */
  lemma HandOffRequiresSome(r: Registers, me: Node, minNodes: nat)
    requires r.leader !in r.voters && r.quorum >= 0 && me != r.leader
    requires var h := HandOff(r, me, minNodes); r.quorum == 0 || r.quorum < |h.sync|
    ensures var h := HandOff(r, me, minNodes); h.sync != {} && h.Factor() >= 1
  {
    var h := HandOff(r, me, minNodes);
    var members := r.voters + {r.leader};
    assert |members| == |r.voters| + 1 && r.leader in h.sync;
    if me in members {
      assert members == h.sync + {me};
    } else {
      assert h.sync == members;
    }
  }

  lemma TakenOverIsConsistent(r: Registers, me: Node, minNodes: nat, confirmed: int, active: set<Node>, wanted: int)
    requires r.leader !in r.voters && r.quorum >= 0 && me != r.leader && me !in active
    requires var h := HandOff(r, me, minNodes); r.quorum == 0 || r.quorum < |h.sync|
    ensures Consistent(TakenOver(Observe(HandOff(r, me, minNodes), confirmed, active, wanted, me)))
  {
    var h := HandOff(r, me, minNodes);
    var a := TakenOver(Observe(h, confirmed, active, wanted, me));
    HandOffRequiresSome(r, me, minNodes);
    AdoptedIsGood(r, me, minNodes);
    assert a.Safe() by { GoodIsSafe(a); }
    assert me !in h.sync;
    hide HandOff;
    SafeIsBalanced(a);
  }

  /** The first pass, too, assumes as many confirmed nodes as the quorum leaves out, and no more than are active. */
  lemma ConfirmedIsAssumedAfterHandOff(r: Registers, me: Node, minNodes: nat, active: set<Node>, wanted: int)
    requires r.leader !in r.voters && r.quorum >= 0 && me != r.leader && me !in active
    requires var h := HandOff(r, me, minNodes); (r.quorum == 0 || r.quorum < |h.sync|) && h.sync * active != {}
    ensures var h := HandOff(r, me, minNodes);
      Transitions(Observe(h, 0, active, wanted, me)) ==
      Transitions(Observe(h, Min(|h.sync * active|, |h.sync| - r.quorum), active, wanted, me))
  {
    var h := HandOff(r, me, minNodes);
    var c := Min(|h.sync * active|, |h.sync| - r.quorum);
    var s, t := Observe(h, 0, active, wanted, me), Observe(h, c, active, wanted, me);
    AdoptedIsGood(r, me, minNodes);
    assert h.leader == r.leader && h.quorum == r.quorum;
    assert Of(s) == h.Clamped() && Of(t) == h.Clamped() && Of(TakenOver(s)).Good(me) && Of(TakenOver(t)).Good(me);
    MatchingKeyIsAdopted(h, me, s);
    MatchingKeyIsAdopted(h, me, t);
    hide HandOff, Registers.Good;
    var q := Quorum(me, h.quorum, h.sync);
    AssumesAfterTakeover(s, t, q);
  }

  lemma AssumesAfterTakeover(s: State, t: State, q: Transition)
    requires s.leader != s.leaderWanted && s.confirmed == 0 && s.sync * s.active != {}
    requires t == s.(confirmed := Min(|s.sync * s.active|, |s.sync| - s.quorum))
    requires AdoptLeader(s) == Ok(TakenOver(s).(trace := [q])) && AdoptLeader(t) == Ok(TakenOver(t).(trace := [q]))
    ensures Transitions(s) == Transitions(t)
  {
    var a, b := TakenOver(s).(trace := [q]), TakenOver(t).(trace := [q]);
    assert AssumeConfirmed(a) == b && AssumeConfirmed(b) == b;
    hide AdoptLeader, HandleNonSteadyCases, RemoveGoneNodes, AddNewNodes, HandleReplicationFactorChange, Merge;
    hide QuorumUpdate;
    assert Reconcile(a) == Reconcile(b);
    hide Reconcile;
    assert GenerateTransitions(s) == GenerateTransitions(t);
  }

  /** The change of leader fails before the leader changes, and so the pass ends in the assertion. */
  lemma RefusedTakeover(s: State)
    requires s.leader != s.leaderWanted && s.sync != {} && s.quorum > 0
    requires s.quorum >= |VotersAfterFailover(s)|
    ensures GenerateTransitions(s).Raised?
  {
    hide Reconcile, State.Safe;
  }

  /**
   The first pass after a handoff yields transitions exactly if the old quorum is within the new voters, and, when some
   replica is connected already, the phases that follow do not raise; and where it leads.
   */
  lemma FailoverPassExact(r: Registers, me: Node, minNodes: nat, confirmed: int, active: set<Node>, wanted: int)
    requires r.leader !in r.voters && r.quorum >= 0 && me != r.leader && me !in active && wanted >= 1
    ensures var h := HandOff(r, me, minNodes);
            var s := Observe(h, confirmed, active, wanted, me);
            && (Transitions(s).Some? <==>
                  && (r.quorum == 0 || r.quorum < |h.sync|)
                  && (h.sync * active == {} || !PassFails(TakenOver(s))))
            && (Transitions(s).Some? ==>
                  Replay(Of(s), Transitions(s).value) ==
                    Of(if h.sync * active == {} then TakenOver(s) else Changed(Recovered(TakenOver(s)))))
  {
    var h := HandOff(r, me, minNodes);
    var s := Observe(h, confirmed, active, wanted, me);
    AdoptedIsGood(r, me, minNodes);
    assert h.leader == r.leader && h.quorum == r.quorum && VotersAfterFailover(s) == h.sync;
    assert Of(s) == h.Clamped() && Of(TakenOver(s)).Good(me);
    MatchingKeyIsAdopted(h, me, s);
    hide HandOff, Registers.Good;
    if r.quorum == 0 || r.quorum < |h.sync| {
      TakenOverIsConsistent(r, me, minNodes, confirmed, active, wanted);
      TakeoverGoesOn(s);
    } else {
      RefusedTakeover(s);
    }
  }

  lemma TakeoverGoesOn(s: State)
    requires s.trace == [] && s.wanted >= 1 && s.leader != s.leaderWanted && s.sync != {}
    requires Consistent(TakenOver(s))
    requires AdoptLeader(s) == Ok(TakenOver(s).(trace := [Quorum(s.leaderWanted, s.quorum, s.sync)]))
    ensures Transitions(s).Some? <==> s.sync * s.active == {} || !PassFails(TakenOver(s))
    ensures Transitions(s).Some? ==>
      Replay(Of(s), Transitions(s).value) ==
        Of(if s.sync * s.active == {} then TakenOver(s) else Changed(Recovered(TakenOver(s))))
  {
    var t := Quorum(s.leaderWanted, s.quorum, s.sync);
    var a := TakenOver(s).(trace := [t]);
    assert GenerateTransitions(s) == if s.sync * s.active == {} then Ok(a) else Reconcile(a) by {
      hide AdoptLeader, Reconcile, QuorumUpdate;
    }
    assert Leads(Of(s), a) by {
      ReplaySnoc(Of(s), [], t);
      assert [] + [t] == [t];
    }
    assert Consistent(a) && !AwaitsConfirmation(a);
    RecoveredIgnoresTrace(TakenOver(s), a);
    hide AdoptLeader, GenerateTransitions, Reconcile, Consistent, PassFails, Recovered, Changed, Leads, Stops;
    if s.sync * s.active == {} {
      LeadsStops(Of(s), a);
      MergeStops(Of(s), a);
    } else {
      ReconcileExact(a);
      if Reconcile(a).Ok? {
        ReconcileStops(Of(s), a);
        MergeStops(Of(s), Reconcile(a).state);
      }
    }
  }

  /** The old quorum asks for both voters; one of them is promoted, and the key cannot be taken over. */
  lemma RefusedTakeoverWitness(a: Node, b: Node, l: Node, confirmed: int, active: set<Node>, wanted: int)
    requires a != b && a != l && b != l && a !in active && wanted >= 1
    ensures var h := HandOff(Registers(l, 2, {a, b}, 1, {a, b}), a, 0);
            h.Good(a) && Transitions(Observe(h, confirmed, active, wanted, a)).None?
  {
    var r := Registers(l, 2, {a, b}, 1, {a, b});
    HandOffIsGood(r, a, 0);
    assert HandOff(r, a, 0).sync == {b, l} && |{b, l}| == 2;
    hide Transitions, Registers.Good;
    FailoverPassExact(r, a, 0, confirmed, active, wanted);
  }
}
