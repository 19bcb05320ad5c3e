/**
 A commit over whole runs of the cluster: once it is on enough nodes of the electorate, it stays there through passes,
 strict mode and elections, and whoever wins an election by votes holds it.
 */
module QuorumDurability {
  import opened Names
  import opened Options
  import opened QuorumResolver
  import opened QuorumSafety
  import opened QuorumPhases
  import opened QuorumConvergence
  import opened QuorumPass
  import opened QuorumHistory
  import opened QuorumCluster
  import opened QuorumFailover
  import opened LeaderRace

  /** Enough nodes of the electorate hold the commit for every quorum to include one of them. */
  predicate Kept(r: Registers, holders: set<Node>) {
    r.leader !in r.voters && |holders * r.Electorate()| >= |r.Electorate()| - r.quorum
  }

  /** While the leader in the key holds the commit, that is to say that enough voters do. */
  lemma KeptIsDurable(r: Registers, holders: set<Node>)
    requires r.leader !in r.voters && r.leader in holders
    ensures Kept(r, holders) <==> Durable(r, holders)
  {
    assert holders * r.Electorate() == holders * r.voters + {r.leader};
    assert |r.Electorate()| == |r.voters| + 1;
  }

  /** Whether a commit is kept depends on the key alone. */
  lemma KeptKey(r: Registers, q: Registers, holders: set<Node>)
    requires q.leader == r.leader && q.quorum == r.quorum && q.voters == r.voters
    ensures Kept(r, holders) <==> Kept(q, holders)
  {}

  lemma KeptGrows(r: Registers, holders: set<Node>, more: set<Node>)
    requires Kept(r, holders) && holders <= more
    ensures Kept(r, more)
  {
    SubsetSize(holders * r.Electorate(), more * r.Electorate());
  }

  /** An acknowledged commit is kept, whether or not the key names the primary that acknowledged it. */
  lemma AcknowledgedIsKept(r: Registers, primary: Node, acks: set<Node>, lsn: int, holders: set<Node>)
    requires r.Good(primary) && Acknowledged(r, acks, lsn) && acks + {primary} <= holders
    ensures Kept(r, holders)
  {
    var e, mine := r.Electorate(), acks + {primary};
    assert |mine| == |acks| + 1;
    SubsetSize(mine * e, holders * e);
    if r.voters == {} && r.leader == primary {
      assert e == {primary} && mine * e == {primary};
    } else {
      MeetsBySize(mine, e, r.Acknowledgers(primary));
    }
  }

  lemma MeetsBySize(a: set<Node>, e: set<Node>, all: set<Node>)
    requires a <= all
    ensures |a * e| >= |a| + |e| - |e + all|
  {
    SplitBy(a, e);
    UnionSize(e, all);
    SubsetSize(a - e, all - e);
  }

  /** Whoever wins by votes holds a commit that is kept. */
  lemma WinnerHoldsKept(race: Race, statuses: seq<Status>, holders: set<Node>, lsn: int)
    requires race.quorumMode && |race.VotersFor(statuses)| > race.Quorum()
    requires Kept(race.key, holders) && Truthful(race, statuses, holders, lsn)
    ensures race.position >= lsn
  {
    var voters := race.VotersFor(statuses);
    forall z | z in voters ensures z in race.VotingSet() { VoterReports(race, statuses, z); }
    var e := race.key.Electorate();
    var z := Pigeonhole(voters, holders * e, e);
    VoterIsNotAhead(race, statuses, holders, lsn, z);
  }

  // ---------- one transition ----------

  /**
   A write of the key counts no more confirmed nodes than hold the commit; or it changes the leader, puts the old leader
   in the place of the new one, and changes nothing else.
   */
  predicate Careful(before: Registers, t: Transition, confirmed: int, holders: set<Node>, primary: Node) {
    t.Quorum? ==>
      var after := Apply(before, t);
      || (&& t.leader == primary && primary !in t.names
          && Covered(after, confirmed) && after.sync <= after.voters
          && |holders * after.sync| >= Min(after.numsync, confirmed))
      || (primary != before.leader && t == Adoption(before, primary))
  }

  function Adoption(r: Registers, primary: Node): Transition {
    Quorum(primary, r.quorum, r.voters - {primary} + {r.leader})
  }

  /** The electorate gains the new leader if it was not in it before; the old one need not hold the commit. */
  lemma AdoptionKeeps(r: Registers, primary: Node, holders: set<Node>)
    requires Kept(r, holders) && primary in holders && primary != r.leader
    ensures Kept(Apply(r, Adoption(r, primary)), holders)
  {
    var e := r.Electorate();
    var q := Apply(r, Adoption(r, primary));
    assert q.Electorate() == e + {primary};
    if primary in e {
      assert q.Electorate() == e;
    } else {
      assert holders * q.Electorate() == holders * e + {primary};
      assert |q.Electorate()| == |e| + 1;
    }
  }

  lemma CarefulKeeps(r: Registers, t: Transition, confirmed: int, holders: set<Node>, primary: Node)
    requires Kept(r, holders) && primary in holders && Careful(r, t, confirmed, holders, primary)
    ensures Kept(Apply(r, t), holders)
  {
    if t.Quorum? {
      if primary != r.leader && t == Adoption(r, primary) {
        AdoptionKeeps(r, primary, holders);
      } else {
        CoveredIsDurable(Apply(r, t), confirmed, holders);
        KeptIsDurable(Apply(r, t), holders);
      }
    } else {
      KeptKey(r, Apply(r, t), holders);
    }
  }

  // ---------- one pass ----------

  /** The nodes that hold the commit before each of `n` steps and after the last. */
  predicate Growing(holders: seq<set<Node>>, n: nat) {
    |holders| == n + 1 && forall i | 0 <= i < n :: holders[i] <= holders[i + 1]
  }

  ghost predicate CarefulPass(
      r: Registers, ts: seq<Transition>, n: nat, confirmed: int, holders: seq<set<Node>>, primary: Node) {
    && n <= |ts| && Growing(holders, n)
    && forall k | 0 <= k < n :: Careful(Replay(r, ts[..k]), ts[k], confirmed, holders[k + 1], primary)
  }

  lemma {:induction false} CarefulPassKeeps(
      r: Registers, ts: seq<Transition>, n: nat, confirmed: int, holders: seq<set<Node>>, primary: Node, k: nat)
    requires CarefulPass(r, ts, n, confirmed, holders, primary) && k <= n
    requires Kept(r, holders[0]) && primary in holders[0]
    ensures Kept(Replay(r, ts[..k]), holders[k]) && primary in holders[k]
  {
    hide Careful, Kept;
    if k > 0 {
      CarefulPassKeeps(r, ts, n, confirmed, holders, primary, k - 1);
      var before := Replay(r, ts[..k - 1]);
      KeptGrows(before, holders[k - 1], holders[k]);
      CarefulKeeps(before, ts[k - 1], confirmed, holders[k], primary);
      ReplayNext(r, ts, k - 1);
    }
  }

  lemma ReplayNext(r: Registers, ts: seq<Transition>, k: nat)
    requires k < |ts|
    ensures Replay(r, ts[..k + 1]) == Apply(Replay(r, ts[..k]), ts[k])
  {
    assert ts[..k + 1][..k] == ts[..k];
  }

  // ---------- passes, by what is known at their start ----------

  /**
   The key names the primary, unconfirmed standbys do not weaken the quorum, and as many of the listed standbys hold the
   commit as are counted as confirmed.
   */
  predicate CountsHolders(
      r: Registers, confirmed: int, active: set<Node>, wanted: int, holders: set<Node>, primary: Node) {
    var s := Observe(r, confirmed, active, wanted, primary);
    && r.leader == primary && Guarded(s) && (s.active == s.sync || !Short(s))
    && |holders * r.sync| >= confirmed
  }

  lemma CountingPassIsCareful(
      r: Registers, confirmed: int, active: set<Node>, wanted: int, ts: seq<Transition>, holders: set<Node>, n: nat)
    requires r.Good(r.leader) && r.leader !in active
    requires CountsHolders(r, confirmed, active, wanted, holders, r.leader)
    requires Transitions(Observe(r, confirmed, active, wanted, r.leader)) == Some(ts) && n <= |ts|
    ensures CarefulPass(r, ts, n, confirmed, seq(n + 1, _ => holders), r.leader)
  {
    var hs := seq(n + 1, _ => holders);
    PassIsSafe(r, confirmed, active, wanted, r.leader);
    PassIsCovered(r, confirmed, active, wanted, r.leader);
    hide Transitions, Guarded, Short, Covered, Registers.Good, Careful, Observe, Apply, Replay;
    forall k | 0 <= k < n
      ensures Careful(Replay(r, ts[..k]), ts[k], confirmed, hs[k + 1], r.leader)
    {
      assert GoodAfter(r, ts, r.leader, k + 1) && CoveredAt(r, ts, confirmed, k + 1);
      ReplayNext(r, ts, k);
      CoveredIsCareful(r, Replay(r, ts[..k]), ts[k], confirmed, holders);
    }
  }

  lemma CoveredIsCareful(r: Registers, before: Registers, t: Transition, confirmed: int, holders: set<Node>)
    requires var after := Apply(before, t);
      && after.leader == r.leader && after.Good(r.leader) && Covered(after, confirmed) && r.sync <= after.sync
      && (t.Quorum? ==> after.sync <= after.voters)
    requires |holders * r.sync| >= confirmed
    ensures Careful(before, t, confirmed, holders, r.leader)
  {
    SubsetSize(holders * r.sync, holders * Apply(before, t).sync);
  }

  /** A new primary takes over the key that matches its names, and waits for its replicas. */
  predicate TakesOverAndWaits(r: Registers, active: set<Node>, primary: Node) {
    Matches(r, primary) && r.sync * active == {}
  }

  /** The names are those of a handoff, and the quorum is within the new voters. */
  predicate Matches(r: Registers, primary: Node) {
    r.leader != primary && r.voters - {primary} + {r.leader} == r.sync && (r.quorum == 0 || r.quorum < |r.sync|)
  }

  lemma MatchingIsAdopted(r: Registers, confirmed: int, active: set<Node>, wanted: int, primary: Node)
    requires r.Good(primary) && Matches(r, primary)
    ensures var s := Observe(r, confirmed, active, wanted, primary);
      && AdoptLeader(s) == Ok(TakenOver(s).(trace := [Adoption(r, primary)]))
      && TakenOver(s).Safe()
  {
    var s := Observe(r, confirmed, active, wanted, primary);
    var q := Of(TakenOver(s));
    assert r.Electorate() + r.Acknowledgers(primary) == q.Electorate() + q.Acknowledgers(primary);
    assert q.Good(primary);
    GoodIsSafe(TakenOver(s));
    hide Registers.Good, AdoptLeader, State.Safe;
    MatchingKeyIsAdopted(r, primary, s);
  }

  lemma WaitingPassIsCareful(
      r: Registers, confirmed: int, active: set<Node>, wanted: int, holders: set<Node>, primary: Node, n: nat)
    requires r.Good(primary) && TakesOverAndWaits(r, active, primary) && n <= 1
    ensures var ts := Transitions(Observe(r, confirmed, active, wanted, primary));
      ts == Some([Adoption(r, primary)]) && CarefulPass(r, ts.value, n, confirmed, seq(n + 1, _ => holders), primary)
  {
    var s := Observe(r, confirmed, active, wanted, primary);
    MatchingIsAdopted(r, confirmed, active, wanted, primary);
    hide Registers.Good, AdoptLeader, Transitions, State.Safe;
    WaitingAdoption(s, Adoption(r, primary));
    var ts := [Adoption(r, primary)];
    assert ts[..0] == [];
  }

  lemma WaitingAdoption(s: State, t: Transition)
    requires s.leaderWanted != s.leader && AdoptLeader(s) == Ok(TakenOver(s).(trace := [t]))
    requires s.sync * s.active == {} && t.Quorum?
    ensures Transitions(s) == Some([t])
  {
    hide AdoptLeader, Reconcile, QuorumUpdate;
    assert GenerateTransitions(s) == AdoptLeader(s);
    hide GenerateTransitions;
    assert [t][1..] == [] && Merge([]) == [];
    assert Merge([t]) == [t];
  }

  /** The state from which the phases of a pass start: after the change of leader, if there is one. */
  function Start(r: Registers, confirmed: int, active: set<Node>, wanted: int, primary: Node): State {
    var s := Observe(r, confirmed, active, wanted, primary);
    if r.leader == primary then s else TakenOver(s)
  }

  /** The pass goes through all its phases, with or without a change of leader first. */
  predicate GoesThrough(r: Registers, confirmed: int, active: set<Node>, wanted: int, primary: Node) {
    && wanted >= 1 && Consistent(Start(r, confirmed, active, wanted, primary))
    && (r.leader == primary || (Matches(r, primary) && r.sync != {} && r.sync * active != {}))
  }

  /** Enough of the active nodes hold the commit for the quorum the pass ends with, or the key has no voters. */
  predicate EnoughHold(s: State, holders: set<Node>) {
    LeavesKeyEmpty(s) || |holders * s.active| >= |s.active| - ChangedQuorum(Recovered(s))
  }

  /** A pass that is carried out to its end keeps the commit exactly if enough of the active nodes hold it. */
  lemma CompletePassExact(
      r: Registers, confirmed: int, active: set<Node>, wanted: int, ts: seq<Transition>, holders: set<Node>,
      primary: Node)
    requires r.Good(primary) && GoesThrough(r, confirmed, active, wanted, primary) && primary in holders
    requires Transitions(Observe(r, confirmed, active, wanted, primary)) == Some(ts)
    ensures var q := Replay(r, ts);
      q.leader == primary &&
      (Kept(q, holders) <==> EnoughHold(Start(r, confirmed, active, wanted, primary), holders))
  {
    var s := Observe(r, confirmed, active, wanted, primary);
    var a := Start(r, confirmed, active, wanted, primary);
    var q := Replay(Of(s), ts);
    if r.leader == primary {
      PassExact(s);
    } else {
      MatchingIsAdopted(r, confirmed, active, wanted, primary);
      TakeoverGoesOn(s);
      assert a.voters != {} && !AwaitsConfirmation(a);
    }
    assert q == Of(Ended(a));
    EndedIsDurable(a, holders);
    KeptIsDurable(q, holders);
    ReplayUnclamped(r, ts);
    KeptKey(q, Replay(r, ts), holders);
  }

  lemma EndedIsDurable(s: State, holders: set<Node>)
    requires Consistent(s) && s.wanted >= 1
    ensures var q := Of(Ended(s)); q.leader == s.leader && q.leader !in q.voters
    ensures Durable(Of(Ended(s)), holders) <==> EnoughHold(s, holders)
  {
    RecoveredKeepsActive(s);
    MatchedKeepsGoal(AssumeConfirmed(s));
    MatchedKeepsGoal(Matched(AssumeConfirmed(s)));
    EmptyKeyQuorum(Recovered(s));
    hide ChangedQuorum, Matched, Settled;
    assert holders * {} == {};
  }

  lemma EmptyKeyQuorum(s: State)
    ensures !(s.active <= s.sync) && s.sync * s.active == {} && s.confirmed == 0 ==> ChangedQuorum(s) == 0
  {}

  // ---------- whole runs ----------

  /** The node has won by votes, and holds the commit if it is not behind it. */
  ghost predicate Elected(r: Registers, node: Node, holders: set<Node>, lsn: int) {
    exists race: Race, statuses ::
      && race.quorumMode && race.key == r && race.me == node && |race.VotersFor(statuses)| > race.Quorum()
      && Truthful(race, statuses, holders, lsn) && (race.position >= lsn ==> node in holders)
  }

  lemma ElectedHolds(r: Registers, node: Node, holders: set<Node>, lsn: int)
    requires Kept(r, holders) && Elected(r, node, holders, lsn)
    ensures node in holders
  {
    var race: Race, statuses :|
      && race.quorumMode && race.key == r && race.me == node && |race.VotersFor(statuses)| > race.Quorum()
      && Truthful(race, statuses, holders, lsn) && (race.position >= lsn ==> node in holders);
    WinnerHoldsKept(race, statuses, holders, lsn);
  }

  /**
   What each step has to respect for the commit at `lsn`, by the registers, the observations and the nodes that hold the
   commit when it begins. A pass may be stopped anywhere if it counts nodes that hold the commit, or takes over the key
   and waits; any other pass is carried out to its end, with enough holders for the quorum it ends with, or writes only
   what `careful` says.
   */
  ghost predicate Respects(c: Cluster, step: Step, holders: set<Node>, after: set<Node>, lsn: int) {
    match step
    case Pass(confirmed, active, wanted, applied) =>
      var r, me := c.registers, c.primary;
      var ts := Transitions(Observe(r, confirmed, active, wanted, me));
      || ts.None? || applied == 0
      || CountsHolders(r, confirmed, active, wanted, holders, me)
      || TakesOverAndWaits(r, active, me)
      || (&& applied == |ts.value| && GoesThrough(r, confirmed, active, wanted, me)
          && EnoughHold(Start(r, confirmed, active, wanted, me), holders))
      || exists careful: seq<set<Node>> ::
           && CarefulPass(r, ts.value, applied, confirmed, careful, me)
           && careful[0] == holders && careful[applied] == after
    case Strict(_, _) => true
    case Promote(node, _) => Elected(c.registers, node, holders, lsn)
  }

  lemma PassKeeps(c: Cluster, confirmed: int, active: set<Node>, wanted: int, applied: nat, ts: seq<Transition>,
                  holders: set<Node>, after: set<Node>, lsn: int)
    requires c.registers.Good(c.primary) && c.primary !in active && holders <= after
    requires Transitions(Observe(c.registers, confirmed, active, wanted, c.primary)) == Some(ts) && applied <= |ts|
    requires Respects(c, Pass(confirmed, active, wanted, applied), holders, after, lsn)
    requires Kept(c.registers, holders) && c.primary in holders
    ensures Kept(Replay(c.registers, ts[..applied]), after)
  {
    hide Transitions, Kept, Careful, CountsHolders, TakesOverAndWaits, GoesThrough, EnoughHold, Start, Registers.Good;
    var r, me := c.registers, c.primary;
    var same := seq(applied + 1, _ => holders);
    var end := ts[..applied];
    assert ts[..0] == [] && ts[..|ts|] == ts;
    if applied == 0 {
      KeptGrows(r, holders, after);
    } else if CountsHolders(r, confirmed, active, wanted, holders, me) {
      assert r.leader == me by { CountsOwnKey(r, confirmed, active, wanted, holders, me); }
      CountingPassIsCareful(r, confirmed, active, wanted, ts, holders, applied);
      CarefulPassKeeps(r, ts, applied, confirmed, same, me, applied);
      KeptGrows(Replay(r, end), holders, after);
    } else if TakesOverAndWaits(r, active, me) {
      WaitingPassIsCareful(r, confirmed, active, wanted, holders, me, 0);
      WaitingPassIsCareful(r, confirmed, active, wanted, holders, me, applied);
      CarefulPassKeeps(r, ts, applied, confirmed, same, me, applied);
      KeptGrows(Replay(r, end), holders, after);
    } else if applied == |ts| && GoesThrough(r, confirmed, active, wanted, me)
              && EnoughHold(Start(r, confirmed, active, wanted, me), holders) {
      CompletePassExact(r, confirmed, active, wanted, ts, holders, me);
      KeptGrows(Replay(r, end), holders, after);
    } else {
      var careful: seq<set<Node>> :| CarefulPass(r, ts, applied, confirmed, careful, me)
        && careful[0] == holders && careful[applied] == after;
      CarefulPassKeeps(r, ts, applied, confirmed, careful, me, applied);
    }
  }

  lemma CountsOwnKey(r: Registers, confirmed: int, active: set<Node>, wanted: int, holders: set<Node>, me: Node)
    requires CountsHolders(r, confirmed, active, wanted, holders, me)
    ensures r.leader == me
  {}

  lemma StepKeeps(c: Cluster, step: Step, d: Cluster, holders: set<Node>, after: set<Node>, lsn: int)
    requires c.registers.Good(c.primary) && Next(c, step, d) && Respects(c, step, holders, after, lsn)
    requires holders <= after && Kept(c.registers, holders) && c.primary in holders
    ensures Kept(d.registers, after) && d.primary in after
  {
    match step
    case Pass(confirmed, active, wanted, applied) =>
      hide Transitions, Kept, Respects, Registers.Good;
      var ts := Transitions(Observe(c.registers, confirmed, active, wanted, c.primary));
      if ts.Some? {
        PassKeeps(c, confirmed, active, wanted, applied, ts.value, holders, after, lsn);
      } else {
        KeptGrows(c.registers, holders, after);
      }
    case Strict(active, minNodes) =>
      KeptKey(c.registers, d.registers, holders);
      KeptGrows(d.registers, holders, after);
    case Promote(node, minNodes) =>
      ElectedHolds(c.registers, node, holders, lsn);
      KeptKey(c.registers, d.registers, holders);
      KeptGrows(d.registers, holders, after);
  }

  lemma {:induction false} KeptOverRuns(
      run: seq<Cluster>, steps: seq<Step>, holders: seq<set<Node>>, lsn: int, i: nat, j: nat)
    requires IsRun(run, steps) && run[0].registers.Good(run[0].primary)
    requires Growing(holders, |steps|) && i <= j < |run|
    requires Kept(run[i].registers, holders[i]) && run[i].primary in holders[i]
    requires forall k | i <= k < j :: Respects(run[k], steps[k], holders[k], holders[k + 1], lsn)
    ensures Kept(run[j].registers, holders[j]) && run[j].primary in holders[j]
  {
    hide Next, Respects, Kept, Registers.Good;
    if i < j {
      KeptOverRuns(run, steps, holders, lsn, i, j - 1);
      RunIsGood(run, steps, j - 1);
      StepKeeps(run[j - 1], steps[j - 1], run[j], holders[j - 1], holders[j], lsn);
    }
  }

  /**
   No commit is lost over a whole run: acknowledged at one moment, also between a promotion and the takeover of the key,
   it is held by whoever wins an election by votes at any later moment, as long as the steps in between respect it.
   */
  lemma NoCommitLostEver(
      run: seq<Cluster>, steps: seq<Step>, holders: seq<set<Node>>, i: nat, j: nat,
      acks: set<Node>, lsn: int, race: Race, statuses: seq<Status>)
    requires IsRun(run, steps) && Growing(holders, |steps|) && i <= j < |run|
    requires run[0].registers.Good(run[0].primary)
    requires Acknowledged(run[i].registers, acks, lsn) && acks + {run[i].primary} <= holders[i]
    requires forall k | i <= k < j :: Respects(run[k], steps[k], holders[k], holders[k + 1], lsn)
    requires race.quorumMode && race.key == run[j].registers && |race.VotersFor(statuses)| > race.Quorum()
    requires Truthful(race, statuses, holders[j], lsn)
    ensures race.position >= lsn
  {
    hide Next, Respects, Registers.Good, Kept, Acknowledged, Truthful;
    RunIsGood(run, steps, i);
    AcknowledgedIsKept(run[i].registers, run[i].primary, acks, lsn, holders[i]);
    KeptOverRuns(run, steps, holders, lsn, i, j);
    WinnerHoldsKept(race, statuses, holders[j], lsn);
  }
}
