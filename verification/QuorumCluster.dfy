/**
 Whole runs of a cluster in quorum commit mode: passes of the state machine stopped anywhere, strict mode,
 and failovers with the handoff before promotion. Every reachable pair of registers is good, and so no
 election loses a commit that was acknowledged under it.
 */
module QuorumCluster {
  import opened Names
  import opened Options
  import opened QuorumResolver
  import opened QuorumSafety
  import opened LeaderRace

  // ---------- the handoff before promotion ----------

  /** The number of required standbys that keeps the new primary consistent with the old `/sync` key. */
  function HandOffNumsync(r: Registers, me: Node, minNodes: int): int {
    var members := r.voters + {r.leader};
    var numsync := |members| - r.quorum - 1;
    Max(if me in members then numsync else numsync + 1, minNodes)
  }

  /** What the node about to be promoted writes into its `synchronous_standby_names`. */
  function HandOff(r: Registers, me: Node, minNodes: int): Registers {
    r.(sync := r.voters + {r.leader} - {me}, numsync := HandOffNumsync(r, me, minNodes))
  }

  /** The handoff satisfies the overlap bound against the `/sync` key that still names the old leader. */
  lemma HandOffIsGood(r: Registers, me: Node, minNodes: int)
    requires r.leader !in r.voters && r.quorum >= 0 && minNodes >= 0
    ensures HandOff(r, me, minNodes).Good(me)
    ensures me !in r.voters + {r.leader} ==> HandOff(r, me, minNodes).sync == r.voters + {r.leader}
  {
    var h := HandOff(r, me, minNodes);
    var members := r.voters + {r.leader};
    assert h.Electorate() + h.Acknowledgers(me) == h.sync + {me} == members + {me};
    assert |members| == |r.voters| + 1;
    if me in members {
      assert members == h.sync + {me};
    } else {
      assert h.sync == members;
    }
  }

  /** No smaller number of required standbys would do, apart from the minimum that is configured. */
  lemma HandOffIsTight(r: Registers, me: Node, minNodes: int, numsync: int)
    requires r.leader !in r.voters && r.quorum >= 0 && minNodes >= 0
    requires minNodes <= numsync < HandOff(r, me, minNodes).numsync
    ensures !HandOff(r, me, minNodes).(numsync := numsync).Good(me)
  {
    var h := HandOff(r, me, minNodes);
    var members := r.voters + {r.leader};
    assert h.Electorate() + h.Acknowledgers(me) == h.sync + {me} == members + {me};
    assert |members| == |r.voters| + 1;
    if me in members {
      assert members == h.sync + {me};
    } else {
      assert h.sync == members;
    }
  }

  /** The registers once the new primary has written its name and the old leader into the `/sync` key. */
  function Adopted(h: Registers, me: Node): Registers {
    h.(leader := me, voters := h.sync)
  }

  lemma AdoptedIsGood(r: Registers, me: Node, minNodes: int)
    requires r.leader !in r.voters && r.quorum >= 0 && minNodes >= 0 && me != r.leader
    ensures Adopted(HandOff(r, me, minNodes), me).Good(me)
    ensures Adopted(HandOff(r, me, minNodes), me).Clamped().Good(me)
    ensures r.voters - {me} + {r.leader} == HandOff(r, me, minNodes).sync && r.leader in HandOff(r, me, minNodes).sync
  {
    HandOffIsGood(r, me, minNodes);
    var h := HandOff(r, me, minNodes);
    var a := Adopted(h, me);
    assert a.Electorate() + a.Acknowledgers(me) == h.sync + {me};
    assert h.Electorate() + h.Acknowledgers(me) == h.sync + {me};
  }

  /** Good registers that name the primary and have voters pass `check_invariants`. */
  lemma GoodIsSafe(s: State)
    requires Of(s).Good(s.leaderWanted)
    ensures s.Safe()
  {}

  /** A change of leader to a safe state succeeds when the quorum is within the new voters. */
  lemma ChangeOfLeader(s: State, voters: set<Node>)
    requires s.leader != s.leaderWanted && s.quorum >= 0
    requires s.(leader := s.leaderWanted, voters := voters).Safe()
    ensures QuorumUpdate(s, s.quorum, voters, Some(s.leaderWanted), true) ==
            if s.quorum == 0 || s.quorum < |voters|
            then Ok(s.(leader := s.leaderWanted, voters := voters).Yield(Quorum(s.leaderWanted, s.quorum, voters)))
            else Raised(QuorumError, s)
  {
    hide State.Safe;
    var updated := s.(leader := s.leaderWanted, quorum := s.quorum, voters := voters);
    assert updated == s.(leader := s.leaderWanted, voters := voters);
  }

  lemma MatchingKeyIsAdopted(h: Registers, me: Node, s: State)
    requires h.leader != me && h.quorum >= 0 && h.voters - {me} + {h.leader} == h.sync
    requires Of(s) == h.Clamped() && s.leaderWanted == me && s.trace == []
    requires Of(s.(leader := me, voters := h.sync)).Good(me)
    ensures var o := AdoptLeader(s);
            && (o.Ok? <==> h.quorum == 0 || h.quorum < |h.sync|)
            && (o.Ok? ==> o.state == s.(leader := me, voters := h.sync, trace := [Quorum(me, h.quorum, h.sync)]))
  {
    GoodIsSafe(s.(leader := me, voters := h.sync));
    hide State.Safe, Registers.Good, QuorumUpdate, SyncUpdate;
    ChangeOfLeader(s, h.sync);
    assert h.leader in h.sync;
  }

  /**
   After the handoff, the resolver of the new primary makes itself the leader in the `/sync` key, exactly
   when the old quorum is within the new voters. The registers are good, and voters is sync.
   */
  lemma HandOffIsAdopted(r: Registers, me: Node, minNodes: int, confirmed: int, active: set<Node>, wanted: int)
    requires r.leader !in r.voters && r.quorum >= 0 && minNodes >= 0 && me != r.leader
    ensures var h := HandOff(r, me, minNodes);
            var o := AdoptLeader(Observe(h, confirmed, active, wanted, me));
            && (o.Ok? <==> r.quorum == 0 || r.quorum < |h.sync|)
            && (o.Ok? ==> && Of(o.state) == Adopted(h, me).Clamped() && Of(o.state).Good(me)
                          && o.state.trace == [Quorum(me, r.quorum, h.sync)])
  {
    hide Registers.Good, AdoptLeader;
    AdoptedIsGood(r, me, minNodes);
    var h := HandOff(r, me, minNodes);
    MatchingKeyIsAdopted(h, me, Observe(h, confirmed, active, wanted, me));
  }

  lemma SeededAsHandOff(r: Registers, me: Node)
    requires r.leader !in r.voters && r.quorum >= 0 && me != r.leader
    requires r.quorum == 0 || r.quorum < |r.voters - {me} + {r.leader}|
    ensures var voters := r.voters - {me} + {r.leader};
            r.(numsync := |voters| - r.quorum, sync := voters) == HandOff(r, me, 0)
  {
    var voters := r.voters - {me} + {r.leader};
    assert voters == r.voters + {r.leader} - {me} && |voters| > 0;
    HandOffCounts(r.voters + {r.leader}, me);
    assert |r.voters + {r.leader}| == |r.voters| + 1;
    assert HandOffNumsync(r, me, 0) == |voters| - r.quorum;
  }

  lemma HandOffCounts(members: set<Node>, me: Node)
    ensures |members - {me}| == if me in members then |members| - 1 else |members|
  {
    SplitBy(members, {me});
    assert members * {me} == if me in members then {me} else {};
  }

  /** When the handoff left no trace, the resolver fills `synchronous_standby_names` before it changes the leader. */
  lemma SeededIsAdopted(r: Registers, me: Node, confirmed: int, active: set<Node>, wanted: int)
    requires r.leader !in r.voters && r.quorum >= 0 && me != r.leader && r.sync == {}
    requires r.quorum == 0 || r.quorum < |r.voters - {me} + {r.leader}|
    ensures var h := HandOff(r, me, 0);
            var o := AdoptLeader(Observe(r, confirmed, active, wanted, me));
            && h.Good(me) && Adopted(h, me).Good(me)
            && o.Ok? && Of(o.state) == Adopted(h, me)
            && o.state.trace == [Sync(r.leader, h.numsync, h.sync), Quorum(me, r.quorum, h.sync)]
  {
    hide State.Safe, Registers.Good, HandOff, QuorumUpdate;
    HandOffIsGood(r, me, 0);
    AdoptedIsGood(r, me, 0);
    SeededAsHandOff(r, me);
    var h := HandOff(r, me, 0);
    var s := Observe(r, confirmed, active, wanted, me);
    var seeded := s.(numsync := h.numsync, sync := h.sync);
    assert VotersAfterFailover(s) == h.sync;
    GoodIsSafe(seeded);
    GoodIsSafe(seeded.(leader := me, voters := h.sync));
    var yielded := seeded.Yield(Sync(r.leader, h.numsync, h.sync));
    SafeIgnoresTrace(seeded.(leader := me, voters := h.sync), yielded.(leader := me, voters := h.sync));
    assert SyncUpdate(s, h.numsync, h.sync) == Ok(yielded);
    hide SyncUpdate;
    assert AdoptLeader(s) == QuorumUpdate(yielded, s.quorum, h.sync, Some(me), true);
    hide AdoptLeader;
    ChangeOfLeader(yielded, h.sync);
  }

  lemma SafeIgnoresTrace(s: State, t: State)
    requires t == s.(trace := t.trace)
    ensures s.Safe() <==> t.Safe()
  {}

  // ---------- strict mode ----------

  /** With fewer active standbys than required, the registers fall back to the voters of the `/sync` key. */
  function StrictMode(r: Registers, active: set<Node>, minNodes: int): Registers {
    if |active| < minNodes then
      r.(sync := r.voters, numsync := Max(minNodes, |r.voters| - r.quorum))
    else if minNodes == 0 && active == {} && r.voters == {} then
      r.(sync := {}, numsync := 0)
    else
      r
  }

  lemma StrictModeIsGood(r: Registers, active: set<Node>, minNodes: int)
    requires r.Good(r.leader) && minNodes >= 0
    ensures StrictMode(r, active, minNodes).Good(r.leader)
  {
    var s := StrictMode(r, active, minNodes);
    assert s.sync == s.voters ==> s.Electorate() + s.Acknowledgers(r.leader) == s.voters + {r.leader};
  }

  // ---------- whole runs ----------

  datatype Cluster = Cluster(primary: Node, registers: Registers)

  datatype Step =
      /** One iteration of the apply loop, stopped after `applied` transitions by a timeout, a lost
          compare-and-set or a restart; the observations are arbitrary. */
    | Pass(confirmed: int, active: set<Node>, wanted: int, applied: nat)
    | Strict(active: set<Node>, minNodes: nat)
      /** A node is promoted, by winning the race or by hand, and writes its `synchronous_standby_names` before that. */
    | Promote(node: Node, minNodes: nat)

  ghost predicate Next(c: Cluster, step: Step, d: Cluster) {
    match step
    case Pass(confirmed, active, wanted, applied) =>
      var ts := Transitions(Observe(c.registers, confirmed, active, wanted, c.primary));
      && c.primary !in active && d.primary == c.primary
      && (if ts.Some? then applied <= |ts.value| && d.registers == Replay(c.registers, ts.value[..applied])
          else d.registers == c.registers)
    case Strict(active, minNodes) =>
      && d.primary == c.primary
      && d.registers ==
           if c.registers.leader == c.primary then StrictMode(c.registers, active, minNodes) else c.registers
    case Promote(node, minNodes) =>
      d == Cluster(node, HandOff(c.registers, node, minNodes))
  }

  ghost predicate IsRun(run: seq<Cluster>, steps: seq<Step>) {
    && |run| == |steps| + 1
    && forall i | 0 <= i < |steps| :: Next(run[i], steps[i], run[i + 1])
  }

  lemma NextIsGood(c: Cluster, step: Step, d: Cluster)
    requires c.registers.Good(c.primary) && Next(c, step, d)
    ensures d.registers.Good(d.primary)
  {
    match step
    case Pass(confirmed, active, wanted, applied) =>
      hide Transitions, Registers.Good;
      PassIsSafe(c.registers, confirmed, active, wanted, c.primary);
      var ts := Transitions(Observe(c.registers, confirmed, active, wanted, c.primary));
      assert ts.Some? ==> GoodAfter(c.registers, ts.value, c.primary, applied);
    case Strict(active, minNodes) =>
      if c.registers.leader == c.primary {
        StrictModeIsGood(c.registers, active, minNodes);
      }
    case Promote(node, minNodes) =>
      HandOffIsGood(c.registers, node, minNodes);
  }

  /** Safety over whole runs: from good registers, only good registers are ever reached. */
  lemma {:induction false} RunIsGood(run: seq<Cluster>, steps: seq<Step>, i: nat)
    requires IsRun(run, steps) && i < |run|
    requires run[0].registers.Good(run[0].primary)
    ensures run[i].registers.Good(run[i].primary)
  {
    hide Next, Registers.Good;
    if i > 0 {
      RunIsGood(run, steps, i - 1);
      NextIsGood(run[i - 1], steps[i - 1], run[i]);
    }
  }

  /** The registers with which synchronous replication is switched on: the primary's name and no voters. */
  lemma FirstKeyIsGood(primary: Node, numsync: int, sync: set<Node>)
    requires primary !in sync
    ensures Registers(primary, 0, {}, numsync, sync).Good(primary)
  {}

  /**
   End to end: at any moment of any run, whatever the primary has acknowledged under the registers of that
   moment is held by every node that can win the race by votes, and by every winner at all once the `/sync`
   key names that primary.
   */
  lemma NoCommitLost(run: seq<Cluster>, steps: seq<Step>, i: nat, race: Race, statuses: seq<Status>,
                     acks: set<Node>, lsn: int)
    requires IsRun(run, steps) && i < |run| && run[0].registers.Good(run[0].primary)
    requires race.quorumMode && race.key == run[i].registers && race.Wins(statuses)
    requires Acknowledged(race.key, acks, lsn)
    requires Truthful(race, statuses, acks + {run[i].primary}, lsn)
    requires |race.VotersFor(statuses)| > race.Quorum() || race.key.leader == run[i].primary
    ensures race.position >= lsn
  {
    RunIsGood(run, steps, i);
    WinnerHoldsCommit(race, statuses, run[i].primary, acks, lsn);
  }
}
