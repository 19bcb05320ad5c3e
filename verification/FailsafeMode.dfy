/**
 Failsafe mode: a primary that has lost the DCS goes on as long as every member of the last known topology agrees.
 A member that has agreed sees the primary as the leader for the next `ttl` seconds and keeps out of the leader race.
 Every request, every load of the cluster and every attempt to take the lock is one step; the steps interleave freely.
 */
module FailsafeMode {
  import opened Names
  import opened Options

  /** What all members share: how long an agreement lasts, and the members in the `/failsafe` key. */
  datatype Setup = Setup(ttl: int, topology: set<Node>)

  /** Failsafe state and role of a member. `unlocked` is what its running cycle saw when it loaded the cluster. */
  datatype Member = Member(
    lastUpdate: int, leader: Node, primary: bool, leading: bool, unlocked: Option<bool>)

  datatype World = World(now: int, lock: Option<Node>, members: map<Node, Member>)

  /** The other circumstances that the leader race depends on. */
  datatype Circumstances = Circumstances(
    releasedRecently: bool, paused: bool, nofailover: bool, starting: bool, failover: Option<bool>,
    watchdog: bool, timelineOk: bool, wonRace: bool)

  /** `Failsafe.leader`: who has announced itself less than `ttl` ago; without a name it is as good as nobody. */
  function Announced(setup: Setup, m: Member, now: int): Option<Node> {
    if m.lastUpdate + setup.ttl > now then Some(m.leader) else None
  }

  /** `is_healthiest_node`; `failover` is the result of a manual failover if the `/failover` key exists. */
  predicate Healthiest(setup: Setup, n: Node, m: Member, c: Circumstances) {
    !c.releasedRecently
    && if c.paused && !c.nofailover && c.failover.Some? then c.failover.value
       else if c.starting then false
       else if m.primary then c.timelineOk
       else if c.paused || c.nofailover then false
       else if c.failover.Some? then c.failover.value
       else if !c.watchdog then false
       else if setup.topology != {} && n !in setup.topology then false
       else c.wonRace
  }

  /** Who may race: out of pause, without a `/failover` key, a member in recovery has to pass every check. */
  lemma OrdinaryCandidate(setup: Setup, n: Node, m: Member, c: Circumstances)
    requires !m.primary && !c.paused && c.failover.None?
    ensures Healthiest(setup, n, m, c) <==>
      && !c.releasedRecently && !c.starting && !c.nofailover && c.watchdog && c.wonRace
      && (setup.topology == {} || n in setup.topology)
  {}

  /** A primary may take the lock back unless the timeline has moved on; in pause only primaries may. */
  lemma OtherCandidates(setup: Setup, n: Node, m: Member, c: Circumstances)
    requires c.failover.None?
    ensures m.primary ==> (Healthiest(setup, n, m, c) <==> !c.releasedRecently && !c.starting && c.timelineOk)
    ensures c.paused && !m.primary ==> !Healthiest(setup, n, m, c)
  {}

  datatype Step =
    | Tick(to: int)
    | Post(node: Node, from: Node)
    | Load(node: Node)
    | Race(node: Node, circumstances: Circumstances)
    | Promote(node: Node)
    | EndCycle(node: Node)
    | DcsError(node: Node, agreed: bool)
    | Demote(node: Node)
    | Expire
    | Restart(node: Node)

  predicate Enabled(w: World, step: Step) {
    match step
    case Tick(to) => to >= w.now
    case Expire => true
    case Post(n, from) => n in w.members && from != ""
    case Load(n) => n in w.members
    case Race(n, _) => n in w.members && w.members[n].unlocked.Some?
    case Promote(n) => n in w.members && w.members[n].leading
    case EndCycle(n) => n in w.members
    case DcsError(n, _) => n in w.members && w.members[n].primary
    case Demote(n) => n in w.members && w.members[n].primary
    case Restart(n) => n in w.members
  }

  /** A member that runs as a primary turns down the request of another one. */
  predicate Accepts(w: World, step: Step) {
    step.Post? && step.node in w.members && !w.members[step.node].primary
  }

  /** The member takes the lock: its cycle has seen no leader, it is the healthiest, and the lock is free. */
  predicate Acquires(setup: Setup, w: World, step: Step) {
    && step.Race? && step.node in w.members && w.lock.None?
    && w.members[step.node].unlocked == Some(true)
    && Healthiest(setup, step.node, w.members[step.node], step.circumstances)
  }

  function Do(setup: Setup, w: World, step: Step): World
    requires Enabled(w, step)
  {
    match step
    case Tick(to) => w.(now := to)
    case Expire => w.(lock := None)
    case Post(n, from) =>
      if Accepts(w, step) then Put(w, n, w.members[n].(lastUpdate := w.now, leader := from)) else w
    case Load(n) =>
      var m := w.members[n];
      var unlocked := w.lock.None? && (Announced(setup, m, w.now).None? || m.leader == "");
      Put(w, n, m.(unlocked := Some(unlocked), leading := m.leading && w.lock == Some(n)))
    case Race(n, _) =>
      if Acquires(setup, w, step) then Put(w.(lock := Some(n)), n, w.members[n].(leading := true)) else w
    case Promote(n) => Put(w, n, w.members[n].(primary := true))
    case EndCycle(n) =>
      var m := w.members[n].(unlocked := None);
      Put(w, n, if m.leading then m.(lastUpdate := 0, leader := "") else m)
    case DcsError(n, agreed) =>
      var m := w.members[n];
      Put(w, n, if agreed then m.(leading := true, lastUpdate := w.now)
                else m.(leading := false, primary := false, lastUpdate := 0, leader := ""))
    case Demote(n) => Put(w, n, w.members[n].(primary := false, leading := false))
    case Restart(n) => Put(w, n, Member(0, "", false, false, None))
  }

  function Put(w: World, n: Node, m: Member): World { w.(members := w.members[n := m]) }

  // ---------- one member ----------

  /** An agreement given at `since` or later, by a member that is not about to take the lock. */
  predicate Bound(w: World, n: Node, since: int) {
    && n in w.members && since <= w.now
    && var m := w.members[n];
       !m.primary && !m.leading && m.unlocked != Some(true) && m.lastUpdate >= since && m.leader != ""
  }

  /** The steps the protection is promised for: no restart of the member. */
  predicate Orderly(step: Step, n: Node) { !(step.Restart? && step.node == n) }

  lemma BoundMemberKeepsOut(setup: Setup, w: World, step: Step, n: Node, since: int)
    requires Enabled(w, step) && Bound(w, n, since) && Orderly(step, n) && w.now < since + setup.ttl
    ensures !(Acquires(setup, w, step) && step.node == n)
    ensures Bound(Do(setup, w, step), n, since)
  {}

  /** A member that is not in the topology disqualifies itself. */
  lemma StrangerKeepsOut(setup: Setup, w: World, step: Step)
    requires Acquires(setup, w, step) && setup.topology != {}
    requires !w.members[step.node].primary && !step.circumstances.paused && step.circumstances.failover.None?
    ensures step.node in setup.topology
  {}

  /** A cycle that loads the cluster sees no leader exactly if the lock is free and no agreement is in force. */
  lemma LoadSees(setup: Setup, w: World, n: Node)
    requires n in w.members
    ensures var m, t := w.members[n], Do(setup, w, Load(n)).members[n];
      && t.unlocked == Some(w.lock == None && (m.leader == "" || w.now >= m.lastUpdate + setup.ttl))
      && (t.leading <==> m.leading && w.lock == Some(n))
      && t.lastUpdate == m.lastUpdate && t.leader == m.leader && t.primary == m.primary
  {}

  /** The protection lasts no longer: when it is over, the member may take a free lock in its next cycle. */
  lemma AgreementEnds(setup: Setup, w: World, n: Node)
    requires n in w.members && !w.members[n].primary && w.lock == None
    requires n in setup.topology || setup.topology == {}
    requires w.now >= w.members[n].lastUpdate + setup.ttl
    ensures Acquires(setup, Do(setup, w, Load(n)), Race(n, Winning()))
  {}

  // ---------- runs ----------

  datatype Run = Run(worlds: seq<World>, steps: seq<Step>)
  {
    ghost predicate Valid(setup: Setup) {
      && |worlds| == |steps| + 1
      && forall i | 0 <= i < |steps| :: Enabled(worlds[i], steps[i]) && worlds[i + 1] == Do(setup, worlds[i], steps[i])
    }

    /** Member `n` agrees with `primary` in step `i`, not being about to take the lock. */
    ghost predicate Agrees(n: Node, primary: Node, i: nat, since: int) {
      && i < |steps| < |worlds| && steps[i] == Post(n, primary) && Accepts(worlds[i], steps[i])
      && worlds[i].now >= since && !worlds[i].members[n].leading && worlds[i].members[n].unlocked != Some(true)
    }

    /** `check_failsafe_topology` of `primary`, begun at `since` and done in step `end`, has succeeded. */
    ghost predicate Agreed(setup: Setup, primary: Node, since: int, end: nat) {
      && primary in setup.topology
      && forall n | n in setup.topology && n != primary :: exists i | 0 <= i < end :: Agrees(n, primary, i, since)
    }
  }

  lemma {:induction false} TimeGoesOn(setup: Setup, run: Run, i: nat, j: nat)
    requires run.Valid(setup) && i <= j < |run.worlds|
    ensures run.worlds[i].now <= run.worlds[j].now
  {
    if i < j { TimeGoesOn(setup, run, i, j - 1); }
  }

  lemma {:induction false} StaysBound(setup: Setup, run: Run, n: Node, primary: Node, i: nat, k: nat, since: int)
    requires run.Valid(setup) && run.Agrees(n, primary, i, since) && i < k < |run.worlds|
    requires run.worlds[k].now < since + setup.ttl
    requires forall j | i <= j < k :: Orderly(run.steps[j], n)
    ensures Bound(run.worlds[k], n, since)
    decreases k
  {
    if k > i + 1 {
      TimeGoesOn(setup, run, k - 1, k);
      StaysBound(setup, run, n, primary, i, k - 1, since);
      BoundMemberKeepsOut(setup, run.worlds[k - 1], run.steps[k - 1], n, since);
    }
  }

  /**
   Once every member of the topology has agreed since `since`, nobody but the primary takes the lock before
   `since + ttl`: members of the topology see the primary as the leader, and others disqualify themselves.
   */
  lemma NoSecondLeader(setup: Setup, run: Run, primary: Node, since: int, end: nat, k: nat)
    requires run.Valid(setup) && run.Agreed(setup, primary, since, end) && end <= k < |run.steps|
    requires run.worlds[k].now < since + setup.ttl
    requires forall j, n | 0 <= j < k && n in setup.topology :: Orderly(run.steps[j], n)
    requires run.steps[k].Race? ==> !run.steps[k].circumstances.paused && run.steps[k].circumstances.failover.None?
    ensures Acquires(setup, run.worlds[k], run.steps[k]) ==>
      var n := run.steps[k].node;
      n == primary || (n !in setup.topology && run.worlds[k].members[n].primary)
  {
    var w, step := run.worlds[k], run.steps[k];
    if Acquires(setup, w, step) && step.node !in setup.topology && !w.members[step.node].primary {
      StrangerKeepsOut(setup, w, step);
    }
    if Acquires(setup, w, step) && step.node != primary && step.node in setup.topology {
      var i :| 0 <= i < end && run.Agrees(step.node, primary, i, since);
      StaysBound(setup, run, step.node, primary, i, k, since);
    }
  }

  /**
   The condition on a member that is about to take the lock is needed: its cycle has loaded the cluster without a
   leader, it agrees that the primary goes on, and then it takes the lock.
   */
  lemma AgreedAndAcquired(setup: Setup, primary: Node, n: Node, now: int, c: Circumstances) returns (run: Run)
    requires setup.topology == {primary, n} && primary != n && primary != ""
    requires now >= setup.ttl && !c.releasedRecently && !c.paused && !c.nofailover && !c.starting
    requires c.failover.None? && c.watchdog && c.wonRace
    ensures run.Valid(setup) && run.steps == [Load(n), Post(n, primary), Race(n, c)]
    ensures Accepts(run.worlds[1], run.steps[1]) && Acquires(setup, run.worlds[2], run.steps[2])
  {
    var m := Member(0, "", false, false, None);
    var w0 := World(now, None, map[primary := Member(0, "", true, true, None), n := m]);
    var w1 := Do(setup, w0, Load(n));
    var w2 := Do(setup, w1, Post(n, primary));
    run := Run([w0, w1, w2, Do(setup, w2, Race(n, c))], [Load(n), Post(n, primary), Race(n, c)]);
  }

  /** A run in which member `n` agrees at once, and takes the lock in its last step, before the agreement runs out. */
  ghost predicate AgreesThenAcquires(setup: Setup, w: World, primary: Node, n: Node, run: Run) {
    && run.Valid(setup) && |run.steps| > 1 && run.worlds[0] == w && run.steps[0] == Post(n, primary)
    && (forall j | 0 <= j < |run.steps| :: Orderly(run.steps[j], n) && Plain(run.steps[j]))
    && var k := |run.steps| - 1;
       run.worlds[k].now < w.now + setup.ttl && Acquires(setup, run.worlds[k], run.steps[k]) && run.steps[k].node == n
  }

  /** Neither in pause nor with a `/failover` key. */
  predicate Plain(step: Step) {
    step.Race? ==> !step.circumstances.paused && step.circumstances.failover.None?
  }

  /** The circumstances of a member that wins the race. */
  function Winning(): Circumstances { Circumstances(false, false, false, false, None, true, true, true) }

  /** Its running cycle has seen no leader: the lock is free again, and the race goes on. */
  lemma RacingMemberAcquires(setup: Setup, w: World, primary: Node, n: Node) returns (run: Run)
    requires n in w.members && !w.members[n].primary && primary != "" && setup.ttl > 0
    requires n in setup.topology || setup.topology == {}
    requires w.members[n].unlocked == Some(true)
    ensures AgreesThenAcquires(setup, w, primary, n, run)
  {
    var steps := [Post(n, primary), Expire, Race(n, Winning())];
    var w1 := Do(setup, w, steps[0]);
    var w2 := Do(setup, w1, steps[1]);
    run := Run([w, w1, w2, Do(setup, w2, steps[2])], steps);
  }

  /** It takes itself for the leader: the end of its cycle forgets the agreement, and the next cycle sees no leader. */
  lemma LeadingMemberAcquires(setup: Setup, w: World, primary: Node, n: Node) returns (run: Run)
    requires n in w.members && !w.members[n].primary && primary != "" && setup.ttl > 0
    requires n in setup.topology || setup.topology == {}
    requires w.members[n].leading
    ensures AgreesThenAcquires(setup, w, primary, n, run)
  {
    var steps := [Post(n, primary), EndCycle(n), Expire, Load(n), Race(n, Winning())];
    var w1 := Do(setup, w, steps[0]);
    var w2 := Do(setup, w1, steps[1]);
    var w3 := Do(setup, w2, steps[2]);
    var w4 := Do(setup, w3, steps[3]);
    assert w4.members[n].unlocked == Some(true);
    run := Run([w, w1, w2, w3, w4, Do(setup, w4, steps[4])], steps);
  }

  /**
   Exactly when a member of the topology that agrees may still take the lock: when its running cycle has loaded the
   cluster without a leader, or when it takes itself for the leader.
   */
  lemma AgreedAndAcquiredExact(setup: Setup, w: World, primary: Node, n: Node)
    requires n in w.members && !w.members[n].primary && primary != "" && setup.ttl > 0
    requires n in setup.topology || setup.topology == {}
    ensures (exists run :: AgreesThenAcquires(setup, w, primary, n, run)) <==>
            w.members[n].unlocked == Some(true) || w.members[n].leading
  {
    if w.members[n].unlocked == Some(true) {
      var run := RacingMemberAcquires(setup, w, primary, n);
    } else if w.members[n].leading {
      var run := LeadingMemberAcquires(setup, w, primary, n);
    } else {
      forall run
        ensures !AgreesThenAcquires(setup, w, primary, n, run)
      {
        if AgreesThenAcquires(setup, w, primary, n, run) {
          var k := |run.steps| - 1;
          assert run.Agrees(n, primary, 0, w.now);
          StaysBound(setup, run, n, primary, 0, k, w.now);
          BoundMemberKeepsOut(setup, run.worlds[k], run.steps[k], n, w.now);
        }
      }
    }
  }

  // ---------- the objects ----------

  /** What a primary announces: its name, its addresses and, if it could read them, its replication slots. */
  datatype Announcement = Announcement(
    name: Node, connUrl: Option<string>, apiUrl: Option<string>, slots: Option<map<Node, int>>)

  const Nobody: Announcement := Announcement("", None, None, None)

  class Failsafe {
    var lastUpdate: int
    var announced: Announcement

    ghost predicate Matches(m: Member)
      reads this
    {
      lastUpdate == m.lastUpdate && announced.name == m.leader
    }

    constructor ()
      ensures lastUpdate == 0 && announced == Nobody
    {
      lastUpdate, announced := 0, Nobody;
    }

    /** A primary that has lost the DCS has announced itself. */
    method Update(data: Announcement, now: int)
      modifies this
      ensures lastUpdate == now && announced == data
    {
      lastUpdate, announced := now, data;
    }

    /** On the primary: the positions that the members have reported. */
    method UpdateSlots(slots: map<Node, int>)
      modifies this
      ensures lastUpdate == old(lastUpdate) && announced == old(announced).(slots := Some(slots))
    {
      announced := announced.(slots := Some(slots));
    }

    /** Called on the primary; zero turns failsafe mode off. */
    method SetIsActive(value: int)
      modifies this
      ensures lastUpdate == value && announced == if value == 0 then Nobody else old(announced)
    {
      lastUpdate := value;
      if value == 0 {
        announced := Nobody;
      }
    }

    method Leader(setup: Setup, now: int, ghost m: Member) returns (leader: Option<Announcement>)
      requires Matches(m)
      ensures (leader.Some? <==> Announced(setup, m, now).Some?) && (leader.Some? <==> lastUpdate + setup.ttl > now)
      ensures leader.Some? ==> leader.value == announced && leader.value.name == Announced(setup, m, now).value
    {
      if lastUpdate + setup.ttl > now {
        return Some(announced);
      }
      return None;
    }
  }

  /** The answer to a request: the reason to step down, or the position received or replayed, if it is known. */
  datatype Answer = RunningAsLeader | Accepted(lsn: Option<int>)

  /** `update_failsafe` on a member, whose PostgreSQL may be running and may have the role of a primary. */
  method UpdateFailsafe(
      failsafe: Failsafe, w: World, n: Node, running: bool, primaryRole: bool, data: Announcement,
      position: Option<int>)
    returns (answer: Answer)
    requires n in w.members && failsafe.Matches(w.members[n]) && data.name != ""
    requires w.members[n].primary <==> running && primaryRole
    modifies failsafe
    ensures answer == if Accepts(w, Post(n, data.name)) then Accepted(position) else RunningAsLeader
    ensures forall setup :: failsafe.Matches(Do(setup, w, Post(n, data.name)).members[n])
    ensures answer.Accepted? ==> failsafe.announced == data
  {
    if running && primaryRole {
      return RunningAsLeader;
    }
    failsafe.Update(data, w.now);
    return Accepted(position);
  }

  /** What comes back from a member; a member that cannot be reached does not accept. */
  datatype Response = Response(accepted: bool, lsn: Option<int>)

  /** The positions reported by these members, without those that reported none or zero. */
  function Feedback(members: set<Node>, responses: map<Node, Response>): map<Node, int> {
    map n | n in members && n in responses && responses[n].lsn.Some? && responses[n].lsn.value != 0 ::
      responses[n].lsn.value
  }

  predicate AllAccept(members: set<Node>, responses: map<Node, Response>) {
    forall n | n in members :: n in responses && responses[n].accepted
  }

  /** The responses that accept are answers of members that received the request of `me` in steps before `end`. */
  ghost predicate Answers(run: Run, me: Node, responses: map<Node, Response>, since: int, end: nat) {
    forall n | n in responses && responses[n].accepted && n != me ::
      exists i | 0 <= i < end :: Answered(run, n, me, i, since)
  }

  /** Step `i`, at `since` or later, is the request of `me` to `n`, which runs as no primary and accepts it. */
  ghost predicate Answered(run: Run, n: Node, me: Node, i: nat, since: int) {
    && i < |run.steps| < |run.worlds| && run.steps[i] == Post(n, me) && run.worlds[i].now >= since
    && n in run.worlds[i].members && !run.worlds[i].members[n].primary
  }

  /** No member that receives the request is about to take the lock. */
  ghost predicate NobodyRaces(run: Run, me: Node, end: nat) {
    forall i, n |
      0 <= i < end && i < |run.steps| < |run.worlds| && run.steps[i] == Post(n, me) && n in run.worlds[i].members ::
      !run.worlds[i].members[n].leading && run.worlds[i].members[n].unlocked != Some(true)
  }

  lemma AloneAgrees(setup: Setup, run: Run, me: Node, since: int, end: nat)
    requires setup.topology == {me}
    ensures run.Agreed(setup, me, since, end)
  {}

  lemma AllAcceptSays(topology: set<Node>, me: Node, responses: map<Node, Response>)
    ensures AllAccept(topology - {me}, responses) <==>
      forall n | n in topology && n != me :: n in responses && responses[n].accepted
  {}

  lemma NoneToAsk(members: set<Node>, responses: map<Node, Response>)
    requires members == {}
    ensures AllAccept(members, responses) && Feedback(members, responses) == map[]
  {}

  lemma OneMoreAccepts(members: set<Node>, rest: set<Node>, n: Node, responses: map<Node, Response>)
    requires n in rest && rest <= members
    ensures members - (rest - {n}) == members - rest + {n}
    ensures AllAccept(members - rest + {n}, responses) <==>
            AllAccept(members - rest, responses) && n in responses && responses[n].accepted
    ensures Feedback(members - rest + {n}, responses) ==
            if n in responses && responses[n].lsn.Some? && responses[n].lsn.value != 0
            then Feedback(members - rest, responses)[n := responses[n].lsn.value]
            else Feedback(members - rest, responses)
  {
    var before := members - rest;
    var after := before + {n};
    assert n in after && forall x | x in before :: x in after;
    assert forall x | x in after :: x in before || x == n;
  }

  /** When all others have accepted, they have agreed in the protocol. */
  lemma AcceptedIsAgreed(
      setup: Setup, run: Run, me: Node, responses: map<Node, Response>, since: int, end: nat)
    requires Answers(run, me, responses, since, end) && NobodyRaces(run, me, end)
    requires me in setup.topology
    requires forall n | n in setup.topology && n != me :: n in responses && responses[n].accepted
    ensures run.Agreed(setup, me, since, end)
  {
    forall n | n in setup.topology && n != me
      ensures exists i | 0 <= i < end :: run.Agrees(n, me, i, since)
    {
      var i :| 0 <= i < end && Answered(run, n, me, i, since);
      assert run.Agrees(n, me, i, since);
    }
  }

  /**
   `check_failsafe_topology`: the primary goes on if the `/failsafe` key is in order, lists it, and all the others
   accept; then it keeps the positions they report.
   */
  method CheckFailsafeTopology(
      me: Node, topology: Option<set<Node>>, responses: map<Node, Response>, failsafe: Failsafe,
      ghost setup: Setup, ghost run: Run, ghost since: int, ghost end: nat) returns (goOn: bool)
    modifies failsafe
    ensures goOn && topology == Some(setup.topology)
            && Answers(run, me, responses, since, end) && NobodyRaces(run, me, end) ==>
      run.Agreed(setup, me, since, end)
    ensures goOn <==>
      && topology.Some? && me in topology.value
      && forall n | n in topology.value && n != me :: n in responses && responses[n].accepted
    ensures failsafe.lastUpdate == old(failsafe.lastUpdate)
    ensures failsafe.announced ==
      if goOn && topology.value != {me}
      then old(failsafe.announced).(slots := Some(Feedback(topology.value - {me}, responses)))
      else old(failsafe.announced)
  {
    hide Answers, NobodyRaces, Run.Agreed, AllAccept, Feedback;
    if topology.None? || me !in topology.value {
      return false;
    }
    var members := topology.value - {me};
    assert members == {} <==> topology.value == {me};
    if members == {} {
      if topology == Some(setup.topology) {
        assert run.Agreed(setup, me, since, end) by { AloneAgrees(setup, run, me, since, end); }
      }
      return true;
    }
    goOn := true;
    var rest, slots := members, map[];
    NoneToAsk(members - rest, responses);
    while rest != {}
      invariant rest <= members && slots == Feedback(members - rest, responses)
      invariant goOn <==> AllAccept(members - rest, responses)
      invariant failsafe.lastUpdate == old(failsafe.lastUpdate) && failsafe.announced == old(failsafe.announced)
      decreases rest
    {
      var n :| n in rest;
      OneMoreAccepts(members, rest, n, responses);
      goOn := goOn && n in responses && responses[n].accepted;
      if n in responses && responses[n].lsn.Some? && responses[n].lsn.value != 0 {
        slots := slots[n := responses[n].lsn.value];
      }
      rest := rest - {n};
    }
    assert members - rest == members;
    AllAcceptSays(topology.value, me, responses);
    if goOn && topology == Some(setup.topology)
       && Answers(run, me, responses, since, end) && NobodyRaces(run, me, end) {
      AcceptedIsAgreed(setup, run, me, responses, since, end);
    }
    if goOn {
      failsafe.UpdateSlots(slots);
    }
  }
}
