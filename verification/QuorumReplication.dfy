/**
 The loop on the primary that applies the transitions of the quorum state machine to the two registers, with
 everything that can stop it: timeouts, a lost compare-and-set, a raised error, a restart, strict mode.
 */
module QuorumReplication {
  import opened Names
  import opened Options
  import opened QuorumResolver
  import opened QuorumSafety
  import opened QuorumPass
  import QuorumStateResolvers
  import QuorumCluster

  /** What happens to the key just before a write: nothing, another writer, or an outage. */
  datatype Interference = Quiet | Overwritten(leader: Node, quorum: int, voters: set<Node>) | Unreachable

  /**
   What one turn of the loop sees: the replication state, and for each transition whether the time is up
   before it and what happens to the `/sync` key. `late` ends the turn after a restart.
   */
  datatype Observation = Observation(
    confirmed: int, active: set<Node>, wanted: int, expired: seq<bool>, before: seq<Interference>, late: bool)
  {
    predicate Expired(i: nat) { i >= |expired| || expired[i] }

    function Before(i: nat): Interference { if i < |before| then before[i] else Unreachable }

    /** Whether the turn ends before transition `i` takes effect. */
    predicate Stops(ts: seq<Transition>, i: nat)
      requires i < |ts|
    {
      Expired(i) || (ts[i].Quorum? && !Before(i).Quiet?)
    }

    /** How many transitions take effect, counting from `i`. */
    function Applied(ts: seq<Transition>, i: nat): (n: nat)
      requires i <= |ts|
      ensures i <= n <= |ts|
      decreases |ts| - i
    {
      if i == |ts| || Stops(ts, i) then i else Applied(ts, i + 1)
    }

    /** Somebody else has written the key when the turn was about to. */
    predicate Loses(ts: seq<Transition>) {
      var n := Applied(ts, 0);
      n < |ts| && !Expired(n) && ts[n].Quorum? && Before(n).Overwritten?
    }

    /** The registers after the transitions that take effect, or with the key of somebody else. */
    function Result(r: Registers, ts: seq<Transition>): Registers {
      var n := Applied(ts, 0);
      var q := Replay(r, ts[..n]);
      if Loses(ts) then q.(leader := Before(n).leader, quorum := Before(n).quorum, voters := Before(n).voters) else q
    }
  }

  /** What a turn leaves, and whether the loop goes on to another turn. */
  datatype Turned = Turned(registers: Registers, again: bool, overwritten: bool)

  function Turn(r: Registers, me: Node, o: Observation, minNodes: nat): Turned {
    var r1 := if r.leader == me then QuorumCluster.StrictMode(r, o.active, minNodes) else r;
    if r.leader == me && |o.active| < minNodes then Turned(r1, false, false)
    else
      var ts := Transitions(Observe(r1, o.confirmed, o.active, o.wanted, me));
      if ts.None? then Turned(r1, false, false)
      else
        var n := o.Applied(ts.value, 0);
        var again := n == |ts.value| && n > 0 && ts.value[n - 1].Restart? && !o.late;
        Turned(o.Result(r1, ts.value), again, o.Loses(ts.value))
  }

  lemma LoserStops(r: Registers, me: Node, o: Observation, minNodes: nat)
    ensures var t := Turn(r, me, o, minNodes); t.again ==> !t.overwritten
  {
    hide Transitions, QuorumCluster.StrictMode, Replay;
  }

  // ---------- when the loop goes on, and when it ends ----------

  /** The first `n` transitions take effect: each is in time, and nothing comes in between a write of the key. */
  predicate InTime(o: Observation, ts: seq<Transition>, n: nat)
    requires n <= |ts|
  {
    forall i | 0 <= i < n ::
      && i < |o.expired| && !o.expired[i]
      && (ts[i].Quorum? ==> i < |o.before| && o.before[i] == Quiet)
  }

  lemma {:induction false} AppliedInTime(o: Observation, ts: seq<Transition>, n: nat, i: nat)
    requires i <= n <= |ts| && InTime(o, ts, n)
    ensures o.Applied(ts, i) >= n
    ensures n == |ts| || o.Stops(ts, n) ==> o.Applied(ts, i) == n
    decreases n - i
  {
    if i < n { AppliedInTime(o, ts, n, i + 1); }
  }

  /** The transitions of a turn for which there are standbys enough. */
  ghost predicate Yields(r: Registers, me: Node, o: Observation, ts: seq<Transition>) {
    Transitions(Observe(r, o.confirmed, o.active, o.wanted, me)) == Some(ts)
  }

  /** A turn that is carried out in time leaves the registers its transitions lead to. */
  lemma TurnInTime(r: Registers, me: Node, o: Observation, minNodes: nat, ts: seq<Transition>)
    requires Yields(QuorumCluster.StrictMode(r, o.active, minNodes), me, o, ts) && r.leader == me
    requires |o.active| >= minNodes && InTime(o, ts, |ts|)
    ensures Turn(r, me, o, minNodes) ==
            Turned(Replay(QuorumCluster.StrictMode(r, o.active, minNodes), ts),
                   ts != [] && ts[|ts| - 1].Restart? && !o.late, false)
  {
    AppliedInTime(o, ts, |ts|, 0);
    assert o.Applied(ts, 0) == |ts| && ts[..|ts|] == ts;
    hide Transitions, QuorumCluster.StrictMode, Replay, Observation.Applied, InTime, Observe;
  }

  /** A turn that asks for a restart at its end, and is carried out in time, is followed by the next one. */
  lemma RestartGoesOn(r: Registers, me: Node, o: Observation, os: seq<Observation>, minNodes: nat, ts: seq<Transition>)
    requires Yields(QuorumCluster.StrictMode(r, o.active, minNodes), me, o, ts) && r.leader == me
    requires |o.active| >= minNodes && ts != [] && ts[|ts| - 1].Restart? && InTime(o, ts, |ts|) && !o.late
    ensures Turns(r, me, [o] + os, minNodes) ==
            Turns(Replay(QuorumCluster.StrictMode(r, o.active, minNodes), ts), me, os, minNodes)
  {
    TurnInTime(r, me, o, minNodes, ts);
    var all := [o] + os;
    assert all[0] == o && all[1..] == os;
    hide Turn, Yields, InTime, QuorumCluster.StrictMode;
  }

  /** A turn that does not ask for a restart is the last. */
  lemma NoRestartIsLast(
      r: Registers, me: Node, o: Observation, os: seq<Observation>, minNodes: nat, ts: seq<Transition>)
    requires r.leader == me && Yields(QuorumCluster.StrictMode(r, o.active, minNodes), me, o, ts)
    requires forall i | 0 <= i < |ts| :: !ts[i].Restart?
    ensures Turns(r, me, [o] + os, minNodes) == Turns(r, me, [o], minNodes)
  {
    assert ([o] + os)[0] == o && [o][1..] == [];
    hide Transitions, QuorumCluster.StrictMode, Replay;
  }

  /** A turn after which there is no time for another one is the last. */
  lemma LateTurnIsLast(r: Registers, me: Node, o: Observation, os: seq<Observation>, minNodes: nat)
    requires o.late
    ensures Turns(r, me, [o] + os, minNodes) == Turns(r, me, [o], minNodes)
  {
    assert ([o] + os)[0] == o && [o][1..] == [];
    hide Transitions, QuorumCluster.StrictMode, Replay;
  }

  /** With too few active nodes the key's voters are all listed, and the turn is the last. */
  lemma StrictTurnIsLast(r: Registers, me: Node, o: Observation, os: seq<Observation>, minNodes: nat)
    requires r.leader == me && |o.active| < minNodes
    ensures Turns(r, me, [o] + os, minNodes) ==
            Turned(r.(sync := r.voters, numsync := Max(minNodes, |r.voters| - r.quorum)), false, false)
  {
    assert ([o] + os)[0] == o;
    hide Transitions;
  }

  /** A turn that is carried out in time leaves the registers its transitions lead to, and nothing of anybody else. */
  lemma WholeTurn(r: Registers, me: Node, o: Observation, minNodes: nat, ts: seq<Transition>)
    requires r.leader == me && Yields(QuorumCluster.StrictMode(r, o.active, minNodes), me, o, ts)
    requires |o.active| >= minNodes && InTime(o, ts, |ts|)
    ensures var t := Turns(r, me, [o], minNodes);
      t.registers == Replay(QuorumCluster.StrictMode(r, o.active, minNodes), ts) && !t.overwritten
  {
    TurnInTime(r, me, o, minNodes, ts);
    assert [o][1..] == [];
    hide Turn, Yields, InTime, QuorumCluster.StrictMode;
  }

  /** A turn that runs out of time, or finds the key written by somebody else or out of reach, is the last. */
  lemma StoppedTurnIsLast(
      r: Registers, me: Node, o: Observation, os: seq<Observation>, minNodes: nat, ts: seq<Transition>, n: nat)
    requires r.leader == me && Yields(QuorumCluster.StrictMode(r, o.active, minNodes), me, o, ts)
    requires |o.active| >= minNodes && n < |ts| && InTime(o, ts, n) && n < |o.expired| && n < |o.before|
    requires o.expired[n] || (ts[n].Quorum? && o.before[n] != Quiet)
    ensures var q := Replay(QuorumCluster.StrictMode(r, o.active, minNodes), ts[..n]);
      Turns(r, me, [o] + os, minNodes) ==
        if !o.expired[n] && o.before[n].Overwritten?
        then var k := o.before[n];
             Turned(q.(leader := k.leader, quorum := k.quorum, voters := k.voters), false, true)
        else Turned(q, false, false)
  {
    AppliedInTime(o, ts, n, 0);
    assert o.Applied(ts, 0) == n && ([o] + os)[0] == o;
    hide Transitions, QuorumCluster.StrictMode, Replay, Observation.Applied, InTime, Observe;
  }

  /** From an empty key: the first turn lists nodes of which none is confirmed, the second finds some confirmed. */
  predicate ListsThenConfirms(r: Registers, me: Node, first: Observation, second: Observation, minNodes: nat) {
    && r.leader == me && r.quorum == 0 && r.voters == {} && r.sync == {} && r.numsync >= 0
    && first.active == second.active != {} && me !in first.active && minNodes <= |first.active|
    && first.wanted == second.wanted >= 1 && first.confirmed == 0 && second.confirmed >= 1
    && |first.expired| >= 2 && !first.expired[0] && !first.expired[1] && !first.late
  }

  /** The registers after the first of these turns. */
  function Listed(me: Node, active: set<Node>, wanted: int): Registers {
    Registers(me, 0, {}, Min(wanted, |active|), active)
  }

  /** The second turn is in time and meets no other writer. */
  ghost predicate Undisturbed(r: Registers, me: Node, first: Observation, second: Observation, minNodes: nat) {
    && ListsThenConfirms(r, me, first, second, minNodes)
    && var o := Transitions(Observe(Listed(me, first.active, first.wanted), second.confirmed,
                                    first.active, first.wanted, me));
       o.Some? ==> InTime(second, o.value, |o.value|)
  }

  lemma ReplayFirst(r: Registers, ts: seq<Transition>)
    requires |ts| == 2 && ts[0].Sync? && ts[1].Restart?
    ensures Replay(r, ts) == r.(numsync := ts[0].num, sync := ts[0].names)
  {
    var one := ts[..1];
    assert one[..0] == [] && one[0] == ts[0];
    assert Replay(r, one) == Apply(r, ts[0]);
    assert Replay(r, ts) == Apply(Replay(r, one), ts[1]);
  }

  lemma FirstTurnYields(
      r: Registers, me: Node, first: Observation, second: Observation, minNodes: nat, ts: seq<Transition>)
    requires ListsThenConfirms(r, me, first, second, minNodes)
    requires ts == [Sync(me, Min(first.wanted, |first.active|), first.active), Restart(me, 0, {})]
    ensures Yields(r, me, first, ts) && InTime(first, ts, |ts|)
    ensures r == Registers(me, 0, {}, r.numsync, {}) && QuorumCluster.StrictMode(r, first.active, minNodes) == r
    ensures !first.late && |first.active| >= minNodes
  {
    FirstTransitions(me, r.numsync, first.active, first.wanted);
    hide Transitions, Observe;
  }

  lemma FirstTurnLists(r: Registers, me: Node, first: Observation, second: Observation, minNodes: nat)
    requires ListsThenConfirms(r, me, first, second, minNodes)
    ensures Turns(r, me, [first, second], minNodes) ==
            Turns(Listed(me, first.active, first.wanted), me, [second], minNodes)
  {
    var active, wanted := first.active, first.wanted;
    var listed := Listed(me, active, wanted);
    var ts := [Sync(me, listed.numsync, active), Restart(me, 0, {})];
    FirstTurnYields(r, me, first, second, minNodes, ts);
    hide Yields, InTime, Transitions, Turn, Observe, QuorumCluster.StrictMode, ListsThenConfirms;
    ReplayFirst(r, ts);
    RestartGoesOn(r, me, first, [second], minNodes, ts);
    assert [first] + [second] == [first, second];
  }

  /** Then the confirmed nodes are voters after the second turn. */
  lemma SecondTurnAdmits(r: Registers, me: Node, first: Observation, second: Observation, minNodes: nat)
    requires Undisturbed(r, me, first, second, minNodes)
    ensures var active, w := first.active, Min(first.wanted, |first.active|);
      var t := Turns(r, me, [first, second], minNodes);
      && !t.overwritten
      && t.registers == Registers(me, |active| - w + Max(w - second.confirmed, 0), active, w, active)
  {
    var active, wanted := first.active, first.wanted;
    var listed := Listed(me, active, wanted);
    FirstTurnLists(r, me, first, second, minNodes);
    ListedBecomeVoters(me, second.confirmed, active, wanted);
    assert QuorumCluster.StrictMode(listed, active, minNodes) == listed;
    hide Transitions, Turn, Observe, InTime;
    WholeTurn(listed, me, second, minNodes,
              Transitions(Observe(listed, second.confirmed, active, wanted, me)).value);
  }

  /** A turn is two steps of the cluster: strict mode, then any number of transitions of a pass. */
  lemma TurnIsTwoSteps(r: Registers, me: Node, o: Observation, minNodes: nat) returns (mid: Registers, applied: nat)
    requires me !in o.active && !Turn(r, me, o, minNodes).overwritten
    ensures var c := (registers: Registers) => QuorumCluster.Cluster(me, registers);
      && QuorumCluster.Next(c(r), QuorumCluster.Strict(o.active, minNodes), c(mid))
      && QuorumCluster.Next(c(mid), QuorumCluster.Pass(o.confirmed, o.active, o.wanted, applied),
                            c(Turn(r, me, o, minNodes).registers))
  {
    mid := if r.leader == me then QuorumCluster.StrictMode(r, o.active, minNodes) else r;
    var ts := Transitions(Observe(mid, o.confirmed, o.active, o.wanted, me));
    applied := if ts.None? || (r.leader == me && |o.active| < minNodes) then 0 else o.Applied(ts.value, 0);
    hide Transitions, QuorumCluster.StrictMode;
  }

  /** The registers after one call of `_process_quorum_replication`. */
  function Turns(r: Registers, me: Node, os: seq<Observation>, minNodes: nat): Turned
    decreases |os|
  {
    if os == [] then Turned(r, true, false)
    else
      var t := Turn(r, me, os[0], minNodes);
      if t.again then Turns(t.registers, me, os[1..], minNodes) else t
  }

  class Primary {
    const name: Node
    var leader: Node
    var quorum: int
    var voters: set<Node>
    var version: nat
    var numsync: int
    var sync: set<Node>
    /** Every pair of registers that has been visible, the current one last. */
    ghost var history: seq<Registers>
    /** Somebody else has written the key, so this node has lost it; the last pair is not its own. */
    ghost var overwritten: bool

    ghost function Now(): Registers
      reads this
    {
      Registers(leader, quorum, voters, numsync, sync)
    }

    ghost predicate Valid()
      reads this
    {
      && history != [] && history[|history| - 1] == Now()
      && forall i | 0 <= i < |history| && (overwritten ==> i < |history| - 1) :: history[i].Good(name)
    }

    constructor (name: Node, r: Registers, version: nat)
      requires r.Good(name)
      ensures Valid() && !overwritten && Now() == r && this.name == name && this.version == version
    {
      this.name := name;
      this.leader, this.quorum, this.voters, this.version := r.leader, r.quorum, r.voters, version;
      this.numsync, this.sync := r.numsync, r.sync;
      this.history, this.overwritten := [r], false;
    }

    /** `write_sync_state`: replaces the key if it still has the version that was read. */
    method WriteSyncState(leader: Node, voters: set<Node>, quorum: int, expected: nat, before: Interference)
      returns (written: bool)
      requires Valid() && !overwritten && Apply(Now(), Quorum(leader, quorum, voters)).Good(name) && expected == version
      modifies this
      ensures Valid() && old(history) <= history
      ensures (written <==> before.Quiet?) && (overwritten <==> before.Overwritten?)
      ensures Now() == match before
                       case Quiet => old(Apply(Now(), Quorum(leader, quorum, voters)))
                       case Overwritten(l, q, v) => old(Now()).(leader := l, quorum := q, voters := v)
                       case Unreachable => old(Now())
      ensures version == if before.Unreachable? then old(version) else old(version) + 1
    {
      if before.Overwritten? {
        this.leader, this.quorum, this.voters := before.leader, before.quorum, before.voters;
        version := version + 1;
        history, overwritten := history + [Now()], true;
      }
      if before.Unreachable? || expected != version {
        return false;
      }
      this.leader, this.quorum, this.voters := leader, quorum, voters;
      version := version + 1;
      history := history + [Now()];
      return true;
    }

    method SetSynchronousStandbyNames(sync: set<Node>, numsync: int)
      requires Valid() && !overwritten && Now().(sync := sync, numsync := numsync).Good(name)
      modifies this
      ensures Valid() && !overwritten && old(history) <= history && version == old(version)
      ensures Now() == old(Now()).(sync := sync, numsync := numsync)
    {
      this.sync, this.numsync := sync, numsync;
      history := history + [Now()];
    }

    method HandleStrictMode(active: set<Node>, minNodes: nat) returns (strict: bool)
      requires Valid() && !overwritten && leader == name
      modifies this
      ensures Valid() && !overwritten && old(history) <= history && version == old(version)
      ensures strict <==> |active| < minNodes
      ensures Now() == QuorumCluster.StrictMode(old(Now()), active, minNodes)
      ensures strict ==>
        Now() == old(Now()).(sync := voters, numsync := Max(minNodes, |voters| - quorum))
      ensures !strict ==>
        Now() == if minNodes == 0 && active == {} && voters == {} then old(Now()).(sync := {}, numsync := 0)
                 else old(Now())
    {
      QuorumCluster.StrictModeIsGood(Now(), active, minNodes);
      if |active| < minNodes {
        var required := Max(minNodes, |voters| - quorum);
        if voters != sync || required != numsync {
          SetSynchronousStandbyNames(voters, required);
        }
        return true;
      }
      if minNodes == 0 && active == {} && voters == {} && (sync != {} || numsync != 0) {
        SetSynchronousStandbyNames({}, 0);
      }
      return false;
    }

    /** Applies the transitions of one turn; tells whether the whole turn was applied. */
    method ApplyTransitions(transitions: seq<Transition>, o: Observation) returns (finished: bool)
      requires Valid() && !overwritten && AllGood(Now(), transitions, name)
      modifies this
      ensures Valid() && old(history) <= history
      ensures Now() == o.Result(old(Now()), transitions) && (overwritten <==> o.Loses(transitions))
      ensures finished <==> o.Applied(transitions, 0) == |transitions|
    {
      hide Registers.Good;
      var expected := version;
      ghost var init := Now();
      assert transitions[..0] == [] && transitions[..|transitions|] == transitions;
      for i := 0 to |transitions|
        invariant Valid() && !overwritten && old(history) <= history && version == expected
        invariant Now() == Replay(init, transitions[..i])
        invariant o.Applied(transitions, 0) == o.Applied(transitions, i)
      {
        assert transitions[..i + 1][..i] == transitions[..i];
        assert GoodAfter(init, transitions, name, i + 1);
        if o.Expired(i) {
          return false;
        }
        match transitions[i]
        case Quorum(leader, num, names) =>
          var written := WriteSyncState(leader, names, num, expected, o.Before(i));
          if !written {
            return false;
          }
          expected := expected + 1;
        case Sync(leader, num, names) =>
          SetSynchronousStandbyNames(names, num);
        case Restart(_, _, _) =>
      }
      return true;
    }

    /** What the resolver yields for the registers and an observation of this node. */
    method PlanTransitions(o: Observation) returns (transitions: Option<seq<Transition>>)
      ensures transitions == Transitions(Observe(Now(), o.confirmed, o.active, o.wanted, name))
    {
      hide Transitions;
      var resolver := new QuorumStateResolvers.QuorumStateResolver(
        leader, quorum, voters, numsync, sync, o.confirmed, o.active, o.wanted, name);
      transitions := resolver.Iterate();
    }

    /** One turn of the loop. */
    method TakeTurn(o: Observation, minNodes: nat) returns (again: bool)
      requires Valid() && !overwritten && name !in o.active
      modifies this
      ensures Valid() && old(history) <= history
      ensures Turned(Now(), again, overwritten) == Turn(old(Now()), name, o, minNodes)
    {
      hide Registers.Good, Replay, QuorumCluster.StrictMode, Transitions, Observe, AllGood;
      hide Observation.Result, Observation.Loses, Observation.Applied;
      if leader == name {
        var strict := HandleStrictMode(o.active, minNodes);
        if strict {
          return false;
        }
      }
      PassIsSafe(Now(), o.confirmed, o.active, o.wanted, name);
      var transitions := PlanTransitions(o);
      if transitions.None? {
        return false;
      }
      var finished := ApplyTransitions(transitions.value, o);
      var n := |transitions.value|;
      return finished && n > 0 && transitions.value[n - 1].Restart? && !o.late;
    }

    /**
     One call of `_process_quorum_replication`; the loop turns as long as it is asked to restart. Whatever is
     observed, only good registers ever become visible, until somebody else writes the key.
     */
    method ProcessQuorumReplication(observations: seq<Observation>, minNodes: nat)
      requires Valid() && !overwritten
      requires forall i | 0 <= i < |observations| :: name !in observations[i].active
      modifies this
      ensures Valid() && old(history) <= history
      ensures var t := Turns(old(Now()), name, observations, minNodes);
        Now() == t.registers && overwritten == t.overwritten
      ensures |observations| == 2 && Undisturbed(old(Now()), name, observations[0], observations[1], minNodes) ==>
        && leader == name && voters == sync == observations[0].active
        && numsync == Min(observations[0].wanted, |voters|)
        && quorum == |voters| - numsync + Max(numsync - observations[1].confirmed, 0)
    {
      hide Turn, Registers.Good, Undisturbed;
      if |observations| == 2 && Undisturbed(Now(), name, observations[0], observations[1], minNodes) {
        SecondTurnAdmits(Now(), name, observations[0], observations[1], minNodes);
        assert observations == [observations[0], observations[1]];
      }
      var i := 0;
      assert observations[0..] == observations;
      while i < |observations|
        invariant 0 <= i <= |observations| && Valid() && !overwritten && old(history) <= history
        invariant Turns(old(Now()), name, observations, minNodes) == Turns(Now(), name, observations[i..], minNodes)
      {
        assert observations[i..][1..] == observations[i + 1..];
        LoserStops(Now(), name, observations[i], minNodes);
        var again := TakeTurn(observations[i], minNodes);
        if !again {
          return;
        }
        i := i + 1;
      }
    }

    /** The handoff before promotion: the node about to be promoted takes over the registers of `r`. */
    method PrepareToPromote(r: Registers, minNodes: nat)
      requires r.leader !in r.voters && r.quorum >= 0
      modifies this
      ensures Valid() && !overwritten && Now() == QuorumCluster.HandOff(r, name, minNodes)
    {
      QuorumCluster.HandOffIsGood(r, name, minNodes);
      hide Registers.Good;
      leader, quorum, voters := r.leader, r.quorum, r.voters;
      var members := voters + {leader};
      numsync := |members| - quorum - 1;
      if name in members {
        sync := members - {name};
      } else {
        sync := members;
        numsync := numsync + 1;
      }
      numsync := Max(numsync, minNodes);
      assert sync == members - {name};
      assert Now() == QuorumCluster.HandOff(r, name, minNodes);
      history, overwritten := [Now()], false;
    }
  }
}
