/**
 The leader race in quorum commit mode: a node that finds itself the healthiest holds every commit that
 the primary has acknowledged under the current registers.
 */
module LeaderRace {
  import opened Names
  import opened Options
  import opened QuorumResolver
  import opened QuorumSafety

  /** What a member reports about itself; `limited` members are unreachable or not allowed to promote. */
  datatype Status = Status(name: Node, limited: bool, inRecovery: bool, position: int)

  /** The candidate's view of the `/sync` key. In quorum commit mode the key is active once it has a leader. */
  datatype Race = Race(me: Node, position: int, syncMode: bool, quorumMode: bool, key: Registers)
  {
    function VotingSet(): set<Node> { if quorumMode then key.Electorate() else {} }

    function Quorum(): int { if quorumMode then key.quorum else 0 }

    predicate Ahead(st: Status) { !st.limited && position < st.position }

    /** In synchronous mode the former leader may be ahead; any other node ahead ends the race. */
    predicate Outrun(st: Status) { Ahead(st) && (!syncMode || st.name != key.leader) }

    predicate StillPrimary(st: Status) { !st.limited && !st.inRecovery }

    /** Only nodes with Postgres up and running vote, and only for a candidate they are not ahead of. */
    predicate Votes(st: Status) {
      !st.limited && 0 < st.position <= position && st.name in VotingSet()
    }

    /** The voters that support the candidate, itself included if it is one. */
    function VotersFor(statuses: seq<Status>): set<Node> {
      if statuses == [] then (if me in VotingSet() then {me} else {})
      else
        var last := statuses[|statuses| - 1];
        VotersFor(statuses[..|statuses| - 1]) + (if Votes(last) then {last.name} else {})
    }

    /** No reachable node is running as a primary, and no node but the former leader is ahead. */
    predicate NobodyObjects(statuses: seq<Status>) {
      forall i | 0 <= i < |statuses| :: !StillPrimary(statuses[i]) && !Outrun(statuses[i])
    }

    predicate NobodyAhead(statuses: seq<Status>) {
      forall i | 0 <= i < |statuses| :: !Ahead(statuses[i])
    }

    /** The outcome of the race, without the order in which the statuses arrive. */
    predicate Wins(statuses: seq<Status>) {
      && NobodyObjects(statuses)
      && (quorumMode ==> |VotersFor(statuses)| > Quorum() || (NobodyAhead(statuses) && key.leader == me))
    }
  }

  /** One status per member, and none of the candidate itself. */
  predicate OnePerMember(race: Race, statuses: seq<Status>) {
    && (forall i | 0 <= i < |statuses| :: statuses[i].name != race.me)
    && (forall i, j | 0 <= i < j < |statuses| :: statuses[i].name != statuses[j].name)
  }

  /** A voter other than the candidate has reported, and is not ahead. */
  lemma VoterReports(race: Race, statuses: seq<Status>, z: Node)
    requires z in race.VotersFor(statuses)
    ensures z in race.VotingSet()
    ensures z == race.me || exists i | 0 <= i < |statuses| :: statuses[i].name == z && race.Votes(statuses[i])
  {
    if statuses != [] {
      var before := statuses[..|statuses| - 1];
      if z in race.VotersFor(before) {
        VoterReports(race, before, z);
        if z != race.me {
          var i :| 0 <= i < |before| && before[i].name == z && race.Votes(before[i]);
          assert statuses[i] == before[i];
        }
      }
    }
  }

  lemma NextVoter(race: Race, statuses: seq<Status>, i: nat)
    requires i < |statuses| && OnePerMember(race, statuses)
    ensures |race.VotersFor(statuses[..i + 1])| ==
            |race.VotersFor(statuses[..i])| + (if race.Votes(statuses[i]) then 1 else 0)
  {
    var before := statuses[..i];
    var st := statuses[i];
    assert statuses[..i + 1] == before + [st] && (before + [st])[..|before|] == before;
    if st.name in race.VotersFor(before) {
      VoterReports(race, before, st.name);
      assert false;
    }
  }

  lemma NextReport(race: Race, statuses: seq<Status>, i: nat)
    requires i < |statuses|
    ensures race.NobodyObjects(statuses[..i + 1]) <==>
              race.NobodyObjects(statuses[..i]) && !race.StillPrimary(statuses[i]) && !race.Outrun(statuses[i])
    ensures race.NobodyAhead(statuses[..i + 1]) <==> race.NobodyAhead(statuses[..i]) && !race.Ahead(statuses[i])
    ensures race.NobodyObjects(statuses) ==> !race.StillPrimary(statuses[i]) && !race.Outrun(statuses[i])
  {
    var before, after := statuses[..i], statuses[..i + 1];
    assert forall k | 0 <= k < i :: before[k] == after[k];
    assert after[i] == statuses[i];
  }

  lemma BeforeReports(race: Race)
    ensures |race.VotersFor([])| == if race.me in race.VotingSet() then 1 else 0
    ensures race.NobodyObjects([]) && race.NobodyAhead([])
  {}

  /** The members of the electorate that are known not to be ahead of the candidate, itself included. */
  ghost function Supporters(race: Race, statuses: seq<Status>): set<Node> {
    set z | z in race.key.voters + {race.key.leader}
            && (z == race.me
                || exists i :: 0 <= i < |statuses| && statuses[i].name == z
                               && !statuses[i].limited && 0 < statuses[i].position <= race.position)
  }

  lemma {:induction false} SupportersVote(race: Race, statuses: seq<Status>)
    requires race.quorumMode
    ensures race.VotersFor(statuses) == Supporters(race, statuses)
  {
    var voters := race.VotersFor(statuses);
    forall z | z in voters ensures z in Supporters(race, statuses) { VoterReports(race, statuses, z); }
    forall z | z in Supporters(race, statuses)
      ensures z in voters
    {
      if z == race.me {
        CandidateVotes(race, statuses);
      } else {
        var i :| 0 <= i < |statuses| && statuses[i].name == z
          && !statuses[i].limited && 0 < statuses[i].position <= race.position;
        ReporterVotes(race, statuses, i);
      }
    }
  }

  lemma {:induction false} CandidateVotes(race: Race, statuses: seq<Status>)
    ensures race.me in race.VotingSet() ==> race.me in race.VotersFor(statuses)
  {
    if statuses != [] { CandidateVotes(race, statuses[..|statuses| - 1]); }
  }

  lemma {:induction false} ReporterVotes(race: Race, statuses: seq<Status>, i: nat)
    requires i < |statuses| && race.Votes(statuses[i])
    ensures statuses[i].name in race.VotersFor(statuses)
  {
    if i < |statuses| - 1 { ReporterVotes(race, statuses[..|statuses| - 1], i); }
  }

  /** The reports alone do not keep the candidate from winning: nobody runs as a primary, and no rival is ahead. */
  ghost predicate Unopposed(race: Race, statuses: seq<Status>) {
    forall i | 0 <= i < |statuses| && !statuses[i].limited ::
      && statuses[i].inRecovery
      && (statuses[i].position <= race.position || (race.syncMode && statuses[i].name == race.key.leader))
  }

  lemma UnopposedSays(race: Race, statuses: seq<Status>)
    ensures Unopposed(race, statuses) <==>
      forall i | 0 <= i < |statuses| && !statuses[i].limited ::
        && statuses[i].inRecovery
        && (statuses[i].position <= race.position || (race.syncMode && statuses[i].name == race.key.leader))
  {}

  lemma WinsByReports(race: Race, statuses: seq<Status>)
    ensures race.NobodyObjects(statuses) <==> Unopposed(race, statuses)
    ensures race.Wins(statuses) <==>
      && Unopposed(race, statuses)
      && (|| !race.quorumMode
          || |Supporters(race, statuses)| > race.key.quorum
          || (race.me == race.key.leader
              && forall i | 0 <= i < |statuses| && !statuses[i].limited :: statuses[i].position <= race.position))
  {
    if race.quorumMode { SupportersVote(race, statuses); }
  }

  /**
   Runs the race over the statuses of the other members. `disqualified` stands for the checks of lag and
   timeline that come first, `deferred` for the choice between equals by site and priority that comes
   last; both only make the node give up.
   */
  method IsHealthiestNode(race: Race, statuses: seq<Status>, disqualified: bool, deferred: bool) returns (healthy: bool)
    requires OnePerMember(race, statuses)
    ensures healthy <==> !disqualified && !deferred && race.Wins(statuses)
    ensures healthy ==>
      && !disqualified && !deferred
      && forall i | 0 <= i < |statuses| && !statuses[i].limited ::
           && statuses[i].inRecovery
           && (statuses[i].position <= race.position || (race.syncMode && statuses[i].name == race.key.leader))
    ensures !disqualified && !deferred && Unopposed(race, statuses) ==>
      (healthy <==>
        || !race.quorumMode
        || |Supporters(race, statuses)| > race.key.quorum
        || (race.me == race.key.leader
            && forall i | 0 <= i < |statuses| && !statuses[i].limited :: statuses[i].position <= race.position))
  {
    WinsByReports(race, statuses);
    UnopposedSays(race, statuses);
    if disqualified {
      return false;
    }
    hide Race.VotersFor, Race.NobodyObjects, Race.NobodyAhead, OnePerMember, Supporters, Unopposed;
    BeforeReports(race);
    var quorum := race.Quorum();
    var votingSet := race.VotingSet();
    var quorumVotes := if race.me in votingSet then 0 else -1;
    var nodesAhead := 0;
    assert statuses[..0] == [];
    for i := 0 to |statuses|
      invariant quorumVotes == |race.VotersFor(statuses[..i])| - 1
      invariant race.NobodyObjects(statuses[..i])
      invariant nodesAhead >= 0 && (nodesAhead == 0 <==> race.NobodyAhead(statuses[..i]))
    {
      var st := statuses[i];
      NextVoter(race, statuses, i);
      NextReport(race, statuses, i);
      if !st.limited {
        if !st.inRecovery {
          return false;
        }
        if race.position < st.position {
          nodesAhead := nodesAhead + 1;
          if !race.syncMode || st.name != race.key.leader {
            return false;
          }
        } else if st.position > 0 {
          if st.name in votingSet {
            quorumVotes := quorumVotes + 1;
          }
        }
      }
    }
    assert statuses[..|statuses|] == statuses;
    if deferred {
      return false;
    }
    return !race.quorumMode || quorumVotes >= quorum || (nodesAhead == 0 && race.key.leader == race.me);
  }

  // ---------- no acknowledged commit is lost ----------

  /** Enough of the listed standbys have the commit at `lsn` for the primary to report it to the client. */
  predicate Acknowledged(r: Registers, acks: set<Node>, lsn: int) {
    acks <= r.sync && |acks| >= r.numsync && lsn > 0
  }

  /** Nodes that have the commit report a position that is not behind it; so does the candidate for itself. */
  predicate Truthful(race: Race, statuses: seq<Status>, holders: set<Node>, lsn: int) {
    && (race.me in holders ==> race.position >= lsn)
    && forall i | 0 <= i < |statuses| && statuses[i].name in holders && !statuses[i].limited ::
         statuses[i].position >= lsn
  }

  /** The quorum meets the acknowledging set while the registers are good. */
  lemma QuorumMeetsAcknowledgement(r: Registers, primary: Node, acks: set<Node>, voters: set<Node>) returns (z: Node)
    requires r.Good(primary) && acks <= r.sync && |acks| >= r.Factor()
    requires voters <= r.Electorate() && |voters| > r.quorum
    ensures z in voters && z in acks + {primary}
  {
    var holders := acks + {primary};
    var all := r.Electorate() + r.Acknowledgers(primary);
    assert |holders| == |acks| + 1;
    if r.voters == {} && r.leader == primary {
      assert r.Electorate() == {primary};
      SubsetSize(voters, {primary});
      z := primary;
    } else {
      z := Pigeonhole(voters, holders, all);
    }
  }

  /** A voter's report bounds the commits that the voter holds by the candidate's position. */
  lemma VoterIsNotAhead(race: Race, statuses: seq<Status>, holders: set<Node>, lsn: int, z: Node)
    requires Truthful(race, statuses, holders, lsn) && z in race.VotersFor(statuses) && z in holders
    ensures race.position >= lsn
  {
    VoterReports(race, statuses, z);
  }

  /**
   No acknowledged commit is lost: a node that wins the race in quorum commit mode is not behind any commit
   acknowledged under the registers, if it wins by votes or if the `/sync` key names the primary that
   acknowledged the commit.
   */
  lemma WinnerHoldsCommit(race: Race, statuses: seq<Status>, primary: Node, acks: set<Node>, lsn: int)
    requires race.quorumMode && race.key.Good(primary) && race.Wins(statuses)
    requires Acknowledged(race.key, acks, lsn)
    requires Truthful(race, statuses, acks + {primary}, lsn)
    requires |race.VotersFor(statuses)| > race.Quorum() || race.key.leader == primary
    ensures race.position >= lsn
  {
    var voters := race.VotersFor(statuses);
    if |voters| > race.Quorum() {
      assert voters <= race.VotingSet() by {
        forall z | z in voters ensures z in race.VotingSet() { VoterReports(race, statuses, z); }
      }
      var z := QuorumMeetsAcknowledgement(race.key, primary, acks, voters);
      VoterIsNotAhead(race, statuses, acks + {primary}, lsn, z);
    }
  }

  /** A node that wins by votes shows that the quorum is in reach of the electorate. */
  lemma WinByVotesBoundsQuorum(race: Race, statuses: seq<Status>)
    requires race.quorumMode && race.key.leader !in race.key.voters
    requires |race.VotersFor(statuses)| > race.Quorum()
    ensures race.key.quorum <= |race.key.voters|
  {
    var voters := race.VotersFor(statuses);
    assert voters <= race.VotingSet() by {
      forall z | z in voters ensures z in race.VotingSet() { VoterReports(race, statuses, z); }
    }
    SubsetSize(voters, race.key.Electorate());
  }

  /**
   The last condition is needed: right after a failover the key still names the former leader, who may
   take the lead back on its own word although the new primary has acknowledged a commit without it.
   */
  lemma FormerLeaderWitness()
    ensures var key := Registers("L", 1, {"P", "a"}, 1, {"L", "a"});
            var race := Race("L", 10, true, true, key);
            && key.Good("P") && race.Wins([])
            && Acknowledged(key, {"a"}, 20) && Truthful(race, [], {"a", "P"}, 20)
            && race.position < 20
  {
    var key := Registers("L", 1, {"P", "a"}, 1, {"L", "a"});
    var race := Race("L", 10, true, true, key);
    assert key.Electorate() == {"L", "P", "a"} == key.Acknowledgers("P");
    assert |{"L", "P", "a"}| == 3 && |{"L", "a"}| == 2;
    assert |{"a"}| == 1;
  }

  /** The former leader `key.leader` wins and misses a commit that `primary` has acknowledged under the registers. */
  ghost predicate MissesCommit(
      race: Race, statuses: seq<Status>, acks: set<Node>, lsn: int, key: Registers, primary: Node) {
    && race.quorumMode && race.key == key && race.me == key.leader
    && OnePerMember(race, statuses) && race.Wins(statuses)
    && Acknowledged(key, acks, lsn) && Truthful(race, statuses, acks + {primary}, lsn)
    && race.position < lsn
  }

  /** No commit can be acknowledged without the former leader: all listed standbys are needed, and it is one of them. */
  predicate NeedsFormerLeader(key: Registers) {
    key.numsync > |key.sync| || (key.leader in key.sync && key.numsync == |key.sync|)
  }

  /** With another primary in place, the former leader can lose a commit exactly if commits can do without it. */
  lemma FormerLeaderExact(key: Registers, primary: Node)
    requires key.Good(primary) && key.leader != primary
    ensures (exists race, statuses, acks, lsn :: MissesCommit(race, statuses, acks, lsn, key, primary)) <==>
            !NeedsFormerLeader(key)
  {
    if NeedsFormerLeader(key) {
      forall race, statuses, acks, lsn
        ensures !MissesCommit(race, statuses, acks, lsn, key, primary)
      {
        if acks <= key.sync { SubsetSize(acks, key.sync); }
      }
    } else {
      var acks := key.sync - {key.leader};
      var race := Race(key.leader, 0, true, true, key);
      assert key.leader !in key.sync ==> acks == key.sync;
      assert MissesCommit(race, [], acks, 1, key, primary);
    }
  }
}
