/**
 The resolver as an object: its methods overwrite the fields one after another, phase by phase. Each method
 is proved to compute the value that module `QuorumResolver` gives for the fields it started from.
 */
module QuorumStateResolvers {
  import opened Names
  import opened Options
  import R = QuorumResolver

  type Transition = R.Transition
  type Error = R.Error

  class QuorumStateResolver {
    var leader: Node
    var quorum: int
    var voters: set<Node>
    var numsync: int
    var sync: set<Node>
    var confirmed: int
    const active: set<Node>
    const wanted: int
    const leaderWanted: Node
    var yielded: seq<Transition>

    ghost function Model(): R.State
      reads this
    {
      R.State(leader, quorum, voters, numsync, sync, confirmed, active, wanted, leaderWanted, yielded)
    }

    /** How a method ended, in the terms of the model. */
    ghost function Ended(error: Option<Error>): R.Outcome
      reads this
    {
      if error.Some? then R.Raised(error.value, Model()) else R.Ok(Model())
    }

    constructor (leader: Node, quorum: int, voters: set<Node>, numsync: int, sync: set<Node>,
                 confirmed: int, active: set<Node>, wanted: int, leaderWanted: Node)
      ensures Model() == R.Create(leader, quorum, voters, numsync, sync, confirmed, active, wanted, leaderWanted)
    {
      this.leader := leader;
      this.quorum := quorum;
      this.voters := voters;
      this.numsync := Min(numsync, |sync|);
      this.sync := sync;
      this.confirmed := confirmed;
      this.active := active;
      this.wanted := wanted;
      this.leaderWanted := leaderWanted;
      this.yielded := [];
    }

    method CheckInvariants() returns (error: Option<Error>)
      ensures error.None? <==> Model().Safe()
      ensures error.Some? ==> error.value == R.QuorumError
    {
      var v := voters + {leader};
      var s := sync + {leaderWanted};
      if voters != {} && !(|v + s| <= quorum + numsync + 1) {
        return Some(R.QuorumError);
      }
      if !(v <= s || s <= v) {
        return Some(R.QuorumError);
      }
      return None;
    }

    method QuorumUpdate(quorum: int, voters: set<Node>, leader: Option<Node>, adjust: bool)
      returns (error: Option<Error>)
      modifies this
      ensures Ended(error) == R.QuorumUpdate(old(Model()), quorum, voters, leader, adjust)
    {
      hide R.State.Safe;
      if quorum < 0 {
        return Some(R.QuorumError);
      }
      if quorum > 0 && quorum >= |voters| {
        return Some(R.QuorumError);
      }
      var q, v := quorum, voters;
      var oldLeader := this.leader;
      if leader.Some? {
        this.leader := leader.value;
      } else if confirmed == 0 && this.voters == {} {
        q, v := 0, {};
      } else if adjust {
        q := q + Max(numsync - confirmed, 0);
      }
      if this.leader == oldLeader && q == this.quorum && v == this.voters {
        if this.voters != {} {
          return None;
        }
        yielded := yielded + [R.Restart(this.leader, this.quorum, this.voters)];
      }
      this.quorum := q;
      this.voters := v;
      error := CheckInvariants();
      if error.None? {
        yielded := yielded + [R.Quorum(this.leader, this.quorum, this.voters)];
      }
    }

    method SyncUpdate(numsync: int, sync: set<Node>) returns (error: Option<Error>)
      modifies this
      ensures Ended(error) == R.SyncUpdate(old(Model()), numsync, sync)
    {
      hide R.State.Safe;
      if numsync < 0 {
        return Some(R.QuorumError);
      }
      if numsync > |sync| {
        return Some(R.QuorumError);
      }
      this.numsync := numsync;
      this.sync := sync;
      error := CheckInvariants();
      if error.None? {
        yielded := yielded + [R.Sync(leader, this.numsync, this.sync)];
      }
    }

    /** Case 1 of the non-steady cases: voters is a superset of sync. */
    method ShrinkVoters() returns (error: Option<Error>)
      modifies this
      ensures Ended(error) == R.ShrinkVoters(old(Model()))
    {
      hide R.QuorumUpdate, R.SyncUpdate;
      var removeFromVoters := voters - (sync + active);
      if removeFromVoters != {} {
        error := QuorumUpdate(|voters| - |removeFromVoters| - numsync, voters - removeFromVoters, None,
                              sync - active == {});
        if error.Some? { return; }
      }
      var addToSync := voters * active - sync;
      if addToSync != {} {
        error := SyncUpdate(numsync, sync + addToSync);
        return;
      }
      return None;
    }

    /** Case 2 of the non-steady cases: sync is a superset of voters. */
    method GrowVoters() returns (error: Option<Error>)
      modifies this
      ensures Ended(error) == R.GrowVoters(old(Model()))
    {
      hide R.DropDead, R.AdmitSynced, R.DropUnadmitted;
      error := DropDead();
      if error.Some? { return; }
      error := AdmitSynced();
      if error.Some? { return; }
      error := DropUnadmitted();
    }

    method DropDead() returns (error: Option<Error>)
      modifies this
      ensures Ended(error) == R.DropDead(old(Model()))
    {
      hide R.SyncUpdate;
      var removeFromSync := sync - active;
      var kept := sync - removeFromSync;
      if removeFromSync != {} && kept != {} && (voters == {} || kept * voters != {}) {
        error := SyncUpdate(Min(numsync, |sync| - |removeFromSync|), kept);
        return;
      }
      return None;
    }

    method AdmitSynced() returns (error: Option<Error>)
      modifies this
      ensures Ended(error) == R.AdmitSynced(old(Model()))
    {
      hide R.QuorumUpdate;
      var addToVoters := (sync - voters) * active;
      if addToVoters != {} {
        error := QuorumUpdate(|voters + addToVoters| - numsync, voters + addToVoters, None, true);
        return;
      }
      return None;
    }

    method DropUnadmitted() returns (error: Option<Error>)
      modifies this
      ensures Ended(error) == R.DropUnadmitted(old(Model()))
    {
      hide R.SyncUpdate;
      var removeFromSync := sync - voters;
      if removeFromSync != {} {
        error := SyncUpdate(Min(numsync, |sync| - |removeFromSync|), sync - removeFromSync);
        return;
      }
      return None;
    }

    method HandleNonSteadyCases() returns (error: Option<Error>)
      modifies this
      ensures Ended(error) == R.HandleNonSteadyCases(old(Model()))
    {
      hide R.QuorumUpdate, R.SyncUpdate, R.ShrinkVoters, R.GrowVoters;
      if sync < voters {
        error := ShrinkVoters();
        if error.Some? { return; }
      } else if sync > voters {
        error := GrowVoters();
        if error.Some? { return; }
      }
      if voters != sync {
        return Some(R.AssertionFailed);
      }
      var safetyMargin := quorum + Min(numsync, confirmed) - |voters + sync|;
      if safetyMargin > 0 {
        if numsync > wanted {
          error := SyncUpdate(Max(wanted, |voters| - quorum), sync);
        } else {
          error := QuorumUpdate(|sync| - numsync, voters, None, true);
        }
      } else {
        safetyMargin := quorum + numsync - |voters + sync|;
        if numsync == wanted && safetyMargin > 0 && numsync > confirmed {
          error := QuorumUpdate(|sync| - numsync, voters, None, true);
        } else {
          error := None;
        }
      }
    }

    method RemoveGoneNodes() returns (error: Option<Error>)
      modifies this
      ensures Ended(error) == R.RemoveGoneNodes(old(Model()))
    {
      hide R.QuorumUpdate, R.SyncUpdate;
      var toRemove := sync - active;
      if toRemove != {} && sync == toRemove {
        error := QuorumUpdate(0, {}, None, false);
        if error.Some? { return; }
        error := SyncUpdate(0, {});
      } else if toRemove != {} {
        var canReduceQuorumBy := quorum;
        if canReduceQuorumBy != 0 {
          error := RemoveChosen(toRemove, Sorted(false, toRemove, canReduceQuorumBy));
          if error.Some? { return; }
          toRemove := toRemove * sync;
        }
        if toRemove != {} {
          error := RemoveBeyondQuorum(toRemove);
        } else {
          error := None;
        }
      } else {
        error := None;
      }
    }

    /** The part of `RemoveGoneNodes` that reduces the quorum. */
    method RemoveChosen(toRemove: set<Node>, remove: set<Node>) returns (error: Option<Error>)
      modifies this
      ensures Ended(error) == R.RemoveChosen(old(Model()), toRemove, remove)
    {
      hide R.QuorumUpdate, R.SyncUpdate;
      var newSync := sync - remove;
      error := SyncUpdate(Min(if wanted > numsync then wanted else numsync, |newSync|), newSync);
      if error.Some? { return; }
      var newVoters := voters - remove;
      error := QuorumUpdate(|newVoters| - numsync, newVoters, None, toRemove * sync == {});
    }

    /** The part of `RemoveGoneNodes` that reduces the replication factor. */
    method RemoveBeyondQuorum(toRemove: set<Node>) returns (error: Option<Error>)
      modifies this
      ensures Ended(error) == R.RemoveBeyondQuorum(old(Model()), toRemove)
    {
      hide R.QuorumUpdate, R.SyncUpdate;
      if quorum != 0 {
        return Some(R.AssertionFailed);
      }
      var newNumsync := numsync - |toRemove|;
      var newSync := sync - toRemove;
      var newVoters := voters - toRemove;
      var syncDecrease := newNumsync - Min(wanted, |newSync|);
      var newQuorum := if syncDecrease != 0 then Min(syncDecrease, |newVoters| - 1) else 0;
      error := QuorumUpdate(newQuorum, newVoters, None, false);
      if error.Some? { return; }
      error := SyncUpdate(newNumsync, newSync);
    }

    method AddNewNodes() returns (error: Option<Error>)
      modifies this
      ensures Ended(error) == R.AddNewNodes(old(Model()))
    {
      hide R.JoinChosen, R.AddTheRest, R.NodesToReach;
      var toAdd := active - sync;
      error := None;
      if toAdd != {} {
        var syncWanted := Min(wanted, |sync + toAdd|);
        var increaseNumsyncBy := syncWanted - numsync;
        if increaseNumsyncBy > 0 {
          var add := ChooseNodes(toAdd, increaseNumsyncBy, syncWanted);
          error := JoinChosen(add, syncWanted);
          if error.Some? { return; }
          toAdd := toAdd - sync;
        }
        if toAdd != {} {
          error := AddTheRest(toAdd, syncWanted);
        }
      }
    }

    /** The nodes that raise numsync; if there is only the leader it is safe to add all at once. */
    method ChooseNodes(toAdd: set<Node>, increaseNumsyncBy: int, syncWanted: int) returns (add: set<Node>)
      requires increaseNumsyncBy == syncWanted - numsync
      ensures add == R.NodesToReach(Model(), toAdd, syncWanted)
    {
      if sync != {} {
        add := Sorted(true, toAdd, increaseNumsyncBy);
      } else {
        add := toAdd;
      }
    }

    /** The part of `AddNewNodes` that gets to the requested replication factor. */
    method JoinChosen(add: set<Node>, syncWanted: int) returns (error: Option<Error>)
      modifies this
      ensures Ended(error) == R.JoinChosen(old(Model()), add, syncWanted)
    {
      hide R.QuorumUpdate, R.SyncUpdate;
      var increaseNumsyncBy := if sync != {} then |add| else syncWanted - numsync;
      error := SyncUpdate(numsync + increaseNumsyncBy, sync + add);
      if error.Some? { return; }
      error := QuorumUpdate(|voters + add| - syncWanted, voters + add, None, true);
    }

    /** The part of `AddNewNodes` that adds the nodes that are left. */
    method AddTheRest(toAdd: set<Node>, syncWanted: int) returns (error: Option<Error>)
      modifies this
      ensures Ended(error) == R.AddTheRest(old(Model()), toAdd, syncWanted)
    {
      hide R.QuorumUpdate, R.SyncUpdate;
      error := QuorumUpdate(|voters + toAdd| - syncWanted, voters + toAdd, None, syncWanted > confirmed);
      if error.Some? { return; }
      error := SyncUpdate(syncWanted, sync + toAdd);
    }

    method HandleReplicationFactorChange() returns (error: Option<Error>)
      modifies this
      ensures Ended(error) == R.HandleReplicationFactorChange(old(Model()))
    {
      hide R.QuorumUpdate, R.SyncUpdate;
      var syncIncrease := Min(wanted, |sync|) - numsync;
      error := None;
      if syncIncrease > 0 {
        error := SyncUpdate(numsync + syncIncrease, sync);
        if error.Some? { return; }
        error := QuorumUpdate(|voters| - numsync, voters, None, true);
      } else if syncIncrease < 0 {
        if quorum - syncIncrease < |voters| {
          error := QuorumUpdate(|voters| - numsync - syncIncrease, voters, None, wanted > confirmed);
          if error.Some? { return; }
        }
        error := SyncUpdate(numsync + syncIncrease, sync);
      }
    }

    /** The `try` block of `GenerateTransitions`. */
    method AdoptLeader() returns (error: Option<Error>)
      modifies this
      ensures Ended(error) == R.AdoptLeader(old(Model()))
    {
      hide R.QuorumUpdate, R.SyncUpdate;
      if leaderWanted != leader {
        var newVoters := voters - {leaderWanted} + {leader};
        if sync == {} {
          error := SyncUpdate(|newVoters| - quorum, newVoters);
          if error.Some? { return; }
        }
        error := QuorumUpdate(quorum, newVoters, Some(leaderWanted), true);
      } else {
        error := CheckInvariants();
      }
    }

    method GenerateTransitions() returns (error: Option<Error>)
      modifies this
      ensures Ended(error) == R.GenerateTransitions(old(Model()))
    {
      hide R.QuorumUpdate, R.SyncUpdate, R.AdoptLeader, R.HandleNonSteadyCases, R.RemoveGoneNodes, R.AddNewNodes;
      hide R.HandleReplicationFactorChange;
      var failover := leaderWanted != leader;
      error := AdoptLeader();
      if error.None? && failover && sync * active == {} {
        return;
      }
      if error.Some? {
        error := QuorumUpdate(|sync| - numsync, sync, None, true);
        if error.Some? { return; }
      }
      if leader != leaderWanted {
        return Some(R.AssertionFailed);
      }
      if confirmed == 0 && sync * active != {} {
        confirmed := Min(|sync * active|, |voters| - quorum);
      }
      error := HandleNonSteadyCases();
      if error.Some? { return; }
      error := RemoveGoneNodes();
      if error.Some? { return; }
      error := AddNewNodes();
      if error.Some? { return; }
      error := HandleReplicationFactorChange();
    }

    /** Iterates over the transitions, merging neighbours of the same kind and stopping at a restart. */
    method Iterate() returns (transitions: Option<seq<Transition>>)
      modifies this
      ensures transitions == R.Transitions(old(Model()))
    {
      hide R.GenerateTransitions;
      var error := GenerateTransitions();
      if error.Some? {
        return None;
      }
      var all := yielded;
      var merged: seq<Transition> := [];
      var i := 0;
      while i < |all|
        invariant 0 <= i <= |all|
        invariant merged + R.Merge(all[i..]) == R.Merge(all)
      {
        var current := all[i];
        assert all[i..][1..] == all[i + 1..];
        if i + 1 < |all| && current.SameKind(all[i + 1]) {
          i := i + 1;
          continue;
        }
        assert R.Merge(all[i..]) == [current] + (if current.Restart? then [] else R.Merge(all[i + 1..]));
        merged := merged + [current];
        if current.Restart? {
          return Some(merged);
        }
        i := i + 1;
      }
      assert all[i..] == [] && merged + [] == merged;
      return Some(merged);
    }
  }
}
