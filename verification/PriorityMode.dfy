/**
 Synchronous replication in priority mode: every standby listed in `synchronous_standby_names` acknowledges
 every commit, and the standbys published in the `/sync` key may be promoted. The two registers are updated
 one after the other; the order keeps the published standbys among the synchronous ones.
 */
module PriorityMode {
  import opened Names

  /** What the rest of the cluster sees: the `/sync` key and `synchronous_standby_names`. */
  datatype View = View(leader: Node, voters: set<Node>, names: set<Node>, numsync: nat)
  {
    predicate Ordered(me: Node) { leader == me ==> voters <= names }

    /** All listed standbys have to acknowledge. */
    predicate Full() { |names| <= numsync }
  }

  /** What happens to the key just before a write: nothing, another writer, or an outage. */
  datatype Interference = Quiet | Overwritten(leader: Node, voters: set<Node>) | Unreachable

  /** `SyncHandler.current_state`, apart from the names themselves. */
  datatype Observation = Observation(active: set<Node>, confirmed: set<Node>)

  /** The confirmed standbys as they were read last: again after the wait, unless all were confirmed before. */
  function LastConfirmed(state: Observation, later: set<Node>): set<Node> {
    if state.active != {} && state.confirmed != state.active then later else state.confirmed
  }

  /** The number in effect: it is written for several names only; one name, or the placeholder, counts as one. */
  function Effective(names: nat, num: nat): nat { if names > 1 then num else Min(num, 1) }

  // ---------- histories ----------

  /**
   The standby `v` may be promoted after view `i`: it was published at the start, or it was confirmed as
   synchronous in view `j`, and it has been listed in `synchronous_standby_names` ever since.
   */
  ghost predicate Vouched(history: seq<View>, confirmed: seq<set<Node>>, me: Node, v: Node, i: nat)
    requires |confirmed| == |history| && i < |history|
  {
    exists j | 0 <= j <= i ::
      && (v in confirmed[j] || (j == 0 && history[0].leader == me && v in history[0].voters))
      && Listed(history, v, j, i)
  }

  ghost predicate Listed(history: seq<View>, v: Node, j: nat, i: nat)
    requires i < |history|
  {
    forall k | j <= k <= i :: v in history[k].names
  }

  /** Every view of the history is ordered, and every standby ever published by `me` is vouched for. */
  ghost predicate Sound(history: seq<View>, confirmed: seq<set<Node>>, me: Node) {
    && |confirmed| == |history| > 0
    && (forall i | 0 <= i < |history| :: history[i].Ordered(me) && Published(history, confirmed, me, i))
  }

  ghost predicate Published(history: seq<View>, confirmed: seq<set<Node>>, me: Node, i: nat)
    requires |confirmed| == |history| && i < |history|
  {
    history[i].leader == me ==> forall v | v in history[i].voters :: Vouched(history, confirmed, me, v, i)
  }

  /** The commit was acknowledged in this view by enough of the listed standbys, all of which hold it. */
  ghost predicate Acknowledged(view: View, holders: set<Node>) {
    exists acks :: acks <= view.names && |acks| >= view.numsync && acks <= holders
  }

  /**
   No commit is lost in priority mode: a standby published in any later view of a sound history holds every
   commit acknowledged before, given that a standby confirmed in some view holds the commits of the earlier views.
   */
  lemma PublishedHoldsCommit(
      history: seq<View>, confirmed: seq<set<Node>>, me: Node, t: nat, i: nat, v: Node, holders: set<Node>)
    requires Sound(history, confirmed, me)
    requires t <= i < |history| && history[t].Full() && Acknowledged(history[t], holders)
    requires forall j | t < j <= i :: confirmed[j] <= holders
    requires history[i].leader == me && v in history[i].voters
    ensures v in holders
  {
    assert Published(history, confirmed, me, i);
    var j :| 0 <= j <= i
      && (v in confirmed[j] || (j == 0 && history[0].leader == me && v in history[0].voters))
      && Listed(history, v, j, i);
    if j <= t {
      var names := history[t].names;
      var acks :| acks <= names && |acks| >= history[t].numsync && acks <= holders;
      SubsetSize(acks, names);
      assert v in names;
    }
  }

  /** Appending a view in which `me` publishes nobody but listed standbys that were vouched for already. */
  lemma Extend(history: seq<View>, confirmed: seq<set<Node>>, me: Node, view: View)
    requires Sound(history, confirmed, me) && view.Ordered(me)
    requires var n := |history| - 1; view.leader == me ==>
      forall v | v in view.voters :: Vouched(history, confirmed, me, v, n)
    ensures Sound(history + [view], confirmed + [{}], me)
  {
    var h, c := history + [view], confirmed + [{}];
    assert |c| == |h|;
    hide Sound, Published, View.Ordered;
    forall i | 0 <= i < |h|
      ensures h[i].Ordered(me) && Published(h, c, me, i)
    {
      ExtendAt(history, confirmed, me, view, i);
    }
    SoundBy(h, c, me);
  }

  lemma SoundBy(history: seq<View>, confirmed: seq<set<Node>>, me: Node)
    requires |confirmed| == |history| > 0
    requires forall i | 0 <= i < |history| :: history[i].Ordered(me) && Published(history, confirmed, me, i)
    ensures Sound(history, confirmed, me)
  {}

  lemma ExtendAt(history: seq<View>, confirmed: seq<set<Node>>, me: Node, view: View, i: nat)
    requires Sound(history, confirmed, me) && view.Ordered(me) && i <= |history|
    requires var n := |history| - 1; view.leader == me ==>
      forall v | v in view.voters :: Vouched(history, confirmed, me, v, n)
    ensures (history + [view])[i].Ordered(me) && Published(history + [view], confirmed + [{}], me, i)
  {
    var h, c, n := history + [view], confirmed + [{}], |history| - 1;
    if i < |history| {
      assert history[i].Ordered(me) && Published(history, confirmed, me, i);
    }
    if h[i].leader == me {
      forall v | v in h[i].voters
        ensures Vouched(h, c, me, v, i)
      {
        var m := Min(i, n);
        assert Vouched(history, confirmed, me, v, m);
        StaysVouched(history, confirmed, me, view, v);
        var j :| 0 <= j <= m
          && (v in confirmed[j] || (j == 0 && history[0].leader == me && v in history[0].voters))
          && Listed(history, v, j, m);
        if i <= n {
          assert Listed(h, v, j, i) && c[j] == confirmed[j];
        }
      }
    }
  }

  lemma StaysVouched(history: seq<View>, confirmed: seq<set<Node>>, me: Node, view: View, v: Node)
    requires |confirmed| == |history| > 0
    ensures var n := |history| - 1;
      Vouched(history, confirmed, me, v, n) && v in view.names ==>
      Vouched(history + [view], confirmed + [{}], me, v, n + 1)
  {
    var h, c, n := history + [view], confirmed + [{}], |history| - 1;
    if Vouched(history, confirmed, me, v, n) && v in view.names {
      var j :| 0 <= j <= n
        && (v in confirmed[j] || (j == 0 && history[0].leader == me && v in history[0].voters))
        && Listed(history, v, j, n);
      assert Listed(h, v, j, n + 1) by {
        forall k | j <= k <= n + 1 ensures v in h[k].names { if k <= n { assert h[k] == history[k]; } }
      }
      assert c[j] == confirmed[j] && h[0] == history[0];
    }
  }

  lemma StayVouched(history: seq<View>, confirmed: seq<set<Node>>, me: Node, view: View)
    requires |confirmed| == |history| > 0
    ensures var n := |history| - 1; forall v | Vouched(history, confirmed, me, v, n) && v in view.names ::
      Vouched(history + [view], confirmed + [{}], me, v, n + 1)
  {
    var n := |history| - 1;
    forall v | Vouched(history, confirmed, me, v, n) && v in view.names
      ensures Vouched(history + [view], confirmed + [{}], me, v, n + 1)
    {
      StaysVouched(history, confirmed, me, view, v);
    }
  }

  /** Confirming listed standbys in the current view vouches for them. */
  lemma Confirm(history: seq<View>, confirmed: seq<set<Node>>, me: Node, more: set<Node>)
    requires Sound(history, confirmed, me)
    requires more <= history[|history| - 1].names
    ensures var n := |history| - 1; var c := confirmed[n := confirmed[n] + more];
      && Sound(history, c, me)
      && (forall v | v in more :: Vouched(history, c, me, v, n))
      && (forall v | Vouched(history, confirmed, me, v, n) :: Vouched(history, c, me, v, n))
  {
    var n := |history| - 1;
    var c := confirmed[n := confirmed[n] + more];
    forall v, i | 0 <= i <= n && Vouched(history, confirmed, me, v, i)
      ensures Vouched(history, c, me, v, i)
    {
      var j :| 0 <= j <= i
        && (v in confirmed[j] || (j == 0 && history[0].leader == me && v in history[0].voters))
        && Listed(history, v, j, i);
      assert confirmed[j] <= c[j];
    }
    forall v | v in more ensures Vouched(history, c, me, v, n) {
      assert v in c[n] && Listed(history, v, n, n);
    }
    forall i | 0 <= i <= n ensures history[i].Ordered(me) && Published(history, c, me, i) {
      assert Published(history, confirmed, me, i);
    }
  }

  // ---------- the primary ----------

  class Primary {
    const name: Node
    /** The `/sync` key; no leader means that the key is empty. */
    var leader: Node
    var voters: set<Node>
    var version: nat
    /** The value of `synchronous_standby_names`; a number without names stands for the strict placeholder. */
    var names: set<Node>
    var numsync: nat
    var priority: bool

    ghost var history: seq<View>
    ghost var confirmed: seq<set<Node>>

    ghost function Now(): View
      reads this
    {
      View(leader, voters, names, numsync)
    }

    ghost predicate Valid()
      reads this
    {
      name != "" && Sound(history, confirmed, name) && history[|history| - 1] == Now()
    }

    ghost predicate Full()
      reads this`history
    {
      forall i | 0 <= i < |history| :: history[i].Full()
    }

    /** The standbys that may be published now. */
    ghost function Trusted(): set<Node>
      requires Valid()
      reads this
    {
      var n := |history| - 1;
      set v | v in names && Vouched(history, confirmed, name, v, n)
    }

    constructor (name: Node, view: View, version: nat, priority: bool)
      requires name != "" && view.Ordered(name)
      ensures Valid() && Now() == view && this.name == name && this.version == version && history == [view]
    {
      this.name := name;
      this.leader, this.voters, this.version := view.leader, view.voters, version;
      this.names, this.numsync, this.priority := view.names, view.numsync, priority;
      this.history, this.confirmed := [view], [{}];
      assert forall v | v in view.names :: Listed([view], v, 0, 0);
    }

    /** Everything published by this node is trusted. */
    lemma PublishedIsTrusted()
      requires Valid() && leader == name
      ensures voters <= Trusted()
    {
      var n := |history| - 1;
      assert history[n].Ordered(name) && Published(history, confirmed, name, n);
    }

    /** Notes that some listed standbys are confirmed to be synchronous. */
    ghost method Observe(nodes: set<Node>)
      requires Valid() && nodes <= names
      modifies this`confirmed
      ensures Valid() && old(Trusted()) + nodes <= Trusted()
    {
      var n := |history| - 1;
      Confirm(history, confirmed, name, nodes);
      confirmed := confirmed[n := confirmed[n] + nodes];
    }

    /** `write_sync_state` with this node as the leader: a compare-and-set on the version. */
    method Publish(nodes: set<Node>, expected: nat, before: Interference) returns (written: bool)
      requires Valid() && nodes <= Trusted() && expected == version
      requires before.Overwritten? ==> before.leader != name
      modifies this
      ensures Valid() && old(history) <= history && (old(Full()) ==> Full())
      ensures names == old(names) && numsync == old(numsync) && priority == old(priority)
      ensures written <==> before.Quiet?
      ensures written ==> leader == name && voters == nodes && version == expected + 1
      ensures written ==> old(Trusted()) <= Trusted()
      ensures before.Unreachable? ==> Now() == old(Now()) && version == old(version)
    {
      if before.Overwritten? {
        leader, voters, version := before.leader, before.voters, version + 1;
        Extend(history, confirmed, name, Now());
        history, confirmed := history + [Now()], confirmed + [{}];
      }
      if before.Unreachable? || version != expected {
        return false;
      }
      leader, voters, version := name, nodes, version + 1;
      Extend(history, confirmed, name, Now());
      StayVouched(history, confirmed, name, Now());
      history, confirmed := history + [Now()], confirmed + [{}];
      return true;
    }

    /** `set_synchronous_standby_names`: without a number every name counts, and one name needs no number. */
    method SetNames(nodes: set<Node>, num: nat)
      requires Valid() && num >= |nodes|
      requires leader == name ==> voters <= nodes
      modifies this
      ensures Valid() && old(history) <= history && (old(Full()) ==> Full())
      ensures names == nodes && |nodes| <= numsync && priority
      ensures numsync == Effective(|nodes|, num) && (num == |nodes| ==> numsync == num)
      ensures leader == old(leader) && voters == old(voters) && version == old(version)
      ensures old(Trusted()) * nodes <= Trusted()
    {
      ghost var h, c, n := history, confirmed, |history| - 1;
      if leader == name { PublishedIsTrusted(); }
      names := nodes;
      numsync := Effective(|nodes|, num);
      priority := true;
      Extend(h, c, name, Now());
      StayVouched(h, c, name, Now());
      history, confirmed := history + [Now()], confirmed + [{}];
    }

    method HandleStrictMode(state: Observation, minNodes: nat) returns (strict: bool)
      requires Valid() && leader == name
      modifies this
      ensures Valid() && old(history) <= history && (old(Full()) ==> Full())
      ensures strict <==> |state.active| < minNodes
      ensures leader == name && voters == old(voters) && version == old(version)
      ensures strict ==> names == voters && |names| <= numsync && priority
      ensures strict && minNodes == 1 ==> numsync == Max(1, |voters|)
      ensures !strict && (state.active != {} || voters != {} || minNodes != 0 || old(names == {} && numsync == 0)) ==>
        unchanged(this)
    {
      if |state.active| < minNodes {
        var required := Max(minNodes, |voters|);
        if voters != names || required != numsync || !priority {
          SetNames(voters, required);
        }
        return true;
      }
      if minNodes == 0 && state.active == {} && voters == {} && (names != {} || numsync != 0) {
        SetNames({}, 0);
      }
      return false;
    }

    /**
     The first part of the pass: an empty key is enabled and a key of somebody else is taken over, both by
     publishing nobody; then a key that lists the right standbys without their being synchronous is corrected.
     */
    method AdoptKey(state: Observation, before: seq<Interference>) returns (adopted: bool)
      requires Valid() && state.confirmed <= Trusted() * state.active
      requires |before| == 2 && forall i | 0 <= i < 2 && before[i].Overwritten? :: before[i].leader != name
      modifies this
      ensures Valid() && old(history) <= history && (old(Full()) ==> Full())
      ensures names == old(names) && numsync == old(numsync) && priority == old(priority)
      ensures before[0].Quiet? && before[1].Quiet? ==> adopted
      ensures adopted ==> leader == name && old(Trusted()) + voters <= Trusted()
      ensures adopted && voters == state.active ==> voters == state.confirmed
      ensures adopted ==>
        var found := if old(leader) == name then old(voters) else {};
        voters == if state.active == found then state.confirmed else found
      ensures adopted ==>
        voters * state.confirmed == if old(leader) == name then old(voters) * state.confirmed else {}
    {
      hide Sound, Vouched, View.Full, View.Ordered, Full, Trusted, Effective;
      if leader != name {
        var written := Publish({}, version, before[0]);
        if !written {
          return false;
        }
      }
      PublishedIsTrusted();
      if state.active == voters && voters != state.confirmed {
        var written := Publish(state.confirmed, version, before[1]);
        if !written {
          return false;
        }
        PublishedIsTrusted();
      }
      return true;
    }

    /**
     The last part of the pass: withdraws the standbys that are going to lose the synchronous status, changes
     `synchronous_standby_names`, and publishes the standbys that are confirmed afterwards.
     */
    method Synchronize(state: Observation, later: set<Node>, before: seq<Interference>)
      requires Valid() && leader == name
      requires state.confirmed <= Trusted() * state.active && later <= state.active
      requires |before| == 2 && forall i | 0 <= i < 2 && before[i].Overwritten? :: before[i].leader != name
      modifies this
      ensures Valid() && old(history) <= history && (old(Full()) ==> Full())
      ensures before[0].Quiet? && before[1].Quiet? ==>
        && leader == name && names == state.active && numsync == |state.active| && priority
        && var last := LastConfirmed(state, later);
           voters == if last != {} then last else old(voters) * state.confirmed
    {
      hide Sound, Vouched, View.Full, View.Ordered, Full, Trusted, Effective;
      var picked, allowPromote := state.active, state.confirmed;
      PublishedIsTrusted();
      var common := voters * allowPromote;
      if common != voters {
        var written := Publish(common, version, before[0]);
        if !written {
          return;
        }
      }
      SetNames(picked, |picked|);
      if picked != {} && allowPromote != picked {
        allowPromote := later;
        Observe(allowPromote);
      }
      if allowPromote != {} && allowPromote != common {
        var _ := Publish(allowPromote, version, before[1]);
      }
    }

    /**
     One call of `_process_multisync_replication`. `state` is read at the start, `later` are the confirmed standbys
     after the wait; `before` says what happens to the key ahead of each of the writes.
     */
    method ProcessMultisyncReplication(state: Observation, later: set<Node>, minNodes: nat, before: seq<Interference>)
      requires Valid()
      requires state.confirmed <= state.active * names && later <= state.active
      requires |before| == 4 && forall i | 0 <= i < 4 && before[i].Overwritten? :: before[i].leader != name
      modifies this
      ensures Valid() && old(history) <= history && (old(Full()) ==> Full())
      ensures (forall i | 0 <= i < 4 :: before[i].Quiet?) && |state.active| >= minNodes ==>
        && leader == name && names == state.active && numsync == |state.active| && priority
        && var last := LastConfirmed(state, later);
           voters == if last != {} then last
                     else if old(leader) == name then old(voters) * state.confirmed else {}
      ensures (forall i | 0 <= i < 4 :: before[i].Quiet?) && |state.active| < minNodes ==>
        && leader == name && names == voters && priority && |voters| <= numsync
        && (minNodes == 1 ==> numsync == Max(1, |voters|))
        && var found := if old(leader) == name then old(voters) else {};
           voters == if state.active == found then state.confirmed else found
    {
      hide Sound, Vouched, View.Full, View.Ordered, Full, Trusted, Effective;
      var picked := state.active;
      var sync, num, first := names, numsync, priority;
      Observe(state.confirmed);
      var adopted := AdoptKey(state, before[..2]);
      if !adopted {
        return;
      }
      var strict := HandleStrictMode(state, minNodes);
      if strict {
        return;
      }
      if picked == voters == sync && num == |picked| {
        if !first {
          SetNames(picked, |picked|);
        }
        assert voters == state.confirmed;
        return;
      }
      Synchronize(state, later, before[2..]);
    }
  }
}
