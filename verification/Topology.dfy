/**
 The tree view of a cluster: members are listed below the member they replicate from. Members are renamed in
 place while they are visited, and the names are what the children are looked up by.
 */
module Topology {
  import opened Options

  /** `replicatefrom` is empty when the tag is not set. */
  datatype Member = Member(name: string, leader: bool, replicatefrom: string)

  /** A member as it is yielded: its position, the level it is visited at and its name at that moment. */
  datatype Line = Line(member: nat, level: nat, text: string)

  /** The current names, one per member; a last one belongs to the stand-in for a missing leader. */
  type Labels = seq<Option<string>>

  type Tree = map<Option<string>, seq<nat>>

  // ---------- attaching replicas ----------

  /** The first leader, or the stand-in. */
  function Root(members: seq<Member>): (r: nat)
    ensures r <= |members| && (r < |members| ==> members[r].leader)
    ensures forall i | 0 <= i < r :: !members[i].leader
  {
    if members == [] || members[0].leader then 0 else 1 + Root(members[1..])
  }

  function OwnName(members: seq<Member>, i: nat): Option<string>
    requires i <= |members|
  {
    if i < |members| then Some(members[i].name) else None
  }

  predicate Replica(members: seq<Member>, i: nat) { i < |members| && !members[i].leader }

  predicate ReplicaNamed(members: seq<Member>, name: string) {
    exists i | 0 <= i < |members| :: Replica(members, i) && members[i].name == name
  }

  /** The name a replica is attached to: the one it asks for if another replica has it, otherwise the leader's. */
  function ParentKey(members: seq<Member>, i: nat): Option<string>
    requires i < |members|
  {
    var parent := members[i].replicatefrom;
    if parent != "" && parent != members[i].name && ReplicaNamed(members, parent) then Some(parent)
    else OwnName(members, Root(members))
  }

  /** The replicas among the first `n` members that are attached to a name, in order. */
  function Children(members: seq<Member>, key: Option<string>, n: nat): (r: seq<nat>)
    requires n <= |members|
    ensures forall c: nat :: c in r <==> c < n && Replica(members, c) && ParentKey(members, c) == key
    ensures forall a, b | 0 <= a < b < |r| :: r[a] < r[b]
  {
    if n == 0 then []
    else
      var r := Children(members, key, n - 1);
      assert forall a | 0 <= a < |r| :: r[a] in r;
      if Replica(members, n - 1) && ParentKey(members, n - 1) == key then r + [n - 1] else r
  }

  function Attached(tree: Tree, tag: Option<string>): seq<nat> { if tag in tree then tree[tag] else [] }

  /** The dictionary filled by the first `n` members. */
  function TreeOf(members: seq<Member>, n: nat): Tree
    requires n <= |members|
  {
    if n == 0 then map[]
    else
      var tree := TreeOf(members, n - 1);
      if !Replica(members, n - 1) then tree
      else
        var parent := ParentKey(members, n - 1);
        tree[parent := Attached(tree, parent) + [n - 1]]
  }

  method Attach(members: seq<Member>) returns (tree: Tree)
    ensures tree == TreeOf(members, |members|)
    ensures forall key :: Attached(tree, key) == Children(members, key, |members|)
  {
    tree := map[];
    for i := 0 to |members|
      invariant tree == TreeOf(members, i)
    {
      if !members[i].leader {
        var parent := ParentKey(members, i);
        var siblings := if parent in tree then tree[parent] else [];
        tree := tree[parent := siblings + [i]];
      }
    }
    forall key ensures Attached(tree, key) == Children(members, key, |members|) {
      AttachedIsChildren(members, key, |members|);
    }
  }

  lemma {:induction false} AttachedIsChildren(members: seq<Member>, key: Option<string>, n: nat)
    requires n <= |members|
    ensures Attached(TreeOf(members, n), key) == Children(members, key, n)
  {
    if n > 0 { AttachedIsChildren(members, key, n - 1); }
  }

  // ---------- walking ----------

  function Spaces(n: nat): (s: string)
    ensures |s| == n && forall c | c in s :: c == ' '
  {
    if n == 0 then "" else " " + Spaces(n - 1)
  }

  function Indented(level: nat, name: string): (s: string)
    ensures level > 0 ==> |s| >= |name| + 2
  {
    if level == 0 then name else Spaces((level - 1) * 2) + "+ " + name
  }

  function Text(tag: Option<string>): string { if tag.Some? then tag.value else "None" }

  function Length(tag: Option<string>): nat { if tag.Some? then |tag.value| else 0 }

  function Relabelled(level: nat, labels: Labels, i: nat): (r: Labels)
    requires i < |labels|
    ensures Longer(labels, r)
    ensures level > 0 ==> Length(r[i]) > Length(labels[i])
    ensures forall k | 0 <= k < |labels| && k != i :: r[k] == labels[k]
  {
    if level == 0 then labels else labels[i := Some(Indented(level, Text(labels[i])))]
  }

  ghost predicate Longer(before: Labels, after: Labels) {
    |before| == |after| && forall k | 0 <= k < |before| :: Length(before[k]) <= Length(after[k])
  }

  /** How much shorter than the longest key the labels are, together: every visit that goes on uses some of it up. */
  ghost function Slack(labels: Labels, bound: nat): nat {
    if labels == [] then 0
    else Slack(labels[1..], bound) + if Length(labels[0]) <= bound then bound + 1 - Length(labels[0]) else 0
  }

  lemma {:induction false} SlackDrops(before: Labels, after: Labels, bound: nat)
    requires Longer(before, after)
    ensures Slack(after, bound) <= Slack(before, bound)
    ensures forall i | 0 <= i < |before| && Length(before[i]) <= bound && Length(before[i]) < Length(after[i]) ::
      Slack(after, bound) < Slack(before, bound)
  {
    if before != [] {
      var o, n := before[1..], after[1..];
      assert forall k | 0 <= k < |o| :: o[k] == before[k + 1] && n[k] == after[k + 1];
      SlackDrops(o, n, bound);
      forall i | 0 <= i < |before| && Length(before[i]) <= bound && Length(before[i]) < Length(after[i])
        ensures Slack(after, bound) < Slack(before, bound)
      {
        if i > 0 { assert o[i - 1] == before[i] && n[i - 1] == after[i]; }
      }
    }
  }

  predicate InRange(nodes: seq<nat>, size: nat) { forall k | 0 <= k < |nodes| :: nodes[k] < size }

  ghost predicate Bounded(tree: Tree, size: nat, bound: nat) {
    forall key | key in tree :: Length(key) <= bound && InRange(tree[key], size)
  }

  /** A member and everything below it; the names of the members are changed on the way. */
  function Walk(level: nat, i: nat, tree: Tree, labels: Labels, ghost bound: nat): (r: (seq<Line>, Labels))
    requires i < |labels| && Bounded(tree, |labels|, bound)
    ensures Longer(labels, r.1)
    decreases Slack(labels, bound), if level == 0 then 2 else 0, 0
  {
    var below := Attached(tree, labels[i]);
    var renamed := Relabelled(level, labels, i);
    if below == [] then (Own(level, i, renamed), renamed)
    else
      SlackDrops(labels, renamed, bound);
      var (lines, last) := WalkAll(level + 1, below, tree, renamed, bound);
      (Own(level, i, renamed) + lines, last)
  }

  function Own(level: nat, i: nat, renamed: Labels): seq<Line>
    requires i < |renamed|
  {
    if renamed[i].Some? && renamed[i].value != "" then [Line(i, level, renamed[i].value)] else []
  }

  function WalkAll(level: nat, nodes: seq<nat>, tree: Tree, labels: Labels, ghost bound: nat): (r: (seq<Line>, Labels))
    requires level > 0 && InRange(nodes, |labels|) && Bounded(tree, |labels|, bound)
    ensures Longer(labels, r.1)
    decreases Slack(labels, bound), 1, |nodes|
  {
    if nodes == [] then ([], labels)
    else
      var (first, next) := Walk(level, nodes[0], tree, labels, bound);
      SlackDrops(labels, next, bound);
      var (rest, last) := WalkAll(level, nodes[1..], tree, next, bound);
      (first + rest, last)
  }

  function InitialLabels(members: seq<Member>): (r: Labels)
    ensures |r| == |members| + 1 && forall i | 0 <= i <= |members| :: r[i] == OwnName(members, i)
  {
    seq(|members| + 1, i requires 0 <= i <= |members| => OwnName(members, i))
  }

  ghost function Longest(members: seq<Member>): (n: nat)
    ensures forall i | 0 <= i < |members| :: |members[i].name| <= n
  {
    if members == [] then 0
    else
      var n := Longest(members[1..]);
      assert forall i | 1 <= i < |members| :: members[i] == members[1..][i - 1];
      if n < |members[0].name| then |members[0].name| else n
  }

  lemma {:induction false} TreeBounded(members: seq<Member>, n: nat)
    requires n <= |members|
    ensures Bounded(TreeOf(members, n), |members| + 1, Longest(members))
  {
    if n > 0 { TreeBounded(members, n - 1); }
  }

  /** The whole listing. */
  ghost function Listing(members: seq<Member>): seq<Line> {
    TreeBounded(members, |members|);
    Walk(0, Root(members), TreeOf(members, |members|), InitialLabels(members), Longest(members)).0
  }

  // ---------- the program ----------

  lemma WalkUnfolds(level: nat, i: nat, tree: Tree, labels: Labels, bound: nat)
    requires i < |labels| && Bounded(tree, |labels|, bound)
    ensures var below, renamed := Attached(tree, labels[i]), Relabelled(level, labels, i);
      && InRange(below, |labels|) && (below != [] ==> Length(labels[i]) <= bound)
      && var (lines, last) := WalkAll(level + 1, below, tree, renamed, bound);
         Walk(level, i, tree, labels, bound) == (Own(level, i, renamed) + lines, last)
  {
    var own := Own(level, i, Relabelled(level, labels, i));
    assert own + [] == own;
  }

  lemma WalkNone(level: nat, tree: Tree, labels: Labels, bound: nat)
    requires level > 0 && Bounded(tree, |labels|, bound)
    ensures WalkAll(level, [], tree, labels, bound) == ([], labels)
  {}

  lemma LongerReflexive(a: Labels)
    ensures Longer(a, a)
  {}

  lemma LongerTransitive(a: Labels, b: Labels, c: Labels)
    requires Longer(a, b) && Longer(b, c)
    ensures Longer(a, c)
  {}

  lemma WalkNext(level: nat, nodes: seq<nat>, k: nat, tree: Tree, labels: Labels, bound: nat)
    requires level > 0 && InRange(nodes, |labels|) && Bounded(tree, |labels|, bound) && k < |nodes|
    ensures var (first, next) := Walk(level, nodes[k], tree, labels, bound);
      var (rest, last) := WalkAll(level, nodes[k + 1..], tree, next, bound);
      WalkAll(level, nodes[k..], tree, labels, bound) == (first + rest, last)
  {
    assert nodes[k..][1..] == nodes[k + 1..];
  }

  method GenerateTopology(level: nat, i: nat, tree: Tree, labels: array<Option<string>>, ghost bound: nat)
    returns (lines: seq<Line>)
    requires i < labels.Length && Bounded(tree, labels.Length, bound)
    modifies labels
    ensures (lines, labels[..]) == Walk(level, i, tree, old(labels[..]), bound)
    decreases Slack(labels[..], bound), if level == 0 then 1 else 0
  {
    hide Slack, Bounded, Walk, WalkAll, Indented, Text, Longer;
    ghost var init := labels[..];
    var members := if labels[i] in tree then tree[labels[i]] else [];
    if level > 0 {
      labels[i] := Some(Indented(level, Text(labels[i])));
    }
    ghost var renamed := Relabelled(level, init, i);
    assert labels[..] == renamed;
    WalkUnfolds(level, i, tree, init, bound);
    SlackDrops(init, renamed, bound);
    assert Longer(renamed, labels[..]) by { LongerReflexive(renamed); }
    lines := [];
    if labels[i].Some? && labels[i].value != "" {
      lines := [Line(i, level, labels[i].value)];
    }
    ghost var own := lines;
    ghost var all := WalkAll(level + 1, members, tree, renamed, bound);
    assert members[0..] == members;
    for k := 0 to |members|
      invariant Longer(renamed, labels[..])
      invariant var rest := WalkAll(level + 1, members[k..], tree, labels[..], bound);
        own + all.0 == lines + rest.0 && all.1 == rest.1
    {
      SlackDrops(renamed, labels[..], bound);
      WalkNext(level + 1, members, k, tree, labels[..], bound);
      ghost var previous := labels[..];
      var more := GenerateTopology(level + 1, members[k], tree, labels, bound);
      LongerTransitive(renamed, previous, labels[..]);
      lines := lines + more;
    }
    assert members[|members|..] == [];
    WalkNone(level + 1, tree, labels[..], bound);
    assert lines + [] == lines;
  }

  /** Terminates for every assignment of names and tags. */
  method TopologySort(members: seq<Member>) returns (lines: seq<Line>)
    ensures lines == Listing(members)
  {
    var tree := Attach(members);
    var labels := new Option<string>[|members| + 1](i requires 0 <= i <= |members| => OwnName(members, i));
    TreeBounded(members, |members|);
    assert labels[..] == InitialLabels(members);
    lines := GenerateTopology(0, Root(members), tree, labels, Longest(members));
  }
}
