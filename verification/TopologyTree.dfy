/**
 The listing is the replication tree: with distinct names it shows the leader and exactly the replicas whose chain
 of parents leads to it, each once, indented by the length of its chain and right below its parent.
 */
module TopologyTree {
  import opened Options
  import opened Topology

  // ---------- chains of parents ----------

  ghost predicate Node(members: seq<Member>, i: nat) { i == Root(members) || Replica(members, i) }

  ghost predicate Distinct(members: seq<Member>) {
    forall i: nat, j: nat | Node(members, i) && Node(members, j) && OwnName(members, i) == OwnName(members, j) :: i == j
  }

  /** The member a replica is attached to. */
  ghost function Up(members: seq<Member>, i: nat): (p: nat)
    requires Replica(members, i)
    ensures Node(members, p) && OwnName(members, p) == ParentKey(members, i)
  {
    if ParentKey(members, i) == OwnName(members, Root(members)) then Root(members)
    else
      var p: nat :| Replica(members, p) && Some(members[p].name) == ParentKey(members, i);
      p
  }

  /**
   The parent of a replica, by the tags and names alone: the other replica it names, or else the leader. A replica that
   names itself, or a name no replica has, is attached to the leader.
   */
  lemma UpExact(members: seq<Member>, i: nat, j: nat)
    requires Distinct(members) && Replica(members, i)
    ensures Replica(members, j) && j != i && members[i].replicatefrom == members[j].name != "" ==>
      Up(members, i) == j
    ensures
      (|| members[i].replicatefrom == ""
       || forall k: nat | Replica(members, k) && k != i :: members[k].name != members[i].replicatefrom) ==>
      Up(members, i) == Root(members)
  {
    if Replica(members, j) && j != i && members[i].replicatefrom == members[j].name != "" {
      assert OwnName(members, j) == Some(members[j].name) && OwnName(members, i) == Some(members[i].name);
      assert ReplicaNamed(members, members[j].name);
      assert OwnName(members, Up(members, i)) == OwnName(members, j);
    }
  }

  /** The member reached by going up `k` times. */
  ghost function Climb(members: seq<Member>, x: nat, k: nat): (r: Option<nat>)
    requires Node(members, x)
    ensures r.Some? ==> Node(members, r.value)
    decreases k
  {
    if k == 0 then Some(x)
    else if x == Root(members) then None
    else Climb(members, Up(members, x), k - 1)
  }

  /** The chain of `x` has length `d` and ends at the root. */
  ghost predicate Depth(members: seq<Member>, x: nat, d: nat) {
    Node(members, x) && Climb(members, x, d) == Some(Root(members))
  }

  ghost predicate Under(members: seq<Member>, x: nat, p: nat) {
    Node(members, x) && exists k: nat :: Climb(members, x, k) == Some(p)
  }

  ghost predicate UnderAny(members: seq<Member>, x: nat, nodes: seq<nat>) {
    exists i | 0 <= i < |nodes| :: Under(members, x, nodes[i])
  }

  lemma {:induction false} ClimbAdd(members: seq<Member>, x: nat, k: nat, p: nat, d: nat)
    requires Node(members, x) && Climb(members, x, k) == Some(p)
    ensures Climb(members, x, k + d) == Climb(members, p, d)
    decreases k
  {
    if k > 0 { ClimbAdd(members, Up(members, x), k - 1, p, d); }
  }

  lemma {:induction false} DepthIsUnique(members: seq<Member>, x: nat, a: nat, b: nat)
    requires Depth(members, x, a) && Depth(members, x, b)
    ensures a == b
    decreases a
  {
    if a > 0 && b > 0 { DepthIsUnique(members, Up(members, x), a - 1, b - 1); }
  }

  lemma {:induction false} LastStep(members: seq<Member>, x: nat, k: nat, p: nat)
    requires Node(members, x) && Climb(members, x, k + 1) == Some(p)
    ensures var c := Climb(members, x, k); c.Some? && Replica(members, c.value) && Up(members, c.value) == p
    decreases k
  {
    if k > 0 { LastStep(members, Up(members, x), k - 1, p); }
  }

  /** Members of the same depth have nothing below them in common. */
  lemma SiblingsAreApart(members: seq<Member>, x: nat, a: nat, b: nat, d: nat)
    requires Under(members, x, a) && Under(members, x, b) && Depth(members, a, d) && Depth(members, b, d)
    ensures a == b
  {
    var j: nat :| Climb(members, x, j) == Some(a);
    var k: nat :| Climb(members, x, k) == Some(b);
    ClimbAdd(members, x, j, a, d);
    ClimbAdd(members, x, k, b, d);
    DepthIsUnique(members, x, j + d, k + d);
  }

  /** The members attached to the name of `p`. */
  lemma ChildrenOf(members: seq<Member>, p: nat, c: nat)
    requires Distinct(members) && Node(members, p)
    ensures c in Children(members, OwnName(members, p), |members|) <==> Replica(members, c) && Up(members, c) == p
  {}

  lemma ChildDepth(members: seq<Member>, c: nat, d: nat)
    requires Replica(members, c) && Depth(members, Up(members, c), d)
    ensures Depth(members, c, d + 1) && !Under(members, Up(members, c), c)
  {
    var p := Up(members, c);
    if Under(members, p, c) {
      var k: nat :| Climb(members, p, k) == Some(c);
      assert Depth(members, c, d + 1);
      ClimbAdd(members, p, k, c, d + 1);
      DepthIsUnique(members, p, d, k + d + 1);
    }
  }

  lemma UnderAChild(members: seq<Member>, x: nat, p: nat)
    requires Under(members, x, p) && x != p
    ensures exists c: nat :: Replica(members, c) && Up(members, c) == p && Under(members, x, c)
  {
    var k: nat :| Climb(members, x, k) == Some(p);
    LastStep(members, x, k - 1, p);
    var c := Climb(members, x, k - 1).value;
    assert Under(members, x, c);
  }

  lemma UnderTheParent(members: seq<Member>, x: nat, c: nat)
    requires Replica(members, c) && Under(members, x, c)
    ensures Under(members, x, Up(members, c))
  {
    var k: nat :| Climb(members, x, k) == Some(c);
    ClimbAdd(members, x, k, c, 1);
    assert Climb(members, c, 1) == Climb(members, Up(members, c), 0);
    assert Climb(members, x, k + 1) == Some(Up(members, c));
  }

  /** Below `p` are `p` itself and everything below its children. */
  lemma UnderSplits(members: seq<Member>, x: nat, p: nat, children: seq<nat>)
    requires Distinct(members) && Node(members, p) && children == Children(members, OwnName(members, p), |members|)
    ensures Under(members, x, p) <==> x == p || UnderAny(members, x, children)
  {
    assert Under(members, p, p) by { assert Climb(members, p, 0) == Some(p); }
    hide Under, Distinct, Children, Up;
    if Under(members, x, p) && x != p {
      UnderAChild(members, x, p);
      var c: nat :| Replica(members, c) && Up(members, c) == p && Under(members, x, c);
      ChildrenOf(members, p, c);
      var i :| 0 <= i < |children| && children[i] == c;
    }
    if UnderAny(members, x, children) {
      var i :| 0 <= i < |children| && Under(members, x, children[i]);
      assert children[i] in children;
      ChildrenOf(members, p, children[i]);
      UnderTheParent(members, x, children[i]);
    }
  }

  // ---------- what a listing shows ----------

  /** The stand-in for a missing leader and a leader without a name are not shown. */
  ghost predicate Visible(members: seq<Member>, x: nat) {
    Replica(members, x) || (x == Root(members) && x < |members| && members[x].name != "")
  }

  ghost predicate Shown(lines: seq<Line>, x: nat) { exists b | 0 <= b < |lines| :: lines[b].member == x }

  /** Each line shows a member at its depth, indented accordingly. */
  ghost predicate Correct(members: seq<Member>, lines: seq<Line>, d: nat) {
    forall b | 0 <= b < |lines| ::
      && Visible(members, lines[b].member) && lines[b].level >= d
      && Depth(members, lines[b].member, lines[b].level)
      && lines[b].text == Indented(lines[b].level, members[lines[b].member].name)
  }

  ghost predicate Once(lines: seq<Line>) {
    forall a, b | 0 <= a < b < |lines| :: lines[a].member != lines[b].member
  }

  /** The parent of line `b` is line `a`, and all lines in between are further in than the parent. */
  ghost predicate Hangs(members: seq<Member>, lines: seq<Line>, a: nat, b: nat)
    requires a < b < |lines|
  {
    && Replica(members, lines[b].member) && lines[a].member == Up(members, lines[b].member)
    && forall c | a < c < b :: lines[c].level > lines[a].level
  }

  ghost predicate Shaped(members: seq<Member>, lines: seq<Line>, d: nat) {
    forall b | 0 <= b < |lines| && lines[b].level > d && Visible(members, Root(members)) ::
      exists a | 0 <= a < b :: Hangs(members, lines, a, b)
  }

  ghost predicate Siblings(members: seq<Member>, x: nat, y: nat) {
    Replica(members, x) && Replica(members, y) && Up(members, x) == Up(members, y)
  }

  /** Replicas of the same parent are listed in their original order. */
  ghost predicate InOrder(members: seq<Member>, lines: seq<Line>) {
    forall a, b | 0 <= a < b < |lines| && Siblings(members, lines[a].member, lines[b].member) ::
      lines[a].member < lines[b].member
  }

  /** The lines show exactly what is below the nodes, and only names below the nodes have changed. */
  ghost predicate Good(
      members: seq<Member>, r: (seq<Line>, Labels), labels: Labels, nodes: seq<nat>, d: nat) {
    && |labels| == |r.1| == |members| + 1
    && Correct(members, r.0, d) && Once(r.0) && Shaped(members, r.0, d) && InOrder(members, r.0)
    && (forall x: nat :: Shown(r.0, x) <==> UnderAny(members, x, nodes) && Visible(members, x))
    && Framed(members, labels, r.1, nodes)
  }

  ghost predicate Framed(members: seq<Member>, labels: Labels, after: Labels, nodes: seq<nat>)
    requires |labels| == |after| == |members| + 1
  {
    forall y: nat | Node(members, y) && !UnderAny(members, y, nodes) :: after[y] == labels[y]
  }

  ghost predicate Untouched(members: seq<Member>, labels: Labels, nodes: seq<nat>)
    requires |labels| == |members| + 1
  {
    forall x: nat | Node(members, x) && UnderAny(members, x, nodes) :: labels[x] == OwnName(members, x)
  }

  /** What the indentation looks like: two spaces for each level beyond the first, and a plus sign. */
  lemma IndentationIs(level: nat, name: string)
    ensures Indented(0, name) == name && Indented(1, name) == "+ " + name
    ensures level > 0 ==> Indented(level + 1, name) == "  " + Indented(level, name)
  {
    if level > 0 {
      TwoMoreSpaces((level - 1) * 2, "+ " + name);
      hide Spaces;
      assert (level + 1 - 1) * 2 == (level - 1) * 2 + 2;
      assert Spaces(level * 2) + "+ " + name == Spaces(level * 2) + ("+ " + name);
      assert Spaces((level - 1) * 2) + "+ " + name == Spaces((level - 1) * 2) + ("+ " + name);
    }
  }

  lemma TwoMoreSpaces(n: nat, text: string)
    ensures Spaces(n + 2) + text == "  " + (Spaces(n) + text)
  {
    assert Spaces(n + 2) == " " + Spaces(n + 1) && Spaces(n + 1) == " " + Spaces(n);
  }

  // ---------- composing listings ----------

  lemma ShapedConcat(members: seq<Member>, s: seq<Line>, t: seq<Line>, d: nat)
    requires Shaped(members, s, d) && Shaped(members, t, d)
    ensures Shaped(members, s + t, d)
  {
    var u := s + t;
    forall b | 0 <= b < |u| && u[b].level > d && Visible(members, Root(members))
      ensures exists a | 0 <= a < b :: Hangs(members, u, a, b)
    {
      if b < |s| {
        var a :| 0 <= a < b && Hangs(members, s, a, b);
        assert Hangs(members, u, a, b);
      } else {
        var a :| 0 <= a < b - |s| && Hangs(members, t, a, b - |s|);
        HangsShifted(members, s, t, a, b - |s|);
      }
    }
  }

  lemma HangsShifted(members: seq<Member>, s: seq<Line>, t: seq<Line>, a: nat, b: nat)
    requires a < b < |t| && Hangs(members, t, a, b)
    ensures Hangs(members, s + t, |s| + a, |s| + b)
  {
    var u := s + t;
    assert u[|s| + a] == t[a] && u[|s| + b] == t[b];
    forall c | |s| + a < c < |s| + b
      ensures u[c].level > u[|s| + a].level
    {
      assert u[c] == t[c - |s|];
    }
  }

  /** Lines all further in than `top`, those one step further in being its children. */
  ghost predicate Below(members: seq<Member>, top: Line, t: seq<Line>) {
    forall b | 0 <= b < |t| ::
      && t[b].level > top.level
      && (t[b].level == top.level + 1 ==> Replica(members, t[b].member) && Up(members, t[b].member) == top.member)
  }

  lemma HangsOnTop(members: seq<Member>, top: Line, t: seq<Line>, b: nat)
    requires b < |t| && Below(members, top, t) && t[b].level == top.level + 1
    ensures Hangs(members, [top] + t, 0, b + 1)
  {
    var u := [top] + t;
    assert u[b + 1] == t[b];
    assert forall c | 0 < c < b + 1 :: u[c] == t[c - 1];
  }

  /** A parent line on top of its children's lines. */
  lemma ShapedTop(members: seq<Member>, top: Line, t: seq<Line>)
    requires Below(members, top, t) && Shaped(members, t, top.level + 1)
    ensures Shaped(members, [top] + t, top.level)
  {
    var u := [top] + t;
    hide Up, Replica, Visible, Hangs;
    forall b | 0 <= b < |u| && u[b].level > top.level && Visible(members, Root(members))
      ensures exists a | 0 <= a < b :: Hangs(members, u, a, b)
    {
      assert u[b] == t[b - 1];
      if u[b].level > top.level + 1 {
        var a :| 0 <= a < b - 1 && Hangs(members, t, a, b - 1);
        HangsShifted(members, [top], t, a, b - 1);
        assert Hangs(members, u, a + 1, b);
      } else {
        HangsOnTop(members, top, t, b - 1);
        assert Hangs(members, u, 0, b);
      }
    }
  }

  lemma ShownConcat(s: seq<Line>, t: seq<Line>, x: nat)
    ensures Shown(s + t, x) <==> Shown(s, x) || Shown(t, x)
  {
    var u := s + t;
    if Shown(s, x) {
      var b :| 0 <= b < |s| && s[b].member == x;
      assert u[b] == s[b];
    }
    if Shown(t, x) {
      var b :| 0 <= b < |t| && t[b].member == x;
      assert u[|s| + b] == t[b];
    }
  }

  lemma UnderAnyConcat(members: seq<Member>, x: nat, c: nat, nodes: seq<nat>)
    ensures UnderAny(members, x, [c] + nodes) <==> Under(members, x, c) || UnderAny(members, x, nodes)
    ensures UnderAny(members, x, [c]) <==> Under(members, x, c)
  {
    var all := [c] + nodes;
    if Under(members, x, c) { assert Under(members, x, all[0]) && Under(members, x, [c][0]); }
    if UnderAny(members, x, nodes) {
      var i :| 0 <= i < |nodes| && Under(members, x, nodes[i]);
      assert all[i + 1] == nodes[i];
    }
    if UnderAny(members, x, all) {
      var i :| 0 <= i < |all| && Under(members, x, all[i]);
      assert i > 0 ==> nodes[i - 1] == all[i];
    }
  }

  /** All nodes have depth `d`, and they are in ascending order. */
  ghost predicate Level(members: seq<Member>, nodes: seq<nat>, d: nat) {
    && (forall i | 0 <= i < |nodes| :: Depth(members, nodes[i], d))
    && (forall i, j | 0 <= i < j < |nodes| :: nodes[i] < nodes[j])
  }

  lemma ApartFromRest(members: seq<Member>, x: nat, nodes: seq<nat>, d: nat)
    requires nodes != [] && Level(members, nodes, d)
    ensures !(Under(members, x, nodes[0]) && UnderAny(members, x, nodes[1..]))
  {
    if Under(members, x, nodes[0]) && UnderAny(members, x, nodes[1..]) {
      var i :| 0 <= i < |nodes[1..]| && Under(members, x, nodes[1..][i]);
      SiblingsAreApart(members, x, nodes[0], nodes[i + 1], d);
      assert false;
    }
  }

  lemma GoodConcat(
      members: seq<Member>, first: (seq<Line>, Labels), rest: (seq<Line>, Labels), labels: Labels, nodes: seq<nat>,
      d: nat)
    requires nodes != [] && Level(members, nodes, d)
    requires Good(members, first, labels, [nodes[0]], d) && Good(members, rest, first.1, nodes[1..], d)
    ensures Good(members, (first.0 + rest.0, rest.1), labels, nodes, d)
  {
    assert nodes == [nodes[0]] + nodes[1..];
    ShapedConcat(members, first.0, rest.0, d);
    forall x: nat
      ensures Shown(first.0 + rest.0, x) <==> Shown(first.0, x) || Shown(rest.0, x)
      ensures UnderAny(members, x, nodes) <==> Under(members, x, nodes[0]) || UnderAny(members, x, nodes[1..])
      ensures UnderAny(members, x, [nodes[0]]) <==> Under(members, x, nodes[0])
      ensures !(Under(members, x, nodes[0]) && UnderAny(members, x, nodes[1..]))
    {
      ShownConcat(first.0, rest.0, x);
      UnderAnyConcat(members, x, nodes[0], nodes[1..]);
      ApartFromRest(members, x, nodes, d);
    }
    InOrderConcat(members, first.0, rest.0, nodes, d);
    hide UnderAny, Under, Visible, Shaped, Level, Depth, InOrder;
    CorrectConcat(members, first.0, rest.0, d);
    hide Correct, Shown;
    OnceConcat(first.0, rest.0);
    hide Once;
  }

  /** One step up from below `p`, unless that is `p` itself, is still below `p`. */
  lemma ParentIsUnder(members: seq<Member>, x: nat, p: nat)
    requires Replica(members, x) && Under(members, x, p) && x != p
    ensures Under(members, Up(members, x), p)
  {
    var k: nat :| Climb(members, x, k) == Some(p);
    assert Climb(members, Up(members, x), k - 1) == Some(p);
  }

  /** What is below a node of depth `d` is not as high as that. */
  lemma UnderIsDeep(members: seq<Member>, x: nat, p: nat, d: nat, e: nat)
    requires Under(members, x, p) && Depth(members, p, d) && Depth(members, x, e)
    ensures e >= d
  {
    var k: nat :| Climb(members, x, k) == Some(p);
    ClimbAdd(members, x, k, p, d);
    DepthIsUnique(members, x, k + d, e);
  }

  /** A sibling of a node of depth `d` that is below a node of that depth is that node. */
  lemma SiblingIsTop(members: seq<Member>, x: nat, y: nat, p: nat, d: nat)
    requires Siblings(members, x, y) && Depth(members, x, d) && Depth(members, p, d) && Under(members, y, p)
    ensures y == p
  {
    if y != p {
      ParentIsUnder(members, y, p);
      assert d > 0 && Depth(members, Up(members, x), d - 1);
      UnderIsDeep(members, Up(members, y), p, d, d - 1);
    }
  }

  lemma SiblingsAcross(members: seq<Member>, x: nat, y: nat, nodes: seq<nat>, d: nat)
    requires nodes != [] && Level(members, nodes, d) && Siblings(members, x, y)
    requires Under(members, x, nodes[0]) && UnderAny(members, y, nodes[1..])
    ensures x < y
  {
    if x != nodes[0] {
      ParentIsUnder(members, x, nodes[0]);
      UnderTheParentOf(members, y, nodes[0]);
      ApartFromRest(members, y, nodes, d);
    }
    var i :| 0 <= i < |nodes[1..]| && Under(members, y, nodes[1..][i]);
    SiblingIsTop(members, x, y, nodes[i + 1], d);
  }

  lemma UnderTheParentOf(members: seq<Member>, y: nat, p: nat)
    requires Replica(members, y) && Under(members, Up(members, y), p)
    ensures Under(members, y, p)
  {
    var k: nat :| Climb(members, Up(members, y), k) == Some(p);
    assert Climb(members, y, k + 1) == Some(p);
  }

  lemma InOrderConcat(members: seq<Member>, s: seq<Line>, t: seq<Line>, nodes: seq<nat>, d: nat)
    requires nodes != [] && Level(members, nodes, d) && InOrder(members, s) && InOrder(members, t)
    requires forall x: nat | Shown(s, x) :: Under(members, x, nodes[0])
    requires forall x: nat | Shown(t, x) :: UnderAny(members, x, nodes[1..])
    ensures InOrder(members, s + t)
  {
    var u := s + t;
    forall a, b | 0 <= a < b < |u| && Siblings(members, u[a].member, u[b].member)
      ensures u[a].member < u[b].member
    {
      if a < |s| <= b {
        assert Shown(s, s[a].member) && Shown(t, t[b - |s|].member);
        SiblingsAcross(members, u[a].member, u[b].member, nodes, d);
      }
    }
  }

  lemma CorrectConcat(members: seq<Member>, s: seq<Line>, t: seq<Line>, d: nat)
    requires Correct(members, s, d) && Correct(members, t, d)
    ensures Correct(members, s + t, d)
  {}

  lemma OnceConcat(s: seq<Line>, t: seq<Line>)
    requires Once(s) && Once(t) && forall x: nat :: !(Shown(s, x) && Shown(t, x))
    ensures Once(s + t)
  {
    var u := s + t;
    forall a, b | 0 <= a < b < |u|
      ensures u[a].member != u[b].member
    {
      if a < |s| <= b {
        assert Shown(s, s[a].member) && Shown(t, t[b - |s|].member);
      }
    }
  }

  // ---------- a member and its children ----------

  lemma ChildrenLevel(members: seq<Member>, p: nat, d: nat)
    requires Distinct(members) && Depth(members, p, d)
    ensures var children := Children(members, OwnName(members, p), |members|);
      && Level(members, children, d + 1) && InRange(children, |members| + 1)
      && !UnderAny(members, p, children)
  {
    var children := Children(members, OwnName(members, p), |members|);
    forall i | 0 <= i < |children|
      ensures Depth(members, children[i], d + 1) && !Under(members, p, children[i]) && children[i] < |members|
    {
      assert children[i] in children;
      ChildrenOf(members, p, children[i]);
      ChildDepth(members, children[i], d);
    }
  }

  lemma ChildrenOnTop(members: seq<Member>, x: nat, p: nat, d: nat)
    requires Distinct(members) && Depth(members, p, d) && Depth(members, x, d + 1)
    requires UnderAny(members, x, Children(members, OwnName(members, p), |members|))
    ensures Replica(members, x) && Up(members, x) == p
  {
    var children := Children(members, OwnName(members, p), |members|);
    ChildrenLevel(members, p, d);
    var i :| 0 <= i < |children| && Under(members, x, children[i]);
    assert Under(members, x, x) by { assert Climb(members, x, 0) == Some(x); }
    SiblingsAreApart(members, x, x, children[i], d + 1);
    assert children[i] in children;
    ChildrenOf(members, p, x);
  }

  lemma OwnLine(members: seq<Member>, p: nat, d: nat, labels: Labels)
    requires |labels| == |members| + 1 && Depth(members, p, d) && labels[p] == OwnName(members, p)
    ensures var own := Own(d, p, Relabelled(d, labels, p));
      own == if Visible(members, p) then [Line(p, d, Indented(d, members[p].name))] else []
    ensures !Visible(members, p) ==> !Visible(members, Root(members))
  {
    if d == 0 { assert p == Root(members); }
  }

  lemma BelowTop(members: seq<Member>, p: nat, d: nat, top: Line, lower: (seq<Line>, Labels), labels: Labels)
    requires Distinct(members) && Depth(members, p, d) && top.member == p && top.level == d
    requires Good(members, lower, labels, Children(members, OwnName(members, p), |members|), d + 1)
    ensures Below(members, top, lower.0)
  {
    var children := Children(members, OwnName(members, p), |members|);
    forall b | 0 <= b < |lower.0| && lower.0[b].level == d + 1
      ensures Replica(members, lower.0[b].member) && Up(members, lower.0[b].member) == p
    {
      assert Shown(lower.0, lower.0[b].member);
      ChildrenOnTop(members, lower.0[b].member, p, d);
    }
  }

  /** What is known when the children of `p` have been listed. */
  ghost predicate Lower(members: seq<Member>, p: nat, d: nat, labels: Labels, lower: (seq<Line>, Labels)) {
    && Distinct(members) && Depth(members, p, d)
    && |labels| == |members| + 1 && labels[p] == OwnName(members, p)
    && Good(members, lower, Relabelled(d, labels, p), Children(members, OwnName(members, p), |members|), d + 1)
  }

  lemma TopShaped(members: seq<Member>, p: nat, d: nat, labels: Labels, lower: (seq<Line>, Labels))
    requires Lower(members, p, d, labels, lower)
    ensures Shaped(members, Own(d, p, Relabelled(d, labels, p)) + lower.0, d)
  {
    var renamed := Relabelled(d, labels, p);
    OwnLine(members, p, d, labels);
    var own := Own(d, p, renamed);
    if own != [] {
      BelowTop(members, p, d, own[0], lower, renamed);
      hide Good, Shaped, Below, Depth;
      assert Shaped(members, lower.0, own[0].level + 1) by { GoodIsShaped(members, lower, renamed, p, d); }
      assert own == [own[0]];
      ShapedTop(members, own[0], lower.0);
    }
  }

  lemma GoodIsShaped(members: seq<Member>, lower: (seq<Line>, Labels), renamed: Labels, p: nat, d: nat)
    requires p <= |members|
    requires Good(members, lower, renamed, Children(members, OwnName(members, p), |members|), d + 1)
    ensures Shaped(members, lower.0, d + 1)
  {}

  lemma TopShown(members: seq<Member>, p: nat, d: nat, labels: Labels, lower: (seq<Line>, Labels), x: nat)
    requires Lower(members, p, d, labels, lower)
    ensures Shown(Own(d, p, Relabelled(d, labels, p)) + lower.0, x) <==>
            UnderAny(members, x, [p]) && Visible(members, x)
    ensures !(Shown(Own(d, p, Relabelled(d, labels, p)), x) && Shown(lower.0, x))
    ensures UnderAny(members, x, [p]) <==>
      x == p || UnderAny(members, x, Children(members, OwnName(members, p), |members|))
  {
    var children := Children(members, OwnName(members, p), |members|);
    var own := Own(d, p, Relabelled(d, labels, p));
    OwnLine(members, p, d, labels);
    ChildrenLevel(members, p, d);
    ShownConcat(own, lower.0, x);
    UnderAnyConcat(members, x, p, []);
    UnderSplits(members, x, p, children);
    assert [p] + [] == [p];
    assert Shown(own, x) <==> x == p && Visible(members, p) by {
      if Visible(members, p) { assert own[0].member == p; }
    }
    hide UnderAny, Under, Visible, Depth, Distinct, Level, Correct, Once, Shaped, Framed, Own;
  }

  lemma TopFramed(members: seq<Member>, p: nat, d: nat, labels: Labels, lower: (seq<Line>, Labels))
    requires Lower(members, p, d, labels, lower)
    ensures |lower.1| == |members| + 1 && Framed(members, labels, lower.1, [p])
  {
    var renamed := Relabelled(d, labels, p);
    forall y: nat | Node(members, y) && !UnderAny(members, y, [p])
      ensures lower.1[y] == labels[y]
    {
      TopShown(members, p, d, labels, lower, y);
      assert renamed[y] == labels[y];
    }
  }

  lemma GoodTop(members: seq<Member>, p: nat, d: nat, labels: Labels, lower: (seq<Line>, Labels))
    requires Lower(members, p, d, labels, lower)
    ensures Good(members, (Own(d, p, Relabelled(d, labels, p)) + lower.0, lower.1), labels, [p], d)
  {
    var own := Own(d, p, Relabelled(d, labels, p));
    forall x: nat
      ensures Shown(own + lower.0, x) <==> UnderAny(members, x, [p]) && Visible(members, x)
      ensures !(Shown(own, x) && Shown(lower.0, x))
    {
      TopShown(members, p, d, labels, lower, x);
    }
    TopShaped(members, p, d, labels, lower);
    TopFramed(members, p, d, labels, lower);
    TopCorrect(members, p, d, labels, lower);
    TopInOrder(members, p, d, labels, lower);
    hide UnderAny, Children, Distinct, Shaped, Framed, Own, Relabelled, Indented, Correct, Visible, Once;
    hide Depth, InOrder;
    OnceConcat(own, lower.0);
  }

  /** Nothing below the children of `p` is a sibling of `p`. */
  lemma TopHasNoSibling(members: seq<Member>, p: nat, d: nat, y: nat)
    requires Distinct(members) && Depth(members, p, d)
    requires UnderAny(members, y, Children(members, OwnName(members, p), |members|))
    ensures !Siblings(members, p, y)
  {
    ChildrenLevel(members, p, d);
    UnderSplits(members, y, p, Children(members, OwnName(members, p), |members|));
    hide Children, Distinct, Level, Up;
    if Siblings(members, p, y) {
      SiblingIsTop(members, p, y, p, d);
    }
  }

  lemma InOrderBelow(members: seq<Member>, own: seq<Line>, t: seq<Line>)
    requires |own| <= 1 && InOrder(members, t)
    requires own != [] ==> forall y: nat | Shown(t, y) :: !Siblings(members, own[0].member, y)
    ensures InOrder(members, own + t)
  {
    var u := own + t;
    assert forall k | 0 <= k < |t| :: Shown(t, t[k].member);
    hide Siblings, Shown;
    forall a, b | 0 <= a < b < |u| && Siblings(members, u[a].member, u[b].member)
      ensures u[a].member < u[b].member
    {
      assert u[b] == t[b - |own|];
      assert a >= |own| ==> u[a] == t[a - |own|];
    }
  }

  lemma TopInOrder(members: seq<Member>, p: nat, d: nat, labels: Labels, lower: (seq<Line>, Labels))
    requires Lower(members, p, d, labels, lower)
    ensures InOrder(members, Own(d, p, Relabelled(d, labels, p)) + lower.0)
  {
    var own := Own(d, p, Relabelled(d, labels, p));
    OwnLine(members, p, d, labels);
    forall y: nat | Shown(lower.0, y)
      ensures !Siblings(members, p, y)
    {
      TopHasNoSibling(members, p, d, y);
    }
    hide Siblings, Children, Distinct, UnderAny, Shaped, Correct, Depth;
    InOrderBelow(members, own, lower.0);
  }

  lemma TopCorrect(members: seq<Member>, p: nat, d: nat, labels: Labels, lower: (seq<Line>, Labels))
    requires Lower(members, p, d, labels, lower)
    ensures Correct(members, Own(d, p, Relabelled(d, labels, p)) + lower.0, d)
    ensures Once(Own(d, p, Relabelled(d, labels, p))) && Once(lower.0)
  {
    OwnLine(members, p, d, labels);
    hide Own, Relabelled, Indented, Children, Distinct, Shaped, Framed;
  }

  // ---------- the walk ----------

  lemma {:induction false} WalkIsGood(members: seq<Member>, d: nat, p: nat, tree: Tree, labels: Labels, bound: nat)
    requires tree == TreeOf(members, |members|) && |labels| == |members| + 1 && Bounded(tree, |labels|, bound)
    requires Distinct(members) && Depth(members, p, d) && Untouched(members, labels, [p])
    ensures Good(members, Walk(d, p, tree, labels, bound), labels, [p], d)
    decreases Slack(labels, bound), if d == 0 then 2 else 0, 0
  {
    hide Slack, Walk, WalkAll, Good, Untouched, Level, Children, Bounded, TreeOf, Distinct;
    hide Relabelled, Attached, Longer, Depth, Lower, InRange;
    var renamed, children := WalkChildren(members, d, p, tree, labels, bound);
    if children == [] {
      WalkNone(d + 1, tree, renamed, bound);
      NothingIsGood(members, renamed, d + 1);
    } else {
      WalkAllIsGood(members, d + 1, children, tree, renamed, bound);
    }
    var lower := WalkAll(d + 1, children, tree, renamed, bound);
    LowerBy(members, p, d, labels, lower);
    GoodTop(members, p, d, labels, lower);
  }

  lemma LowerBy(members: seq<Member>, p: nat, d: nat, labels: Labels, lower: (seq<Line>, Labels))
    requires Distinct(members) && Depth(members, p, d)
    requires |labels| == |members| + 1 && labels[p] == OwnName(members, p)
    requires Good(members, lower, Relabelled(d, labels, p), Children(members, OwnName(members, p), |members|), d + 1)
    ensures Lower(members, p, d, labels, lower)
  {}

  lemma WalkChildren(members: seq<Member>, d: nat, p: nat, tree: Tree, labels: Labels, bound: nat)
    returns (renamed: Labels, children: seq<nat>)
    requires tree == TreeOf(members, |members|) && |labels| == |members| + 1 && Bounded(tree, |labels|, bound)
    requires Distinct(members) && Depth(members, p, d) && Untouched(members, labels, [p])
    ensures p <= |members| && labels[p] == OwnName(members, p)
    ensures renamed == Relabelled(d, labels, p) && |renamed| == |labels|
    ensures children == Children(members, OwnName(members, p), |members|) && InRange(children, |labels|)
    ensures Level(members, children, d + 1) && Untouched(members, renamed, children)
    ensures Slack(renamed, bound) <= Slack(labels, bound)
    ensures d > 0 && children != [] ==> Slack(renamed, bound) < Slack(labels, bound)
    ensures var (lines, last) := WalkAll(d + 1, children, tree, renamed, bound);
      Walk(d, p, tree, labels, bound) == (Own(d, p, renamed) + lines, last)
  {
    renamed := Relabelled(d, labels, p);
    LabelledByName(members, p, d, labels);
    children := Children(members, OwnName(members, p), |members|);
    hide Slack, Walk, WalkAll, Untouched, Level, Children, Bounded, TreeOf, Distinct;
    AttachedIsChildren(members, OwnName(members, p), |members|);
    WalkUnfolds(d, p, tree, labels, bound);
    SlackDrops(labels, renamed, bound);
    ChildrenLevel(members, p, d);
    ChildrenUntouched(members, d, p, labels);
  }

  lemma LabelledByName(members: seq<Member>, p: nat, d: nat, labels: Labels)
    requires |labels| == |members| + 1 && Depth(members, p, d) && Untouched(members, labels, [p])
    ensures labels[p] == OwnName(members, p)
  {
    assert UnderAny(members, p, [p]) by { assert Climb(members, p, 0) == Some(p); assert Under(members, p, [p][0]); }
  }

  lemma ChildrenUntouched(members: seq<Member>, d: nat, p: nat, labels: Labels)
    requires |labels| == |members| + 1
    requires Distinct(members) && Depth(members, p, d) && Untouched(members, labels, [p])
    ensures Untouched(members, Relabelled(d, labels, p), Children(members, OwnName(members, p), |members|))
  {
    var children := Children(members, OwnName(members, p), |members|);
    ChildrenLevel(members, p, d);
    forall x: nat | Node(members, x) && UnderAny(members, x, children)
      ensures Relabelled(d, labels, p)[x] == OwnName(members, x)
    {
      UnderSplits(members, x, p, children);
      UnderAnyConcat(members, x, p, []);
    }
  }

  lemma NothingIsGood(members: seq<Member>, labels: Labels, d: nat)
    requires |labels| == |members| + 1
    ensures Good(members, ([], labels), labels, [], d)
  {}

  lemma {:induction false} WalkAllIsGood(
      members: seq<Member>, d: nat, nodes: seq<nat>, tree: Tree, labels: Labels, bound: nat)
    requires tree == TreeOf(members, |members|) && |labels| == |members| + 1 && Bounded(tree, |labels|, bound)
    requires Distinct(members) && d > 0 && InRange(nodes, |labels|)
    requires Level(members, nodes, d) && Untouched(members, labels, nodes)
    ensures Good(members, WalkAll(d, nodes, tree, labels, bound), labels, nodes, d)
    decreases Slack(labels, bound), 1, |nodes|
  {
    hide Slack, Walk, Good, TreeOf, Distinct, Depth, Untouched, Bounded;
    if nodes == [] {
      NothingIsGood(members, labels, d);
    } else {
      FirstUntouched(members, labels, nodes);
      WalkIsGood(members, d, nodes[0], tree, labels, bound);
      var first := Walk(d, nodes[0], tree, labels, bound);
      SlackDrops(labels, first.1, bound);
      RestUntouched(members, first, labels, nodes, d);
      WalkAllIsGood(members, d, nodes[1..], tree, first.1, bound);
      GoodConcat(members, first, WalkAll(d, nodes[1..], tree, first.1, bound), labels, nodes, d);
    }
  }

  lemma FirstUntouched(members: seq<Member>, labels: Labels, nodes: seq<nat>)
    requires |labels| == |members| + 1 && nodes != [] && Untouched(members, labels, nodes)
    ensures Untouched(members, labels, [nodes[0]])
  {}

  lemma RestUntouched(members: seq<Member>, first: (seq<Line>, Labels), labels: Labels, nodes: seq<nat>, d: nat)
    requires |labels| == |members| + 1 && nodes != [] && Level(members, nodes, d) && Untouched(members, labels, nodes)
    requires Good(members, first, labels, [nodes[0]], d)
    ensures Untouched(members, first.1, nodes[1..])
  {
    var rest := nodes[1..];
    assert nodes == [nodes[0]] + rest;
    forall x: nat | Node(members, x) && UnderAny(members, x, rest)
      ensures first.1[x] == OwnName(members, x)
    {
      UnderAnyConcat(members, x, nodes[0], rest);
      ApartFromRest(members, x, nodes, d);
      assert !UnderAny(members, x, [nodes[0]]);
    }
  }

  /**
   The listing shows the leader, if there is one with a name, and exactly the replicas whose chain of parents ends
   at the leader; each of them once, indented by the length of its chain, hanging on its parent's line, and in the
   original order among the replicas of that parent.
   */
  lemma ListingIsTheTree(members: seq<Member>)
    requires Distinct(members)
    ensures var lines := Listing(members);
      && (forall x: nat :: Shown(lines, x) <==> Visible(members, x) && exists d: nat :: Depth(members, x, d))
      && Correct(members, lines, 0) && Once(lines) && Shaped(members, lines, 0) && InOrder(members, lines)
  {
    var root, labels := Root(members), InitialLabels(members);
    TreeBounded(members, |members|);
    assert Depth(members, root, 0);
    WalkIsGood(members, 0, root, TreeOf(members, |members|), labels, Longest(members));
    hide Walk, TreeOf, Bounded, Correct, Once, Shaped, Framed, InOrder;
    forall x: nat
      ensures UnderAny(members, x, [root]) <==> exists d: nat :: Depth(members, x, d)
    {
      UnderAnyConcat(members, x, root, []);
    }
  }
}
