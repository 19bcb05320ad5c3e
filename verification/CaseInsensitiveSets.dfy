/**
 The set type of the quorum computations: names that differ only in case are the same element, and the spelling that
 was added last is remembered. Its operations are those of a mathematical set of lower-cased names.
 */
module CaseInsensitiveSets {

  function LowerChar(c: char): char {
    if 'A' <= c <= 'Z' then 'a' + (c - 'A') else c
  }

  function Lower(s: string): (r: string)
    ensures |r| == |s| && forall i | 0 <= i < |s| :: r[i] == LowerChar(s[i])
  {
    seq(|s|, i requires 0 <= i < |s| => LowerChar(s[i]))
  }

  /** The same letter, or the upper and the lower case of one. */
  predicate SameLetter(a: char, b: char) {
    || a == b
    || ('A' <= a <= 'Z' && b as int == a as int + 32)
    || ('A' <= b <= 'Z' && a as int == b as int + 32)
  }

  /** Two spellings are one name exactly if they differ in the case of letters at most. */
  lemma SameName(a: string, b: string)
    ensures Lower(a) == Lower(b) <==> |a| == |b| && forall i | 0 <= i < |a| :: SameLetter(a[i], b[i])
  {
    if Lower(a) == Lower(b) {
      forall i | 0 <= i < |a| ensures SameLetter(a[i], b[i]) {
        assert Lower(a)[i] == Lower(b)[i];
      }
    }
  }

  /** The lower-cased names of a collection. */
  ghost function Elements(names: set<string>): set<string> { set v | v in names :: Lower(v) }

  class CaseInsensitiveSet {
    /** The spelling of each lower-cased name. */
    var values: map<string, string>

    ghost predicate Valid()
      reads this
    {
      forall key | key in values :: key == Lower(values[key])
    }

    /** The set that this object stands for. */
    ghost function Contents(): set<string>
      reads this
    {
      values.Keys
    }

    constructor (names: seq<string>)
      ensures Valid() && Contents() == Elements(set v | v in names)
    {
      values := map[];
      new;
      for i := 0 to |names|
        invariant Valid() && Contents() == Elements(set v | v in names[..i])
        modifies this
      {
        assert names[..i + 1] == names[..i] + [names[i]];
        Add(names[i]);
      }
      assert names[..|names|] == names;
    }

    method Add(name: string)
      requires Valid()
      modifies this
      ensures Valid() && Contents() == old(Contents()) + {Lower(name)}
      ensures values == old(values)[Lower(name) := name]
    {
      values := values[Lower(name) := name];
    }

    method Discard(name: string)
      requires Valid()
      modifies this
      ensures Valid() && Contents() == old(Contents()) - {Lower(name)}
      ensures forall key | key in values :: values[key] == old(values)[key]
    {
      values := values - {Lower(name)};
    }

    method Contains(name: string) returns (found: bool)
      ensures found <==> Lower(name) in Contents()
    {
      found := Lower(name) in values;
    }

    method Size() returns (n: nat)
      ensures n == |Contents()|
    {
      n := |values|;
    }

    /** The spellings, in which no two are the same name. */
    lemma Spellings()
      requires Valid()
      ensures Elements(values.Values) == Contents() && |values.Values| == |values|
    {
      forall key | key in values ensures key in Elements(values.Values) {
        assert values[key] in values.Values;
      }
      SameSize(values);
    }

    /** Comparing sizes first, then looking up one spelling after the other. */
    method IsSubset(other: CaseInsensitiveSet) returns (subset: bool)
      requires Valid() && other.Valid()
      ensures subset <==> Contents() <= other.Contents()
    {
      SubsetIsSmaller(Contents(), other.Contents());
      if |values| > |other.values| {
        return false;
      }
      Spellings();
      subset := AllFound(values.Values, other);
    }

    /** Equal sizes and one inclusion. */
    method Equals(other: CaseInsensitiveSet) returns (equal: bool)
      requires Valid() && other.Valid()
      ensures equal <==> Contents() == other.Contents()
    {
      if |values| != |other.values| {
        return false;
      }
      equal := IsSubset(other);
      SubsetIsSmaller(Contents(), other.Contents());
    }

    /** The spellings of `other` that are in this set. */
    method Intersection(other: CaseInsensitiveSet) returns (r: CaseInsensitiveSet)
      requires Valid() && other.Valid()
      ensures fresh(r) && r.Valid() && r.Contents() == Contents() * other.Contents()
    {
      other.Spellings();
      r := Filtered(other.values.Values, this, true);
    }

    method Difference(other: CaseInsensitiveSet) returns (r: CaseInsensitiveSet)
      requires Valid() && other.Valid()
      ensures fresh(r) && r.Valid() && r.Contents() == Contents() - other.Contents()
    {
      Spellings();
      r := Filtered(values.Values, other, false);
    }

    /** The spellings of `other` win, since they are added last. */
    method Union(other: CaseInsensitiveSet) returns (r: CaseInsensitiveSet)
      requires Valid() && other.Valid()
      ensures fresh(r) && r.Valid() && r.Contents() == Contents() + other.Contents()
      ensures forall key | key in other.values :: r.values[key] == other.values[key]
    {
      r := new CaseInsensitiveSet([]);
      r.values := values + other.values;
    }
  }

  method AllFound(names: set<string>, s: CaseInsensitiveSet) returns (all: bool)
    ensures all <==> Elements(names) <= s.Contents()
  {
    var rest := names;
    while rest != {}
      invariant rest <= names && Elements(names - rest) <= s.Contents()
      decreases rest
    {
      var v :| v in rest;
      var found := s.Contains(v);
      if !found {
        assert Lower(v) in Elements(names);
        return false;
      }
      rest := rest - {v};
    }
    assert names - rest == names;
    return true;
  }

  method Filtered(names: set<string>, s: CaseInsensitiveSet, keep: bool) returns (r: CaseInsensitiveSet)
    ensures fresh(r) && r.Valid()
    ensures r.Contents() == if keep then Elements(names) * s.Contents() else Elements(names) - s.Contents()
  {
    r := new CaseInsensitiveSet([]);
    var rest := names;
    assert r.Contents() == {} && Elements(names - rest) == {};
    hide Elements, Lower;
    while rest != {}
      invariant fresh(r) && r.Valid() && rest <= names
      invariant r.Contents() ==
        if keep then Elements(names - rest) * s.Contents() else Elements(names - rest) - s.Contents()
      decreases rest
    {
      var v :| v in rest;
      OneMore(names, rest, v);
      var found := s.Contains(v);
      if found == keep {
        r.Add(v);
      }
      rest := rest - {v};
    }
    assert names - rest == names;
  }

  lemma OneMore(names: set<string>, rest: set<string>, v: string)
    requires v in rest && rest <= names
    ensures Elements(names - (rest - {v})) == Elements(names - rest) + {Lower(v)}
  {
    assert names - (rest - {v}) == names - rest + {v};
  }

  lemma SubsetIsSmaller(a: set<string>, b: set<string>)
    ensures a <= b ==> |a| <= |b|
    ensures a <= b && |a| == |b| ==> a == b
  {
    if a <= b {
      assert b == a + (b - a);
      assert |b| == |a| + |b - a|;
    }
  }

  lemma {:induction false} SameSize(m: map<string, string>)
    requires forall key | key in m :: key == Lower(m[key])
    ensures |m.Values| == |m|
    decreases |m|
  {
    if m.Keys != {} {
      var key :| key in m;
      var rest := m - {key};
      SameSize(rest);
      assert m.Keys == rest.Keys + {key};
      assert m.Values == rest.Values + {m[key]};
      assert m[key] !in rest.Values;
    } else {
      assert m == map[];
    }
  }
}
