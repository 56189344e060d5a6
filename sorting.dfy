/**
 * The `(date_obj, file_name)` tuples the combiners collect, Python's tuple
 * comparison on them, and the result of `file_date.sort()`.
 *
 * `list.sort` is a built-in; its result is specified here by an insertion
 * sort. Because the tuple order is a strict total order, every sorting
 * algorithm yields this same list, so the choice of algorithm is immaterial.
 */
module Sorting {
  import opened Text
  import opened Calendar

  datatype Dated = Dated(date: Datetime, name: string)

  /** `a < b` on two `(datetime, str)` tuples. */
  predicate Less(a: Dated, b: Dated)
  {
    Before(a.date, b.date) || (a.date == b.date && StrLess(a.name, b.name))
  }

  predicate LessEq(a: Dated, b: Dated) { Less(a, b) || a == b }

  /**
   * The tuple comparison puts the earlier day first (counting days from
   * year 1) and, on the same day, the smaller name.
   */
  lemma LessIsChronological(a: Dated, b: Dated)
    ensures Less(a, b) <==> Ordinal(a.date) < Ordinal(b.date) || (a.date == b.date && StrLess(a.name, b.name))
  {
    BeforeIsChronological(a.date, b.date);
  }

  lemma LessIrreflexive(a: Dated)
    ensures !Less(a, a)
  {
    StrLessIrreflexive(a.name);
  }

  lemma LessTransitive(a: Dated, b: Dated, c: Dated)
    requires Less(a, b) && Less(b, c)
    ensures Less(a, c)
  {
    if a.date == b.date && b.date == c.date {
      StrLessTransitive(a.name, b.name, c.name);
    }
  }

  /** The tuple order is total: two different tuples are ordered one way or the other. */
  lemma LessTotal(a: Dated, b: Dated)
    requires a != b
    ensures Less(a, b) || Less(b, a)
  {
    if a.date == b.date {
      StrLessTotal(a.name, b.name);
    }
  }

  lemma LessAsymmetric(a: Dated, b: Dated)
    requires Less(a, b)
    ensures !Less(b, a)
  {
    if Less(b, a) {
      LessTransitive(a, b, a);
      LessIrreflexive(a);
    }
  }

  /** What `list.sort()` guarantees: no element is greater than a later one. */
  predicate Sorted(s: seq<Dated>)
  {
    forall i, j :: 0 <= i < j < |s| ==> LessEq(s[i], s[j])
  }

  predicate StrictlySorted(s: seq<Dated>)
  {
    forall i, j :: 0 <= i < j < |s| ==> Less(s[i], s[j])
  }

  predicate DistinctNames(s: seq<Dated>)
  {
    forall i, j :: 0 <= i < j < |s| ==> s[i].name != s[j].name
  }

  function Insert(x: Dated, s: seq<Dated>): (r: seq<Dated>)
    requires Sorted(s)
    ensures Sorted(r)
    ensures multiset(r) == multiset(s) + multiset{x}
    decreases |s|
  {
    if s == [] then [x]
    else if LessEq(x, s[0]) then
      InsertFrontSorted(x, s);
      [x] + s
    else
      var t := Insert(x, s[1..]);
      assert s == [s[0]] + s[1..];
      InsertRestSorted(x, s, t);
      [s[0]] + t
  }

  lemma InsertFrontSorted(x: Dated, s: seq<Dated>)
    requires Sorted(s) && s != [] && LessEq(x, s[0])
    ensures Sorted([x] + s)
  {
    var r := [x] + s;
    forall i, j | 0 <= i < j < |r| ensures LessEq(r[i], r[j]) {
      if i == 0 && j > 1 {
        assert LessEq(s[0], s[j - 1]);
        if Less(x, s[0]) && Less(s[0], s[j - 1]) {
          LessTransitive(x, s[0], s[j - 1]);
        }
      }
    }
  }

  lemma InsertRestSorted(x: Dated, s: seq<Dated>, t: seq<Dated>)
    requires Sorted(s) && s != [] && !LessEq(x, s[0])
    requires Sorted(t) && multiset(t) == multiset(s[1..]) + multiset{x}
    ensures Sorted([s[0]] + t)
  {
    var r := [s[0]] + t;
    forall j | 0 <= j < |t| ensures LessEq(s[0], t[j]) {
      assert t[j] in multiset(t);
      if t[j] == x {
        LessTotal(x, s[0]);
      } else {
        assert t[j] in multiset(s[1..]);
        var k :| 0 <= k < |s[1..]| && s[1..][k] == t[j];
        assert LessEq(s[0], s[k + 1]);
      }
    }
    forall i, j | 0 <= i < j < |r| ensures LessEq(r[i], r[j]) {
      if i > 0 {
        assert LessEq(t[i - 1], t[j - 1]);
      } else {
        assert LessEq(s[0], t[j - 1]);
      }
    }
  }

  /** The list after `file_date.sort()`: sorted, and a permutation of the input. */
  function Sort(s: seq<Dated>): (r: seq<Dated>)
    ensures Sorted(r)
    ensures multiset(r) == multiset(s)
    decreases |s|
  {
    if s == [] then []
    else
      assert s == [s[0]] + s[1..];
      Insert(s[0], Sort(s[1..]))
  }

  /** With distinct file names no two tuples are equal, so a sorted list is strictly ascending. */
  lemma SortedDistinctIsStrict(s: seq<Dated>)
    requires Sorted(s) && DistinctNames(s)
    ensures StrictlySorted(s)
  {
  }

  /**
   * Two strictly ascending lists holding the same tuples are the same list:
   * the sorted order does not depend on the order the tuples were collected in.
   */
  lemma {:induction false} StrictlySortedUnique(s: seq<Dated>, t: seq<Dated>)
    requires StrictlySorted(s) && StrictlySorted(t)
    requires forall x :: x in s <==> x in t
    ensures s == t
    decreases |s|
  {
    if s != [] {
      assert s[0] in s;
    }
    if t != [] {
      assert t[0] in t;
    }
    if s != [] && t != [] {
      var j :| 0 <= j < |t| && t[j] == s[0];
      var i :| 0 <= i < |s| && s[i] == t[0];
      if j > 0 {
        if i > 0 {
          LessAsymmetric(s[0], s[i]);
        } else {
          LessIrreflexive(t[0]);
        }
      }
      assert s[0] == t[0];
      forall x ensures x in s[1..] <==> x in t[1..] {
        if x in s[1..] {
          TailMember(s, t, x);
        }
        if x in t[1..] {
          TailMember(t, s, x);
        }
      }
      StrictlySortedUnique(s[1..], t[1..]);
      assert s == [s[0]] + s[1..] && t == [t[0]] + t[1..];
    }
  }

  /** Past a shared first tuple, a tuple in the rest of s is in the rest of t. */
  lemma TailMember(s: seq<Dated>, t: seq<Dated>, x: Dated)
    requires StrictlySorted(s) && s != [] && t != [] && s[0] == t[0]
    requires forall y :: y in s <==> y in t
    requires x in s[1..]
    ensures x in t[1..]
  {
    var k :| 0 <= k < |s[1..]| && s[1..][k] == x;
    assert Less(s[0], s[k + 1]);
    LessIrreflexive(x);
    assert x in t && x != t[0];
    var m :| 0 <= m < |t| && t[m] == x;
    assert t[1..][m - 1] == x;
  }

  /** A permutation has the same elements and the same length. */
  lemma PermutationKeepsMembers(s: seq<Dated>, t: seq<Dated>)
    requires multiset(s) == multiset(t)
    ensures |s| == |t|
    ensures forall x :: x in s <==> x in t
  {
    assert |multiset(s)| == |multiset(t)|;
    forall x ensures x in s <==> x in t {
      assert x in s <==> x in multiset(s);
      assert x in t <==> x in multiset(t);
    }
  }

  /** A permutation of a list with distinct names has distinct names. */
  lemma PermutationKeepsDistinctNames(s: seq<Dated>, t: seq<Dated>)
    requires multiset(s) == multiset(t) && DistinctNames(s)
    ensures DistinctNames(t)
  {
    forall i, j | 0 <= i < j < |t| ensures t[i].name != t[j].name {
      if t[i].name == t[j].name {
        assert t[i] in multiset(s) && t[j] in multiset(s);
        var a :| 0 <= a < |s| && s[a] == t[i];
        var b :| 0 <= b < |s| && s[b] == t[j];
        assert a == b;
        OccursTwice(t, i, j);
        OccursOnce(s, a);
      }
    }
  }

  lemma OccursTwice(t: seq<Dated>, i: nat, j: nat)
    requires i < j < |t| && t[i] == t[j]
    ensures multiset(t)[t[i]] >= 2
  {
    var head := t[..j];
    assert t == head + [t[j]] + t[j + 1..];
    assert head[i] == t[i];
    assert multiset(head)[t[i]] >= 1;
  }

  lemma OccursOnce(s: seq<Dated>, a: nat)
    requires a < |s| && DistinctNames(s)
    ensures multiset(s)[s[a]] == 1
  {
    var before, after := s[..a], s[a + 1..];
    assert s == before + [s[a]] + after;
    assert s[a] !in before && s[a] !in after;
  }
}
