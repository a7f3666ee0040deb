/**
 * `Array.prototype.sort()` without a comparator, on arrays of strings: ascending
 * UTF-16 code-unit order.
 */
module DefaultSort {
  import opened JsStrings
  import opened Sequences

  /** `a` may stand before `b` in the sorted output. */
  predicate CodeUnitLe(a: string, b: string) {
    a == b || CodeUnitLess(a, b)
  }

  predicate Sorted(s: seq<string>) {
    forall i, j :: 0 <= i < j < |s| ==> CodeUnitLe(s[i], s[j])
  }

  predicate StrictlySorted(s: seq<string>) {
    forall i, j :: 0 <= i < j < |s| ==> CodeUnitLess(s[i], s[j])
  }

  lemma CodeUnitLeTransitive(a: string, b: string, c: string)
    requires CodeUnitLe(a, b) && CodeUnitLe(b, c)
    ensures CodeUnitLe(a, c)
  {
    if CodeUnitLess(a, b) && CodeUnitLess(b, c) {
      CodeUnitLessTransitive(a, b, c);
    }
  }

  /** Insert `x` into the sorted `s` before the first element it does not sort after. */
  function Insert(x: string, s: seq<string>): (r: seq<string>)
    requires Sorted(s)
    ensures Sorted(r)
    ensures multiset(r) == multiset(s) + multiset{x}
  {
    if s == [] then [x]
    else if CodeUnitLe(x, s[0]) then
      assert forall j :: 0 <= j < |s| ==> CodeUnitLe(x, s[j]) by {
        forall j | 0 <= j < |s| ensures CodeUnitLe(x, s[j]) {
          CodeUnitLeTransitive(x, s[0], s[j]);
        }
      }
      SortedCons(x, s);
      [x] + s
    else
      CodeUnitLessTotal(x, s[0]);
      var t := Insert(x, s[1..]);
      assert s == [s[0]] + s[1..];
      InsertedAbove(s[0], x, s[1..], t);
      SortedCons(s[0], t);
      [s[0]] + t
  }

  /** A list sorted after a value that sorts before all its elements stays sorted. */
  lemma SortedCons(a: string, t: seq<string>)
    requires Sorted(t) && forall j :: 0 <= j < |t| ==> CodeUnitLe(a, t[j])
    ensures Sorted([a] + t)
  {
    var r := [a] + t;
    forall i, j | 0 <= i < j < |r| ensures CodeUnitLe(r[i], r[j]) {
      assert r[j] == t[j - 1];
      if i > 0 {
        assert r[i] == t[i - 1];
      }
    }
  }

  /** Every element of `t`, made of `x` and the elements of `rest`, sorts after `a`. */
  lemma InsertedAbove(a: string, x: string, rest: seq<string>, t: seq<string>)
    requires CodeUnitLe(a, x) && (forall j :: 0 <= j < |rest| ==> CodeUnitLe(a, rest[j]))
    requires multiset(t) == multiset(rest) + multiset{x}
    ensures forall j :: 0 <= j < |t| ==> CodeUnitLe(a, t[j])
  {
    forall j | 0 <= j < |t| ensures CodeUnitLe(a, t[j]) {
      assert t[j] in multiset(t);
      assert t[j] == x || t[j] in multiset(rest);
    }
  }

  /** The sorted arrangement of `s`. */
  function Sort(s: seq<string>): (r: seq<string>)
    ensures Sorted(r)
    ensures multiset(r) == multiset(s)
  {
    if s == [] then []
    else
      assert s == s[..|s| - 1] + [s[|s| - 1]];
      Insert(s[|s| - 1], Sort(s[..|s| - 1]))
  }

  /** Sorting values that are all different yields a strictly ascending list of the same values. */
  lemma SortDistinct(s: seq<string>)
    requires Distinct(s)
    ensures StrictlySorted(Sort(s))
    ensures forall x :: x in Sort(s) <==> x in s
  {
    var r := Sort(s);
    assert forall x :: x in r <==> x in s by {
      forall x ensures x in r <==> x in s {
        assert x in r <==> x in multiset(r);
        assert x in s <==> x in multiset(s);
      }
    }
    DistinctByMultiset(s, r);
  }

  lemma DistinctByMultiset(s: seq<string>, r: seq<string>)
    requires Distinct(s) && multiset(r) == multiset(s) && Sorted(r)
    ensures StrictlySorted(r)
  {
    forall i, j | 0 <= i < j < |r| ensures CodeUnitLess(r[i], r[j]) {
      if r[i] == r[j] {
        RepeatedMultiplicity(r, i, j);
        MultiplicityInDistinct(s, r[i]);
      }
    }
  }

  /** A value found at two positions occurs at least twice in the multiset. */
  lemma RepeatedMultiplicity(r: seq<string>, i: int, j: int)
    requires 0 <= i < j < |r| && r[i] == r[j]
    ensures multiset(r)[r[i]] >= 2
  {
    var x := r[i];
    assert r == r[..j] + r[j..];
    assert r[..j][i] == x && r[j..][0] == x;
    assert x in multiset(r[..j]) && x in multiset(r[j..]);
  }

  lemma {:induction false} MultiplicityInDistinct(s: seq<string>, x: string)
    requires Distinct(s)
    ensures multiset(s)[x] <= 1
  {
    if s != [] {
      assert s == [s[0]] + s[1..];
      MultiplicityInDistinct(s[1..], x);
      if s[0] == x {
        assert x !in s[1..];
      }
    }
  }
}
