/**
 * Python's `sorted` on a list of label strings, as `generate_markdown_report`
 * (weekly_report/report_app.py) uses it to build a post's group key. Strings compare
 * code point by code point, a proper prefix first; equal strings are identical, so
 * stability plays no part and the sorted list is determined by the labels alone.
 */
module LabelSort {

  /** Python's `a <= b` on str. */
  predicate LessEq(a: string, b: string)
    decreases |a|
  {
    a == [] || (b != [] && (a[0] < b[0] || (a[0] == b[0] && LessEq(a[1..], b[1..]))))
  }

  lemma LessEqRefl(a: string)
    ensures LessEq(a, a)
  {
  }

  lemma LessEqTotal(a: string, b: string)
    ensures LessEq(a, b) || LessEq(b, a)
  {
  }

  lemma {:induction false} LessEqAntisym(a: string, b: string)
    requires LessEq(a, b) && LessEq(b, a)
    ensures a == b
    decreases |a|
  {
    if a != [] {
      LessEqAntisym(a[1..], b[1..]);
      assert a == [a[0]] + a[1..] && b == [b[0]] + b[1..];
    }
  }

  lemma {:induction false} LessEqTrans(a: string, b: string, c: string)
    requires LessEq(a, b) && LessEq(b, c)
    ensures LessEq(a, c)
    decreases |a|
  {
    if a != [] && a[0] == b[0] && b[0] == c[0] {
      LessEqTrans(a[1..], b[1..], c[1..]);
    }
  }

  predicate Sorted(s: seq<string>)
  {
    forall i, j :: 0 <= i < j < |s| ==> LessEq(s[i], s[j])
  }

  /** A head below every element of a sorted tail keeps the list sorted. */
  lemma ConsSorted(h: string, t: seq<string>)
    requires Sorted(t)
    requires forall i :: 0 <= i < |t| ==> LessEq(h, t[i])
    ensures Sorted([h] + t)
  {
  }

  /** A bound that holds for every element of `t` and for `x` holds for every element of a permutation of `t + [x]`. */
  lemma BelowAll(h: string, x: string, t: seq<string>, r: seq<string>)
    requires forall i :: 0 <= i < |t| ==> LessEq(h, t[i])
    requires LessEq(h, x)
    requires multiset(r) == multiset(t) + multiset{x}
    ensures forall i :: 0 <= i < |r| ==> LessEq(h, r[i])
  {
    forall i | 0 <= i < |r|
      ensures LessEq(h, r[i])
    {
      assert r[i] in multiset(r);
      if r[i] != x {
        assert r[i] in t;
      }
    }
  }

  /** Insertion of one label into a sorted list. */
  function Insert(x: string, s: seq<string>): (r: seq<string>)
    requires Sorted(s)
    ensures Sorted(r)
    ensures multiset(r) == multiset(s) + multiset{x}
    decreases |s|
  {
    if s == [] || LessEq(x, s[0]) then
      InsertFront(x, s);
      [x] + s
    else
      var r := Insert(x, s[1..]);
      LessEqTotal(x, s[0]);
      assert s == [s[0]] + s[1..];
      BelowAll(s[0], x, s[1..], r);
      ConsSorted(s[0], r);
      [s[0]] + r
  }

  lemma InsertFront(x: string, s: seq<string>)
    requires Sorted(s)
    requires s == [] || LessEq(x, s[0])
    ensures Sorted([x] + s)
  {
    forall i | 0 <= i < |s|
      ensures LessEq(x, s[i])
    {
      if i > 0 {
        LessEqTrans(x, s[0], s[i]);
      }
    }
    ConsSorted(x, s);
  }

  /** `sorted(labels)`: the labels, in ascending order. */
  function SortLabels(labels: seq<string>): (r: seq<string>)
    ensures Sorted(r)
    ensures multiset(r) == multiset(labels)
  {
    if labels == [] then []
    else
      assert labels == [labels[0]] + labels[1..];
      Insert(labels[0], SortLabels(labels[1..]))
  }

  /** The first element of a sorted list is below every element. */
  lemma FirstIsLeast(s: seq<string>, y: string)
    requires Sorted(s) && y in s
    ensures LessEq(s[0], y)
  {
    var k :| 0 <= k < |s| && s[k] == y;
    if k == 0 {
      LessEqRefl(y);
    }
  }

  /** Two sorted lists holding the same labels are the same list. */
  lemma {:induction false} SortedUnique(a: seq<string>, b: seq<string>)
    requires Sorted(a) && Sorted(b)
    requires multiset(a) == multiset(b)
    ensures a == b
    decreases |a|
  {
    if a == [] {
      assert |multiset(b)| == 0;
    } else {
      assert |multiset(b)| == |multiset(a)|;
      assert a[0] in multiset(b) && b[0] in multiset(a);
      FirstIsLeast(a, b[0]);
      FirstIsLeast(b, a[0]);
      LessEqAntisym(a[0], b[0]);
      SameTails(a, b);
      SortedUnique(a[1..], b[1..]);
      assert a == [a[0]] + a[1..] && b == [b[0]] + b[1..];
    }
  }

  /** Dropping the same first element from two lists of the same labels, and sortedness, leaves the rest alike. */
  lemma SameTails(a: seq<string>, b: seq<string>)
    requires a != [] && b != [] && a[0] == b[0]
    requires multiset(a) == multiset(b)
    requires Sorted(a) && Sorted(b)
    ensures multiset(a[1..]) == multiset(b[1..])
    ensures Sorted(a[1..]) && Sorted(b[1..])
  {
    assert a == [a[0]] + a[1..] && b == [b[0]] + b[1..];
    var ta, tb := multiset(a[1..]), multiset(b[1..]);
    assert multiset(a) == multiset{a[0]} + ta;
    assert multiset(b) == multiset{a[0]} + tb;
    forall x
      ensures ta[x] == tb[x]
    {
      assert multiset(a)[x] == multiset{a[0]}[x] + ta[x];
      assert multiset(b)[x] == multiset{a[0]}[x] + tb[x];
    }
    assert ta == tb;
  }

  /** `sorted` sees only which labels there are, not their order. */
  lemma SortIgnoresOrder(a: seq<string>, b: seq<string>)
    requires multiset(a) == multiset(b)
    ensures SortLabels(a) == SortLabels(b)
  {
    SortedUnique(SortLabels(a), SortLabels(b));
  }
}
