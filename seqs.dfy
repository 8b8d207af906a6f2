/** Order-preserving operations on sequences that the configuration report is built from. */
module Seqs {

  /** No element occurs twice. */
  predicate Distinct<T(==)>(s: seq<T>)
  {
    forall i, j :: 0 <= i < j < |s| ==> s[i] != s[j]
  }

  /** Appending an element that does not occur yet keeps a sequence free of repetitions. */
  lemma DistinctAppend<T>(s: seq<T>, x: T)
    requires Distinct(s) && x !in s
    ensures Distinct(s + [x])
  {
    var t := s + [x];
    forall i, j | 0 <= i < j < |t| ensures t[i] != t[j] {
      if j == |s| {
        assert t[i] == s[i] && s[i] in s;
      } else {
        assert t[i] == s[i] && t[j] == s[j];
      }
    }
  }

  /** Position of the first occurrence of `x` in `s`, or `|s|` when `x` does not occur. */
  function IndexOf<T(==)>(s: seq<T>, x: T): (k: nat)
    ensures k <= |s|
    ensures k < |s| <==> x in s
    ensures k < |s| ==> s[k] == x
  {
    if s == [] then 0
    else if s[0] == x then 0
    else 1 + IndexOf(s[1..], x)
  }

  /** An element that does not occur in `s` is found in `s + t` where it is found in `t`, shifted
      by `|s|`. */
  lemma {:induction false} IndexOfAppend<T>(s: seq<T>, t: seq<T>, x: T)
    requires x !in s
    ensures IndexOf(s + t, x) == |s| + IndexOf(t, x)
  {
    if s == [] {
      assert s + t == t;
    } else {
      assert (s + t)[1..] == s[1..] + t;
      assert s[0] in s;
      IndexOfAppend(s[1..], t, x);
    }
  }

  /** The elements of `s` that satisfy `keep`, in the order in which they occur in `s`. */
  function Filter<T(!new)>(s: seq<T>, keep: T -> bool): (r: seq<T>)
    ensures |r| <= |s|
    ensures forall x :: x in r <==> x in s && keep(x)
  {
    if s == [] then []
    else (if keep(s[0]) then [s[0]] else []) + Filter(s[1..], keep)
  }

  /** Filtering drops nothing when every element is kept, and everything when none is. */
  lemma {:induction false} FilterAllOrNone<T(!new)>(s: seq<T>, keep: T -> bool)
    ensures (forall x :: x in s ==> keep(x)) ==> Filter(s, keep) == s
    ensures (forall x :: x in s ==> !keep(x)) ==> Filter(s, keep) == []
  {
    if s != [] {
      FilterAllOrNone(s[1..], keep);
      assert s[0] in s;
      assert forall x :: x in s[1..] ==> x in s;
      assert s == [s[0]] + s[1..];
    }
  }

  lemma IndexOfTail<T>(s: seq<T>, x: T)
    requires Distinct(s) && s != [] && x in s[1..]
    ensures IndexOf(s, x) == 1 + IndexOf(s[1..], x)
  {
    assert s[0] in s[..1];
    var k :| 0 <= k < |s| - 1 && s[1..][k] == x;
    assert s[0] != s[k + 1];
  }

  /** Filtering a sequence without repetitions keeps the elements in their original order:
      an element that comes earlier in the result comes earlier in `s`. */
  lemma {:induction false} FilterKeepsOrder<T(!new)>(s: seq<T>, keep: T -> bool)
    requires Distinct(s)
    ensures forall i, j :: 0 <= i < j < |Filter(s, keep)| ==>
      IndexOf(s, Filter(s, keep)[i]) < IndexOf(s, Filter(s, keep)[j])
  {
    if s != [] {
      FilterKeepsOrder(s[1..], keep);
      FilterOrderStep(s, keep);
    }
  }

  lemma FilterOrderStep<T(!new)>(s: seq<T>, keep: T -> bool)
    requires Distinct(s) && s != []
    requires forall i, j :: 0 <= i < j < |Filter(s[1..], keep)| ==>
      IndexOf(s[1..], Filter(s[1..], keep)[i]) < IndexOf(s[1..], Filter(s[1..], keep)[j])
    ensures forall i, j :: 0 <= i < j < |Filter(s, keep)| ==>
      IndexOf(s, Filter(s, keep)[i]) < IndexOf(s, Filter(s, keep)[j])
  {
    var tail := s[1..];
    var r := Filter(s, keep);
    var rt := Filter(tail, keep);
    var d := if keep(s[0]) then 1 else 0;
    assert |r| == |rt| + d;
    assert forall k :: d <= k < |r| ==> r[k] == rt[k - d];
    forall i, j | 0 <= i < j < |r| ensures IndexOf(s, r[i]) < IndexOf(s, r[j]) {
      assert r[j] in rt;
      IndexOfTail(s, r[j]);
      if d <= i {
        assert r[i] in rt;
        IndexOfTail(s, r[i]);
        assert IndexOf(tail, rt[i - d]) < IndexOf(tail, rt[j - d]);
      } else {
        assert r[i] == s[0];
      }
    }
  }

  /** Filtering a sequence without repetitions yields a sequence without repetitions. */
  lemma {:induction false} FilterDistinct<T(!new)>(s: seq<T>, keep: T -> bool)
    requires Distinct(s)
    ensures Distinct(Filter(s, keep))
  {
    var r := Filter(s, keep);
    FilterKeepsOrder(s, keep);
    forall i, j | 0 <= i < j < |r| ensures r[i] != r[j] {
      assert IndexOf(s, r[i]) < IndexOf(s, r[j]);
    }
  }

  /** Every element of `s` comes `before` each element after it. */
  predicate StrictlyOrdered<T>(s: seq<T>, before: (T, T) -> bool)
  {
    forall i, j :: 0 <= i < j < |s| ==> before(s[i], s[j])
  }

  /** Under an asymmetric `before`, a strictly ordered sequence is determined by its elements:
      two such sequences with the same elements are equal. */
  lemma {:induction false} StrictlyOrderedDetermined<T>(a: seq<T>, b: seq<T>, before: (T, T) -> bool)
    requires forall x, y :: !(before(x, y) && before(y, x))
    requires StrictlyOrdered(a, before) && StrictlyOrdered(b, before)
    requires forall x :: x in a <==> x in b
    ensures a == b
  {
    if a != [] || b != [] {
      var first := if a != [] then a[0] else b[0];
      assert first in a && first in b;
      assert a[0] in a && b[0] in b;
      assert a[0] == b[0];
      forall x ensures x in a[1..] <==> x in b[1..] {
        if x in a[1..] {
          var i :| 1 <= i < |a| && a[i] == x;
          assert before(a[0], a[i]) && x in a;
          var k :| 0 <= k < |b| && b[k] == x;
          assert b[1..][k - 1] == x;
        }
        if x in b[1..] {
          var i :| 1 <= i < |b| && b[i] == x;
          assert before(b[0], b[i]) && x in b;
          var k :| 0 <= k < |a| && a[k] == x;
          assert a[1..][k - 1] == x;
        }
      }
      StrictlyOrderedDetermined(a[1..], b[1..], before);
      assert a == [a[0]] + a[1..] && b == [b[0]] + b[1..];
    }
  }

  /** A common prefix cancels. */
  lemma PrefixCancel<T>(p: seq<T>, a: seq<T>, b: seq<T>)
    requires p + a == p + b
    ensures a == b
  {
    assert a == (p + a)[|p|..];
    assert b == (p + b)[|p|..];
  }
}
