/**
 * The stable sort behind `Array.prototype.sort` and `ORDER BY`, with the laws the
 * callers rest on: it permutes, it sorts, it commutes with filtering and with
 * concatenation of ordered parts, and its result is unique when keys differ.
 */
module Sorting {
  import opened Common

  ghost predicate TotalPreorder<T(!new)>(leq: (T, T) -> bool) {
    && (forall x, y :: leq(x, y) || leq(y, x))
    && (forall x, y, z :: leq(x, y) && leq(y, z) ==> leq(x, z))
  }

  ghost predicate Sorted<T>(leq: (T, T) -> bool, s: seq<T>) {
    forall i, j :: 0 <= i < j < |s| ==> leq(s[i], s[j])
  }

  /** No two positions of `s` tie. */
  ghost predicate NoTies<T>(leq: (T, T) -> bool, s: seq<T>) {
    forall i, j :: 0 <= i < j < |s| ==> !(leq(s[i], s[j]) && leq(s[j], s[i]))
  }

  function InsertSorted<T>(leq: (T, T) -> bool, x: T, s: seq<T>): seq<T> {
    if s == [] || leq(x, s[0]) then [x] + s else [s[0]] + InsertSorted(leq, x, s[1..])
  }

  function Sort<T>(leq: (T, T) -> bool, s: seq<T>): seq<T> {
    if s == [] then [] else InsertSorted(leq, s[0], Sort(leq, s[1..]))
  }

  lemma {:induction false} InsertPermutes<T>(leq: (T, T) -> bool, x: T, s: seq<T>)
    ensures multiset(InsertSorted(leq, x, s)) == multiset([x] + s)
  {
    if !(s == [] || leq(x, s[0])) {
      InsertPermutes(leq, x, s[1..]);
      assert s == [s[0]] + s[1..];
    }
  }

  lemma InsertMembers<T>(leq: (T, T) -> bool, x: T, s: seq<T>, y: T)
    ensures y in InsertSorted(leq, x, s) <==> y == x || y in s
  {
    InsertPermutes(leq, x, s);
    var r := InsertSorted(leq, x, s);
    assert y in r <==> y in multiset(r);
    assert y in [x] + s <==> y in multiset([x] + s);
  }

  lemma {:induction false} SortPermutes<T>(leq: (T, T) -> bool, s: seq<T>)
    ensures multiset(Sort(leq, s)) == multiset(s)
  {
    if s != [] {
      SortPermutes(leq, s[1..]);
      InsertPermutes(leq, s[0], Sort(leq, s[1..]));
      assert s == [s[0]] + s[1..];
    }
  }

  lemma SortMembers<T>(leq: (T, T) -> bool, s: seq<T>, x: T)
    ensures x in Sort(leq, s) <==> x in s
  {
    SortPermutes(leq, s);
    assert x in Sort(leq, s) <==> x in multiset(Sort(leq, s));
    assert x in s <==> x in multiset(s);
  }

  lemma {:induction false} InsertSorts<T(!new)>(leq: (T, T) -> bool, x: T, s: seq<T>)
    requires TotalPreorder(leq) && Sorted(leq, s)
    ensures Sorted(leq, InsertSorted(leq, x, s))
  {
    if !(s == [] || leq(x, s[0])) {
      InsertSorts(leq, x, s[1..]);
      var t := InsertSorted(leq, x, s[1..]);
      forall j | 0 <= j < |t| ensures leq(s[0], t[j]) {
        InsertMembers(leq, x, s[1..], t[j]);
        if t[j] != x {
          var k :| 0 <= k < |s| - 1 && s[1..][k] == t[j];
          assert s[k + 1] == t[j];
        }
      }
    }
  }

  lemma {:induction false} SortSorts<T(!new)>(leq: (T, T) -> bool, s: seq<T>)
    requires TotalPreorder(leq)
    ensures Sorted(leq, Sort(leq, s))
  {
    if s != [] {
      SortSorts(leq, s[1..]);
      InsertSorts(leq, s[0], Sort(leq, s[1..]));
    }
  }

  lemma {:induction false} SortOfSorted<T>(leq: (T, T) -> bool, s: seq<T>)
    requires Sorted(leq, s)
    ensures Sort(leq, s) == s
  {
    if s != [] {
      SortOfSorted(leq, s[1..]);
    }
  }

  lemma {:induction false} InsertFilter<T(!new)>(leq: (T, T) -> bool, p: T -> bool, x: T, s: seq<T>)
    requires TotalPreorder(leq) && Sorted(leq, s)
    ensures Filter(p, InsertSorted(leq, x, s))
         == if p(x) then InsertSorted(leq, x, Filter(p, s)) else Filter(p, s)
  {
    if s == [] || leq(x, s[0]) {
      assert ([x] + s)[1..] == s;
      var f := Filter(p, s);
      if f != [] {
        FilterMembers(p, s, f[0]);
        assert leq(x, f[0]);
      }
    } else {
      InsertFilter(leq, p, x, s[1..]);
      assert ([s[0]] + InsertSorted(leq, x, s[1..]))[1..] == InsertSorted(leq, x, s[1..]);
      if p(s[0]) {
        assert Filter(p, s) == [s[0]] + Filter(p, s[1..]);
        assert Filter(p, s)[1..] == Filter(p, s[1..]);
        assert InsertSorted(leq, x, Filter(p, s)) == [s[0]] + InsertSorted(leq, x, Filter(p, s[1..]));
      }
    }
  }

  /** Sorting commutes with filtering, ties included. */
  lemma {:induction false} SortFilter<T(!new)>(leq: (T, T) -> bool, p: T -> bool, s: seq<T>)
    requires TotalPreorder(leq)
    ensures Sort(leq, Filter(p, s)) == Filter(p, Sort(leq, s))
  {
    if s != [] {
      SortFilter(leq, p, s[1..]);
      SortSorts(leq, s[1..]);
      InsertFilter(leq, p, s[0], Sort(leq, s[1..]));
      if p(s[0]) {
        var f := Filter(p, s);
        assert f == [s[0]] + Filter(p, s[1..]);
        assert f[1..] == Filter(p, s[1..]);
        assert Sort(leq, f) == InsertSorted(leq, s[0], Sort(leq, f[1..]));
      }
    }
  }

  lemma {:induction false} InsertBefore<T>(leq: (T, T) -> bool, x: T, a: seq<T>, b: seq<T>)
    requires forall y :: y in b ==> leq(x, y)
    ensures InsertSorted(leq, x, a + b) == InsertSorted(leq, x, a) + b
  {
    if a == [] {
      assert a + b == b;
    } else if !leq(x, a[0]) {
      assert (a + b)[1..] == a[1..] + b;
      InsertBefore(leq, x, a[1..], b);
    }
  }

  /** Parts that are already in order sort independently. */
  lemma {:induction false} SortConcat<T>(leq: (T, T) -> bool, a: seq<T>, b: seq<T>)
    requires forall x, y :: x in a && y in b ==> leq(x, y)
    ensures Sort(leq, a + b) == Sort(leq, a) + Sort(leq, b)
  {
    if a == [] {
      assert a + b == b;
    } else {
      assert (a + b)[1..] == a[1..] + b;
      SortConcat(leq, a[1..], b);
      forall y | y in Sort(leq, b) ensures leq(a[0], y) {
        SortMembers(leq, b, y);
      }
      InsertBefore(leq, a[0], Sort(leq, a[1..]), Sort(leq, b));
    }
  }

  /** Where `x` sits in `t` when `t` and `[h] + r` have the same elements and `x` is not `h`. */
  lemma TailMember<T>(s: seq<T>, t: seq<T>, x: T)
    requires s != [] && t != [] && s[0] == t[0]
    requires forall y :: y in s <==> y in t
    requires x in s[1..] && x != s[0]
    ensures x in t[1..]
  {
    assert x in s && x in t;
    assert t == [t[0]] + t[1..];
  }

  lemma HeadsAgree<T>(leq: (T, T) -> bool, a: seq<T>, b: seq<T>)
    requires Sorted(leq, a) && Sorted(leq, b) && NoTies(leq, a) && NoTies(leq, b)
    requires a != [] && b != []
    requires forall x :: x in a <==> x in b
    ensures a[0] == b[0]
  {
    assert a[0] in a && b[0] in b;
    var i :| 0 <= i < |b| && b[i] == a[0];
    var j :| 0 <= j < |a| && a[j] == b[0];
    var x, y := a[0], b[0];
    assert j == 0 || leq(x, y);
    assert i == 0 || (leq(y, x) && !leq(x, y));
  }

  /** The head of a sorted, tie-free sequence does not recur. */
  lemma HeadIsFresh<T>(leq: (T, T) -> bool, s: seq<T>)
    requires Sorted(leq, s) && NoTies(leq, s) && s != []
    ensures s[0] !in s[1..]
  {
    forall k | 0 <= k < |s| - 1 ensures s[1..][k] != s[0] {
      assert s[1..][k] == s[k + 1];
      assert !(leq(s[0], s[k + 1]) && leq(s[k + 1], s[0])) && leq(s[0], s[k + 1]);
    }
  }

  /** Two sorted sequences with the same elements and no ties are equal. */
  lemma {:induction false} SortedUnique<T>(leq: (T, T) -> bool, a: seq<T>, b: seq<T>)
    requires Sorted(leq, a) && Sorted(leq, b) && NoTies(leq, a) && NoTies(leq, b)
    requires forall x :: x in a <==> x in b
    ensures a == b
  {
    assert forall x :: x in a ==> x in b;
    assert |a| > 0 ==> a[0] in b;
    assert |b| > 0 ==> b[0] in a;
    if a != [] {
      HeadsAgree(leq, a, b);
      HeadIsFresh(leq, a);
      HeadIsFresh(leq, b);
      forall x ensures x in a[1..] <==> x in b[1..] {
        if x in a[1..] { TailMember(a, b, x); }
        if x in b[1..] { TailMember(b, a, x); }
      }
      SortedUnique(leq, a[1..], b[1..]);
      assert a == [a[0]] + a[1..] && b == [b[0]] + b[1..];
    }
  }

  /** A sorted rearrangement of a tie-free sequence has no ties either. */
  lemma {:induction false} SortNoTies<T(!new)>(leq: (T, T) -> bool, s: seq<T>)
    requires TotalPreorder(leq) && NoTies(leq, s)
    ensures NoTies(leq, Sort(leq, s))
  {
    if s != [] {
      SortNoTies(leq, s[1..]);
      var r := Sort(leq, s[1..]);
      forall y | y in r ensures !(leq(s[0], y) && leq(y, s[0])) {
        SortMembers(leq, s[1..], y);
        assert y in s[1..];
      }
      InsertNoTies(leq, s[0], r);
    }
  }

  lemma {:induction false} InsertNoTies<T>(leq: (T, T) -> bool, x: T, s: seq<T>)
    requires NoTies(leq, s)
    requires forall y :: y in s ==> !(leq(x, y) && leq(y, x))
    ensures NoTies(leq, InsertSorted(leq, x, s))
  {
    if !(s == [] || leq(x, s[0])) {
      assert forall y :: y in s[1..] ==> y in s;
      InsertNoTies(leq, x, s[1..]);
      forall y | y in InsertSorted(leq, x, s[1..]) ensures !(leq(s[0], y) && leq(y, s[0])) {
        InsertMembers(leq, x, s[1..], y);
        if y == x {
          assert s[0] in s;
        } else {
          assert y in s[1..];
          var k :| 0 <= k < |s| - 1 && s[1..][k] == y;
          assert s[k + 1] == y;
        }
      }
    }
  }
}
