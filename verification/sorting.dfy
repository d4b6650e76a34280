/** Stable insertion sort of a sequence by a string key in Python's string
    order: the model of pandas' `sort_values` on one text column
    (cc_performance.py:39 and :70). */
module Sorting {
  import Lex

  predicate Sorted<T>(key: T -> string, s: seq<T>) {
    forall i, j :: 0 <= i < j < |s| ==> Lex.Le(key(s[i]), key(s[j]))
  }

  /** x placed before the first element of s whose key is not smaller. */
  function Insert<T>(key: T -> string, x: T, s: seq<T>): (r: seq<T>)
    ensures multiset(r) == multiset(s) + multiset{x}
    ensures |r| == |s| + 1
    decreases |s|
  {
    if |s| == 0 then [x]
    else if Lex.Le(key(x), key(s[0])) then [x] + s
    else
      var rest := Insert(key, x, s[1..]);
      assert s == [s[0]] + s[1..];
      [s[0]] + rest
  }

  /** The elements of s, sorted by key; of two elements with equal keys the
      one earlier in s stays earlier. */
  function Sort<T>(key: T -> string, s: seq<T>): (r: seq<T>)
    ensures multiset(r) == multiset(s)
    ensures Sorted(key, r)
    decreases |s|
  {
    if |s| == 0 then []
    else
      var x, tail := s[0], s[1..];
      var rest := Sort(key, tail);
      InsertSorted(key, x, rest);
      assert multiset(s) == multiset(tail) + multiset{x} by {
        assert s == [x] + tail;
      }
      Insert(key, x, rest)
  }

  /** Inserting into a sorted sequence keeps it sorted. */
  lemma {:induction false} InsertSorted<T>(key: T -> string, x: T, s: seq<T>)
    requires Sorted(key, s)
    ensures Sorted(key, Insert(key, x, s))
    decreases |s|
  {
    if |s| == 0 {
    } else if Lex.Le(key(x), key(s[0])) {
      forall j | 0 < j < |s| + 1
        ensures Lex.Le(key(x), key(([x] + s)[j]))
      {
        if j > 1 {
          Lex.Transitive(key(x), key(s[0]), key(s[j - 1]));
        }
      }
    } else {
      Lex.Total(key(x), key(s[0]));
      var rest := Insert(key, x, s[1..]);
      InsertSorted(key, x, s[1..]);
      var r := [s[0]] + rest;
      forall j | 0 < j < |r|
        ensures Lex.Le(key(s[0]), key(r[j]))
      {
        assert r[j] in multiset(rest);
        assert r[j] in multiset(s[1..]) || r[j] == x;
        if r[j] != x {
          var k :| 0 <= k < |s[1..]| && s[1..][k] == r[j];
          assert s[k + 1] == r[j];
        }
      }
    }
  }

  /** An element whose key is not above any key of t goes to the front. */
  lemma {:induction false} InsertAtFront<T>(key: T -> string, x: T, t: seq<T>)
    requires forall y :: y in t ==> Lex.Le(key(x), key(y))
    ensures Insert(key, x, t) == [x] + t
  {
    if |t| > 0 {
      assert t[0] in t;
    }
  }

  /** Sorting an already sorted sequence changes nothing. */
  lemma {:induction false} SortSorted<T>(key: T -> string, s: seq<T>)
    requires Sorted(key, s)
    ensures Sort(key, s) == s
    decreases |s|
  {
    if |s| > 0 {
      assert Sorted(key, s[1..]);
      SortSorted(key, s[1..]);
      assert s == [s[0]] + s[1..];
    }
  }

  lemma SortedTail<T>(key: T -> string, s: seq<T>)
    requires Sorted(key, s) && |s| > 0
    ensures Sorted(key, s[1..])
  {
    var t := s[1..];
    forall i, j | 0 <= i < j < |t|
      ensures Lex.Le(key(t[i]), key(t[j]))
    {
      assert t[i] == s[i + 1] && t[j] == s[j + 1];
    }
  }

  /** The head of a sorted sequence is below everything after it. */
  lemma HeadBelowTail<T>(key: T -> string, s: seq<T>, y: T)
    requires Sorted(key, s) && |s| > 0
    requires y in s[1..]
    ensures Lex.Le(key(s[0]), key(y))
  {
    var k :| 1 <= k < |s| && s[k] == y;
  }

  /** An element below everything in a sorted sequence can go in front. */
  lemma SortedCons<T>(key: T -> string, x: T, s: seq<T>)
    requires Sorted(key, s)
    requires forall y :: y in s ==> Lex.Le(key(x), key(y))
    ensures Sorted(key, [x] + s)
  {
    var t := [x] + s;
    forall i, j | 0 <= i < j < |t|
      ensures Lex.Le(key(t[i]), key(t[j]))
    {
      assert t[j] == s[j - 1];
      if i > 0 {
        assert t[i] == s[i - 1];
      }
    }
  }

  /** Every earlier element is below every later one. */
  predicate StrictlyOrdered<T>(lt: (T, T) -> bool, s: seq<T>) {
    forall i, j :: 0 <= i < j < |s| ==> lt(s[i], s[j])
  }

  /** Under an asymmetric order, a strictly ordered sequence is fixed by its
      elements: two with the same elements are equal. */
  lemma {:induction false} StrictlyOrderedUnique<T>(lt: (T, T) -> bool, s: seq<T>, t: seq<T>)
    requires forall x, y :: lt(x, y) ==> !lt(y, x)
    requires StrictlyOrdered(lt, s) && StrictlyOrdered(lt, t)
    requires forall x :: x in s <==> x in t
    ensures s == t
    decreases |s|
  {
    if |t| > 0 {
      assert t[0] in t;
    }
    if |s| > 0 {
      assert s[0] in t;
      assert |t| > 0 && t[0] in s;
      var k :| 0 <= k < |t| && t[k] == s[0];
      var m :| 0 <= m < |s| && s[m] == t[0];
      if k > 0 && m > 0 {
        // t[0] is below s[0] in t and s[0] below t[0] in s.
        assert false;
      }
      assert s[0] == t[0];
      forall x
        ensures x in s[1..] <==> x in t[1..]
      {
        if x in s[1..] {
          var i :| 1 <= i < |s| && s[i] == x;
          assert lt(s[0], x);
          assert x in t;
        }
        if x in t[1..] {
          var i :| 1 <= i < |t| && t[i] == x;
          assert lt(t[0], x);
          assert x in s;
        }
      }
      StrictlyOrderedUnique(lt, s[1..], t[1..]);
      assert s == [s[0]] + s[1..] && t == [t[0]] + t[1..];
    }
  }
}
