/** Lexicographic order on strings by code point: the order Python uses to
    compare `str` values, and hence the order in which pandas sorts a column
    of timestamp strings and a column of agent names. */
module Lex {

  /** a <= b in code-point lexicographic order. */
  predicate Le(a: string, b: string)
    decreases |a|
  {
    |a| == 0 || (|b| > 0 && (a[0] < b[0] || (a[0] == b[0] && Le(a[1..], b[1..]))))
  }

  /** Strict order. */
  predicate Lt(a: string, b: string) {
    Le(a, b) && a != b
  }

  /** The first k characters of s, or all of s when it is shorter
      (Python's `s[:k]`). */
  function Take(s: string, k: nat): (r: string)
    ensures |r| == if |s| <= k then |s| else k
    ensures r <= s
  {
    if |s| <= k then s else s[..k]
  }

  lemma {:induction false} Transitive(a: string, b: string, c: string)
    requires Le(a, b) && Le(b, c)
    ensures Le(a, c)
    decreases |a|
  {
    if |a| > 0 && a[0] == b[0] && b[0] == c[0] {
      Transitive(a[1..], b[1..], c[1..]);
    }
  }

  lemma {:induction false} Total(a: string, b: string)
    ensures Le(a, b) || Le(b, a)
    decreases |a|
  {
    if |a| > 0 && |b| > 0 && a[0] == b[0] {
      Total(a[1..], b[1..]);
    }
  }

  lemma {:induction false} Antisymmetric(a: string, b: string)
    requires Le(a, b) && Le(b, a)
    ensures a == b
    decreases |a|
  {
    if |a| > 0 {
      Antisymmetric(a[1..], b[1..]);
      assert a == [a[0]] + a[1..];
      assert b == [b[0]] + b[1..];
    }
  }

  /** Cutting both sides to the same length keeps their order: sorting by a
      full timestamp also sorts by its date prefix. */
  lemma {:induction false} TakeMonotone(a: string, b: string, k: nat)
    requires Le(a, b)
    ensures Le(Take(a, k), Take(b, k))
    decreases |a|
  {
    if |a| > 0 && k > 0 {
      assert Take(a, k)[0] == a[0] && Take(b, k)[0] == b[0];
      if a[0] == b[0] {
        TakeMonotone(a[1..], b[1..], k - 1);
        assert Take(a, k)[1..] == Take(a[1..], k - 1);
        assert Take(b, k)[1..] == Take(b[1..], k - 1);
      }
    }
  }

  /** Comparing two strings whose heads have equal length: the heads decide,
      and the tails only break a tie between equal heads. */
  lemma {:induction false} AppendSameLength(a1: string, a2: string, b1: string, b2: string)
    requires |a1| == |b1|
    ensures Le(a1 + a2, b1 + b2) <==> Lt(a1, b1) || (a1 == b1 && Le(a2, b2))
    decreases |a1|
  {
    if |a1| == 0 {
      assert a1 + a2 == a2 && b1 + b2 == b2;
    } else {
      assert (a1 + a2)[0] == a1[0] && (b1 + b2)[0] == b1[0];
      assert (a1 + a2)[1..] == a1[1..] + a2;
      assert (b1 + b2)[1..] == b1[1..] + b2;
      AppendSameLength(a1[1..], a2, b1[1..], b2);
      if a1[0] == b1[0] && a1[1..] == b1[1..] {
        assert a1 == [a1[0]] + a1[1..] && b1 == [b1[0]] + b1[1..];
      }
      if a1 == b1 {
        assert a1[1..] == b1[1..];
      }
    }
  }

  /** AppendSameLength for one string cut at position k. */
  lemma SplitAt(a: string, b: string, k: nat)
    requires |a| == |b| && k <= |a|
    ensures Le(a, b) <==> Lt(a[..k], b[..k]) || (a[..k] == b[..k] && Le(a[k..], b[k..]))
  {
    assert a == a[..k] + a[k..];
    assert b == b[..k] + b[k..];
    AppendSameLength(a[..k], a[k..], b[..k], b[k..]);
  }
}
