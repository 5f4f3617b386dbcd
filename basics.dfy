/** Small shared vocabulary: optional values, results carrying an error
    message, order-preserving filtering (Python list comprehensions with an
    `if`) and ASCII digits. */
module Basics {

  /** Python's `None` or a present value. */
  datatype Option<T> = None | Some(value: T)

  /** The value an operation returns, or the message of the exception it raises. */
  datatype Result<T> = Ok(value: T) | Err(error: string)

  /** ASCII digit `0`-`9` (`\d` in a JavaScript regular expression). */
  predicate IsDigit(c: char)
  {
    '0' <= c <= '9'
  }

  /** `a` is obtained from `b` by deleting zero or more elements, keeping order. */
  predicate IsSubsequence<T(==)>(a: seq<T>, b: seq<T>)
    decreases |b|
  {
    if a == [] then true
    else if b == [] then false
    else if a[0] == b[0] then IsSubsequence(a[1..], b[1..])
    else IsSubsequence(a, b[1..])
  }

  /** `[x for x in s if keep(x)]`. */
  function Filter<T>(s: seq<T>, keep: T -> bool): (r: seq<T>)
    ensures |r| <= |s|
    ensures forall i :: 0 <= i < |r| ==> keep(r[i])
    ensures forall i :: 0 <= i < |r| ==> r[i] in s
    ensures forall i :: 0 <= i < |s| && keep(s[i]) ==> s[i] in r
  {
    if s == [] then []
    else (if keep(s[0]) then [s[0]] else []) + Filter(s[1..], keep)
  }

  lemma {:induction false} FilterIsSubsequence<T>(s: seq<T>, keep: T -> bool)
    ensures IsSubsequence(Filter(s, keep), s)
  {
    if s != [] {
      FilterIsSubsequence(s[1..], keep);
      var rest := Filter(s[1..], keep);
      if keep(s[0]) {
        assert Filter(s, keep) == [s[0]] + rest;
        assert ([s[0]] + rest)[1..] == rest;
      } else {
        assert Filter(s, keep) == rest;
        if rest != [] {
          assert IsSubsequence(rest, s[1..]);
        }
      }
    }
  }

  /** Each kept element occurs in the result exactly as often as in `s`; no
      other element occurs. Together with FilterIsSubsequence this pins the
      result down completely. */
  lemma {:induction false} FilterMultiplicity<T>(s: seq<T>, keep: T -> bool, x: T)
    ensures multiset(Filter(s, keep))[x] == if keep(x) then multiset(s)[x] else 0
  {
    if s != [] {
      FilterMultiplicity(s[1..], keep, x);
      assert s == [s[0]] + s[1..];
      var head := if keep(s[0]) then [s[0]] else [];
      assert Filter(s, keep) == head + Filter(s[1..], keep);
      assert multiset(s) == multiset([s[0]]) + multiset(s[1..]);
    }
  }

  /** One unfolding of `Filter` on a list written as head and tail. */
  lemma FilterCons<T>(x: T, t: seq<T>, keep: T -> bool)
    ensures Filter([x] + t, keep) == (if keep(x) then [x] else []) + Filter(t, keep)
  {
    assert ([x] + t)[0] == x;
    assert ([x] + t)[1..] == t;
  }

  lemma {:induction false} FilterConcat<T>(a: seq<T>, b: seq<T>, keep: T -> bool)
    ensures Filter(a + b, keep) == Filter(a, keep) + Filter(b, keep)
  {
    if a == [] {
      assert a + b == b;
    } else {
      var t := a[1..];
      var h := if keep(a[0]) then [a[0]] else [];
      calc {
        Filter(a + b, keep);
        { assert a + b == [a[0]] + (t + b); FilterCons(a[0], t + b, keep); }
        h + Filter(t + b, keep);
        { FilterConcat(t, b, keep); }
        h + (Filter(t, keep) + Filter(b, keep));
        (h + Filter(t, keep)) + Filter(b, keep);
        { assert a == [a[0]] + t; FilterCons(a[0], t, keep); }
        Filter(a, keep) + Filter(b, keep);
      }
    }
  }

  /** Filtering a list all of whose elements are kept returns it unchanged. */
  lemma {:induction false} FilterKeepsAll<T>(s: seq<T>, keep: T -> bool)
    requires forall i :: 0 <= i < |s| ==> keep(s[i])
    ensures Filter(s, keep) == s
  {
    if s != [] {
      FilterKeepsAll(s[1..], keep);
      assert [s[0]] + s[1..] == s;
    }
  }

  lemma FilterIdempotent<T>(s: seq<T>, keep: T -> bool)
    ensures Filter(Filter(s, keep), keep) == Filter(s, keep)
  {
    FilterKeepsAll(Filter(s, keep), keep);
  }

  /** Filtering by `p` then `q` is filtering by their conjunction `both`. */
  lemma {:induction false} FilterFuse<T>(s: seq<T>, p: T -> bool, q: T -> bool, both: T -> bool)
    requires forall x :: both(x) == (p(x) && q(x))
    ensures Filter(Filter(s, p), q) == Filter(s, both)
  {
    if s != [] {
      FilterFuse(s[1..], p, q, both);
      var head := if p(s[0]) then [s[0]] else [];
      FilterConcat(head, Filter(s[1..], p), q);
    }
  }

  lemma FilterCommutes<T>(s: seq<T>, p: T -> bool, q: T -> bool)
    ensures Filter(Filter(s, p), q) == Filter(Filter(s, q), p)
  {
    var both := (x: T) => p(x) && q(x);
    FilterFuse(s, p, q, both);
    FilterFuse(s, q, p, both);
  }

  /** The first element of a non-empty filter result is the first element of
      `s` that is kept. */
  lemma {:induction false} FilterHead<T>(s: seq<T>, keep: T -> bool) returns (i: nat)
    requires Filter(s, keep) != []
    ensures i < |s| && keep(s[i]) && Filter(s, keep)[0] == s[i]
    ensures forall j :: 0 <= j < i ==> !keep(s[j])
  {
    if keep(s[0]) {
      i := 0;
    } else {
      assert Filter(s, keep) == Filter(s[1..], keep);
      var k := FilterHead(s[1..], keep);
      i := k + 1;
      forall j | 0 <= j < i ensures !keep(s[j]) {
        if j > 0 { assert s[j] == s[1..][j - 1]; }
      }
    }
  }

  /** The filter result is empty exactly when no element is kept. */
  lemma FilterEmptyIff<T>(s: seq<T>, keep: T -> bool)
    ensures Filter(s, keep) == [] <==> forall i :: 0 <= i < |s| ==> !keep(s[i])
  {
    if forall i :: 0 <= i < |s| ==> !keep(s[i]) {
      FilterDropsAll(s, keep);
    }
  }

  /** When `s[i]` is the first kept element, the filter result starts with it. */
  lemma {:induction false} FilterFirst<T>(s: seq<T>, keep: T -> bool)
    ensures forall i :: (0 <= i < |s| && keep(s[i]) && (forall j :: 0 <= j < i ==> !keep(s[j])))
                        ==> Filter(s, keep) != [] && Filter(s, keep)[0] == s[i]
  {
    if s != [] && !keep(s[0]) {
      FilterFirst(s[1..], keep);
      forall i | 0 < i < |s| && keep(s[i]) && (forall j :: 0 <= j < i ==> !keep(s[j]))
        ensures Filter(s, keep) != [] && Filter(s, keep)[0] == s[i]
      {
        assert s[1..][i - 1] == s[i];
        forall j | 0 <= j < i - 1 ensures !keep(s[1..][j]) {
          assert s[1..][j] == s[j + 1];
        }
      }
    }
  }

  /** A prefix of a subsequence of `b` is a subsequence of `b`. */
  lemma {:induction false} PrefixOfSubsequence<T>(a: seq<T>, b: seq<T>, k: nat)
    requires k <= |a| && IsSubsequence(a, b)
    ensures IsSubsequence(a[..k], b)
    decreases |b|
  {
    if k > 0 && b != [] {
      if a[0] == b[0] {
        PrefixOfSubsequence(a[1..], b[1..], k - 1);
        assert a[..k][1..] == a[1..][..k - 1];
      } else {
        PrefixOfSubsequence(a, b[1..], k);
      }
    }
  }

  /** Filtering a list none of whose elements is kept gives the empty list. */
  lemma {:induction false} FilterDropsAll<T>(s: seq<T>, keep: T -> bool)
    requires forall i :: 0 <= i < |s| ==> !keep(s[i])
    ensures Filter(s, keep) == []
  {
    if s != [] {
      FilterDropsAll(s[1..], keep);
    }
  }

  /** How many times `x` occurs in `s` (Python's `s.count(x)`). */
  function Occurrences<T(==)>(s: seq<T>, x: T): nat
  {
    if s == [] then 0 else (if s[0] == x then 1 else 0) + Occurrences(s[1..], x)
  }

  lemma {:induction false} OccurrencesConcat<T>(a: seq<T>, b: seq<T>, x: T)
    ensures Occurrences(a + b, x) == Occurrences(a, x) + Occurrences(b, x)
  {
    if a == [] {
      assert a + b == b;
    } else {
      OccurrencesConcat(a[1..], b, x);
      assert (a + b)[1..] == a[1..] + b;
    }
  }

  lemma {:induction false} OccurrencesAbsent<T>(s: seq<T>, x: T)
    requires forall i :: 0 <= i < |s| ==> s[i] != x
    ensures Occurrences(s, x) == 0
  {
    if s != [] {
      OccurrencesAbsent(s[1..], x);
    }
  }
}
