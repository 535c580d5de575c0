/** Running totals over sequences. */
module Sums {
  function Sum<T>(size: T -> int, s: seq<T>): int {
    if s == [] then 0 else Sum(size, s[..|s| - 1]) + size(s[|s| - 1])
  }

  /** A running total of sizes never exceeds the whole. */
  lemma {:induction false} SumPrefix<T>(size: T -> int, s: seq<T>, i: nat)
    requires i <= |s| && forall x :: x in s ==> size(x) >= 0
    ensures 0 <= Sum(size, s[..i]) <= Sum(size, s)
    decreases |s| + i
  {
    if i == |s| {
      assert s[..i] == s;
      if i > 0 {
        assert s[i - 1] in s;
        SumPrefix(size, s[..i - 1], i - 1);
        assert s[..i - 1][..i - 1] == s[..i - 1];
      }
    } else {
      assert s[|s| - 1] in s;
      SumPrefix(size, s[..|s| - 1], i);
      assert s[..|s| - 1][..i] == s[..i];
    }
  }

  lemma {:induction false} SumWithout<T>(size: T -> int, s: seq<T>, k: nat)
    requires k < |s|
    ensures Sum(size, s) == Sum(size, s[..k] + s[k + 1..]) + size(s[k])
  {
    if k == |s| - 1 {
      assert s[..k] + s[k + 1..] == s[..|s| - 1];
    } else {
      var before := s[..|s| - 1];
      SumWithout(size, before, k);
      var without := s[..k] + s[k + 1..];
      assert without[..|without| - 1] == before[..k] + before[k + 1..];
    }
  }

  lemma MultisetWithout<T>(s: seq<T>, k: nat)
    requires k < |s|
    ensures multiset(s[..k] + s[k + 1..]) == multiset(s) - multiset{s[k]}
  {
    assert s == s[..k] + [s[k]] + s[k + 1..];
  }

  /** The order does not matter. */
  lemma {:induction false} SumPermuted<T>(size: T -> int, a: seq<T>, b: seq<T>)
    requires multiset(a) == multiset(b)
    ensures Sum(size, a) == Sum(size, b)
    decreases |a|
  {
    assert |a| == |multiset(a)| == |b|;
    if a != [] {
      var last := |a| - 1;
      assert a[last] in multiset(b);
      var k :| 0 <= k < |b| && b[k] == a[last];
      SumWithout(size, a, last);
      SumWithout(size, b, k);
      MultisetWithout(a, last);
      MultisetWithout(b, k);
      SumPermuted(size, a[..last] + a[last + 1..], b[..k] + b[k + 1..]);
    }
  }
}
