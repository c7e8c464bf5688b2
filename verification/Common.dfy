/** Definitions shared by the models: an optional value, and sums over sequences. */
module Common {

  datatype Option<+T> = None | Some(value: T)

  /** The sum of f over the elements of s. */
  function SumBy<T>(f: T -> int, s: seq<T>): int {
    if s == [] then 0 else f(s[0]) + SumBy(f, s[1..])
  }

  lemma {:induction false} SumByConcat<T>(f: T -> int, a: seq<T>, b: seq<T>)
    ensures SumBy(f, a + b) == SumBy(f, a) + SumBy(f, b)
  {
    if a == [] {
      assert a + b == b;
    } else {
      assert (a + b)[1..] == a[1..] + b;
      SumByConcat(f, a[1..], b);
    }
  }

  lemma SumByPush<T>(f: T -> int, s: seq<T>, x: T)
    ensures SumBy(f, s + [x]) == SumBy(f, s) + f(x)
  {
    SumByConcat(f, s, [x]);
  }

  /** Replacing one element changes the sum by the difference of its two values. */
  lemma {:induction false} SumByUpdate<T>(f: T -> int, s: seq<T>, i: nat, x: T)
    requires i < |s|
    ensures SumBy(f, s[i := x]) == SumBy(f, s) - f(s[i]) + f(x)
  {
    if i == 0 {
      assert s[i := x][1..] == s[1..];
    } else {
      assert s[i := x][1..] == s[1..][i - 1 := x];
      SumByUpdate(f, s[1..], i - 1, x);
    }
  }

  /** Pointwise bounds carry over to sums; the factor k covers both 0 and 1. */
  lemma {:induction false} SumByLeq<T>(f: T -> int, g: T -> int, k: int, s: seq<T>)
    requires forall i :: 0 <= i < |s| ==> f(s[i]) <= k * g(s[i])
    ensures SumBy(f, s) <= k * SumBy(g, s)
  {
    if s != [] {
      assert f(s[0]) <= k * g(s[0]);
      forall i | 0 <= i < |s[1..]| ensures f(s[1..][i]) <= k * g(s[1..][i]) {
        assert s[1..][i] == s[i + 1];
      }
      SumByLeq(f, g, k, s[1..]);
      assert k * (g(s[0]) + SumBy(g, s[1..])) == k * g(s[0]) + k * SumBy(g, s[1..]);
    }
  }

  lemma {:induction false} SumByNonNegative<T>(f: T -> int, s: seq<T>)
    requires forall i :: 0 <= i < |s| ==> 0 <= f(s[i])
    ensures 0 <= SumBy(f, s)
    ensures forall i :: 0 <= i < |s| ==> f(s[i]) <= SumBy(f, s)
  {
    if s != [] {
      forall i | 0 <= i < |s[1..]| ensures 0 <= f(s[1..][i]) {
        assert s[1..][i] == s[i + 1];
      }
      SumByNonNegative(f, s[1..]);
      forall i | 0 <= i < |s| ensures f(s[i]) <= SumBy(f, s) {
        if i > 0 {
          assert s[i] == s[1..][i - 1];
        }
      }
    }
  }
}
