/** Powers of two, and sums over sequences: the arithmetic every other module leans on. */
module Numbers {

  function Pow2(n: nat): (p: nat)
    ensures p > 0
  {
    if n == 0 then 1 else 2 * Pow2(n - 1)
  }

  lemma {:induction false} Pow2Monotone(a: nat, b: nat)
    requires a <= b
    ensures Pow2(a) <= Pow2(b)
  {
    if a < b {
      Pow2Monotone(a, b - 1);
    }
  }

  /** x shifted left by n bits. */
  function Shift(x: nat, n: nat): nat {
    if n == 0 then x else 2 * Shift(x, n - 1)
  }

  lemma {:induction false} ShiftPow2(a: nat, n: nat, b: nat)
    requires b == a + n
    ensures Shift(Pow2(a), n) == Pow2(b)
  {
    if n > 0 {
      ShiftPow2(a, n - 1, b - 1);
    }
  }

  lemma {:induction false} ShiftShift(x: nat, m: nat, n: nat, sum: nat)
    requires sum == m + n
    ensures Shift(Shift(x, m), n) == Shift(x, sum)
  {
    if n > 0 {
      ShiftShift(x, m, n - 1, sum - 1);
    }
  }

  lemma {:induction false} ShiftSum(x: nat, y: nat, n: nat)
    ensures Shift(x + y, n) == Shift(x, n) + Shift(y, n)
  {
    if n > 0 {
      ShiftSum(x, y, n - 1);
    }
  }

  lemma {:induction false} ShiftCompare(x: nat, y: nat, n: nat)
    ensures x <= y <==> Shift(x, n) <= Shift(y, n)
    ensures x == y <==> Shift(x, n) == Shift(y, n)
  {
    if n > 0 {
      ShiftCompare(x, y, n - 1);
    }
  }

  lemma Pow2Of8()
    ensures Pow2(8) == 256
  {
    assert Pow2(4) == 16;
    assert Pow2(8) == 16 * Pow2(4);
  }

  function Max(a: nat, b: nat): nat {
    if a < b then b else a
  }

  function Min(a: nat, b: nat): nat {
    if a < b then a else b
  }

  function Remove<T>(s: seq<T>, i: nat): (r: seq<T>)
    requires i < |s|
    ensures |r| == |s| - 1
    ensures forall k :: 0 <= k < |r| ==> r[k] == s[if k < i then k else k + 1]
  {
    s[..i] + s[i + 1..]
  }

  function Sum(s: seq<nat>): nat {
    if s == [] then 0 else s[0] + Sum(s[1..])
  }

  lemma {:induction false} SumConcat(s: seq<nat>, t: seq<nat>)
    ensures Sum(s + t) == Sum(s) + Sum(t)
  {
    if s == [] {
      assert s + t == t;
    } else {
      assert (s + t)[1..] == s[1..] + t;
      SumConcat(s[1..], t);
    }
  }

  lemma {:induction false} SumUpdate(s: seq<nat>, i: nat, x: nat)
    requires i < |s|
    ensures Sum(s[i := x]) == Sum(s) - s[i] + x
  {
    if i == 0 {
      assert s[i := x][1..] == s[1..];
    } else {
      assert s[i := x][1..] == s[1..][i - 1 := x];
      SumUpdate(s[1..], i - 1, x);
    }
  }

  lemma {:induction false} SumRemove(s: seq<nat>, i: nat)
    requires i < |s|
    ensures Sum(s) == s[i] + Sum(Remove(s, i))
  {
    if i == 0 {
      assert Remove(s, 0) == s[1..];
    } else {
      assert Remove(s, i)[1..] == Remove(s[1..], i - 1);
      SumRemove(s[1..], i - 1);
    }
  }

  lemma RemoveMultiset<T>(s: seq<T>, i: nat)
    requires i < |s|
    ensures multiset(s) == multiset(Remove(s, i)) + multiset{s[i]}
  {
    assert s == s[..i] + [s[i]] + s[i + 1..];
  }

  lemma CancelMultiset<T>(a: multiset<T>, b: multiset<T>, x: T)
    requires a + multiset{x} == b + multiset{x}
    ensures a == b
  {
    assert a == (a + multiset{x}) - multiset{x};
    assert b == (b + multiset{x}) - multiset{x};
  }

  /** Termwise comparison; strict as soon as one term is. */
  lemma {:induction false} SumMonotone(s: seq<nat>, t: seq<nat>)
    requires |s| == |t|
    requires forall k :: 0 <= k < |s| ==> s[k] <= t[k]
    ensures Sum(s) <= Sum(t)
    ensures s != t ==> Sum(s) < Sum(t)
  {
    if s != [] {
      SumMonotone(s[1..], t[1..]);
      if s[0] == t[0] && s[1..] == t[1..] {
        assert s == [s[0]] + s[1..] && t == [t[0]] + t[1..];
      }
    }
  }

  lemma {:induction false} SumShift(s: seq<nat>, t: seq<nat>, n: nat)
    requires |s| == |t|
    requires forall k :: 0 <= k < |s| ==> t[k] == Shift(s[k], n)
    ensures Sum(t) == Shift(Sum(s), n)
  {
    if s == [] {
      ShiftSum(0, 0, n);
    } else {
      SumShift(s[1..], t[1..], n);
      ShiftSum(s[0], Sum(s[1..]), n);
    }
  }

  lemma {:induction false} SumOfEqual(s: seq<nat>, x: nat)
    requires forall i :: 0 <= i < |s| ==> s[i] == x
    ensures Sum(s) == x * |s|
  {
    if s != [] {
      SumOfEqual(s[1..], x);
      assert x * |s| == x + x * (|s| - 1);
    }
  }

  /** Taking equal elements out of two arrangements of the same elements leaves such a pair again. */
  lemma RemoveBoth<T>(s: seq<T>, t: seq<T>) returns (i: nat)
    requires s != [] && multiset(s) == multiset(t)
    ensures i < |t| && t[i] == s[0]
    ensures multiset(Remove(s, 0)) == multiset(Remove(t, i))
  {
    assert s[0] in multiset(t);
    i :| 0 <= i < |t| && t[i] == s[0];
    RemoveMultiset(s, 0);
    RemoveMultiset(t, i);
    CancelMultiset(multiset(Remove(s, 0)), multiset(Remove(t, i)), s[0]);
  }

  lemma RangeNext(n: nat)
    requires n > 0
    ensures Range(n) == Range(n - 1) + [n - 1] && n - 1 !in Range(n - 1)
    ensures multiset(Range(n)) == multiset(Range(n - 1)) + multiset([n - 1])
  {
    assert Range(n) == Range(n - 1) + [n - 1];
  }

  /** 0, 1, ..., n - 1. */
  function Range(n: nat): (r: seq<nat>)
    ensures |r| == n
    ensures forall k :: 0 <= k < n ==> r[k] == k
  {
    seq(n, k => k)
  }
}
