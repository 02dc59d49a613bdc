/** Laws of sequences, by name, so that proofs need not find them. */
module Seqs {

  lemma Assoc<T>(a: seq<T>, b: seq<T>, c: seq<T>)
    ensures a + (b + c) == a + b + c
  {
  }

  lemma Units<T>(a: seq<T>)
    ensures a + [] == a && [] + a == a && a[..0] == [] && a[0..] == a && a[..|a|] == a && a[|a|..] == []
  {
  }

  lemma Parts<T>(a: seq<T>, b: seq<T>)
    ensures (a + b)[..|a|] == a && (a + b)[|a|..] == b
  {
  }

  lemma TakeNext<T>(s: seq<T>, i: nat)
    requires i < |s|
    ensures s[..i + 1] == s[..i] + [s[i]]
  {
  }

  lemma TakeUpTo<T>(s: seq<T>, i: nat, j: nat)
    requires i < |s| && j == i + 1
    ensures s[..j] == s[..i] + [s[i]]
  {
  }

  lemma DropNext<T>(s: seq<T>, i: nat)
    requires i < |s|
    ensures s[i..] == [s[i]] + s[i + 1..] && s[i..][1..] == s[i + 1..]
  {
  }

  lemma SplitAt<T>(s: seq<T>, i: nat)
    requires i <= |s|
    ensures s == s[..i] + s[i..]
  {
  }

  lemma DropDrop<T>(s: seq<T>, i: nat, j: nat, k: nat)
    requires i <= k <= |s| && k == i + j
    ensures s[i..][j..] == s[k..]
  {
  }

  /** The first element of b moves to the end of a. */
  lemma MoveHead<T>(a: seq<T>, b: seq<T>)
    requires b != []
    ensures a + [b[0]] + b[1..] == a + b
  {
  }

  /** Taking n more of what is left of b after i. */
  lemma TakeMore<T>(a: seq<T>, b: seq<T>, i: nat, n: nat, sum: nat)
    requires sum == i + n <= |b|
    ensures a + b[..i] + b[i..][..n] == a + b[..sum]
  {
  }

  /** s grows by what q grows by, twice. */
  lemma GrowOn<T>(s: seq<T>, q: seq<T>, s1: seq<T>, q1: seq<T>, s2: seq<T>, q2: seq<T>)
    requires q <= q1 && s1 == s + q1[|q|..]
    requires q1 <= q2 && s2 == s1 + q2[|q1|..]
    ensures q <= q2 && s2 == s + q2[|q|..]
  {
    assert q2[|q|..] == q1[|q|..] + q2[|q1|..];
    Assoc(s, q1[|q|..], q2[|q1|..]);
  }
}
