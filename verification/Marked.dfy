/** Lists with a mark for each element that says whether it is kept. */
module Marked {
  import opened Seqs

  /** The elements with a true mark. */
  function Keep<T>(s: seq<T>, marks: seq<bool>): (r: seq<T>)
    requires |s| == |marks|
    ensures |r| <= |s|
  {
    if s == [] then [] else
    var n := |s| - 1;
    Keep(s[..n], marks[..n]) + (if marks[n] then [s[n]] else [])
  }

  /** How many marks are false. */
  function Missing(marks: seq<bool>): nat {
    if marks == [] then 0 else Missing(marks[..|marks| - 1]) + (if marks[|marks| - 1] then 0 else 1)
  }

  ghost predicate AllSet(marks: seq<bool>) {
    forall i :: 0 <= i < |marks| ==> marks[i]
  }

  function AllFalse(n: nat): (r: seq<bool>)
    ensures |r| == n
  {
    if n == 0 then [] else AllFalse(n - 1) + [false]
  }

  lemma KeepNext<T>(s: seq<T>, marks: seq<bool>, x: T, m: bool)
    requires |s| == |marks|
    ensures Keep(s + [x], marks + [m]) == Keep(s, marks) + (if m then [x] else [])
    ensures Missing(marks + [m]) == Missing(marks) + (if m then 0 else 1)
  {
    Parts(s, [x]);
    Parts(marks, [m]);
  }

  /** What is kept and what is missing is everything. */
  lemma {:induction false} KeptAndMissing<T>(s: seq<T>, marks: seq<bool>)
    requires |s| == |marks|
    ensures |Keep(s, marks)| + Missing(marks) == |s|
  {
    if s != [] {
      KeptAndMissing(s[..|s| - 1], marks[..|s| - 1]);
    }
  }

  lemma {:induction false} NothingMissing(marks: seq<bool>)
    ensures Missing(marks) == 0 <==> AllSet(marks)
  {
    if marks != [] {
      var n := |marks| - 1;
      NothingMissing(marks[..n]);
      assert AllSet(marks) <==> AllSet(marks[..n]) && marks[n];
    }
  }

  lemma {:induction false} KeepAll<T>(s: seq<T>, marks: seq<bool>)
    requires |s| == |marks| && AllSet(marks)
    ensures Keep(s, marks) == s
    decreases |s|
  {
    if s != [] {
      var n := |s| - 1;
      KeepAll(s[..n], marks[..n]);
    }
  }

  /** Keeping nothing of what follows. */
  lemma {:induction false} KeepNoMore<T>(a: seq<T>, b: seq<T>, marks: seq<bool>)
    requires |a| == |marks|
    ensures Keep(a + b, marks + AllFalse(|b|)) == Keep(a, marks)
    decreases |b|
  {
    if b == [] {
      Units(a);
      Units(marks);
    } else {
      var n := |b| - 1;
      var init := b[..n];
      KeepNoMore(a, init, marks);
      assert b == init + [b[n]];
      Assoc(a, init, [b[n]]);
      Assoc(marks, AllFalse(n), [false]);
      KeepNext(a + init, marks + AllFalse(n), b[n], false);
      Units(Keep(a, marks));
    }
  }

  /** Keeping nothing of what comes first. */
  lemma {:induction false} KeepLater<T>(a: seq<T>, b: seq<T>, marks: seq<bool>)
    requires |b| == |marks|
    ensures Keep(a + b, AllFalse(|a|) + marks) == Keep(b, marks)
    decreases |b|
  {
    if b == [] {
      Units(a);
      Units(AllFalse(|a|));
      KeepNoMore([], a, []);
      Units(a);
      Units(AllFalse(|a|));
    } else {
      var n := |b| - 1;
      KeepLater(a, b[..n], marks[..n]);
      LastOf(b, b[..n]);
      LastOf(marks, marks[..n]);
      Assoc(a, b[..n], [b[n]]);
      Assoc(AllFalse(|a|), marks[..n], [marks[n]]);
      KeepNext(a + b[..n], AllFalse(|a|) + marks[..n], b[n], marks[n]);
    }
  }

  lemma LastOf<T>(s: seq<T>, init: seq<T>)
    requires s != [] && init == s[..|s| - 1]
    ensures s == init + [s[|s| - 1]]
  {
  }

  /** The marks of what is kept of what is kept. */
  lemma {:induction false} KeepTwice<T>(s: seq<T>, first: seq<bool>, second: seq<bool>) returns (both: seq<bool>)
    requires |s| == |first| && |Keep(s, first)| == |second|
    ensures |both| == |s| && Keep(s, both) == Keep(Keep(s, first), second)
    decreases |s|
  {
    if s == [] {
      both := [];
    } else {
      var n := |s| - 1;
      var kept := Keep(s[..n], first[..n]);
      if first[n] {
        var m := |kept|;
        var rest := KeepTwice(s[..n], first[..n], second[..m]);
        both := rest + [second[m]];
        LastOf(second, second[..m]);
        KeepNext(kept, second[..m], s[n], second[m]);
      } else {
        Units(kept);
        var rest := KeepTwice(s[..n], first[..n], second);
        both := rest + [false];
      }
      LastOf(s, s[..n]);
      KeepNext(s[..n], both[..n], s[n], both[n]);
      Parts(both[..n], [both[n]]);
    }
  }
}
