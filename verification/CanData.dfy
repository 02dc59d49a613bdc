/** The bytes in a list of frames, and the frames of a list that carry bytes for a stream. */
module CanData {
  import opened Bits
  import opened Seqs
  import opened CanFrames
  import opened Marked

  function Data(frames: seq<Frame>): (r: seq<byte>) {
    if frames == [] then [] else Data(frames[..|frames| - 1]) + frames[|frames| - 1].Bytes()
  }

  lemma NoData()
    ensures Data([]) == []
  {
  }

  lemma DataNext(frames: seq<Frame>, f: Frame)
    ensures Data(frames + [f]) == Data(frames) + f.Bytes()
  {
    Parts(frames, [f]);
  }

  lemma {:induction false} DataConcat(a: seq<Frame>, b: seq<Frame>)
    ensures Data(a + b) == Data(a) + Data(b)
    decreases |b|
  {
    if b == [] {
      Units(a);
      Units(Data(a));
    } else {
      var init, last := b[..|b| - 1], b[|b| - 1];
      LastOf(b, init);
      DataConcat(a, init);
      Assoc(a, init, [last]);
      DataNext(a + init, last);
      Assoc(Data(a), Data(init), last.Bytes());
    }
  }

  /** Bytes at the front of a list of frames and of what follows that go into one more frame. */
  lemma DataMoves(all: seq<byte>, frames: seq<Frame>, f: Frame, rest: seq<byte>)
    requires all == Data(frames) + (f.Bytes() + rest)
    ensures all == Data(frames + [f]) + rest
  {
    DataNext(frames, f);
    Assoc(Data(frames), f.Bytes(), rest);
  }

  /** A frame with bytes for the stream that has this ID. */
  predicate Carries(f: Frame, id: nat, extended: bool) {
    f.DataFrame? && f.id == id && f.flags.extended == extended && f.data != []
  }

  function Carried(frames: seq<Frame>, id: nat, extended: bool): (r: seq<Frame>)
    ensures |r| <= |frames|
  {
    if frames == [] then [] else
    var f := frames[|frames| - 1];
    Carried(frames[..|frames| - 1], id, extended) + (if Carries(f, id, extended) then [f] else [])
  }

  lemma CarriedNext(frames: seq<Frame>, f: Frame, id: nat, extended: bool)
    ensures Carried(frames + [f], id, extended)
            == Carried(frames, id, extended) + (if Carries(f, id, extended) then [f] else [])
  {
    Parts(frames, [f]);
  }

  lemma {:induction false} CarriedConcat(a: seq<Frame>, b: seq<Frame>, id: nat, extended: bool)
    ensures Carried(a + b, id, extended) == Carried(a, id, extended) + Carried(b, id, extended)
    decreases |b|
  {
    if b == [] {
      Units(a);
      Units(Carried(a, id, extended));
    } else {
      var init, last := b[..|b| - 1], b[|b| - 1];
      LastOf(b, init);
      CarriedConcat(a, init, id, extended);
      Assoc(a, init, [last]);
      CarriedNext(a + init, last, id, extended);
      CarriedNext(init, last, id, extended);
      Assoc(Carried(a, id, extended), Carried(init, id, extended), if Carries(last, id, extended) then [last] else []);
    }
  }

  ghost predicate AllCarry(frames: seq<Frame>, id: nat, extended: bool) {
    forall i :: 0 <= i < |frames| ==> Carries(frames[i], id, extended)
  }

  ghost predicate NoneCarries(frames: seq<Frame>, id: nat, extended: bool) {
    forall i :: 0 <= i < |frames| ==> !Carries(frames[i], id, extended)
  }

  lemma {:induction false} CarriedAll(frames: seq<Frame>, id: nat, extended: bool)
    requires AllCarry(frames, id, extended)
    ensures Carried(frames, id, extended) == frames
  {
    if frames != [] {
      CarriedAll(frames[..|frames| - 1], id, extended);
      LastOf(frames, frames[..|frames| - 1]);
    }
  }

  lemma {:induction false} CarriedNone(frames: seq<Frame>, id: nat, extended: bool)
    requires NoneCarries(frames, id, extended)
    ensures Carried(frames, id, extended) == []
  {
    if frames != [] {
      CarriedNone(frames[..|frames| - 1], id, extended);
    }
  }

  lemma KeptNext(all: seq<Frame>, f: Frame, m: bool, marks: seq<bool>, id: nat, extended: bool)
      returns (next: seq<bool>)
    requires |marks| == |Carried(all, id, extended)|
    ensures |next| == |Carried(all + [f], id, extended)|
    ensures Keep(Carried(all + [f], id, extended), next)
            == Keep(Carried(all, id, extended), marks) + (if m && Carries(f, id, extended) then [f] else [])
    ensures m && AllSet(marks) ==> AllSet(next)
  {
    CarriedNext(all, f, id, extended);
    next := KeptOneMore(Carried(all, id, extended), f, m, marks, Carries(f, id, extended));
  }

  lemma KeptOneMore(frames: seq<Frame>, f: Frame, m: bool, marks: seq<bool>, more: bool) returns (next: seq<bool>)
    requires |marks| == |frames|
    ensures |next| == |frames + (if more then [f] else [])|
    ensures Keep(frames + (if more then [f] else []), next) == Keep(frames, marks) + (if m && more then [f] else [])
    ensures m && AllSet(marks) ==> AllSet(next)
  {
    Units(Keep(frames, marks));
    if more {
      KeepNext(frames, marks, f, m);
      next := marks + [m];
    } else {
      Units(frames);
      next := marks;
    }
  }

  /** Of the frames for a stream, those kept of all frames are some, in order; and all, if all frames are kept. */
  lemma {:induction false} CarriedOfKept(all: seq<Frame>, kept: seq<bool>, id: nat, extended: bool)
      returns (marks: seq<bool>)
    requires |kept| == |all|
    ensures |marks| == |Carried(all, id, extended)|
    ensures Carried(Keep(all, kept), id, extended) == Keep(Carried(all, id, extended), marks)
    ensures AllSet(kept) ==> AllSet(marks)
    decreases |all|
  {
    if all == [] {
      marks := [];
    } else {
      var n := |all| - 1;
      var init, f, k, m := all[..n], all[n], kept[..n], kept[n];
      var before := CarriedOfKept(init, k, id, extended);
      LastOf(all, init);
      LastOf(kept, k);
      KeepNext(init, k, f, m);
      marks := KeptNext(init, f, m, before, id, extended);
      CarriedKeptNext(init, k, f, m, id, extended);
    }
  }

  lemma CarriedKeptNext(init: seq<Frame>, k: seq<bool>, f: Frame, m: bool, id: nat, extended: bool)
    requires |k| == |init|
    ensures Carried(Keep(init + [f], k + [m]), id, extended)
            == Carried(Keep(init, k), id, extended) + (if m && Carries(f, id, extended) then [f] else [])
  {
    KeepNext(init, k, f, m);
    Units(Keep(init, k));
    Units(Carried(Keep(init, k), id, extended));
    CarriedNext(Keep(init, k), f, id, extended);
  }
}
