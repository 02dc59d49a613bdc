/** CAN frames and the lengths they can have: the DLC table of ISO 11898-1. */
module CanFrames {
  import opened Bits

  const MAX_DATA: nat := 64      // PIF_CAN_MAX_DATA_SIZE
  const STD_ID_MASK: nat := 0x7FF
  const EXT_ID_MASK: nat := 0x1FFF_FFFF

  datatype Flags = Flags(extended: bool, fd: bool, brs: bool)

  /** PifCanFrame. Of its data array only the first bytes, as many as its length says, are ever used; a remote frame,
      with CAN_F_RTR, has a length but no data. */
  datatype Frame = DataFrame(id: nat, flags: Flags, data: seq<byte>) | RemoteFrame(id: nat, flags: Flags, asked: nat)
  {
    function Length(): nat {
      if DataFrame? then |data| else asked
    }

    function Bytes(): seq<byte> {
      if DataFrame? then data else []
    }
  }

  function DlcToLength(dlc: nat): nat {
    var d := dlc % 16;
    if d <= 8 then d
    else if d == 9 then 12 else if d == 10 then 16 else if d == 11 then 20 else if d == 12 then 24
    else if d == 13 then 32 else if d == 14 then 48 else 64
  }

  method LengthToDlc(length: nat) returns (dlc: nat)
    ensures dlc == Dlc(length)
  {
    if length <= 8 {
      return length;
    }
    dlc := 9;
    while dlc < 15 && DlcToLength(dlc) < length
      invariant 9 <= dlc <= Dlc(length)
    {
      dlc := dlc + 1;
    }
  }

  /** The DLC of the shortest frame that holds length bytes, up to 64. */
  function Dlc(length: nat): (dlc: nat)
    ensures dlc <= 15
  {
    if length <= 8 then length
    else if length <= 12 then 9 else if length <= 16 then 10 else if length <= 20 then 11 else if length <= 24 then 12
    else if length <= 32 then 13 else if length <= 48 then 14 else 15
  }

  lemma DlcIsLeast(length: nat, d: nat)
    requires length <= MAX_DATA
    ensures DlcToLength(Dlc(length)) >= length
    ensures d < Dlc(length) ==> DlcToLength(d) < length
  {
  }

  /** A length some DLC stands for. */
  predicate IsDlcLength(length: nat) {
    length <= 8 || length == 12 || length == 16 || length == 20 || length == 24 || length == 32 || length == 48
    || length == 64
  }

  predicate IsValidLength(length: nat, fd: bool) {
    if length > MAX_DATA then false
    else if length <= 8 then true
    else if !fd then false
    else DlcToLength(Dlc(length)) == length
  }

  predicate CheckFrame(f: Frame) {
    && f.id <= (if f.flags.extended then EXT_ID_MASK else STD_ID_MASK)
    && (if f.flags.fd then f.DataFrame? else !f.flags.brs)
    && IsValidLength(f.Length(), f.flags.fd)
  }

  /** What CAN knows: an ID of 11 bits, or of 29, a length that a DLC stands for, above 8 bytes and with a second bit
      rate only in CAN FD, and no remote frame there. */
  lemma KnownFrames(f: Frame)
    ensures CheckFrame(f) <==>
              && f.id < (if f.flags.extended then 0x2000_0000 else 0x800)
              && (exists dlc: nat :: dlc < 16 && DlcToLength(dlc) == f.Length() && (dlc <= 8 || f.flags.fd))
              && (f.flags.fd ==> f.DataFrame?) && (f.flags.brs ==> f.flags.fd)
  {
    if CheckFrame(f) {
      assert DlcToLength(Dlc(f.Length())) == f.Length();
    }
  }

  /** _floorLength of the stream. */
  function FloorLength(length: nat): nat {
    var dlc := Dlc(length);
    DlcToLength(if DlcToLength(dlc) > length && dlc > 0 then dlc - 1 else dlc)
  }

  lemma ValidLengths(length: nat, fd: bool)
    ensures IsValidLength(length, fd) <==> IsDlcLength(length) && (length <= 8 || fd)
  {
  }

  /** The largest length a frame can have that is not above length. */
  lemma FloorIsLargest(length: nat, other: nat)
    requires length <= MAX_DATA
    ensures IsDlcLength(FloorLength(length)) && FloorLength(length) <= length
    ensures IsDlcLength(other) && other <= length ==> other <= FloorLength(length)
    ensures length <= 8 ==> FloorLength(length) == length
    ensures length > 0 ==> FloorLength(length) > 0
  {
  }
}
