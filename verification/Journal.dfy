/**
 The append-only journal kept in one flash sector: the record format, what a
 scan of a sector image concludes, and what one save does to the sector and to
 the journal in memory. Every definition is a function of the sector's bytes and
 of the checksum, which is left arbitrary; CRC-32 is one instance of it.
 */
module Journal {
  import opened Bytes

  type Checksum = seq<byte> -> u32

  // A header is 16 bytes: magic, sequence number, length, padding, checksum.
  // Flash is written in words of 4 bytes.
  const MAX_RECORD: nat := 2048
  const ERASED: byte := 0xff
  const ALL_ONES: u32 := 0xffff_ffff
  // 'T', 'T', 'M', '1'
  const MAGIC: seq<byte> := [0x54, 0x54, 0x4d, 0x31]

  /** What a scan has concluded so far: the counter, the newest payload, and the headers it stepped over. */
  datatype Tally = Tally(seqNo: u32, last: Option<seq<byte>>, torn: nat, blank: nat)

  /** The journal in memory: where the next record goes, and the tally. */
  datatype Mem = Mem(next: nat, t: Tally)

  const START := Tally(0, None, 0, 0)

  // ---- one header --------------------------------------------------------

  function Pad(n: nat): nat {
    (4 - n % 4) % 4
  }

  lemma SumAligned(a: nat, b: nat)
    requires a % 4 == 0 && b % 4 == 0
    ensures (a + b) % 4 == 0
  {
  }

  lemma PadRounds(base: nat, n: nat)
    ensures Pad(n) < 4 && (base % 4 == 0 ==> (base + n + Pad(n)) % 4 == 0)
  {
  }

  predicate HasMagic(f: seq<byte>, o: nat) {
    o + 4 <= |f| && f[o] == 0x54 && f[o + 1] == 0x54 && f[o + 2] == 0x4d && f[o + 3] == 0x31
  }

  function SeqAt(f: seq<byte>, o: nat): u32
    requires o + 16 <= |f|
  {
    Get32(f[o + 4], f[o + 5], f[o + 6], f[o + 7])
  }

  function LenAt(f: seq<byte>, o: nat): u16
    requires o + 16 <= |f|
  {
    Get16(f[o + 8], f[o + 9])
  }

  function SumAt(f: seq<byte>, o: nat): u32
    requires o + 16 <= |f|
  {
    Get32(f[o + 12], f[o + 13], f[o + 14], f[o + 15])
  }

  /** One past the body the header at `o` claims. */
  function EndAt(f: seq<byte>, o: nat): nat
    requires o + 16 <= |f|
  {
    o + 16 + LenAt(f, o)
  }

  predicate AllErased(b: seq<byte>) {
    forall i :: 0 <= i < |b| ==> b[i] == ERASED
  }

  /** Erased flash that passes the checksum is still not a record. */
  predicate ErasedRecord(crc: Checksum, body: seq<byte>, sum: u32) {
    sum == ALL_ONES && AllErased(body) && crc(body) == ALL_ONES
  }

  predicate Fits(f: seq<byte>, o: nat)
    requires o + 16 <= |f|
  {
    LenAt(f, o) <= MAX_RECORD && EndAt(f, o) <= |f|
  }

  /** Whether the header at `o` is believed: its length fits and its checksum holds. */
  predicate ChecksOut(crc: Checksum, f: seq<byte>, o: nat)
    requires o + 16 <= |f|
  {
    Fits(f, o) &&
    var body := f[o + 16..EndAt(f, o)];
    crc(body) == SumAt(f, o) && !ErasedRecord(crc, body, SumAt(f, o))
  }

  /** The counter after a header carrying `claimed` was met. */
  function KeepSeq(cur: u32, claimed: u32, proven: bool): u32 {
    if claimed == ALL_ONES then cur
    else if claimed <= cur then cur
    else if proven then claimed
    else if cur < 0xffff_fffe then cur + 1
    else cur
  }

  function GiveUp(f: seq<byte>, o: nat, t: Tally): Tally
    requires o + 16 <= |f|
  {
    t.(torn := t.torn + 1, seqNo := KeepSeq(t.seqNo, SeqAt(f, o), false))
  }

  /** A header that checks out is a record, or, with an empty body, a blank one. */
  function Accept(f: seq<byte>, o: nat, t: Tally): Tally
    requires o + 16 <= |f| && Fits(f, o)
  {
    if LenAt(f, o) == 0 then
      t.(blank := t.blank + 1, seqNo := KeepSeq(t.seqNo, SeqAt(f, o), false))
    else
      t.(last := Some(f[o + 16..EndAt(f, o)]), seqNo := KeepSeq(t.seqNo, SeqAt(f, o), true))
  }

  function After(f: seq<byte>, o: nat): (r: nat)
    requires o + 16 <= |f|
    ensures EndAt(f, o) <= r < EndAt(f, o) + 4 && (o % 4 == 0 ==> r % 4 == 0)
  {
    PadRounds(o + 16, LenAt(f, o));
    EndAt(f, o) + Pad(LenAt(f, o))
  }

  lemma AfterFits(f: seq<byte>, o: nat)
    requires o % 4 == 0 && |f| % 4 == 0 && o + 16 <= |f| && Fits(f, o)
    ensures After(f, o) <= |f|
  {
    var a := After(f, o);
    assert a % 4 == 0 && a < |f| + 4;
  }

  // ---- the scan ----------------------------------------------------------

  /** The first word at or after `o` that carries the magic with room for a header, or -1. */
  function Resync(f: seq<byte>, o: nat): int
    decreases |f| - o
  {
    if o + 16 > |f| then -1
    else if HasMagic(f, o) then o
    else Resync(f, o + 4)
  }

  /** One past the last byte of f[from..hi] that is not erased, or `from`. */
  function Written(f: seq<byte>, from: nat, hi: nat): (r: nat)
    requires hi <= |f|
    ensures from <= r <= Max(from, hi)
    ensures forall i :: r <= i < hi ==> f[i] == ERASED
    ensures r > from ==> f[r - 1] != ERASED
  {
    if hi <= from then from
    else if f[hi - 1] != ERASED then hi
    else Written(f, from, hi - 1)
  }

  function WriteHead(f: seq<byte>, from: nat): nat {
    var w := Written(f, from, |f|);
    w + Pad(w)
  }

  datatype Step = Stop(m: Mem) | On(off: nat, t: Tally)

  lemma ResyncAligned(f: seq<byte>, off: nat)
    requires off % 4 == 0
    ensures var r := Resync(f, off + 16); r < 0 || (r % 4 == 0 && off + 16 <= r && off + 16 <= |f|)
  {
    ResyncFinds(f, off + 16);
  }

  /** One turn of the scan's loop. */
  function ScanStep(crc: Checksum, f: seq<byte>, off: nat, t: Tally): (s: Step)
    requires off % 4 == 0
    ensures s.On? ==> s.off % 4 == 0 && off + 16 <= s.off && off + 16 <= |f|
  {
    if off + 16 > |f| || !HasMagic(f, off) then Stop(Mem(Min(off, |f|), t))
    else
      ResyncAligned(f, off);
      hide Resync, Accept, GiveUp;
      if ChecksOut(crc, f, off) then On(After(f, off), Accept(f, off, t))
      else
        var r := Resync(f, off + 16);
        if r >= 0 then On(r, GiveUp(f, off, t))
        else Stop(Mem(Min(WriteHead(f, off + 16), |f|), GiveUp(f, off, t)))
  }

  function ScanFrom(crc: Checksum, f: seq<byte>, off: nat, t: Tally): Mem
    requires off % 4 == 0
    decreases |f| - off
  {
    match ScanStep(crc, f, off, t)
    case Stop(m) => m
    case On(off', t') => ScanFrom(crc, f, off', t')
  }

  /** What opening a sector with these bytes concludes. */
  function Scan(crc: Checksum, f: seq<byte>): Mem {
    ScanFrom(crc, f, 0, START)
  }

  // ---- a save ------------------------------------------------------------

  datatype SaveResult = Saved | EmptyRecord | TooLarge | ErasedPayload | EraseFailed | WriteFailed

  /**
   What the flash driver does during one save: whether the read behind the
   "still erased?" check and the one after a failed write succeed, what the erase
   reports and whether it took effect, and how much of the record lands, and with
   what answer.
   */
  datatype Faults = Faults(tailRead: bool, erase: bool, cleared: bool, landed: nat, written: bool, headRead: bool) {
    predicate ValidFor(recLen: nat) {
      landed <= recLen && landed % 4 == 0 && (written ==> landed == recLen) && (erase ==> cleared)
    }
  }

  function NextSeq(cur: u32): u32 {
    var next := (cur + 1) % 0x1_0000_0000;
    if next == ALL_ONES then cur else next
  }

  function Repeat(b: byte, n: nat): seq<byte> {
    seq(n, _ => b)
  }

  function RecordLen(p: seq<byte>): (n: nat)
    ensures n % 4 == 0 && 16 + |p| <= n < 20 + |p|
  {
    PadRounds(16, |p|);
    16 + |p| + Pad(|p|)
  }

  function RecordOf(crc: Checksum, p: seq<byte>, seqNo: u32): (rec: seq<byte>)
    requires |p| <= MAX_RECORD
    ensures |rec| == RecordLen(p)
  {
    MAGIC + LE32(seqNo) + LE16(|p|) + [0, 0] + LE32(crc(p)) + p + Repeat(ERASED, Pad(|p|))
  }

  /** The sector once the first `k` bytes of `rec` have been programmed at `at`. */
  function Program(f: seq<byte>, at: nat, rec: seq<byte>, k: nat): (g: seq<byte>)
    requires k <= |rec| && at + k <= |f|
    ensures |g| == |f|
  {
    seq(|f|, i requires 0 <= i < |f| => if at <= i < at + k then And(f[i], rec[i - at]) else f[i])
  }

  predicate ErasedFrom(f: seq<byte>, o: nat) {
    forall i :: o <= i < |f| ==> f[i] == ERASED
  }

  /** Where the head goes after a write at `at` failed. */
  function HeadAfter(f: seq<byte>, at: nat, readOk: bool): nat
    requires at <= |f|
  {
    if !readOk || at + 16 > |f| || !HasMagic(f, at) then at
    else Min(at + WriteHead(f[at..], 16), |f|)
  }

  predicate Refused(crc: Checksum, size: nat, p: seq<byte>) {
    |p| == 0 || |p| > MAX_RECORD || ErasedRecord(crc, p, ALL_ONES) || RecordLen(p) > size
  }

  function RefusalOf(crc: Checksum, p: seq<byte>): SaveResult {
    if |p| == 0 then EmptyRecord
    else if |p| > MAX_RECORD then TooLarge
    else if ErasedRecord(crc, p, ALL_ONES) then ErasedPayload
    else TooLarge
  }

  /** Whether this save clears the sector before it writes. */
  predicate Erases(f: seq<byte>, m: Mem, p: seq<byte>, w: Faults) {
    !(m.next + RecordLen(p) <= |f|) || !w.tailRead || !ErasedFrom(f, m.next)
  }

  datatype Outcome = Outcome(flash: seq<byte>, mem: Mem, result: SaveResult)

  /** The sector and the journal as the write finds them, after the erase if there was one. */
  function Prepared(f: seq<byte>, m: Mem, erased: bool): (s: (seq<byte>, Mem))
    ensures |s.0| == |f|
  {
    if erased then (Repeat(ERASED, |f|), Mem(0, m.t.(torn := 0, blank := 0))) else (f, m)
  }

  /** The write of `rec` itself, and the journal's view of it. */
  function Append(f: seq<byte>, m: Mem, p: seq<byte>, rec: seq<byte>, erased: bool, w: Faults): Outcome
    requires m.next + |rec| <= |f| && w.ValidFor(|rec|)
  {
    var g := Program(f, m.next, rec, w.landed);
    if w.written then
      Outcome(g, Mem(m.next + |rec|, m.t.(seqNo := NextSeq(m.t.seqNo), last := Some(p))), Saved)
    else
      var t := if erased then m.t.(last := None) else m.t;
      Outcome(g, Mem(HeadAfter(g, m.next, w.headRead), t), WriteFailed)
  }

  function Save(crc: Checksum, f: seq<byte>, m: Mem, p: seq<byte>, w: Faults): Outcome
    requires w.ValidFor(RecordLen(p))
  {
    if Refused(crc, |f|, p) then Outcome(f, m, RefusalOf(crc, p))
    else
      var erased := Erases(f, m, p, w);
      if erased && !w.erase then Outcome(if w.cleared then Repeat(ERASED, |f|) else f, m, EraseFailed)
      else
        var s := Prepared(f, m, erased);
        Append(s.0, s.1, p, RecordOf(crc, p, NextSeq(m.t.seqNo)), erased, w)
  }

  // ---- the driver calls a save makes -----------------------------------------

  datatype Call =
    | Read(off: nat, len: nat, ok: bool)
    | Write(off: nat, len: nat, landed: nat, ok: bool)
    | Erase(cleared: bool, ok: bool)

  /** The write, and the look behind it if it failed. */
  function WriteCalls(f: seq<byte>, at: nat, p: seq<byte>, w: Faults): seq<Call>
    requires at <= |f|
  {
    [Write(at, RecordLen(p), w.landed, w.written)] + (if w.written then [] else [Read(at, |f| - at, w.headRead)])
  }

  /**
   Every driver call of one save, in order: the tail is read if there is room, the
   sector is erased only as `Erases` says, and nothing is written after a failed erase.
   */
  function CallsOf(crc: Checksum, f: seq<byte>, m: Mem, p: seq<byte>, w: Faults): seq<Call> {
    if Refused(crc, |f|, p) then []
    else
      var room := m.next + RecordLen(p) <= |f|;
      var look := if room then [Read(m.next, |f| - m.next, w.tailRead)] else [];
      if !Erases(f, m, p, w) then look + WriteCalls(f, m.next, p, w)
      else look + [Erase(w.cleared, w.erase)] + (if w.erase then WriteCalls(f, 0, p, w) else [])
  }

  // ---- facts about the pieces ---------------------------------------------

  lemma {:induction false} ResyncFinds(f: seq<byte>, o: nat)
    ensures var r := Resync(f, o);
      r < 0 || (o <= r && (r - o) % 4 == 0 && r + 16 <= |f| && HasMagic(f, r))
    decreases |f| - o
  {
    if o + 16 <= |f| && !HasMagic(f, o) {
      ResyncFinds(f, o + 4);
    }
  }

  predicate AgreeBelow(f: seq<byte>, g: seq<byte>, at: nat) {
    |f| == |g| && at <= |f| && forall i :: 0 <= i < at ==> g[i] == f[i]
  }

  /** No word-aligned magic between `o` and `at` in f: the resync of g goes where a record was put. */
  lemma {:induction false} ResyncAcross(f: seq<byte>, g: seq<byte>, o: nat, at: nat)
    requires o % 4 == 0 && at % 4 == 0 && o <= at
    requires AgreeBelow(f, g, at) && ErasedFrom(f, at)
    requires at + 16 <= |g| && HasMagic(g, at)
    ensures Resync(g, o) == if Resync(f, o) >= 0 then Resync(f, o) else at
    ensures Resync(f, o) >= 0 ==> Resync(f, o) < at
    decreases at - o
  {
    if o == at {
      NoMagicInErased(f, o);
    } else if !HasMagic(f, o) {
      ResyncAcross(f, g, o + 4, at);
    }
  }

  lemma {:induction false} NoMagicInErased(f: seq<byte>, o: nat)
    requires ErasedFrom(f, o)
    ensures Resync(f, o) == -1
    decreases |f| - o
  {
    if o + 16 <= |f| {
      assert f[o] == ERASED;
      NoMagicInErased(f, o + 4);
    }
  }

  lemma {:induction false} ScanNextAtLeast(crc: Checksum, f: seq<byte>, off: nat, t: Tally)
    requires off % 4 == 0
    ensures Min(off, |f|) <= ScanFrom(crc, f, off, t).next <= |f|
    decreases |f| - off
  {
    var s := ScanStep(crc, f, off, t);
    if s.On? {
      ScanNextAtLeast(crc, f, s.off, s.t);
    }
  }

  /** Two sectors that agree on a header and on the body it claims give it the same verdict. */
  lemma SameHeader(crc: Checksum, f: seq<byte>, g: seq<byte>, o: nat, at: nat)
    requires AgreeBelow(f, g, at) && o + 16 <= at
    ensures HasMagic(g, o) == HasMagic(f, o)
    ensures SeqAt(g, o) == SeqAt(f, o) && LenAt(g, o) == LenAt(f, o) && SumAt(g, o) == SumAt(f, o)
    ensures Fits(g, o) == Fits(f, o)
    ensures EndAt(f, o) <= at ==>
              ChecksOut(crc, g, o) == ChecksOut(crc, f, o) &&
              (Fits(f, o) ==> forall t :: Accept(g, o, t) == Accept(f, o, t))
    ensures forall t :: GiveUp(g, o, t) == GiveUp(f, o, t)
  {
    if EndAt(f, o) <= at {
      assert f[o + 16..EndAt(f, o)] == g[o + 16..EndAt(f, o)];
    }
  }

  // ---- how a scan reaches the write position ------------------------------

  /**
   One turn of the walk towards `at`, in a sector erased from there on: None when
   it goes nowhere. A record that checks out but reaches past `at` counts as torn,
   because a new record there lands inside its body.
   */
  function StepTo(crc: Checksum, f: seq<byte>, off: nat, at: nat, t: Tally): (s: Option<(nat, Tally)>)
    requires off % 4 == 0 && at % 4 == 0
    ensures s.Some? ==> s.value.0 % 4 == 0 && off + 16 <= s.value.0 <= at && off + 16 <= |f|
  {
    if off + 16 > Min(at, |f|) || !HasMagic(f, off) then None
    else if ChecksOut(crc, f, off) && After(f, off) <= at then Some((After(f, off), Accept(f, off, t)))
    else
      var r := Resync(f, off + 16);
      ResyncFinds(f, off + 16);
      if r < 0 then Some((at, GiveUp(f, off, t)))
      else if r < at && !ChecksOut(crc, f, off) then Some((r, GiveUp(f, off, t)))
      else None
  }

  /** What a scan has concluded when it arrives at `at`, once a record is put there; None if it never does. */
  function Believed(crc: Checksum, f: seq<byte>, off: nat, at: nat, t: Tally): Option<Tally>
    requires off % 4 == 0 && at % 4 == 0
    decreases at - off
  {
    if off == at then Some(t)
    else
      match StepTo(crc, f, off, at, t)
      case None => None
      case Some((off', t')) => Believed(crc, f, off', at, t')
  }

  /** No header below `at` whose checksum holds over a body that reaches past `at`. */
  predicate NoFalseCheck(crc: Checksum, g: seq<byte>, at: nat) {
    forall o: nat :: o + 16 <= at <= |g| && HasMagic(g, o) && EndAt(g, o) > at ==> !ChecksOut(crc, g, o)
  }

  /** `g` is `f`, erased from `at`, with a header put at `at` that no earlier claim comes true over. */
  predicate Extends(crc: Checksum, f: seq<byte>, g: seq<byte>, at: nat) {
    at % 4 == 0 && AgreeBelow(f, g, at) && ErasedFrom(f, at) &&
    at + 16 <= |g| && HasMagic(g, at) && NoFalseCheck(crc, g, at)
  }

  /** The walk of f towards `at` is the scan of g. */
  lemma StepsAgree(crc: Checksum, f: seq<byte>, g: seq<byte>, off: nat, at: nat, t: Tally)
    requires off % 4 == 0 && off != at && Extends(crc, f, g, at)
    requires StepTo(crc, f, off, at, t).Some?
    ensures var s := StepTo(crc, f, off, at, t).value; ScanStep(crc, g, off, t) == On(s.0, s.1)
  {
    hide ChecksOut, Accept, GiveUp, Resync, HasMagic, SeqAt, LenAt, SumAt, Fits, ErasedFrom, WriteHead;
    SameHeader(crc, f, g, off, at);
    ResyncAcross(f, g, off + 16, at);
    EndBefore(f, off, at);
    CheckedFits(crc, f, off);
  }

  /** A body that ends by a word boundary has its padding end by it too. */
  lemma EndBefore(f: seq<byte>, off: nat, at: nat)
    requires off % 4 == 0 && at % 4 == 0 && off + 16 <= |f|
    ensures EndAt(f, off) <= at <==> After(f, off) <= at
  {
  }

  lemma CheckedFits(crc: Checksum, f: seq<byte>, o: nat)
    requires o + 16 <= |f|
    ensures ChecksOut(crc, f, o) ==> Fits(f, o)
  {
  }

  /** A scan of the sector with a header at `at` arrives there believing exactly what was believed before. */
  lemma {:induction false} ScanArrives(crc: Checksum, f: seq<byte>, g: seq<byte>, off: nat, at: nat, t: Tally)
    requires off % 4 == 0 && Extends(crc, f, g, at)
    requires Believed(crc, f, off, at, t).Some?
    ensures ScanFrom(crc, g, off, t) == ScanFrom(crc, g, at, Believed(crc, f, off, at, t).value)
    decreases at - off
  {
    if off != at {
      var s := StepTo(crc, f, off, at, t).value;
      StepsAgree(crc, f, g, off, at, t);
      ScanArrives(crc, f, g, s.0, at, s.1);
    }
  }

  /** The same walk seen from a position past `at`: it passes through `at` too. */
  lemma {:induction false} BelievedThrough(crc: Checksum, f: seq<byte>, g: seq<byte>, off: nat, at: nat, h: nat, t: Tally)
    requires off % 4 == 0 && h % 4 == 0 && at + 16 <= h && Extends(crc, f, g, at)
    requires Believed(crc, f, off, at, t).Some?
    ensures Believed(crc, g, off, h, t) == Believed(crc, g, at, h, Believed(crc, f, off, at, t).value)
    decreases at - off
  {
    if off != at {
      var s := StepTo(crc, f, off, at, t).value;
      StepsAgree(crc, f, g, off, at, t);
      assert StepTo(crc, g, off, h, t) == Some(s);
      BelievedThrough(crc, f, g, s.0, at, h, s.1);
    }
  }

  /** A scan that ends on a word boundary has not run past the end of the sector. */
  lemma StepInside(crc: Checksum, f: seq<byte>, off: nat, t: Tally)
    requires off % 4 == 0 && off <= |f| && ScanStep(crc, f, off, t).On?
    requires var s := ScanStep(crc, f, off, t); ScanFrom(crc, f, s.off, s.t).next % 4 == 0
    ensures ScanStep(crc, f, off, t).off <= |f|
  {
    var s := ScanStep(crc, f, off, t);
    if s.off > |f| {
      assert ScanFrom(crc, f, s.off, s.t).next == |f|;
      if ChecksOut(crc, f, off) {
        AfterFits(f, off);
      } else {
        ResyncFinds(f, off + 16);
      }
    }
  }

  /** Where a scan ends, on a word boundary and with nothing written beyond, is a position a later scan arrives at. */
  lemma {:induction false} ScanIsBelieved(crc: Checksum, f: seq<byte>, off: nat, t: Tally)
    requires off % 4 == 0
    requires var m := ScanFrom(crc, f, off, t);
      ErasedFrom(f, m.next) && (m.next + 16 <= |f| || (m.next % 4 == 0 && off <= |f|))
    ensures var m := ScanFrom(crc, f, off, t); m.next % 4 == 0 && Believed(crc, f, off, m.next, t) == Some(m.t)
    decreases |f| - off
  {
    var m := ScanFrom(crc, f, off, t);
    var s := ScanStep(crc, f, off, t);
    ScanNextAtLeast(crc, f, off, t);
    if s.On? {
      ScanNextAtLeast(crc, f, s.off, s.t);
      ResyncFinds(f, off + 16);
      if m.next % 4 == 0 && off <= |f| {
        StepInside(crc, f, off, t);
      }
      ScanIsBelieved(crc, f, s.off, s.t);
      assert StepTo(crc, f, off, m.next, t) == Some((s.off, s.t)) by {
        if !ChecksOut(crc, f, off) {
          assert f[s.off] != ERASED;
        }
      }
    }
  }
}
