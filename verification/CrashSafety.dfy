/**
 What the journal promises across saves, failed writes, resets and reopens.
 A reset in the middle of a save is a save whose write stopped part-way,
 followed by a reopen.
 */
module CrashSafety {
  import opened Bytes
  import opened Journal

  // ---- one record in erased flash -------------------------------------------

  /** `r` is a record for p: its header fields, the payload, and erased padding. */
  ghost predicate IsRecord(crc: Checksum, r: seq<byte>, p: seq<byte>, s: u32) {
    && |p| <= MAX_RECORD && |r| == RecordLen(p)
    && HasMagic(r, 0) && SeqAt(r, 0) == s && LenAt(r, 0) == |p| && SumAt(r, 0) == crc(p)
    && r[16..16 + |p|] == p
    && forall i :: 16 + |p| <= i < |r| ==> r[i] == ERASED
  }

  lemma RecordFields(crc: Checksum, p: seq<byte>, s: u32)
    requires |p| <= MAX_RECORD
    ensures IsRecord(crc, RecordOf(crc, p, s), p, s)
  {
    Get32OfLE32(s);
    Get32OfLE32(crc(p));
    var head := MAGIC + LE32(s) + LE16(|p|) + [0, 0] + LE32(crc(p));
    var r := RecordOf(crc, p, s);
    assert r == head + (p + Repeat(ERASED, Pad(|p|)));
    assert head[4..8] == LE32(s) && head[8..10] == LE16(|p|) && head[12..16] == LE32(crc(p));
    assert forall i :: 0 <= i < 16 ==> r[i] == head[i];
  }

  /** Where each field of a record lies. */
  lemma RecordLayout(crc: Checksum, p: seq<byte>, s: u32)
    requires |p| <= MAX_RECORD
    ensures var r := RecordOf(crc, p, s);
      && |r| % 4 == 0 && 16 + |p| <= |r| < 20 + |p|
      && r[0..4] == ['T' as int, 'T' as int, 'M' as int, '1' as int] && r[4..8] == LE32(s) && r[8..10] == LE16(|p|)
      && r[10..12] == [0, 0] && r[12..16] == LE32(crc(p)) && r[16..16 + |p|] == p
      && forall i :: 16 + |p| <= i < |r| ==> r[i] == 0xff
  {
    hide LE32, LE16;
    var head := MAGIC + LE32(s) + LE16(|p|) + [0, 0] + LE32(crc(p));
    var r := RecordOf(crc, p, s);
    assert r == head + (p + Repeat(ERASED, Pad(|p|)));
    assert forall i :: 0 <= i < 16 ==> r[i] == head[i];
    assert r[..16] == head;
    assert head[0..4] == MAGIC && head[4..8] == LE32(s) && head[8..10] == LE16(|p|);
    assert head[10..12] == [0, 0] && head[12..16] == LE32(crc(p));
  }

  /** Onto erased bytes, programming is overwriting. */
  lemma ProgramErased(f: seq<byte>, at: nat, rec: seq<byte>, k: nat)
    requires k <= |rec| && at + k <= |f| && ErasedFrom(f, at)
    ensures var g := Program(f, at, rec, k);
      && (forall i :: 0 <= i < at ==> g[i] == f[i])
      && (forall i :: at <= i < at + k ==> g[i] == rec[i - at])
      && (forall i :: at + k <= i < |g| ==> g[i] == ERASED)
  {
    forall i | at <= i < at + k
      ensures And(f[i], rec[i - at]) == rec[i - at]
    {
      AndErased(rec[i - at]);
    }
  }

  /** A record found whole at `at` has the fields it was built with. */
  lemma LandedHeader(crc: Checksum, g: seq<byte>, at: nat, r: seq<byte>, p: seq<byte>, s: u32)
    requires IsRecord(crc, r, p, s) && at + |r| <= |g|
    requires forall i :: at <= i < at + |r| ==> g[i] == r[i - at]
    ensures SeqAt(g, at) == s && LenAt(g, at) == |p| && SumAt(g, at) == crc(p)
    ensures Fits(g, at) && g[at + 16..EndAt(g, at)] == p
  {
    assert g[at + 16..at + 16 + |p|] == r[16..16 + |p|];
  }

  /**
   What is known of the sector once the first k bytes of a record for p have landed
   at an erased position: nothing else changed, the number is the record's or not
   there yet, past the header there is payload and then erased flash, and a record
   that landed whole checks out and carries p.
   */
  ghost predicate Cut(crc: Checksum, f: seq<byte>, g: seq<byte>, at: nat, p: seq<byte>, s: u32, k: nat) {
    && AgreeBelow(f, g, at) && at % 4 == 0 && k <= RecordLen(p) && at + RecordLen(p) <= |g|
    && ErasedFrom(g, at + k)
    && (k == 0 ==> g == f)
    && (k >= 4 ==> HasMagic(g, at) && at + 16 <= |g| && SeqAt(g, at) == if k >= 8 then s else ALL_ONES)
    && (forall x :: at + 16 <= x < |g| ==> g[x] == ERASED || (x - at - 16 < |p| && g[x] == p[x - at - 16]))
    && (k == RecordLen(p) ==>
          && ChecksOut(crc, g, at) && LenAt(g, at) == |p| && SeqAt(g, at) == s && g[at + 16..EndAt(g, at)] == p)
  }

  lemma LandedPayload(crc: Checksum, g: seq<byte>, at: nat, r: seq<byte>, p: seq<byte>, s: u32, k: nat, x: nat)
    requires IsRecord(crc, r, p, s) && k <= |r| && at + k <= |g| && ErasedFrom(g, at + k)
    requires forall i :: at <= i < at + k ==> g[i] == r[i - at]
    requires at + 16 <= x < |g|
    ensures g[x] == ERASED || (x - at - 16 < |p| && g[x] == p[x - at - 16])
  {
    if x < at + k && x - at < 16 + |p| {
      assert r[x - at] == r[16..16 + |p|][x - at - 16];
    }
  }

  lemma LandedNumber(crc: Checksum, g: seq<byte>, at: nat, r: seq<byte>, p: seq<byte>, s: u32, k: nat)
    requires IsRecord(crc, r, p, s) && 4 <= k <= |r| && k % 4 == 0 && at + |r| <= |g| && ErasedFrom(g, at + k)
    requires forall i :: at <= i < at + k ==> g[i] == r[i - at]
    ensures SeqAt(g, at) == if k >= 8 then s else ALL_ONES
  {
    if k == 4 {
      assert g[at + 4] == ERASED && g[at + 5] == ERASED && g[at + 6] == ERASED && g[at + 7] == ERASED;
    } else {
      assert g[at + 4] == r[4] && g[at + 5] == r[5] && g[at + 6] == r[6] && g[at + 7] == r[7];
    }
  }

  lemma Landed(crc: Checksum, f: seq<byte>, at: nat, r: seq<byte>, p: seq<byte>, s: u32, k: nat)
    requires !Refused(crc, |f|, p) && IsRecord(crc, r, p, s) && at % 4 == 0 && k % 4 == 0
    requires k <= |r| && at + |r| <= |f| && ErasedFrom(f, at)
    ensures Cut(crc, f, Program(f, at, r, k), at, p, s, k)
  {
    var g := Program(f, at, r, k);
    ProgramErased(f, at, r, k);
    assert k == 0 ==> g == f;
    if k >= 4 {
      assert g[at] == r[0] && g[at + 1] == r[1] && g[at + 2] == r[2] && g[at + 3] == r[3];
      LandedNumber(crc, g, at, r, p, s, k);
    }
    forall x | at + 16 <= x < |g|
      ensures g[x] == ERASED || (x - at - 16 < |p| && g[x] == p[x - at - 16])
    {
      LandedPayload(crc, g, at, r, p, s, k, x);
    }
    if k == |r| {
      LandedHeader(crc, g, at, r, p, s);
    }
  }

  // ---- the counter -----------------------------------------------------------

  /** The largest number a walk met on a record that proved itself. */
  function ProvenFrom(crc: Checksum, f: seq<byte>, off: nat, t: Tally, best: nat): nat
    requires off % 4 == 0
    decreases |f| - off
  {
    match ScanStep(crc, f, off, t)
    case Stop(_) => best
    case On(off', t') =>
      var proven := ChecksOut(crc, f, off) && LenAt(f, off) > 0 && SeqAt(f, off) != ALL_ONES;
      ProvenFrom(crc, f, off', t', if proven then Max(best, SeqAt(f, off)) else best)
  }

  lemma {:induction false} SeqBounded(crc: Checksum, f: seq<byte>, off: nat, t: Tally, best: nat)
    requires off % 4 == 0
    requires best <= t.seqNo <= best + t.torn + t.blank && t.seqNo < ALL_ONES
    ensures var r := ScanFrom(crc, f, off, t).t; var top := ProvenFrom(crc, f, off, t, best);
      top <= r.seqNo <= top + r.torn + r.blank && r.seqNo < ALL_ONES
    decreases |f| - off
  {
    var s := ScanStep(crc, f, off, t);
    if s.On? {
      var proven := ChecksOut(crc, f, off) && LenAt(f, off) > 0 && SeqAt(f, off) != ALL_ONES;
      SeqBounded(crc, f, s.off, s.t, if proven then Max(best, SeqAt(f, off)) else best);
    }
  }

  /**
   No sector, whatever it holds, drives the counter: it ends between the largest
   proven number and that plus the headers that proved nothing, below all ones.
   */
  lemma ScanSeqBounded(crc: Checksum, f: seq<byte>)
    ensures var t := Scan(crc, f).t; var top := ProvenFrom(crc, f, 0, START, 0);
      top <= t.seqNo <= top + t.torn + t.blank && t.seqNo < ALL_ONES
  {
    SeqBounded(crc, f, 0, START, 0);
  }

  // ---- what a scan has met ------------------------------------------------------

  /** The headers a scan meets: from each that checks out on behind its body, from each other on to the next magic. */
  function HeadersMet(crc: Checksum, f: seq<byte>, off: nat): (hs: seq<nat>)
    requires off % 4 == 0
    ensures forall i :: 0 <= i < |hs| ==> hs[i] + 16 <= |f|
    decreases |f| - off
  {
    if off + 16 > |f| || !HasMagic(f, off) then []
    else
      ResyncAligned(f, off);
      if ChecksOut(crc, f, off) then [off] + HeadersMet(crc, f, After(f, off))
      else if Resync(f, off + 16) >= 0 then [off] + HeadersMet(crc, f, Resync(f, off + 16))
      else [off]
  }

  datatype Finding = Torn | Blank | Holds(p: seq<byte>)

  /** What a header is taken for: torn if it does not check out, blank if it does over nothing, and otherwise a payload. */
  function Found(crc: Checksum, f: seq<byte>, o: nat): Finding
    requires o + 16 <= |f|
  {
    if !ChecksOut(crc, f, o) then Torn else if LenAt(f, o) == 0 then Blank else Holds(f[o + 16..EndAt(f, o)])
  }

  function Findings(crc: Checksum, f: seq<byte>, hs: seq<nat>): seq<Finding>
    requires forall i :: 0 <= i < |hs| ==> hs[i] + 16 <= |f|
  {
    seq(|hs|, i requires 0 <= i < |hs| => Found(crc, f, hs[i]))
  }

  function Count(s: seq<Finding>, x: Finding): nat {
    if s == [] then 0 else (if s[0] == x then 1 else 0) + Count(s[1..], x)
  }

  function LastPayload(s: seq<Finding>, none: Option<seq<byte>>): Option<seq<byte>> {
    if s == [] then none else LastPayload(s[1..], if s[0].Holds? then Some(s[0].p) else none)
  }

  /** One header's part in the tally. */
  lemma OneFinding(crc: Checksum, f: seq<byte>, off: nat, t: Tally)
    requires off + 16 <= |f|
    ensures var t' := if ChecksOut(crc, f, off) then Accept(f, off, t) else GiveUp(f, off, t);
      var x := Found(crc, f, off);
      && t'.torn == t.torn + (if x == Torn then 1 else 0) && t'.blank == t.blank + (if x == Blank then 1 else 0)
      && t'.last == (if x.Holds? then Some(x.p) else t.last)
  {
  }

  lemma FindingsStep(crc: Checksum, f: seq<byte>, off: nat, rest: seq<nat>)
    requires off + 16 <= |f| && forall i :: 0 <= i < |rest| ==> rest[i] + 16 <= |f|
    ensures var all := Findings(crc, f, [off] + rest);
      all != [] && all[0] == Found(crc, f, off) && all[1..] == Findings(crc, f, rest)
  {
    hide Found;
  }

  lemma {:induction false} TallyFrom(crc: Checksum, f: seq<byte>, off: nat, t: Tally)
    requires off % 4 == 0
    ensures var r := ScanFrom(crc, f, off, t).t; var met := Findings(crc, f, HeadersMet(crc, f, off));
      && r.torn == t.torn + Count(met, Torn) && r.blank == t.blank + Count(met, Blank)
      && r.last == LastPayload(met, t.last)
    decreases |f| - off
  {
    if off + 16 <= |f| && HasMagic(f, off) {
      OneFinding(crc, f, off, t);
      var s := ScanStep(crc, f, off, t);
      hide ChecksOut, Accept, GiveUp, Resync, Found, HasMagic, Findings, WriteHead;
      if s.On? {
        FindingsStep(crc, f, off, HeadersMet(crc, f, s.off));
        TallyFrom(crc, f, s.off, s.t);
      } else {
        FindingsStep(crc, f, off, []);
        assert [off] + [] == [off] && Findings(crc, f, []) == [];
      }
    }
  }

  /**
   For every sector: the scan loads the payload of the last header it meets that checks
   out over one, and counts as torn exactly the headers that do not check out, as blank
   exactly those that do over nothing.
   */
  lemma ScanTellsWhatItMet(crc: Checksum, f: seq<byte>)
    ensures var t := Scan(crc, f).t; var met := Findings(crc, f, HeadersMet(crc, f, 0));
      t.torn == Count(met, Torn) && t.blank == Count(met, Blank) && t.last == LastPayload(met, None)
  {
    TallyFrom(crc, f, 0, START);
  }

  // ---- a completed save is what a rescan finds --------------------------------

  /** Where this save's write goes, if it gets that far. */
  function WritePos(f: seq<byte>, m: Mem, p: seq<byte>, w: Faults): nat {
    if Erases(f, m, p, w) then 0 else m.next
  }

  lemma {:induction false} ScanNextAligned(crc: Checksum, f: seq<byte>, off: nat, t: Tally)
    requires off % 4 == 0
    ensures var n := ScanFrom(crc, f, off, t).next; n % 4 == 0 || n == |f|
    decreases |f| - off
  {
    var s := ScanStep(crc, f, off, t);
    if s.On? {
      ScanNextAligned(crc, f, s.off, s.t);
    }
  }

  /** Scanning past a whole record at the end of the written part. */
  lemma ScanLastRecord(crc: Checksum, g: seq<byte>, at: nat, t: Tally)
    requires at % 4 == 0 && at + 16 <= |g| && HasMagic(g, at) && ChecksOut(crc, g, at) && LenAt(g, at) > 0
    requires After(g, at) <= |g| && ErasedFrom(g, After(g, at))
    ensures ScanFrom(crc, g, at, t) == Mem(After(g, at), Accept(g, at, t))
  {
    var e := After(g, at);
    assert !HasMagic(g, e);
    assert ScanFrom(crc, g, e, Accept(g, at, t)) == Mem(e, Accept(g, at, t));
  }

  /** A whole record, put where a scan arrives, is the newest record of the next scan, which ends right after it. */
  lemma WholeRecordScans(crc: Checksum, f: seq<byte>, g: seq<byte>, at: nat, p: seq<byte>, s: u32, b: Tally)
    requires 0 < |p| && ErasedFrom(f, at) && Cut(crc, f, g, at, p, s, RecordLen(p))
    requires Believed(crc, f, 0, at, START) == Some(b) && NoFalseCheck(crc, g, at)
    ensures Scan(crc, g) == Mem(at + RecordLen(p), b.(last := Some(p), seqNo := KeepSeq(b.seqNo, s, true)))
  {
    ScanArrives(crc, f, g, 0, at, START);
    ScanLastRecord(crc, g, at, b);
  }

  /** A save that gets as far as its write, taken apart. */
  lemma SaveUnfolds(crc: Checksum, f: seq<byte>, m: Mem, p: seq<byte>, w: Faults) returns (f1: seq<byte>, m1: Mem, r: seq<byte>)
    requires w.ValidFor(RecordLen(p)) && Save(crc, f, m, p, w).result in {Saved, WriteFailed}
    ensures !Refused(crc, |f|, p) && (f1, m1) == Prepared(f, m, Erases(f, m, p, w))
    ensures WritePos(f, m, p, w) == m1.next && m1.next + |r| <= |f| && ErasedFrom(f1, m1.next)
    ensures m1.t.seqNo == m.t.seqNo && IsRecord(crc, r, p, NextSeq(m.t.seqNo))
    ensures r == RecordOf(crc, p, NextSeq(m.t.seqNo))
    ensures Save(crc, f, m, p, w) == Append(f1, m1, p, r, Erases(f, m, p, w), w)
  {
    f1, m1 := Prepared(f, m, Erases(f, m, p, w)).0, Prepared(f, m, Erases(f, m, p, w)).1;
    r := RecordOf(crc, p, NextSeq(m.t.seqNo));
    RecordFields(crc, p, NextSeq(m.t.seqNo));
  }

  /** The number a save writes is the one a scan of it takes. */
  lemma NextSeqKept(base: u32, cur: u32)
    requires cur < ALL_ONES && (base == cur || base == 0)
    ensures 0 < NextSeq(cur) < ALL_ONES && KeepSeq(base, NextSeq(cur), true) == NextSeq(cur)
  {
  }

  lemma AppendMatchesRescan(crc: Checksum, f: seq<byte>, m: Mem, p: seq<byte>, r: seq<byte>, erased: bool, w: Faults, b: Tally)
    requires !Refused(crc, |f|, p) && IsRecord(crc, r, p, NextSeq(m.t.seqNo)) && w.ValidFor(|r|) && w.written
    requires m.next % 4 == 0 && m.next + |r| <= |f| && ErasedFrom(f, m.next)
    requires Believed(crc, f, 0, m.next, START) == Some(b) && b.torn == m.t.torn && b.blank == m.t.blank
    requires (b.seqNo == m.t.seqNo || b.seqNo == 0) && m.t.seqNo < ALL_ONES
    requires NoFalseCheck(crc, Append(f, m, p, r, erased, w).flash, m.next)
    ensures Scan(crc, Append(f, m, p, r, erased, w).flash) == Append(f, m, p, r, erased, w).mem
  {
    Landed(crc, f, m.next, r, p, NextSeq(m.t.seqNo), w.landed);
    WholeRecordScans(crc, f, Append(f, m, p, r, erased, w).flash, m.next, p, NextSeq(m.t.seqNo), b);
    NextSeqKept(b.seqNo, m.t.seqNo);
  }

  /** From any sector contents: the first save after opening it, if it completes, leaves the journal in memory equal to a rescan. */
  lemma OpenedSaveMatchesRescan(crc: Checksum, f: seq<byte>, p: seq<byte>, w: Faults)
    requires w.ValidFor(RecordLen(p))
    requires Save(crc, f, Scan(crc, f), p, w).result == Saved
    requires NoFalseCheck(crc, Save(crc, f, Scan(crc, f), p, w).flash, WritePos(f, Scan(crc, f), p, w))
    ensures var o := Save(crc, f, Scan(crc, f), p, w);
      Scan(crc, o.flash) == o.mem && o.mem.t.last == Some(p)
  {
    var m := Scan(crc, f);
    var erased := Erases(f, m, p, w);
    ScanSeqBounded(crc, f);
    var f1, m1, r := SaveUnfolds(crc, f, m, p, w);
    if erased {
      assert Believed(crc, f1, 0, 0, START) == Some(START);
      AppendMatchesRescan(crc, f1, m1, p, r, true, w, START);
    } else {
      ScanNextAligned(crc, f, 0, START);
      ScanIsBelieved(crc, f, 0, START);
      AppendMatchesRescan(crc, f, m, p, r, false, w, m.t);
    }
  }

  // ---- every write is a legal one ---------------------------------------------

  /** A word boundary with the rest of the sector, or its very end. */
  predicate HeadAligned(f: seq<byte>, m: Mem) {
    m.next <= |f| && (m.next % 4 == 0 || m.next == |f|)
  }

  lemma RoomAligned(f: seq<byte>, m: Mem, at: nat, len: nat)
    requires HeadAligned(f, m) && (at == 0 || at == m.next) && 0 < len && at + len <= |f|
    ensures at % 4 == 0
  {
  }

  lemma LandsAsMeant(f: seq<byte>, at: nat, r: seq<byte>, k: nat)
    requires k <= |r| && at + k <= |f| && ErasedFrom(f, at)
    ensures Program(f, at, r, k)[at..at + k] == r[..k]
  {
    ProgramErased(f, at, r, k);
  }

  /**
   Whatever the sector holds and whatever the driver does: the write is in bounds,
   on a word boundary and onto erased bytes only, so what lands is what was meant.
   */
  lemma WritesAreLegal(crc: Checksum, f: seq<byte>, m: Mem, p: seq<byte>, w: Faults)
    requires w.ValidFor(RecordLen(p)) && HeadAligned(f, m)
    requires Save(crc, f, m, p, w).result in {Saved, WriteFailed}
    ensures var at := WritePos(f, m, p, w); var f1 := Prepared(f, m, Erases(f, m, p, w)).0;
      at % 4 == 0 && at + RecordLen(p) <= |f| && ErasedFrom(f1, at)
    ensures var at := WritePos(f, m, p, w); var g := Save(crc, f, m, p, w).flash;
      g[at..at + w.landed] == RecordOf(crc, p, NextSeq(m.t.seqNo))[..w.landed]
  {
    var f1, m1, r := SaveUnfolds(crc, f, m, p, w);
    RoomAligned(f, m, m1.next, |r|);
    LandsAsMeant(f1, m1.next, r, w.landed);
    hide Save, RecordOf, Program, ErasedFrom;
  }

  lemma AppendKeepsAligned(f: seq<byte>, m: Mem, p: seq<byte>, r: seq<byte>, erased: bool, w: Faults)
    requires m.next % 4 == 0 && |r| % 4 == 0 && m.next + |r| <= |f| && w.ValidFor(|r|)
    ensures var o := Append(f, m, p, r, erased, w); HeadAligned(o.flash, o.mem)
  {
    SumAligned(m.next, |r|);
    HeadAfterAligned(Program(f, m.next, r, w.landed), m.next, w.headRead);
  }

  /** And the head stays on a word boundary inside the sector. */
  lemma SaveKeepsAligned(crc: Checksum, f: seq<byte>, m: Mem, p: seq<byte>, w: Faults)
    requires w.ValidFor(RecordLen(p)) && HeadAligned(f, m)
    ensures var o := Save(crc, f, m, p, w); |o.flash| == |f| && HeadAligned(o.flash, o.mem)
  {
    if Save(crc, f, m, p, w).result in {Saved, WriteFailed} {
      var f1, m1, r := SaveUnfolds(crc, f, m, p, w);
      AppendKeepsAligned(f1, m1, p, r, Erases(f, m, p, w), w);
    }
  }

  lemma HeadAfterAligned(g: seq<byte>, at: nat, readOk: bool)
    requires at % 4 == 0 && at <= |g|
    ensures var h := HeadAfter(g, at, readOk); h <= |g| && (h % 4 == 0 || h == |g|)
  {
  }

  /** The counter goes on counting: one more per completed save, never all ones, never back. */
  lemma SaveCounts(crc: Checksum, f: seq<byte>, m: Mem, p: seq<byte>, w: Faults)
    requires w.ValidFor(RecordLen(p)) && m.t.seqNo < ALL_ONES
    ensures var o := Save(crc, f, m, p, w);
      && o.mem.t.seqNo < ALL_ONES
      && (o.result == Saved && m.t.seqNo + 1 < ALL_ONES ==> o.mem.t.seqNo == m.t.seqNo + 1)
      && (o.result != Saved ==> o.mem.t.seqNo == m.t.seqNo)
  {
  }

  /** A save says no exactly to an empty record, to one over 2048 bytes or too long for the sector, and to erased bytes whose checksum is all ones too; and then does nothing. */
  lemma RefusesExactly(crc: Checksum, f: seq<byte>, m: Mem, p: seq<byte>, w: Faults)
    requires w.ValidFor(RecordLen(p))
    ensures var o := Save(crc, f, m, p, w);
      && (o.result == EmptyRecord <==> |p| == 0)
      && (o.result == ErasedPayload <==>
            0 < |p| <= 2048 && crc(p) == 0xffff_ffff && forall i :: 0 <= i < |p| ==> p[i] == 0xff)
      && (o.result == TooLarge <==> |p| > 0 && o.result != ErasedPayload && (|p| > 2048 || 16 + |p| + Pad(|p|) > |f|))
      && (o.result in {EmptyRecord, ErasedPayload, TooLarge} ==> o.flash == f && o.mem == m)
  {
    hide RecordOf, Program, Erases;
  }

  /** Every driver call of a save is in bounds: a read goes to the end of the sector, a write is of a whole record on a word boundary, and there is one at most. */
  lemma CallsAreLegal(crc: Checksum, f: seq<byte>, m: Mem, p: seq<byte>, w: Faults)
    requires HeadAligned(f, m)
    ensures var calls := CallsOf(crc, f, m, p, w);
      && |calls| <= 4
      && (forall i :: 0 <= i < |calls| && calls[i].Read? ==> calls[i].off + calls[i].len == |f|)
      && (forall i :: 0 <= i < |calls| && calls[i].Write? ==>
            calls[i].off % 4 == 0 && calls[i].off + calls[i].len <= |f| && calls[i].len == 16 + |p| + Pad(|p|))
      && (forall i, j :: 0 <= i < j < |calls| ==> !(calls[i].Write? && calls[j].Write?) && !(calls[i].Erase? && calls[j].Erase?))
  {
    if !Refused(crc, |f|, p) {
      hide Refused, ErasedFrom;
      WriteIsAligned(f, m, p);
    }
  }

  /** The last call tells how a save ended; one that was refused makes none, and nothing is written after an erase that failed. */
  lemma CallsTellResult(crc: Checksum, f: seq<byte>, m: Mem, p: seq<byte>, w: Faults)
    requires w.ValidFor(RecordLen(p)) && HeadAligned(f, m)
    ensures var result := Save(crc, f, m, p, w).result; var calls := CallsOf(crc, f, m, p, w); var n := |calls|;
      && (result in {EmptyRecord, TooLarge, ErasedPayload} <==> n == 0)
      && (result == Saved <==> n > 0 && calls[n - 1].Write? && calls[n - 1].ok)
      && (result == WriteFailed <==> n > 1 && calls[n - 2].Write? && !calls[n - 2].ok && calls[n - 1].Read?)
      && (result == EraseFailed <==> n > 0 && calls[n - 1].Erase? && !calls[n - 1].ok)
      && (forall i :: 0 <= i < n && calls[i].Erase? && !calls[i].ok ==> i == n - 1)
  {
    hide Refused, RefusalOf, ErasedFrom, RecordOf, Program, HeadAfter;
    RefusalIsNamed(crc, |f|, p);
  }

  lemma RefusalIsNamed(crc: Checksum, size: nat, p: seq<byte>)
    ensures RefusalOf(crc, p) in {EmptyRecord, TooLarge, ErasedPayload}
  {
  }

  lemma WriteIsAligned(f: seq<byte>, m: Mem, p: seq<byte>)
    requires HeadAligned(f, m)
    ensures m.next + RecordLen(p) <= |f| ==> m.next % 4 == 0
  {
  }

  /** Behind a header that proves nothing, with no other after it, the head is the first word boundary past which nothing is written. */
  lemma HeadBehindTorn(crc: Checksum, f: seq<byte>, off: nat, t: Tally)
    requires off % 4 == 0 && off + 16 <= |f| && HasMagic(f, off) && !ChecksOut(crc, f, off)
    requires Resync(f, off + 16) < 0
    ensures var h := ScanFrom(crc, f, off, t).next;
      && off + 16 <= h <= |f| && ErasedFrom(f, h) && (h % 4 == 0 || h == |f|)
      && forall a :: off + 16 <= a < h && a % 4 == 0 ==> !ErasedFrom(f, a)
  {
    FirstClearWord(f, off + 16);
    hide ChecksOut, Resync, Written;
  }

  lemma FirstClearWord(f: seq<byte>, from: nat)
    requires from % 4 == 0 && from <= |f|
    ensures var h := Min(WriteHead(f, from), |f|);
      && from <= h <= |f| && ErasedFrom(f, h) && (h % 4 == 0 || h == |f|)
      && forall a :: from <= a < h && a % 4 == 0 ==> !ErasedFrom(f, a)
  {
    var w := Written(f, from, |f|);
    PadRounds(0, w);
    forall a | from <= a < Min(w + Pad(w), |f|) && a % 4 == 0
      ensures !ErasedFrom(f, a)
    {
      BelowRoundedUp(a, w);
      assert f[w - 1] != ERASED;
    }
  }

  lemma BelowRoundedUp(a: nat, w: nat)
    requires a % 4 == 0 && a < w + Pad(w)
    ensures a < w
  {
  }

  /** After a write that failed past its first word, the head is found the same way; without a look, or a first word, it stays. */
  lemma HeadBehindFailure(g: seq<byte>, at: nat, readOk: bool)
    requires at % 4 == 0 && at <= |g|
    ensures var h := HeadAfter(g, at, readOk);
      if readOk && at + 16 <= |g| && HasMagic(g, at) then
        && at + 16 <= h <= |g| && ErasedFrom(g, h) && (h % 4 == 0 || h == |g|)
        && forall a :: at + 16 <= a < h && a % 4 == 0 ==> !ErasedFrom(g, a)
      else h == at
  {
    if readOk && at + 16 <= |g| && HasMagic(g, at) {
      var tail := g[at..];
      FirstClearWord(tail, 16);
      var h := HeadAfter(g, at, readOk);
      assert h == at + Min(WriteHead(tail, 16), |tail|);
      assert forall a :: 0 <= a <= |tail| ==> (ErasedFrom(tail, a) <==> ErasedFrom(g, at + a)) by {
        forall a: nat | a <= |tail|
          ensures ErasedFrom(tail, a) <==> ErasedFrom(g, at + a)
        {
          ErasedTail(g, at, a);
        }
      }
      forall a | at + 16 <= a < h && a % 4 == 0
        ensures !ErasedFrom(g, a)
      {
        assert (a - at) % 4 == 0 && !ErasedFrom(tail, a - at);
        assert ErasedFrom(tail, a - at) <==> ErasedFrom(g, at + (a - at));
      }
    }
  }

  lemma ErasedTail(g: seq<byte>, at: nat, a: nat)
    requires at + a <= |g|
    ensures ErasedFrom(g[at..], a) <==> ErasedFrom(g, at + a)
  {
    assert forall i :: a <= i < |g| - at ==> g[at..][i] == g[at + i];
    if ErasedFrom(g[at..], a) {
      forall i | at + a <= i < |g|
        ensures g[i] == ERASED
      {
        assert g[at..][i - at] == g[i];
      }
    }
  }

  // ---- runs ---------------------------------------------------------------------

  datatype Event = SaveEvent(payload: seq<byte>, faults: Faults) | Reopen

  /** The sector, the journal in memory, and what a load may still answer. */
  datatype World = World(flash: seq<byte>, mem: Mem, allowed: set<Option<seq<byte>>>)

  /**
   `allowed` after a save: only its payload once it completed; its payload besides
   what was allowed if its write failed; nothing of what came before if it failed
   after clearing the sector.
   */
  function Next(crc: Checksum, wd: World, e: Event): World
    requires e.SaveEvent? ==> e.faults.ValidFor(RecordLen(e.payload))
  {
    match e
    case Reopen =>
      var m := Scan(crc, wd.flash);
      World(wd.flash, m, {m.t.last})
    case SaveEvent(p, w) =>
      var o := Save(crc, wd.flash, wd.mem, p, w);
      var kept := if Erases(wd.flash, wd.mem, p, w) then {None} else wd.allowed;
      World(o.flash, o.mem,
            match o.result
            case Saved => {Some(p)}
            case WriteFailed => kept + {Some(p)}
            case _ => wd.allowed)
  }

  /** No payload word reads as the start of a record. */
  ghost predicate MagicFree(p: seq<byte>) {
    forall i: nat :: i < |p| && i % 4 == 0 ==> !HasMagic(p, i)
  }

  /** No checksum in g is fooled by the bytes that landed at `at` when p was being written there. */
  ghost predicate Truthful(crc: Checksum, g: seq<byte>, at: nat, p: seq<byte>) {
    at + 16 <= |g| && HasMagic(g, at) ==>
      NoFalseCheck(crc, g, at) && (ChecksOut(crc, g, at) ==> g[at + 16..EndAt(g, at)] == p)
  }

  /**
   The hypotheses on one event: words land in order, an erase that reports failure
   took no effect, the payload holds no magic at a word offset, and the checksum
   tells the bytes that landed from the ones meant.
   */
  ghost predicate Honest(crc: Checksum, wd: World, e: Event) {
    e.SaveEvent? ==>
      var SaveEvent(p, w) := e;
      && w.ValidFor(RecordLen(p)) && (w.cleared ==> w.erase) && MagicFree(p)
      && Truthful(crc, Save(crc, wd.flash, wd.mem, p, w).flash, WritePos(wd.flash, wd.mem, p, w), p)
  }

  ghost function Run(crc: Checksum, wd: World, es: seq<Event>): World
    requires HonestRun(crc, wd, es)
    decreases |es|
  {
    if es == [] then wd else Run(crc, Next(crc, wd, es[0]), es[1..])
  }

  ghost predicate HonestRun(crc: Checksum, wd: World, es: seq<Event>)
    decreases |es|
  {
    es == [] || (Honest(crc, wd, es[0]) && HonestRun(crc, Next(crc, wd, es[0]), es[1..]))
  }

  /** One more event on a run is that event where the run ends. */
  lemma {:induction false} RunOneMore(crc: Checksum, wd: World, es: seq<Event>, e: Event)
    requires HonestRun(crc, wd, es) && Honest(crc, Run(crc, wd, es), e)
    ensures HonestRun(crc, wd, es + [e]) && Run(crc, wd, es + [e]) == Next(crc, Run(crc, wd, es), e)
    ensures Run(crc, wd, []) == wd
    decreases |es|
  {
    if es == [] {
      assert es + [e] == [e] && [e][1..] == [];
      assert HonestRun(crc, Next(crc, wd, e), []);
      assert HonestRun(crc, wd, [e]);
    } else {
      assert (es + [e])[1..] == es[1..] + [e];
      RunOneMore(crc, Next(crc, wd, es[0]), es[1..], e);
    }
  }

  /** A device that has just opened a sector. */
  function Opened(crc: Checksum, f: seq<byte>): World {
    var m := Scan(crc, f);
    World(f, m, {m.t.last})
  }

  ghost predicate Safe(crc: Checksum, wd: World) {
    && Scan(crc, wd.flash).t.last in wd.allowed
    && wd.mem.t.last in wd.allowed
    && HeadAligned(wd.flash, wd.mem)
    && (ErasedFrom(wd.flash, wd.mem.next) && wd.mem.next + 16 <= |wd.flash| ==>
          var b := Believed(crc, wd.flash, 0, wd.mem.next, START);
          b.Some? && b.value.last in wd.allowed)
  }

  lemma OpenedIsSafe(crc: Checksum, f: seq<byte>)
    ensures Safe(crc, Opened(crc, f))
  {
    ScanNextAtLeast(crc, f, 0, START);
    ScanNextAligned(crc, f, 0, START);
    var m := Scan(crc, f);
    if ErasedFrom(f, m.next) && m.next + 16 <= |f| {
      ScanIsBelieved(crc, f, 0, START);
    }
  }

  /** Erased flash scans empty. */
  lemma ErasedScansEmpty(crc: Checksum, f: seq<byte>)
    requires ErasedFrom(f, 0)
    ensures Scan(crc, f) == Mem(0, START)
  {
  }

  /** A header cut short, or over a body cut short: nothing behind it looks like a record. */
  lemma {:induction false} NoMagicInWreck(crc: Checksum, f: seq<byte>, g: seq<byte>, at: nat, p: seq<byte>, s: u32, k: nat, o: nat)
    requires Cut(crc, f, g, at, p, s, k) && MagicFree(p) && o % 4 == 0 && at + 16 <= o
    ensures Resync(g, o) == -1
    decreases |g| - o
  {
    if o + 16 <= |g| {
      if HasMagic(g, o) {
        assert g[o + 3] != ERASED;
        assert HasMagic(p, o - at - 16);
      }
      NoMagicInWreck(crc, f, g, at, p, s, k, o + 4);
    }
  }

  /** A record cut anywhere past its first word: a scan answers what it answered before, or the payload meant. */
  lemma CutRecordScans(crc: Checksum, f: seq<byte>, g: seq<byte>, at: nat, p: seq<byte>, s: u32, k: nat, b: Tally)
    requires 0 < |p| && MagicFree(p) && 4 <= k && ErasedFrom(f, at) && Cut(crc, f, g, at, p, s, k)
    requires Believed(crc, f, 0, at, START) == Some(b) && Truthful(crc, g, at, p)
    ensures Scan(crc, g).t.last in {b.last, Some(p)}
  {
    ScanArrives(crc, f, g, 0, at, START);
    NoMagicInWreck(crc, f, g, at, p, s, k, at + 16);
    if ChecksOut(crc, g, at) {
      assert LenAt(g, at) == |p|;
      ScanLastRecord(crc, g, at, b);
    }
  }

  /** And a later save, wherever the head was left behind the wreck, is reached believing the same. */
  lemma CutRecordBelieved(crc: Checksum, f: seq<byte>, g: seq<byte>, at: nat, p: seq<byte>, s: u32, k: nat, b: Tally, h: nat)
    requires 0 < |p| && MagicFree(p) && 4 <= k && ErasedFrom(f, at) && Cut(crc, f, g, at, p, s, k)
    requires Believed(crc, f, 0, at, START) == Some(b) && Truthful(crc, g, at, p)
    requires h % 4 == 0 && at + 16 <= h <= at + RecordLen(p)
    ensures var c := Believed(crc, g, 0, h, START); c.Some? && c.value.last in {b.last, Some(p)}
  {
    BelievedThrough(crc, f, g, 0, at, h, START);
    NoMagicInWreck(crc, f, g, at, p, s, k, at + 16);
    if ChecksOut(crc, g, at) && After(g, at) <= h {
      assert LenAt(g, at) == |p|;
      assert Believed(crc, g, h, h, Accept(g, at, b)) == Some(Accept(g, at, b));
    } else {
      assert Believed(crc, g, h, h, GiveUp(g, at, b)) == Some(GiveUp(g, at, b));
    }
  }

  // ---- the run theorem ------------------------------------------------------------

  lemma HeadAfterBounds(g: seq<byte>, at: nat, len: nat)
    requires at % 4 == 0 && len % 4 == 0 && 16 <= len && at + len <= |g| && HasMagic(g, at) && ErasedFrom(g, at + len)
    ensures var h := HeadAfter(g, at, true); h % 4 == 0 && at + 16 <= h <= at + len && ErasedFrom(g, h)
  {
    var tail := g[at..];
    var w := Written(tail, 16, |tail|);
    assert forall i :: len <= i < |tail| ==> tail[i] == ERASED;
    var h := HeadAfter(g, at, true);
    forall i | h <= i < |g|
      ensures g[i] == ERASED
    {
      assert g[i] == tail[i - at];
    }
  }

  /** What a write needs to start from: an erased position a scan arrives at, believing something allowed. */
  ghost predicate Ready(crc: Checksum, f: seq<byte>, m: Mem, p: seq<byte>, r: seq<byte>, b: Tally) {
    && !Refused(crc, |f|, p) && MagicFree(p) && IsRecord(crc, r, p, NextSeq(m.t.seqNo))
    && m.next % 4 == 0 && m.next + |r| <= |f| && ErasedFrom(f, m.next)
    && Believed(crc, f, 0, m.next, START) == Some(b)
  }

  /** A journal whose head is where a scan of the sector ends is safe with what that scan loads. */
  lemma SafeAtScanEnd(crc: Checksum, g: seq<byte>, m: Mem, allowed: set<Option<seq<byte>>>)
    requires HeadAligned(g, m) && Scan(crc, g).next == m.next
    requires Scan(crc, g).t.last in allowed && m.t.last in allowed
    ensures Safe(crc, World(g, m, allowed))
  {
    if ErasedFrom(g, m.next) && m.next + 16 <= |g| {
      ScanIsBelieved(crc, g, 0, START);
    }
  }

  /** A write that went through. */
  lemma WholeIsSafe(crc: Checksum, f: seq<byte>, g: seq<byte>, at: nat, p: seq<byte>, s: u32, b: Tally, m: Mem)
    requires 0 < |p| && ErasedFrom(f, at) && Cut(crc, f, g, at, p, s, RecordLen(p))
    requires Believed(crc, f, 0, at, START) == Some(b) && NoFalseCheck(crc, g, at)
    requires m.next == at + RecordLen(p) && m.t.last == Some(p)
    ensures Safe(crc, World(g, m, {Some(p)}))
  {
    WholeRecordScans(crc, f, g, at, p, s, b);
    SumAligned(at, RecordLen(p));
    SafeAtScanEnd(crc, g, m, {Some(p)});
  }

  /** A write that failed past its first word. */
  lemma CutIsSafe(crc: Checksum, f: seq<byte>, g: seq<byte>, at: nat, p: seq<byte>, s: u32, k: nat, b: Tally, m: Mem,
                  headRead: bool, allowed: set<Option<seq<byte>>>)
    requires 0 < |p| && MagicFree(p) && 4 <= k && ErasedFrom(f, at) && Cut(crc, f, g, at, p, s, k)
    requires Believed(crc, f, 0, at, START) == Some(b) && Truthful(crc, g, at, p)
    requires b.last in allowed && m.t.last in allowed && m.next == HeadAfter(g, at, headRead)
    ensures Safe(crc, World(g, m, allowed + {Some(p)}))
  {
    HeadAfterAligned(g, at, headRead);
    CutRecordScans(crc, f, g, at, p, s, k, b);
    assert g[at] != ERASED;
    if headRead {
      HeadAfterBounds(g, at, RecordLen(p));
      CutRecordBelieved(crc, f, g, at, p, s, k, b, m.next);
    }
  }

  lemma AtLeastOneWord(k: nat)
    requires k % 4 == 0 && k != 0
    ensures 4 <= k
  {
  }

  /** A write of which nothing landed leaves the sector and the head where they were. */
  lemma NothingLanded(crc: Checksum, f: seq<byte>, m: Mem, p: seq<byte>, r: seq<byte>, erased: bool, w: Faults)
    requires m.next + |r| <= |f| && ErasedFrom(f, m.next) && w.ValidFor(|r|) && !w.written && w.landed == 0
    ensures var o := Append(f, m, p, r, erased, w); o.flash == f && o.mem.next == m.next
  {
    assert Program(f, m.next, r, 0) == f;
    assert !HasMagic(f, m.next);
  }

  lemma FailedIsSafe(crc: Checksum, f: seq<byte>, m: Mem, p: seq<byte>, r: seq<byte>, erased: bool, w: Faults, b: Tally,
                     allowed: set<Option<seq<byte>>>)
    requires Ready(crc, f, m, p, r, b) && w.ValidFor(|r|) && !w.written
    requires b.last in allowed && Scan(crc, f).t.last in allowed && (if erased then None else m.t.last) in allowed
    requires Truthful(crc, Append(f, m, p, r, erased, w).flash, m.next, p)
    ensures var o := Append(f, m, p, r, erased, w); Safe(crc, World(o.flash, o.mem, allowed + {Some(p)}))
  {
    var o := Append(f, m, p, r, erased, w);
    if w.landed == 0 {
      NothingLanded(crc, f, m, p, r, erased, w);
    } else {
      Landed(crc, f, m.next, r, p, NextSeq(m.t.seqNo), w.landed);
      AtLeastOneWord(w.landed);
      CutIsSafe(crc, f, o.flash, m.next, p, NextSeq(m.t.seqNo), w.landed, b, o.mem, w.headRead, allowed);
    }
  }

  lemma WriteIsSafe(crc: Checksum, f: seq<byte>, m: Mem, p: seq<byte>, r: seq<byte>, erased: bool, w: Faults, b: Tally,
                    allowed: set<Option<seq<byte>>>)
    requires Ready(crc, f, m, p, r, b) && w.ValidFor(|r|)
    requires b.last in allowed && Scan(crc, f).t.last in allowed && (if erased then None else m.t.last) in allowed
    requires Truthful(crc, Append(f, m, p, r, erased, w).flash, m.next, p)
    ensures var o := Append(f, m, p, r, erased, w);
      Safe(crc, World(o.flash, o.mem, if w.written then {Some(p)} else allowed + {Some(p)}))
  {
    if w.written {
      var o := Append(f, m, p, r, erased, w);
      Landed(crc, f, m.next, r, p, NextSeq(m.t.seqNo), w.landed);
      WholeIsSafe(crc, f, o.flash, m.next, p, NextSeq(m.t.seqNo), b, o.mem);
    } else {
      FailedIsSafe(crc, f, m, p, r, erased, w, b, allowed);
    }
  }

  /** The save that gets as far as its write. */
  lemma SaveIsSafe(crc: Checksum, wd: World, p: seq<byte>, w: Faults)
    requires Safe(crc, wd) && Honest(crc, wd, SaveEvent(p, w))
    requires Save(crc, wd.flash, wd.mem, p, w).result in {Saved, WriteFailed}
    ensures Safe(crc, Next(crc, wd, SaveEvent(p, w)))
  {
    var f1, m1, r := SaveUnfolds(crc, wd.flash, wd.mem, p, w);
    if Erases(wd.flash, wd.mem, p, w) {
      ErasedScansEmpty(crc, f1);
      assert m1.next == 0 && Believed(crc, f1, 0, 0, START) == Some(START);
      WriteIsSafe(crc, f1, m1, p, r, true, w, START, {None});
    } else {
      assert ErasedFrom(wd.flash, wd.mem.next) && wd.mem.next + 16 <= |wd.flash|;
      var b := Believed(crc, wd.flash, 0, wd.mem.next, START);
      assert b.Some? && b.value.last in wd.allowed;
      WriteIsSafe(crc, f1, m1, p, r, false, w, b.value, wd.allowed);
    }
  }

  /** One event keeps a safe world safe. */
  lemma NextIsSafe(crc: Checksum, wd: World, e: Event)
    requires Safe(crc, wd) && Honest(crc, wd, e)
    ensures Safe(crc, Next(crc, wd, e))
  {
    if e == Reopen {
      OpenedIsSafe(crc, wd.flash);
    } else {
      var o := Save(crc, wd.flash, wd.mem, e.payload, e.faults);
      if o.result in {Saved, WriteFailed} {
        SaveIsSafe(crc, wd, e.payload, e.faults);
      } else {
        assert Next(crc, wd, e) == wd;
      }
    }
  }

  lemma {:induction false} RunIsSafe(crc: Checksum, wd: World, es: seq<Event>)
    requires Safe(crc, wd) && HonestRun(crc, wd, es)
    ensures Safe(crc, Run(crc, wd, es))
    decreases |es|
  {
    if es != [] {
      NextIsSafe(crc, wd, es[0]);
      RunIsSafe(crc, Next(crc, wd, es[0]), es[1..]);
    }
  }

  /**
   From any sector contents, over any run of saves, failed writes, resets and
   reopens: what a reopen loads is the save completed last, or one whose write
   failed since; nothing only if the sector held nothing or a failed save cleared it.
   */
  lemma LoadAfterReopen(crc: Checksum, f: seq<byte>, es: seq<Event>)
    requires HonestRun(crc, Opened(crc, f), es)
    ensures var wd := Run(crc, Opened(crc, f), es);
      Next(crc, wd, Reopen).mem.t.last in wd.allowed && wd.mem.t.last in wd.allowed
  {
    OpenedIsSafe(crc, f);
    RunIsSafe(crc, Opened(crc, f), es);
  }

  /** A completed save, and then one cut short by a reset: the reopen loads one of the two, or nothing if the second had erased. */
  lemma CompletedSaveSurvivesReset(crc: Checksum, wd: World, p: seq<byte>, v: Faults, q: seq<byte>, w: Faults)
    requires Safe(crc, wd) && Honest(crc, wd, SaveEvent(p, v))
    requires Save(crc, wd.flash, wd.mem, p, v).result == Saved
    requires Honest(crc, Next(crc, wd, SaveEvent(p, v)), SaveEvent(q, w))
    requires var wd1 := Next(crc, wd, SaveEvent(p, v)); Save(crc, wd1.flash, wd1.mem, q, w).result == WriteFailed
    ensures var wd1 := Next(crc, wd, SaveEvent(p, v));
      var loaded := Scan(crc, Save(crc, wd1.flash, wd1.mem, q, w).flash).t.last;
      if Erases(wd1.flash, wd1.mem, q, w) then loaded in {None, Some(q)} else loaded in {Some(p), Some(q)}
  {
    hide Save, Scan, Erases, Truthful, MagicFree, HeadAligned, Believed;
    NextIsSafe(crc, wd, SaveEvent(p, v));
    NextIsSafe(crc, Next(crc, wd, SaveEvent(p, v)), SaveEvent(q, w));
  }

  // ---- a sector only this journal wrote --------------------------------------------

  /** Nothing is written beyond the head, and a scan arrives at it, or ends there if it is the odd end of the sector. */
  ghost predicate Tidy(crc: Checksum, f: seq<byte>, m: Mem) {
    && HeadAligned(f, m) && ErasedFrom(f, m.next)
    && (if m.next % 4 == 0 then Believed(crc, f, 0, m.next, START).Some? else Scan(crc, f).next == m.next)
  }

  lemma {:induction false} BelievedScanEndsErased(crc: Checksum, f: seq<byte>, off: nat, at: nat, t: Tally)
    requires off % 4 == 0 && at % 4 == 0 && off <= at <= |f|
    requires Believed(crc, f, off, at, t).Some? && ErasedFrom(f, at)
    ensures ErasedFrom(f, ScanFrom(crc, f, off, t).next)
    decreases at - off
  {
    if off != at {
      var s := StepTo(crc, f, off, at, t).value;
      if ChecksOut(crc, f, off) && After(f, off) > at {
        assert ScanFrom(crc, f, After(f, off), Accept(f, off, t)).next == Min(After(f, off), |f|);
      } else if ChecksOut(crc, f, off) || Resync(f, off + 16) >= 0 {
        BelievedScanEndsErased(crc, f, s.0, at, s.1);
      }
    }
  }

  lemma ReopenKeepsTidy(crc: Checksum, f: seq<byte>, m: Mem)
    requires Tidy(crc, f, m)
    ensures Tidy(crc, f, Scan(crc, f))
  {
    ScanNextAtLeast(crc, f, 0, START);
    ScanNextAligned(crc, f, 0, START);
    if m.next % 4 == 0 {
      BelievedScanEndsErased(crc, f, 0, m.next, START);
    }
    if Scan(crc, f).next % 4 == 0 {
      ScanIsBelieved(crc, f, 0, START);
    }
  }

  lemma CutKeepsTidy(crc: Checksum, f: seq<byte>, g: seq<byte>, at: nat, p: seq<byte>, s: u32, k: nat, b: Tally, m: Mem)
    requires 0 < |p| && MagicFree(p) && 4 <= k && ErasedFrom(f, at) && Cut(crc, f, g, at, p, s, k)
    requires Believed(crc, f, 0, at, START) == Some(b) && Truthful(crc, g, at, p)
    requires m.next == HeadAfter(g, at, true) || (k == RecordLen(p) && m.next == at + k)
    ensures Tidy(crc, g, m)
  {
    SumAligned(at, RecordLen(p));
    HeadAfterBounds(g, at, RecordLen(p));
    hide HeadAfter, Believed, ChecksOut, SeqAt, MagicFree, NoFalseCheck;
    CutRecordBelieved(crc, f, g, at, p, s, k, b, m.next);
  }

  lemma WriteKeepsTidy(crc: Checksum, f: seq<byte>, m: Mem, p: seq<byte>, r: seq<byte>, erased: bool, w: Faults, b: Tally)
    requires Ready(crc, f, m, p, r, b) && w.ValidFor(|r|) && w.headRead
    requires Truthful(crc, Append(f, m, p, r, erased, w).flash, m.next, p)
    ensures var o := Append(f, m, p, r, erased, w); Tidy(crc, o.flash, o.mem)
  {
    var o := Append(f, m, p, r, erased, w);
    if w.landed == 0 {
      assert !w.written;
      NothingLanded(crc, f, m, p, r, erased, w);
    } else {
      Landed(crc, f, m.next, r, p, NextSeq(m.t.seqNo), w.landed);
      AtLeastOneWord(w.landed);
      CutKeepsTidy(crc, f, o.flash, m.next, p, NextSeq(m.t.seqNo), w.landed, b, o.mem);
    }
  }

  /** While reads work, one event leaves a tidy sector tidy, and erases only when the record does not fit. */
  lemma NextKeepsTidy(crc: Checksum, wd: World, e: Event)
    requires Tidy(crc, wd.flash, wd.mem) && Honest(crc, wd, e)
    requires e.SaveEvent? ==> e.faults.tailRead && e.faults.headRead
    ensures var wd1 := Next(crc, wd, e); Tidy(crc, wd1.flash, wd1.mem)
    ensures e.SaveEvent? ==>
              (Erases(wd.flash, wd.mem, e.payload, e.faults) <==> wd.mem.next + RecordLen(e.payload) > |wd.flash|)
  {
    if e == Reopen {
      ReopenKeepsTidy(crc, wd.flash, wd.mem);
    } else if Save(crc, wd.flash, wd.mem, e.payload, e.faults).result in {Saved, WriteFailed} {
      var f1, m1, r := SaveUnfolds(crc, wd.flash, wd.mem, e.payload, e.faults);
      RoomAligned(wd.flash, wd.mem, m1.next, |r|);
      var b := Believed(crc, f1, 0, m1.next, START);
      WriteKeepsTidy(crc, f1, m1, e.payload, r, Erases(wd.flash, wd.mem, e.payload, e.faults), e.faults, b.value);
    }
  }

  predicate ReadsWork(es: seq<Event>) {
    forall i :: 0 <= i < |es| && es[i].SaveEvent? ==> es[i].faults.tailRead && es[i].faults.headRead
  }

  /** Starting from erased flash, every journal ever reached has only erased flash beyond its head. */
  lemma {:induction false} RunKeepsTidy(crc: Checksum, wd: World, es: seq<Event>)
    requires Tidy(crc, wd.flash, wd.mem) && HonestRun(crc, wd, es) && ReadsWork(es)
    ensures var wd1 := Run(crc, wd, es); Tidy(crc, wd1.flash, wd1.mem)
    decreases |es|
  {
    if es != [] {
      NextKeepsTidy(crc, wd, es[0]);
      RunKeepsTidy(crc, Next(crc, wd, es[0]), es[1..]);
    }
  }
}
