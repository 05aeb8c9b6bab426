/**
 How far the journal in memory agrees with a rescan of the flash: after any run,
 a save that completes agrees on everything but the torn headers, which a failed
 write leaves on the flash without counting them.
 */
module Rescan {
  import opened Bytes
  import opened Journal
  import opened CrashSafety

  // ---- torn headers that nobody counted ----------------------------------------

  /** The header at `at` is one that a scan will give up on once a record is put at `next`. */
  predicate LeftTorn(crc: Checksum, g: seq<byte>, at: nat, next: nat) {
    at + 16 <= |g| && HasMagic(g, at) && !(ChecksOut(crc, g, at) && After(g, at) <= next)
  }

  /** The torn headers failed writes have left since the sector was last erased or opened. */
  function WrecksAfter(crc: Checksum, wd: World, e: Event, wrecks: nat): nat
    requires e.SaveEvent? ==> e.faults.ValidFor(RecordLen(e.payload))
  {
    match e
    case Reopen => 0
    case SaveEvent(p, w) =>
      var o := Save(crc, wd.flash, wd.mem, p, w);
      var before := if Erases(wd.flash, wd.mem, p, w) then 0 else wrecks;
      match o.result
      case Saved => before
      case WriteFailed => before + (if LeftTorn(crc, o.flash, WritePos(wd.flash, wd.mem, p, w), o.mem.next) then 1 else 0)
      case _ => wrecks
  }

  ghost function Wrecks(crc: Checksum, wd: World, es: seq<Event>, wrecks: nat): nat
    requires HonestRun(crc, wd, es)
    decreases |es|
  {
    if es == [] then wrecks
    else Wrecks(crc, Next(crc, wd, es[0]), es[1..], WrecksAfter(crc, wd, es[0], wrecks))
  }

  // ---- what a scan will have concluded at the head ----------------------------------

  /** A scan that arrives at the head has concluded what is counted in memory, and that many torn headers more. */
  predicate Ahead(b: Tally, t: Tally, wrecks: nat) {
    b.blank == t.blank && b.torn == t.torn + wrecks && b.seqNo <= NextSeq(t.seqNo)
  }

  ghost predicate Tracks(crc: Checksum, f: seq<byte>, m: Mem, wrecks: nat) {
    && m.t.seqNo < ALL_ONES
    && (ErasedFrom(f, m.next) && m.next + 16 <= |f| ==>
          m.next % 4 == 0
          && var b := Believed(crc, f, 0, m.next, START);
            b.Some? && Ahead(b.value, m.t, wrecks))
  }

  /** What a write starts from: an erased position a scan arrives at, that far ahead of the journal. */
  ghost predicate Poised(crc: Checksum, f: seq<byte>, m: Mem, p: seq<byte>, r: seq<byte>, b: Tally, wrecks: nat) {
    && Ready(crc, f, m, p, r, b) && m.t.seqNo < ALL_ONES && Ahead(b, m.t, wrecks)
  }

  lemma CounterCatchesUp(b: u32, s: u32, claimed: u32, proven: bool)
    requires s < ALL_ONES && b <= NextSeq(s) && claimed in {NextSeq(s), ALL_ONES}
    ensures KeepSeq(b, claimed, proven) <= NextSeq(s)
    ensures proven && claimed == NextSeq(s) ==> KeepSeq(b, claimed, proven) == NextSeq(s)
  {
  }

  /** A journal whose head is where a scan ends, with that many torn headers more. */
  lemma TracksAtScanEnd(crc: Checksum, g: seq<byte>, m: Mem, wrecks: nat)
    requires Scan(crc, g).next == m.next && Ahead(Scan(crc, g).t, m.t, wrecks) && m.t.seqNo < ALL_ONES
    ensures Tracks(crc, g, m, wrecks)
  {
    if ErasedFrom(g, m.next) && m.next + 16 <= |g| {
      ScanIsBelieved(crc, g, 0, START);
    }
  }

  lemma OpenedTracks(crc: Checksum, f: seq<byte>)
    ensures Tracks(crc, f, Scan(crc, f), 0)
  {
    ScanSeqBounded(crc, f);
    hide Scan;
    TracksAtScanEnd(crc, f, Scan(crc, f), 0);
  }

  /** What the next open finds of a journal that agrees but for that many torn headers. */
  function Recounted(m: Mem, wrecks: nat): Mem {
    m.(t := m.t.(torn := m.t.torn + wrecks))
  }

  /** A write that completes is found by the scan, which then agrees but for the torn headers. */
  lemma WholeRescans(crc: Checksum, f: seq<byte>, m: Mem, p: seq<byte>, r: seq<byte>, erased: bool, w: Faults, b: Tally, wrecks: nat)
    requires Poised(crc, f, m, p, r, b, wrecks) && w.ValidFor(|r|) && w.written
    requires NoFalseCheck(crc, Append(f, m, p, r, erased, w).flash, m.next)
    ensures var o := Append(f, m, p, r, erased, w);
      Scan(crc, o.flash) == Recounted(o.mem, wrecks) && o.mem.t.seqNo == NextSeq(m.t.seqNo)
  {
    var g := Append(f, m, p, r, erased, w).flash;
    var s := NextSeq(m.t.seqNo);
    Landed(crc, f, m.next, r, p, s, w.landed);
    hide Program, Scan, Believed, Cut, Believed, NoFalseCheck;
    WholeRecordScans(crc, f, g, m.next, p, s, b);
    CounterCatchesUp(b.seqNo, m.t.seqNo, s, true);
  }

  /** Behind a cut record a scan has concluded the same, and one torn header more unless the cut record checks out. */
  lemma CutTracks(crc: Checksum, f: seq<byte>, g: seq<byte>, at: nat, p: seq<byte>, k: nat, b: Tally, t: Tally, wrecks: nat, h: nat)
    requires 0 < |p| && MagicFree(p) && 4 <= k && ErasedFrom(f, at) && t.seqNo < ALL_ONES
    requires Cut(crc, f, g, at, p, NextSeq(t.seqNo), k)
    requires Believed(crc, f, 0, at, START) == Some(b) && Truthful(crc, g, at, p) && Ahead(b, t, wrecks)
    requires h % 4 == 0 && at + 16 <= h <= at + RecordLen(p)
    ensures var c := Believed(crc, g, 0, h, START);
      c.Some? && Ahead(c.value, t, wrecks + (if LeftTorn(crc, g, at, h) then 1 else 0))
  {
    BelievedThrough(crc, f, g, 0, at, h, START);
    NoMagicInWreck(crc, f, g, at, p, NextSeq(t.seqNo), k, at + 16);
    CounterCatchesUp(b.seqNo, t.seqNo, SeqAt(g, at), true);
    CounterCatchesUp(b.seqNo, t.seqNo, SeqAt(g, at), false);
    if ChecksOut(crc, g, at) && After(g, at) <= h {
      assert LenAt(g, at) == |p|;
      assert Believed(crc, g, h, h, Accept(g, at, b)) == Some(Accept(g, at, b));
    } else {
      assert Believed(crc, g, h, h, GiveUp(g, at, b)) == Some(GiveUp(g, at, b));
    }
  }

  /** A write that fails, wherever it stopped. */
  lemma FailedTracks(crc: Checksum, f: seq<byte>, m: Mem, p: seq<byte>, r: seq<byte>, erased: bool, w: Faults, b: Tally, wrecks: nat)
    requires Poised(crc, f, m, p, r, b, wrecks) && w.ValidFor(|r|) && !w.written
    requires Truthful(crc, Append(f, m, p, r, erased, w).flash, m.next, p)
    ensures var o := Append(f, m, p, r, erased, w);
      Tracks(crc, o.flash, o.mem, wrecks + (if LeftTorn(crc, o.flash, m.next, o.mem.next) then 1 else 0))
  {
    var o := Append(f, m, p, r, erased, w);
    if w.landed == 0 {
      NothingLanded(crc, f, m, p, r, erased, w);
      assert !HasMagic(f, m.next);
    } else {
      Landed(crc, f, m.next, r, p, NextSeq(m.t.seqNo), w.landed);
      AtLeastOneWord(w.landed);
      assert o.flash[m.next] != ERASED;
      if w.headRead {
        HeadAfterBounds(o.flash, m.next, RecordLen(p));
        CutTracks(crc, f, o.flash, m.next, p, w.landed, b, m.t, wrecks, o.mem.next);
      }
    }
  }

  /** A save that gets as far as its write starts poised, with the torn headers of an erased sector forgotten. */
  lemma PoisedToWrite(crc: Checksum, wd: World, p: seq<byte>, w: Faults, wrecks: nat)
    returns (f1: seq<byte>, m1: Mem, r: seq<byte>, b: Tally)
    requires Safe(crc, wd) && Tracks(crc, wd.flash, wd.mem, wrecks) && Honest(crc, wd, SaveEvent(p, w))
    requires Save(crc, wd.flash, wd.mem, p, w).result in {Saved, WriteFailed}
    ensures var erased := Erases(wd.flash, wd.mem, p, w);
      && Poised(crc, f1, m1, p, r, b, if erased then 0 else wrecks)
      && m1.next == WritePos(wd.flash, wd.mem, p, w) && w.ValidFor(|r|)
      && Save(crc, wd.flash, wd.mem, p, w) == Append(f1, m1, p, r, erased, w)
  {
    f1, m1, r := SaveUnfolds(crc, wd.flash, wd.mem, p, w);
    if Erases(wd.flash, wd.mem, p, w) {
      b := START;
      assert m1.next == 0 && Believed(crc, f1, 0, 0, START) == Some(START);
    } else {
      b := Believed(crc, wd.flash, 0, wd.mem.next, START).value;
      RoomAligned(wd.flash, wd.mem, m1.next, |r|);
    }
  }

  lemma NextNumber(s: u32)
    requires s < ALL_ONES
    ensures NextSeq(s) < ALL_ONES && NextSeq(s) <= NextSeq(NextSeq(s))
  {
  }

  lemma SavedTracks(crc: Checksum, wd: World, p: seq<byte>, w: Faults, wrecks: nat)
    requires Safe(crc, wd) && Tracks(crc, wd.flash, wd.mem, wrecks) && Honest(crc, wd, SaveEvent(p, w))
    requires Save(crc, wd.flash, wd.mem, p, w).result == Saved
    ensures var o := Save(crc, wd.flash, wd.mem, p, w); var n := WrecksAfter(crc, wd, SaveEvent(p, w), wrecks);
      Scan(crc, o.flash) == Recounted(o.mem, n) && Tracks(crc, o.flash, o.mem, n)
  {
    var erased := Erases(wd.flash, wd.mem, p, w);
    var f1, m1, r, b := PoisedToWrite(crc, wd, p, w, wrecks);
    var n := if erased then 0 else wrecks;
    var o := Save(crc, wd.flash, wd.mem, p, w);
    LandsTruly(crc, f1, m1, p, r, erased, w);
    hide Save, Erases, Scan, Tracks, Ready, Truthful, NoFalseCheck;
    WholeRescans(crc, f1, m1, p, r, erased, w, b, n);
    NextNumber(m1.t.seqNo);
    TracksAtScanEnd(crc, o.flash, o.mem, n);
  }

  /** What landed whole has its magic, so the checksum's honesty speaks of it. */
  lemma LandsTruly(crc: Checksum, f: seq<byte>, m: Mem, p: seq<byte>, r: seq<byte>, erased: bool, w: Faults)
    requires !Refused(crc, |f|, p) && IsRecord(crc, r, p, NextSeq(m.t.seqNo)) && w.ValidFor(|r|) && w.written
    requires m.next % 4 == 0 && m.next + |r| <= |f| && ErasedFrom(f, m.next)
    requires Truthful(crc, Append(f, m, p, r, erased, w).flash, m.next, p)
    ensures NoFalseCheck(crc, Append(f, m, p, r, erased, w).flash, m.next)
  {
    Landed(crc, f, m.next, r, p, NextSeq(m.t.seqNo), w.landed);
  }

  lemma FailedNext(crc: Checksum, wd: World, p: seq<byte>, w: Faults, wrecks: nat)
    requires Safe(crc, wd) && Tracks(crc, wd.flash, wd.mem, wrecks) && Honest(crc, wd, SaveEvent(p, w))
    requires Save(crc, wd.flash, wd.mem, p, w).result == WriteFailed
    ensures var o := Save(crc, wd.flash, wd.mem, p, w);
      Tracks(crc, o.flash, o.mem, WrecksAfter(crc, wd, SaveEvent(p, w), wrecks))
  {
    var erased := Erases(wd.flash, wd.mem, p, w);
    var f1, m1, r, b := PoisedToWrite(crc, wd, p, w, wrecks);
    hide Save, Erases, Tracks, Poised, LeftTorn, Truthful;
    FailedTracks(crc, f1, m1, p, r, erased, w, b, if erased then 0 else wrecks);
  }

  /** A save that did not get as far as its write leaves the sector and the journal alone. */
  lemma UntriedChangesNothing(crc: Checksum, wd: World, p: seq<byte>, w: Faults, wrecks: nat)
    requires Honest(crc, wd, SaveEvent(p, w)) && Save(crc, wd.flash, wd.mem, p, w).result !in {Saved, WriteFailed}
    ensures var o := Save(crc, wd.flash, wd.mem, p, w);
      o.flash == wd.flash && o.mem == wd.mem && WrecksAfter(crc, wd, SaveEvent(p, w), wrecks) == wrecks
  {
    hide Truthful, MagicFree;
  }

  lemma NextTracks(crc: Checksum, wd: World, e: Event, wrecks: nat)
    requires Safe(crc, wd) && Tracks(crc, wd.flash, wd.mem, wrecks) && Honest(crc, wd, e)
    ensures var wd1 := Next(crc, wd, e); Tracks(crc, wd1.flash, wd1.mem, WrecksAfter(crc, wd, e, wrecks))
  {
    if e == Reopen {
      OpenedTracks(crc, wd.flash);
    } else {
      var p, w := e.payload, e.faults;
      var result := Save(crc, wd.flash, wd.mem, p, w).result;
      if result == Saved {
        SavedTracks(crc, wd, p, w, wrecks);
      } else if result == WriteFailed {
        FailedNext(crc, wd, p, w, wrecks);
      } else {
        UntriedChangesNothing(crc, wd, p, w, wrecks);
      }
      hide Save, Tracks, Safe, WrecksAfter, Truthful, Scan;
    }
  }

  lemma {:induction false} RunTracks(crc: Checksum, wd: World, es: seq<Event>, wrecks: nat)
    requires Safe(crc, wd) && Tracks(crc, wd.flash, wd.mem, wrecks) && HonestRun(crc, wd, es)
    ensures var wd1 := Run(crc, wd, es); Safe(crc, wd1) && Tracks(crc, wd1.flash, wd1.mem, Wrecks(crc, wd, es, wrecks))
    decreases |es|
  {
    hide Safe, Tracks, Truthful, MagicFree, Save, WrecksAfter;
    if es != [] {
      NextIsSafe(crc, wd, es[0]);
      NextTracks(crc, wd, es[0], wrecks);
      RunTracks(crc, Next(crc, wd, es[0]), es[1..], WrecksAfter(crc, wd, es[0], wrecks));
    }
  }

  /**
   From any sector contents, after any run, a save that completes: the next open
   finds the same head, number, payload and blank count, and as many more torn
   headers as failed writes have left since the sector was last erased or opened.
   So the two agree entirely if and only if there is no such header.
   */
  lemma SaveMatchesRescan(crc: Checksum, f: seq<byte>, es: seq<Event>, p: seq<byte>, w: Faults)
    requires HonestRun(crc, Opened(crc, f), es)
    requires var wd := Run(crc, Opened(crc, f), es);
      Honest(crc, wd, SaveEvent(p, w)) && Save(crc, wd.flash, wd.mem, p, w).result == Saved
    ensures var wd := Run(crc, Opened(crc, f), es);
      var o := Save(crc, wd.flash, wd.mem, p, w);
      var n := WrecksAfter(crc, wd, SaveEvent(p, w), Wrecks(crc, Opened(crc, f), es, 0));
      var found := Scan(crc, o.flash);
      && o.mem.t.last == Some(p)
      && found.next == o.mem.next && found.t.seqNo == o.mem.t.seqNo && found.t.last == o.mem.t.last
      && found.t.blank == o.mem.t.blank && found.t.torn == o.mem.t.torn + n
      && (found == o.mem <==> n == 0)
  {
    OpenedIsSafe(crc, f);
    OpenedTracks(crc, f);
    RunTracks(crc, Opened(crc, f), es, 0);
    var wd := Run(crc, Opened(crc, f), es);
    SavedTracks(crc, wd, p, w, Wrecks(crc, Opened(crc, f), es, 0));
    SavedIsLast(crc, wd.flash, wd.mem, p, w);
    hide Run, HonestRun, Honest, Scan, Wrecks, WrecksAfter, Save;
  }

  lemma SavedIsLast(crc: Checksum, f: seq<byte>, m: Mem, p: seq<byte>, w: Faults)
    requires w.ValidFor(RecordLen(p)) && Save(crc, f, m, p, w).result == Saved
    ensures Save(crc, f, m, p, w).mem.t.last == Some(p)
  {
  }

  // ---- numbers are not used twice -------------------------------------------------

  /** A scan that gives up on a header, or takes it, has counted the number it carries, if that was the next. */
  lemma HeaderIsCounted(crc: Checksum, g: seq<byte>, at: nat, b: Tally)
    requires at % 4 == 0 && at + 16 <= |g| && HasMagic(g, at) && Resync(g, at + 16) == -1
    requires SeqAt(g, at) == b.seqNo + 1 < ALL_ONES || SeqAt(g, at) == b.seqNo
    requires ChecksOut(crc, g, at) ==> LenAt(g, at) > 0 && ErasedFrom(g, After(g, at))
    ensures ScanFrom(crc, g, at, b).t.seqNo == SeqAt(g, at)
  {
    if ChecksOut(crc, g, at) {
      assert ScanFrom(crc, g, After(g, at), Accept(g, at, b)).t == Accept(g, at, b);
    }
  }

  /** Nothing past the header of a wreck that checks out is written. */
  lemma TakenWreckIsLast(crc: Checksum, f: seq<byte>, g: seq<byte>, at: nat, p: seq<byte>, s: u32, k: nat)
    requires 0 < |p| && Cut(crc, f, g, at, p, s, k) && 8 <= k && Truthful(crc, g, at, p)
    ensures at + 16 <= |g| && HasMagic(g, at) && SeqAt(g, at) == s
    ensures ChecksOut(crc, g, at) ==> LenAt(g, at) > 0 && ErasedFrom(g, After(g, at))
  {
    hide SeqAt, Get32, NoFalseCheck;
    if ChecksOut(crc, g, at) {
      assert |g[at + 16..EndAt(g, at)]| == |p|;
    }
  }

  lemma WreckIsCounted(crc: Checksum, f: seq<byte>, g: seq<byte>, at: nat, p: seq<byte>, s: u32, k: nat, b: Tally)
    requires 0 < |p| && MagicFree(p) && ErasedFrom(f, at) && Cut(crc, f, g, at, p, s, k) && 8 <= k
    requires Believed(crc, f, 0, at, START) == Some(b) && Truthful(crc, g, at, p)
    requires s == b.seqNo + 1 < ALL_ONES || s == b.seqNo
    ensures at + 16 <= |g| && HasMagic(g, at) && SeqAt(g, at) == s && Scan(crc, g).t.seqNo == s
  {
    TakenWreckIsLast(crc, f, g, at, p, s, k);
    NoMagicInWreck(crc, f, g, at, p, s, k, at + 16);
    HeaderIsCounted(crc, g, at, b);
    assert Extends(crc, f, g, at);
    hide ChecksOut, SeqAt, HasMagic, NoFalseCheck, ScanFrom, Believed;
    ScanArrives(crc, f, g, 0, at, START);
  }

  /** A scan that arrives at the head has met no smaller a number than memory holds, and at most the one after it. */
  ghost predicate Counted(crc: Checksum, f: seq<byte>, m: Mem) {
    && m.t.seqNo < ALL_ONES
    && (ErasedFrom(f, m.next) && m.next + 16 <= |f| ==>
          m.next % 4 == 0
          && var b := Believed(crc, f, 0, m.next, START);
            b.Some? && UpToDate(b.value.seqNo, m.t.seqNo))
  }

  predicate UpToDate(met: u32, held: u32) {
    met == held || met == held + 1 < ALL_ONES
  }

  /** A save that erases does not then fail: memory's number would be nowhere on the sector. */
  ghost predicate LosesNoNumber(crc: Checksum, wd: World, e: Event) {
    e.SaveEvent? && e.faults.ValidFor(RecordLen(e.payload)) && Erases(wd.flash, wd.mem, e.payload, e.faults) ==>
      Save(crc, wd.flash, wd.mem, e.payload, e.faults).result != WriteFailed
  }

  ghost predicate NumberedRun(crc: Checksum, wd: World, es: seq<Event>)
    decreases |es|
  {
    es == [] ||
    (Honest(crc, wd, es[0]) && LosesNoNumber(crc, wd, es[0]) && NumberedRun(crc, Next(crc, wd, es[0]), es[1..]))
  }

  lemma CountedAtScanEnd(crc: Checksum, g: seq<byte>, m: Mem)
    requires Scan(crc, g).next == m.next && Scan(crc, g).t.seqNo == m.t.seqNo < ALL_ONES
    ensures Counted(crc, g, m)
  {
    if ErasedFrom(g, m.next) && m.next + 16 <= |g| {
      ScanIsBelieved(crc, g, 0, START);
    }
  }

  lemma CounterStays(b: u32, s: u32, claimed: u32, proven: bool)
    requires UpToDate(b, s) && s < ALL_ONES && claimed in {NextSeq(s), ALL_ONES}
    ensures UpToDate(KeepSeq(b, claimed, proven), s)
  {
  }

  lemma CutStaysCounted(crc: Checksum, f: seq<byte>, g: seq<byte>, at: nat, p: seq<byte>, k: nat, b: Tally, s: u32, h: nat)
    requires 0 < |p| && MagicFree(p) && 4 <= k && ErasedFrom(f, at) && s < ALL_ONES
    requires Cut(crc, f, g, at, p, NextSeq(s), k)
    requires Believed(crc, f, 0, at, START) == Some(b) && Truthful(crc, g, at, p) && UpToDate(b.seqNo, s)
    requires h % 4 == 0 && at + 16 <= h <= at + RecordLen(p)
    ensures var c := Believed(crc, g, 0, h, START); c.Some? && UpToDate(c.value.seqNo, s)
  {
    BelievedThrough(crc, f, g, 0, at, h, START);
    NoMagicInWreck(crc, f, g, at, p, NextSeq(s), k, at + 16);
    CounterStays(b.seqNo, s, SeqAt(g, at), true);
    CounterStays(b.seqNo, s, SeqAt(g, at), false);
    if ChecksOut(crc, g, at) && After(g, at) <= h {
      assert LenAt(g, at) == |p|;
      assert Believed(crc, g, h, h, Accept(g, at, b)) == Some(Accept(g, at, b));
    } else {
      assert Believed(crc, g, h, h, GiveUp(g, at, b)) == Some(GiveUp(g, at, b));
    }
  }

  lemma FailedStaysCounted(crc: Checksum, f: seq<byte>, m: Mem, p: seq<byte>, r: seq<byte>, w: Faults, b: Tally)
    requires Ready(crc, f, m, p, r, b) && m.t.seqNo < ALL_ONES && UpToDate(b.seqNo, m.t.seqNo)
    requires w.ValidFor(|r|) && !w.written
    requires Truthful(crc, Append(f, m, p, r, false, w).flash, m.next, p)
    ensures var o := Append(f, m, p, r, false, w); Counted(crc, o.flash, o.mem)
  {
    var o := Append(f, m, p, r, false, w);
    if w.landed == 0 {
      NothingLanded(crc, f, m, p, r, false, w);
      assert !HasMagic(f, m.next);
    } else {
      Landed(crc, f, m.next, r, p, NextSeq(m.t.seqNo), w.landed);
      AtLeastOneWord(w.landed);
      assert o.flash[m.next] != ERASED;
      if w.headRead {
        HeadAfterBounds(o.flash, m.next, RecordLen(p));
        CutStaysCounted(crc, f, o.flash, m.next, p, w.landed, b, m.t.seqNo, o.mem.next);
      }
    }
  }

  /** A save that gets as far as its write and does not erase starts from a number the sector holds. */
  lemma CountedToWrite(crc: Checksum, wd: World, p: seq<byte>, w: Faults)
    returns (r: seq<byte>, b: Tally)
    requires Safe(crc, wd) && Counted(crc, wd.flash, wd.mem) && Honest(crc, wd, SaveEvent(p, w))
    requires Save(crc, wd.flash, wd.mem, p, w).result in {Saved, WriteFailed} && !Erases(wd.flash, wd.mem, p, w)
    ensures Ready(crc, wd.flash, wd.mem, p, r, b) && UpToDate(b.seqNo, wd.mem.t.seqNo)
    ensures w.ValidFor(|r|) && WritePos(wd.flash, wd.mem, p, w) == wd.mem.next
    ensures Save(crc, wd.flash, wd.mem, p, w) == Append(wd.flash, wd.mem, p, r, false, w)
  {
    var f1, m1;
    f1, m1, r := SaveUnfolds(crc, wd.flash, wd.mem, p, w);
    b := Believed(crc, wd.flash, 0, wd.mem.next, START).value;
    RoomAligned(wd.flash, wd.mem, m1.next, |r|);
  }

  lemma NextStaysCounted(crc: Checksum, wd: World, e: Event, wrecks: nat)
    requires Safe(crc, wd) && Tracks(crc, wd.flash, wd.mem, wrecks) && Counted(crc, wd.flash, wd.mem)
    requires Honest(crc, wd, e) && LosesNoNumber(crc, wd, e)
    ensures var wd1 := Next(crc, wd, e); Counted(crc, wd1.flash, wd1.mem)
  {
    if e == Reopen {
      ScanSeqBounded(crc, wd.flash);
      hide Scan;
      CountedAtScanEnd(crc, wd.flash, Scan(crc, wd.flash));
    } else {
      var p, w := e.payload, e.faults;
      var o := Save(crc, wd.flash, wd.mem, p, w);
      if o.result == Saved {
        SavedTracks(crc, wd, p, w, wrecks);
        hide Save, Tracks, Safe, Truthful, Scan, Erases, LosesNoNumber;
        CountedAtScanEnd(crc, o.flash, o.mem);
      } else if o.result == WriteFailed {
        var r, b := CountedToWrite(crc, wd, p, w);
        hide Save, Tracks, Safe, Truthful, Scan, Erases, Counted, Append;
        FailedStaysCounted(crc, wd.flash, wd.mem, p, r, w, b);
      } else {
        UntriedChangesNothing(crc, wd, p, w, wrecks);
        hide Save, Tracks, Safe, Truthful, Scan, Erases, Counted;
      }
    }
  }

  lemma {:induction false} RunStaysCounted(crc: Checksum, wd: World, es: seq<Event>, wrecks: nat)
    requires Safe(crc, wd) && Tracks(crc, wd.flash, wd.mem, wrecks) && Counted(crc, wd.flash, wd.mem)
    requires NumberedRun(crc, wd, es)
    ensures HonestRun(crc, wd, es)
    ensures var wd1 := Run(crc, wd, es); Safe(crc, wd1) && Counted(crc, wd1.flash, wd1.mem)
    decreases |es|
  {
    hide Safe, Tracks, Truthful, MagicFree, Save, WrecksAfter, Counted, LosesNoNumber;
    if es != [] {
      NextIsSafe(crc, wd, es[0]);
      NextTracks(crc, wd, es[0], wrecks);
      NextStaysCounted(crc, wd, es[0], wrecks);
      RunStaysCounted(crc, Next(crc, wd, es[0]), es[1..], WrecksAfter(crc, wd, es[0], wrecks));
    }
  }

  /** A number one past the last, which stops short of all ones. */
  lemma NextNumberIs(s: u32)
    requires s < ALL_ONES
    ensures NextSeq(s) == if s + 1 < ALL_ONES then s + 1 else s
  {
  }

  lemma FailedNumberIsCounted(crc: Checksum, wd: World, p: seq<byte>, w: Faults)
    requires Safe(crc, wd) && Counted(crc, wd.flash, wd.mem) && Honest(crc, wd, SaveEvent(p, w))
    requires Save(crc, wd.flash, wd.mem, p, w).result == WriteFailed && !Erases(wd.flash, wd.mem, p, w)
    requires w.landed >= 8
    ensures var g := Save(crc, wd.flash, wd.mem, p, w).flash; var at := wd.mem.next;
      var number := if wd.mem.t.seqNo + 1 < ALL_ONES then wd.mem.t.seqNo + 1 else wd.mem.t.seqNo;
      at + 16 <= |g| && HasMagic(g, at) && SeqAt(g, at) == number && Scan(crc, g).t.seqNo == number
  {
    var r, b := CountedToWrite(crc, wd, p, w);
    var at, s := wd.mem.next, NextSeq(wd.mem.t.seqNo);
    Landed(crc, wd.flash, at, r, p, s, w.landed);
    NextNumberIs(wd.mem.t.seqNo);
    var g := Save(crc, wd.flash, wd.mem, p, w).flash;
    assert Cut(crc, wd.flash, g, at, p, s, w.landed);
    hide Save, Scan, Cut, Truthful, Safe, Counted, Believed, HasMagic, SeqAt, Append, Program, NextSeq, Erases, IsRecord;
    if s == b.seqNo || s == b.seqNo + 1 {
      WreckIsCounted(crc, wd.flash, g, at, p, s, w.landed, b);
    }
  }

  /**
   From any sector contents, after any run in which no save erases and then fails: a
   save cut anywhere past its number leaves a header carrying the number after the
   journal's, and the next open counts that number although the header may prove
   nothing. So the next save that completes carries a larger one.
   */
  lemma WreckedNumberIsCounted(crc: Checksum, f: seq<byte>, es: seq<Event>, p: seq<byte>, w: Faults, q: seq<byte>, v: Faults)
    requires NumberedRun(crc, Opened(crc, f), es) && HonestRun(crc, Opened(crc, f), es)
    requires var wd := Run(crc, Opened(crc, f), es);
      && Honest(crc, wd, SaveEvent(p, w)) && !Erases(wd.flash, wd.mem, p, w)
      && Save(crc, wd.flash, wd.mem, p, w).result == WriteFailed && w.landed >= 8
    requires v.ValidFor(RecordLen(q))
    ensures var wd := Run(crc, Opened(crc, f), es);
      var g := Save(crc, wd.flash, wd.mem, p, w).flash; var at := wd.mem.next; var s := wd.mem.t.seqNo;
      var number := if s + 1 < ALL_ONES then s + 1 else s;
      && at + 16 <= |g| && HasMagic(g, at) && SeqAt(g, at) == number
      && Scan(crc, g).t.seqNo == number
      && var o := Save(crc, g, Scan(crc, g), q, v);
        o.result == Saved && number + 1 < ALL_ONES ==> o.mem.t.seqNo == number + 1
  {
    OpenedIsSafe(crc, f);
    OpenedTracks(crc, f);
    ScanSeqBounded(crc, f);
    CountedAtScanEnd(crc, f, Scan(crc, f));
    RunStaysCounted(crc, Opened(crc, f), es, 0);
    var wd := Run(crc, Opened(crc, f), es);
    hide Save, Scan, Truthful, Safe, Counted, HasMagic, SeqAt, Run, NumberedRun, HonestRun, Tracks, Erases, Honest;
    FailedNumberIsCounted(crc, wd, p, w);
    var g := Save(crc, wd.flash, wd.mem, p, w).flash;
    SaveCounts(crc, g, Scan(crc, g), q, v);
  }

  lemma HeaderAlone(crc: Checksum, g: seq<byte>)
    requires 16 <= |g| && HasMagic(g, 0) && Resync(g, 16) == -1 && 0 < SeqAt(g, 0) < ALL_ONES
    requires ChecksOut(crc, g, 0) ==> LenAt(g, 0) > 0 && ErasedFrom(g, After(g, 0))
    ensures Scan(crc, g).t.seqNo == if ChecksOut(crc, g, 0) then SeqAt(g, 0) else 1
  {
    if ChecksOut(crc, g, 0) {
      assert ScanFrom(crc, g, After(g, 0), Accept(g, 0, START)).t == Accept(g, 0, START);
    }
  }

  /**
   After a save that erased and was then cut past its number the wreck is all there is:
   the next open counts its number if and only if the header checks out all the same,
   or the number is 1. Otherwise the count starts again at 1.
   */
  lemma WreckAfterEraseRestarts(crc: Checksum, wd: World, p: seq<byte>, w: Faults)
    requires Honest(crc, wd, SaveEvent(p, w)) && Erases(wd.flash, wd.mem, p, w) && wd.mem.t.seqNo < ALL_ONES
    requires Save(crc, wd.flash, wd.mem, p, w).result == WriteFailed && w.landed >= 8
    ensures var g := Save(crc, wd.flash, wd.mem, p, w).flash; var s := wd.mem.t.seqNo;
      var number := if s + 1 < ALL_ONES then s + 1 else s;
      && 16 <= |g| && HasMagic(g, 0) && SeqAt(g, 0) == number
      && Scan(crc, g).t.seqNo == (if ChecksOut(crc, g, 0) then number else 1)
      && (Scan(crc, g).t.seqNo == number <==> ChecksOut(crc, g, 0) || number == 1)
  {
    var f1, m1, r := SaveUnfolds(crc, wd.flash, wd.mem, p, w);
    var g, s := Save(crc, wd.flash, wd.mem, p, w).flash, NextSeq(wd.mem.t.seqNo);
    Landed(crc, f1, 0, r, p, s, w.landed);
    NextNumberIs(wd.mem.t.seqNo);
    assert Cut(crc, f1, g, 0, p, s, w.landed) && Truthful(crc, g, 0, p) && MagicFree(p) && 0 < |p|;
    hide Save, Scan, Cut, Truthful, HasMagic, SeqAt, Append, Program, NextSeq, Erases, IsRecord, MagicFree, ChecksOut;
    TakenWreckIsLast(crc, f1, g, 0, p, s, w.landed);
    NoMagicInWreck(crc, f1, g, 0, p, s, w.landed, 16);
    HeaderAlone(crc, g);
  }

  // ---- where it fails ---------------------------------------------------------------

  /** A sector just erased. */
  function Blank(size: nat): World {
    World(Repeat(ERASED, size), Mem(0, START), {None})
  }

  /** A driver that does what it is asked, and one that stops after the first word. */
  function Works(p: seq<byte>): Faults {
    Faults(true, true, true, RecordLen(p), true, true)
  }

  const CUT_SHORT := Faults(true, true, true, 4, false, true)

  lemma HeadBehindMagic(g: seq<byte>)
    requires 16 <= |g| && HasMagic(g, 0) && ErasedFrom(g, 4)
    ensures HeadAfter(g, 0, true) == 16
  {
    assert g[0..] == g;
    assert Written(g, 16, |g|) == 16;
  }

  /** A save where the tail is erased and reads so: the record goes to the head, as far as it lands. */
  lemma CleanSave(crc: Checksum, f: seq<byte>, m: Mem, p: seq<byte>, w: Faults) returns (r: seq<byte>)
    requires !Refused(crc, |f|, p) && w.ValidFor(RecordLen(p)) && w.tailRead
    requires m.next % 4 == 0 && m.next + RecordLen(p) <= |f| && ErasedFrom(f, m.next)
    ensures IsRecord(crc, r, p, NextSeq(m.t.seqNo)) && |r| == RecordLen(p)
    ensures Save(crc, f, m, p, w) == Append(f, m, p, r, false, w) && !Erases(f, m, p, w)
    ensures Cut(crc, f, Program(f, m.next, r, w.landed), m.next, p, NextSeq(m.t.seqNo), w.landed)
  {
    assert !Erases(f, m, p, w);
    var f1, m1;
    f1, m1, r := SaveUnfolds(crc, f, m, p, w);
    hide Save, RecordOf, Program, IsRecord, Cut;
    Landed(crc, f, m.next, r, p, NextSeq(m.t.seqNo), w.landed);
  }

  lemma FirstWordLands(crc: Checksum, size: nat, p: seq<byte>)
    requires !Refused(crc, size, p)
    ensures var o := Save(crc, Repeat(ERASED, size), Mem(0, START), p, CUT_SHORT);
      && o.result == WriteFailed && o.mem == Mem(16, START) && |o.flash| == size
      && HasMagic(o.flash, 0) && ErasedFrom(o.flash, 4)
  {
    hide Save, Erases, Program, HeadAfter, IsRecord, SeqAt, ChecksOut;
    var r := CleanSave(crc, Repeat(ERASED, size), Mem(0, START), p, CUT_SHORT);
    HeadBehindMagic(Program(Repeat(ERASED, size), 0, r, 4));
  }

  /** A header of which only the magic landed proves nothing, and says nothing of the number. */
  lemma OnlyMagic(crc: Checksum, g: seq<byte>)
    requires 36 <= |g| && HasMagic(g, 0) && (forall i :: 4 <= i < 16 ==> g[i] == ERASED) && HasMagic(g, 16)
    ensures ScanStep(crc, g, 0, START) == On(16, START.(torn := 1)) && !Fits(g, 0)
  {
    assert LenAt(g, 0) == 0xffff;
    assert SeqAt(g, 0) == ALL_ONES;
    assert Resync(g, 16) == 16;
  }

  lemma RefusedNot(crc: Checksum, size: nat, p: seq<byte>)
    requires !Refused(crc, size, p)
    ensures 0 < |p| <= MAX_RECORD && RecordLen(p) <= size
  {
  }

  /** A save behind a header of which only the magic landed. */
  lemma SaveBehindMagic(crc: Checksum, f: seq<byte>, p: seq<byte>)
    requires HasMagic(f, 0) && ErasedFrom(f, 4) && !Refused(crc, |f|, p) && 16 + RecordLen(p) <= |f|
    ensures var o := Save(crc, f, Mem(16, START), p, Works(p));
      && o.result == Saved && o.mem == Mem(16 + RecordLen(p), Tally(1, Some(p), 0, 0))
      && AgreeBelow(f, o.flash, 16) && HasMagic(o.flash, 16) && ChecksOut(crc, o.flash, 16)
      && LenAt(o.flash, 16) == |p| && SeqAt(o.flash, 16) == 1 && o.flash[32..EndAt(o.flash, 16)] == p
      && ErasedFrom(o.flash, 16 + RecordLen(p))
  {
    hide Save, Erases, Program, IsRecord, SeqAt, LenAt, ChecksOut, Refused;
    RefusedNot(crc, |f|, p);
    var r := CleanSave(crc, f, Mem(16, START), p, Works(p));
  }

  lemma BehindPayload(g: seq<byte>, p: seq<byte>)
    requires 32 <= |g| && LenAt(g, 16) == |p|
    ensures After(g, 16) == 16 + RecordLen(p) && RecordLen(p) >= 16
  {
  }

  lemma ScansOneTorn(crc: Checksum, f: seq<byte>, g: seq<byte>, p: seq<byte>)
    requires HasMagic(f, 0) && ErasedFrom(f, 4) && AgreeBelow(f, g, 16) && 16 + RecordLen(p) <= |g| && 0 < |p| <= MAX_RECORD
    requires HasMagic(g, 16) && ChecksOut(crc, g, 16) && LenAt(g, 16) == |p| && SeqAt(g, 16) == 1
    requires g[32..EndAt(g, 16)] == p && ErasedFrom(g, 16 + RecordLen(p))
    ensures Scan(crc, g) == Mem(16 + RecordLen(p), Tally(1, Some(p), 1, 0))
  {
    OnlyMagic(crc, g);
    BehindPayload(g, p);
    hide ChecksOut, SeqAt, LenAt, ScanStep, RecordLen, After;
    ScanLastRecord(crc, g, 16, START.(torn := 1));
  }

  /**
   On an erased sector, a save that stops after its first word and then one that
   completes: the journal counts no torn header, the next open counts one, and they
   agree on the rest.
   */
  lemma TornGoesUncounted(crc: Checksum, size: nat, p: seq<byte>)
    requires !Refused(crc, size, p) && 16 + RecordLen(p) <= size
    ensures var o1 := Save(crc, Repeat(ERASED, size), Mem(0, START), p, CUT_SHORT);
      var o2 := Save(crc, o1.flash, o1.mem, p, Works(p));
      && o1.result == WriteFailed && o2.result == Saved
      && o2.mem.t.torn == 0 && Scan(crc, o2.flash) == Recounted(o2.mem, 1)
  {
    FirstWordLands(crc, size, p);
    var o1 := Save(crc, Repeat(ERASED, size), Mem(0, START), p, CUT_SHORT);
    SaveBehindMagic(crc, o1.flash, p);
    hide Save, ChecksOut, SeqAt, LenAt, Scan;
    ScansOneTorn(crc, o1.flash, Save(crc, o1.flash, o1.mem, p, Works(p)).flash, p);
  }

  // ---- an erase that takes effect and reports failure ----------------------------------

  /**
   Over erased flash, wherever the head is: a save that completes is what the next
   open loads if and only if it went to the start of the sector.
   */
  lemma GapHidesSave(crc: Checksum, f: seq<byte>, m: Mem, p: seq<byte>, w: Faults)
    requires w.ValidFor(RecordLen(p)) && ErasedFrom(f, 0) && m.t.seqNo < ALL_ONES
    requires Save(crc, f, m, p, w).result == Saved
    ensures Save(crc, f, m, p, w).mem.t.last == Some(p)
    ensures Scan(crc, Save(crc, f, m, p, w).flash).t.last == Some(p) <==> m.next == 0 || Erases(f, m, p, w)
  {
    var f1, m1, r := SaveUnfolds(crc, f, m, p, w);
    var o := Save(crc, f, m, p, w);
    if m1.next == 0 {
      Landed(crc, f1, 0, r, p, NextSeq(m.t.seqNo), |r|);
      assert Believed(crc, f1, 0, 0, START) == Some(START);
      WholeRecordScans(crc, f1, o.flash, 0, p, NextSeq(m.t.seqNo), START);
    } else {
      ProgramErased(f, m.next, r, |r|);
      assert !HasMagic(o.flash, 0);
    }
  }

  /** The erase took effect and said it did not. */
  const LYING_ERASE := Faults(false, false, true, 0, false, true)

  /** A save over erased flash, wherever the head is, if it fits there. */
  lemma SaveOverErased(crc: Checksum, f: seq<byte>, m: Mem, p: seq<byte>)
    requires !Refused(crc, |f|, p) && ErasedFrom(f, 0) && m.next + RecordLen(p) <= |f|
    ensures var o := Save(crc, f, m, p, Works(p));
      && o.result == Saved && |o.flash| == |f|
      && o.mem == Mem(m.next + RecordLen(p), m.t.(seqNo := NextSeq(m.t.seqNo), last := Some(p)))
    ensures !Erases(f, m, p, Works(p))
  {
  }

  lemma EraseLies(crc: Checksum, f: seq<byte>, m: Mem, p: seq<byte>)
    requires !Refused(crc, |f|, p)
    ensures Save(crc, f, m, p, LYING_ERASE) == Outcome(Repeat(ERASED, |f|), m, EraseFailed)
  {
  }

  /** Where the first two steps of the run below leave the sector and the journal. */
  lemma LiedTo(crc: Checksum, size: nat, p: seq<byte>)
    requires !Refused(crc, size, p)
    ensures var f := Repeat(ERASED, size); var wd1 := Next(crc, Blank(size), SaveEvent(p, Works(p)));
      var wd2 := Next(crc, wd1, SaveEvent(p, LYING_ERASE));
      && wd1.flash == Save(crc, f, Mem(0, START), p, Works(p)).flash
      && wd1.mem == wd2.mem == Mem(RecordLen(p), Tally(1, Some(p), 0, 0)) && wd2.flash == f
  {
    var f, m := Repeat(ERASED, size), Mem(0, START);
    SaveOverErased(crc, f, m, p);
    var o := Save(crc, f, m, p, Works(p));
    EraseLies(crc, o.flash, o.mem, p);
    hide Save, Scan, Erases, Refused, RecordLen;
  }

  /** A completed save over erased flash is loaded next exactly if it went to the start. */
  lemma LoadedFromStart(crc: Checksum, size: nat, m: Mem, p: seq<byte>)
    requires !Refused(crc, size, p) && m.next + RecordLen(p) <= size && m.t.seqNo < ALL_ONES
    ensures var o := Save(crc, Repeat(ERASED, size), m, p, Works(p));
      && o.result == Saved && o.mem.t.last == Some(p)
      && (Scan(crc, o.flash).t.last == Some(p) <==> m.next == 0)
  {
    var f := Repeat(ERASED, size);
    SaveOverErased(crc, f, m, p);
    AlignedBehind(p);
    hide Save, Scan, Erases, Refused, RecordLen;
    GapHidesSave(crc, f, m, p, Works(p));
  }

  /**
   A run into that state from an erased sector: a save that completes; one whose tail
   cannot be read, so that it erases, and is told the erase failed when it took
   effect; and one more that completes. The journal says it is saved, and the next
   open does not find it.
   */
  lemma LyingEraseLosesSaves(crc: Checksum, size: nat, p: seq<byte>)
    requires !Refused(crc, size, p) && 2 * RecordLen(p) <= size
    ensures var wd1 := Next(crc, Blank(size), SaveEvent(p, Works(p)));
      var wd2 := Next(crc, wd1, SaveEvent(p, LYING_ERASE));
      var o := Save(crc, wd2.flash, wd2.mem, p, Works(p));
      && Scan(crc, wd1.flash).t.last == Some(p)
      && o.result == Saved && o.mem.t.last == Some(p) && Scan(crc, o.flash).t.last != Some(p)
  {
    hide Save, Scan, Erases, Refused, RecordLen, Next;
    LiedTo(crc, size, p);
    AlignedBehind(p);
    LoadedFromStart(crc, size, Mem(0, START), p);
    LoadedFromStart(crc, size, Mem(RecordLen(p), Tally(1, Some(p), 0, 0)), p);
  }

  lemma AlignedBehind(p: seq<byte>)
    ensures RecordLen(p) % 4 == 0 && RecordLen(p) > 0
  {
  }
}
