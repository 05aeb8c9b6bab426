/** The journal as the device runs it: loops over a buffer, and fields updated in place. */
module FlashLog {
  import opened Bytes
  import opened Journal
  import opened CrashSafety

  /** One erasable region of flash. What the driver fails at is its own affair; `calls` remembers what it was asked and what came of it. */
  class Sector {
    const mem: array<byte>
    ghost var calls: seq<Call>

    constructor (mem: array<byte>)
      ensures this.mem == mem && calls == []
    {
      this.mem := mem;
      calls := [];
    }

    method ReadAt(p: array<byte>, off: nat) returns (ok: bool)
      requires p != mem && off + p.Length <= mem.Length
      modifies p, `calls
      ensures ok ==> p[..] == mem[off..off + p.Length]
      ensures calls == old(calls) + [Call.Read(off, p.Length, ok)]
    {
      ok := *;
      calls := calls + [Call.Read(off, p.Length, ok)];
      if ok {
        for i := 0 to p.Length
          invariant p[..i] == mem[off..off + i]
          invariant calls == old(calls) + [Call.Read(off, p.Length, ok)]
        {
          p[i] := mem[off + i];
        }
      }
    }

    /** Words land in order; a failure may come after any of them. */
    method WriteAt(rec: array<byte>, off: nat) returns (ok: bool, ghost landed: nat)
      requires rec != mem && off % 4 == 0 && rec.Length % 4 == 0 && off + rec.Length <= mem.Length
      modifies mem, `calls
      ensures calls == old(calls) + [Call.Write(off, rec.Length, landed, ok)]
      ensures landed <= rec.Length && landed % 4 == 0 && (ok ==> landed == rec.Length)
      ensures mem[..] == Program(old(mem[..]), off, rec[..], landed)
    {
      ok := *;
      var words: nat := rec.Length / 4;
      if !ok {
        words :| 0 <= words <= rec.Length / 4;
      }
      landed := 4 * words;
      calls := calls + [Call.Write(off, rec.Length, landed, ok)];
      for i := 0 to 4 * words
        invariant calls == old(calls) + [Call.Write(off, rec.Length, landed, ok)]
        invariant forall k :: 0 <= k < mem.Length ==>
                    mem[k] == if off <= k < off + i then And(old(mem[k]), rec[k - off]) else old(mem[k])
      {
        mem[off + i] := And(mem[off + i], rec[i]);
      }
    }

    /** All of it or none; and one that took effect may still be reported as failed. */
    method Erase() returns (ok: bool, ghost cleared: bool)
      modifies mem, `calls
      ensures calls == old(calls) + [Call.Erase(cleared, ok)] && (ok ==> cleared)
      ensures mem[..] == if cleared then Repeat(ERASED, mem.Length) else old(mem[..])
    {
      ok := *;
      var done: bool := *;
      done := done || ok;
      cleared := done;
      calls := calls + [Call.Erase(cleared, ok)];
      if done {
        for i := 0 to mem.Length
          invariant calls == old(calls) + [Call.Erase(cleared, ok)]
          invariant forall k :: 0 <= k < i ==> mem[k] == ERASED
        {
          mem[i] := ERASED;
        }
      }
    }
  }

  datatype OpenError = NoError | NoSector | SectorTooSmall | SectorUnreadable

  /** The first word-aligned magic at or after `off`, or -1. */
  method FindMagic(buf: array<byte>, off: nat) returns (r: int)
    requires off % 4 == 0
    ensures r == Resync(buf[..], off)
  {
    var o := off + Pad(off);
    while o + 16 <= buf.Length
      invariant off <= o && o % 4 == 0
      invariant Resync(buf[..], off) == Resync(buf[..], o)
    {
      if HasMagic(buf[..], o) {
        return o;
      }
      o := o + 4;
    }
    r := -1;
  }

  /** The first word boundary with nothing written at or behind it, from `from` on. */
  method FindHead(buf: array<byte>, from: nat) returns (r: nat)
    ensures r == WriteHead(buf[..], from)
  {
    var last := from;
    var i := from;
    while i < buf.Length
      invariant from <= i && last == Written(buf[..], from, Min(i, buf.Length))
    {
      if buf[i] != ERASED {
        last := i + 1;
      }
      i := i + 1;
    }
    r := last + Pad(last);
  }

  class Log {
    const crc: Checksum
    const sec: Sector
    var next: nat
    var seqNo: u32
    var last: Option<seq<byte>>
    var torn: nat
    var blank: nat

    constructor (sec: Sector, crc: Checksum)
      ensures this.sec == sec && this.crc == crc
      ensures next == 0 && Counted() == START
    {
      this.sec, this.crc := sec, crc;
      next, seqNo, last, torn, blank := 0, 0, None, 0, 0;
    }

    function Counted(): Tally
      reads this
    {
      Tally(seqNo, last, torn, blank)
    }

    function InMemory(): Mem
      reads this
    {
      Mem(next, Counted())
    }

    method KeepNumber(claimed: u32, proven: bool)
      modifies `seqNo
      ensures seqNo == KeepSeq(old(seqNo), claimed, proven)
    {
      if claimed == ALL_ONES {
      } else if claimed <= seqNo {
      } else if proven {
        seqNo := claimed;
      } else if seqNo < 0xffff_fffe {
        seqNo := seqNo + 1;
      }
    }

    /** Counts a torn header; r is where the next one is, and if there is none, head is where writing can go on. */
    method Resume(buf: array<byte>, off: nat) returns (r: int, head: nat)
      requires off % 4 == 0 && off + 16 <= buf.Length
      modifies `torn, `seqNo
      ensures Counted() == GiveUp(buf[..], off, old(Counted()))
      ensures r == Resync(buf[..], off + 16)
      ensures r < 0 ==> head == Min(WriteHead(buf[..], off + 16), buf.Length)
    {
      torn := torn + 1;
      KeepNumber(SeqAt(buf[..], off), false);
      r := FindMagic(buf, off + 16);
      head := 0;
      if r < 0 {
        head := FindHead(buf, off + 16);
        head := Min(head, buf.Length);
      }
    }

    /** Takes a header that checks out, or counts it as blank when it carries nothing. */
    method Take(buf: array<byte>, off: nat)
      requires off + 16 <= buf.Length && Fits(buf[..], off)
      modifies `blank, `last, `seqNo
      ensures Counted() == Accept(buf[..], off, old(Counted()))
    {
      var claimed := SeqAt(buf[..], off);
      if LenAt(buf[..], off) == 0 {
        blank := blank + 1;
        KeepNumber(claimed, false);
      } else {
        last := Some(buf[off + 16..EndAt(buf[..], off)]);
        KeepNumber(claimed, true);
      }
    }

    /** Reads the records off an image of the sector, trusting no header further than it proves itself. */
    method ScanImage(buf: array<byte>)
      requires next == 0 && Counted() == START
      modifies this
      ensures InMemory() == Scan(crc, buf[..])
    {
      var off: nat := 0;
      ghost var f := buf[..];
      while off + 16 <= buf.Length
        invariant off % 4 == 0
        invariant ScanFrom(crc, f, off, Counted()) == Scan(crc, f)
        decreases buf.Length - off
      {
        if !HasMagic(buf[..], off) {
          break;
        }
        ghost var step := ScanStep(crc, f, off, Counted());
        if Believable(buf, off) {
          Take(buf, off);
          off := After(buf[..], off);
        } else {
          var r, head := Resume(buf, off);
          if r < 0 {
            next := head;
            assert step == Stop(InMemory());
            return;
          }
          off := r;
        }
        assert step == On(off, Counted());
      }
      next := Min(off, buf.Length);
    }

    predicate Believable(buf: array<byte>, off: nat)
      requires off + 16 <= buf.Length
      reads buf
    {
      ChecksOut(crc, buf[..], off)
    }

    /** Whether everything from `off` on still reads as erased. */
    method StillErased(off: nat) returns (r: bool, ghost readOk: bool)
      requires off <= sec.mem.Length
      modifies sec`calls
      ensures sec.calls == old(sec.calls) + [Call.Read(off, sec.mem.Length - off, readOk)]
      ensures r <==> readOk && ErasedFrom(sec.mem[..], off)
    {
      var n := sec.mem.Length - off;
      var buf := new byte[n](_ => 0);
      var ok := sec.ReadAt(buf, off);
      readOk := ok;
      if !ok {
        return false, readOk;
      }
      for i := 0 to n
        invariant forall k :: off <= k < off + i ==> sec.mem[k] == ERASED
      {
        assert buf[i] == buf[..][i] == sec.mem[off + i];
        if buf[i] != ERASED {
          return false, readOk;
        }
      }
      r := true;
    }

    /** The head after a failed write: behind the bytes of it that are there, or unmoved if no header is or the read fails. */
    method HeadBehind(off: nat) returns (h: nat, ghost readOk: bool)
      requires off <= sec.mem.Length
      modifies sec`calls
      ensures sec.calls == old(sec.calls) + [Call.Read(off, sec.mem.Length - off, readOk)]
      ensures h == HeadAfter(sec.mem[..], off, readOk)
    {
      var buf := new byte[sec.mem.Length - off](_ => 0);
      var ok := sec.ReadAt(buf, off);
      readOk := ok;
      if !ok {
        return off, readOk;
      }
      assert buf[..] == sec.mem[..][off..];
      if buf.Length < 16 || !HasMagic(buf[..], 0) {
        return off, readOk;
      }
      var head := FindHead(buf, 16);
      h := Min(off + head, sec.mem.Length);
    }

    /** The record, field by field at its offset, the rest of its last word left as erased flash. */
    method BuildRecord(p: seq<byte>, number: u32) returns (rec: array<byte>)
      requires |p| <= MAX_RECORD
      ensures fresh(rec) && rec[..] == RecordOf(crc, p, number)
    {
      rec := new byte[16 + |p| + Pad(|p|)](_ => 0);
      ghost var blank := rec[..];
      Put(rec, 0, MAGIC);
      assert rec[..4] == MAGIC && rec[4..] == blank[4..];
      Put(rec, 4, LE32(number));
      assert rec[8..] == blank[8..];
      Put(rec, 8, LE16(|p|));
      assert rec[10..] == blank[10..];
      ghost var head := MAGIC + LE32(number) + LE16(|p|) + [0, 0];
      assert blank[10..][..2] == [0, 0];
      assert rec[..12] == rec[..10] + rec[10..][..2] == head;
      Put(rec, 12, LE32(crc(p)));
      Put(rec, 16, p);
      assert rec[..16 + |p|] == head + LE32(crc(p)) + p;
      FillErased(rec, 16 + |p|);
      assert rec[..] == rec[..16 + |p|] + rec[16 + |p|..];
    }

    /** Appends p; the sector and the journal end as Journal.Save says, for what the driver did, call by call. */
    method Save(p: seq<byte>) returns (result: SaveResult, ghost w: Faults)
      requires HeadAligned(sec.mem[..], InMemory())
      modifies this, sec.mem, sec`calls
      ensures HeadAligned(sec.mem[..], InMemory())
      ensures w.ValidFor(RecordLen(p))
      ensures sec.calls == old(sec.calls) + CallsOf(crc, old(sec.mem[..]), old(InMemory()), p, w)
      ensures Outcome(sec.mem[..], InMemory(), result) == Journal.Save(crc, old(sec.mem[..]), old(InMemory()), p, w)
    {
      ghost var f, m := sec.mem[..], InMemory();
      w := Faults(true, true, true, 0, false, true);
      assert sec.calls + [] == sec.calls;
      if |p| == 0 {
        return EmptyRecord, w;
      }
      if |p| > MAX_RECORD {
        return TooLarge, w;
      }
      if ErasedRecord(crc, p, ALL_ONES) {
        return ErasedPayload, w;
      }
      var number := NextSeq(seqNo);
      var rec := BuildRecord(p, number);
      if rec.Length > sec.mem.Length {
        return TooLarge, w;
      }
      var ok, erased;
      ok, erased, w := MakeRoom(p, rec.Length);
      if !ok {
        SaveKeepsAligned(crc, f, m, p, w);
        return EraseFailed, w;
      }
      ghost var w0 := w;
      result, w := WriteRecord(p, rec, number, erased, w);
      SaveKeepsAligned(crc, f, m, p, w);
      CallsAddUp(crc, f, m, p, w0, w);
    }

    /** Look whether the record can be appended, and erase the sector if not. */
    method MakeRoom(p: seq<byte>, size: nat) returns (ok: bool, erased: bool, ghost w: Faults)
      requires HeadAligned(sec.mem[..], InMemory()) && size == RecordLen(p) <= sec.mem.Length
      modifies this, sec.mem, sec`calls
      ensures w.ValidFor(size) && w.landed == 0 && w.headRead
      ensures var f, m := old(sec.mem[..]), old(InMemory());
        && sec.calls == old(sec.calls) + RoomCalls(f, m, p, w)
        && ok == (Erases(f, m, p, w) ==> w.erase)
        && erased == (ok && Erases(f, m, p, w))
        && (if ok then (sec.mem[..], InMemory()) == Prepared(f, m, erased)
            else InMemory() == m && sec.mem[..] == if w.cleared then Repeat(ERASED, |f|) else f)
    {
      w := Faults(true, true, true, 0, false, true);
      var room := next + size <= sec.mem.Length;
      ok, erased := true, false;
      var clean := false;
      if room {
        ghost var tailRead;
        clean, tailRead := StillErased(next);
        w := w.(tailRead := tailRead);
      }
      if !room || !clean {
        ghost var cleared;
        ok, cleared := sec.Erase();
        w := w.(erase := ok, cleared := cleared);
        if !ok {
          return;
        }
        next, torn, blank, erased := 0, 0, 0, true;
      }
    }

    /** The write itself, and what the journal makes of its outcome. */
    method WriteRecord(p: seq<byte>, rec: array<byte>, number: u32, erased: bool, ghost w0: Faults)
      returns (result: SaveResult, ghost w: Faults)
      requires rec != sec.mem && rec.Length == RecordLen(p) && number == NextSeq(seqNo)
      requires next % 4 == 0 && next + rec.Length <= sec.mem.Length && w0.ValidFor(rec.Length)
      modifies this, sec.mem, sec`calls
      ensures w.ValidFor(rec.Length) && w == w0.(landed := w.landed, written := w.written, headRead := w.headRead)
      ensures sec.calls == old(sec.calls) + WriteCalls(old(sec.mem[..]), old(next), p, w)
      ensures Outcome(sec.mem[..], InMemory(), result)
              == Append(old(sec.mem[..]), old(InMemory()), p, old(rec[..]), erased, w)
    {
      var at := next;
      ghost var landed;
      var ok;
      ok, landed := sec.WriteAt(rec, at);
      w := w0.(landed := landed, written := ok, headRead := true);
      if !ok {
        ghost var headRead;
        next, headRead := HeadBehind(at);
        w := w.(headRead := headRead);
        if erased {
          last := None;
        }
        return WriteFailed, w;
      }
      next := next + rec.Length;
      seqNo := number;
      last := Some(p);
      result := Saved;
    }
  }

  /** Puts bytes into an array at an offset. */
  method Put(a: array<byte>, at: nat, bytes: seq<byte>)
    requires at + |bytes| <= a.Length
    modifies a
    ensures a[..at + |bytes|] == old(a[..at]) + bytes && a[at + |bytes|..] == old(a[at + |bytes|..])
  {
    for i := 0 to |bytes|
      invariant a[..at + i] == old(a[..at]) + bytes[..i]
      invariant a[at + i..] == old(a[at + i..])
    {
      a[at + i] := bytes[i];
    }
  }

  method FillErased(a: array<byte>, from: nat)
    requires from <= a.Length
    modifies a
    ensures a[..from] == old(a[..from]) && a[from..] == Repeat(ERASED, a.Length - from)
  {
    for i := from to a.Length
      invariant a[..from] == old(a[..from])
      invariant forall k :: from <= k < i ==> a[k] == ERASED
    {
      a[i] := ERASED;
    }
  }

  /** The calls of a save up to its write. */
  function RoomCalls(f: seq<byte>, m: Mem, p: seq<byte>, w: Faults): seq<Call> {
    (if m.next + RecordLen(p) <= |f| then [Call.Read(m.next, |f| - m.next, w.tailRead)] else [])
    + (if Erases(f, m, p, w) then [Call.Erase(w.cleared, w.erase)] else [])
  }

  lemma CallsAddUp(crc: Checksum, f: seq<byte>, m: Mem, p: seq<byte>, w0: Faults, w: Faults)
    requires !Refused(crc, |f|, p) && (Erases(f, m, p, w0) ==> w0.erase)
    requires w == w0.(landed := w.landed, written := w.written, headRead := w.headRead)
    ensures var at := if Erases(f, m, p, w) then 0 else m.next;
      at <= |f| && CallsOf(crc, f, m, p, w) == RoomCalls(f, m, p, w0) + WriteCalls(f, at, p, w)
  {
  }

  /** Opens the sector: it fails when there is none, when it is too small, or when it cannot be read. */
  method Open(sec: Sector?, crc: Checksum) returns (e: OpenError, j: Log?)
    modifies if sec == null then {} else {sec}
    ensures e == NoSector <==> sec == null
    ensures e == SectorTooSmall <==> sec != null && sec.mem.Length < 20
    ensures sec != null && sec.mem.Length >= 20 ==>
              sec.calls == old(sec.calls) + [Call.Read(0, sec.mem.Length, e != SectorUnreadable)]
    ensures j != null <==> e == NoError
    ensures e == NoError ==> fresh(j) && j.sec == sec && j.crc == crc && j.InMemory() == Scan(crc, sec.mem[..])
    ensures e == NoError ==> HeadAligned(sec.mem[..], j.InMemory())
  {
    j := null;
    if sec == null {
      return NoSector, j;
    }
    if sec.mem.Length < 20 {
      return SectorTooSmall, j;
    }
    var buf := new byte[sec.mem.Length](_ => 0);
    var ok := sec.ReadAt(buf, 0);
    if !ok {
      return SectorUnreadable, j;
    }
    assert buf[..] == sec.mem[..];
    j := new Log(sec, crc);
    j.ScanImage(buf);
    ScanNextAtLeast(crc, sec.mem[..], 0, START);
    ScanNextAligned(crc, sec.mem[..], 0, START);
    e := NoError;
  }
}
