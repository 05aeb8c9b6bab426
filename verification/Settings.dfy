/**
 The layer that decides whether flash is written at all: a save costs a record
 only when something a person chose has changed since the record the journal
 would load.
 */
module Settings {
  import opened Bytes
  import Journal
  import opened FlashLog
  import CrashSafety
  import Rescan
  import opened StateCodec

  // ---- the rule --------------------------------------------------------------

  /** The key of the record the journal would load; None when it loads nothing this version wrote. */
  function LoadedKey(last: Option<seq<byte>>): Option<seq<byte>> {
    match last
    case None => None
    case Some(b) =>
      match Decode(b)
      case None => None
      case Some(s) => SettingsKey(s)
  }

  /** What a save of `st` would compare: None when it cannot be encoded. */
  function KeyToSave(st: State): Option<seq<byte>> {
    if Encodable(st) then SettingsKey(st) else None
  }

  /** Whether a save of `st` reaches the flash, given the key kept from the last one. */
  predicate WouldWrite(key: Option<seq<byte>>, st: State) {
    KeyToSave(st).Some? && KeyToSave(st) != key
  }

  /** The sector, its journal, and the key the store keeps beside them. */
  datatype Kept = Kept(flash: seq<byte>, mem: Journal.Mem, key: Option<seq<byte>>)

  function SaveKept(crc: Journal.Checksum, k: Kept, st: State, w: Journal.Faults): Kept
    requires Encodable(st) ==> w.ValidFor(Journal.RecordLen(Encode(st)))
  {
    if !WouldWrite(k.key, st) then k
    else
      var o := Journal.Save(crc, k.flash, k.mem, Encode(st), w);
      Kept(o.flash, o.mem, if o.result == Journal.Saved then KeyToSave(st) else k.key)
  }

  /** The key is the one of the record the journal would load. */
  predicate InStep(k: Kept) {
    k.key == LoadedKey(k.mem.t.last)
  }

  /** A record that may be written, a sector that has to be cleared for it and is, and a write that fails. */
  predicate ClearedThenFailed(crc: Journal.Checksum, k: Kept, b: seq<byte>, w: Journal.Faults) {
    && !Journal.Refused(crc, |k.flash|, b) && Journal.Erases(k.flash, k.mem, b, w)
    && w.erase && !w.written
  }

  lemma ClearedThenFailedIs(crc: Journal.Checksum, k: Kept, b: seq<byte>, w: Journal.Faults)
    requires w.ValidFor(Journal.RecordLen(b))
    ensures var o := Journal.Save(crc, k.flash, k.mem, b, w);
      && (ClearedThenFailed(crc, k, b, w) <==> o.result == Journal.WriteFailed && Journal.Erases(k.flash, k.mem, b, w))
      && (ClearedThenFailed(crc, k, b, w) ==> o.mem.t.last == None)
      && (o.result != Journal.Saved && !ClearedThenFailed(crc, k, b, w) ==> o.mem.t.last == k.mem.t.last)
      && (o.result == Journal.Saved ==> o.mem.t.last == Some(b))
  {
    hide Journal.RecordOf, Journal.Program, Journal.HeadAfter;
  }

  /** A save that reached the flash and lost what was there. */
  predicate LostToErase(crc: Journal.Checksum, k: Kept, st: State, w: Journal.Faults) {
    WouldWrite(k.key, st) && ClearedThenFailed(crc, k, Encode(st), w)
  }

  lemma EncodedKeyLoads(st: State)
    requires Encodable(st)
    ensures LoadedKey(Some(Encode(st))) == KeyToSave(st)
    ensures KeyToSave(st).Some?
  {
    CodecIsBijection(st, Encode(st));
    KeyTellsChoices(st, st);
  }

  /** While in step, flash is written exactly when the choices differ from the record the journal would load. */
  lemma WritesExactlyOnChange(k: Kept, st: State)
    requires InStep(k) && Encodable(st)
    ensures WouldWrite(k.key, st) <==>
            match k.mem.t.last
            case None => true
            case Some(b) => Decode(b).None? || !SameChoices(st, Decode(b).value)
  {
    EncodedKeyLoads(st);
    if k.mem.t.last.Some? && Decode(k.mem.t.last.value).Some? {
      var s := Decode(k.mem.t.last.value).value;
      CodecIsBijection(s, k.mem.t.last.value);
      KeyTellsChoices(st, s);
    }
  }

  /** A save leaves the key in step unless its write failed after an erase that took a readable record. */
  lemma SaveKeepsInStep(crc: Journal.Checksum, k: Kept, st: State, w: Journal.Faults)
    requires InStep(k) && (Encodable(st) ==> w.ValidFor(Journal.RecordLen(Encode(st))))
    ensures InStep(SaveKept(crc, k, st, w)) <==> !(LostToErase(crc, k, st, w) && k.key.Some?)
  {
    if WouldWrite(k.key, st) {
      EncodedKeyLoads(st);
      ClearedThenFailedIs(crc, k, Encode(st), w);
    }
    hide Journal.Save, LoadedKey, ClearedThenFailed;
  }

  /** Once lost, the settings stay lost: saving what the key remembers writes nothing, though nothing would load. */
  lemma LostSettingsAreNotRewritten(crc: Journal.Checksum, k: Kept, st: State, w: Journal.Faults, kept: State, v: Journal.Faults)
    requires Encodable(st) && w.ValidFor(Journal.RecordLen(Encode(st))) && LostToErase(crc, k, st, w)
    requires Encodable(kept) && v.ValidFor(Journal.RecordLen(Encode(kept))) && k.key == KeyToSave(kept)
    ensures var k1 := SaveKept(crc, k, st, w); LoadedKey(k1.mem.t.last) == None && SaveKept(crc, k1, kept, v) == k1
  {
    ClearedThenFailedIs(crc, k, Encode(st), w);
    hide Journal.Save, ClearedThenFailed;
  }

  // ---- runs ---------------------------------------------------------------------

  /** Forgetting writes a record of an emptied node, whatever the key says. */
  function ForgetKept(crc: Journal.Checksum, k: Kept, empty: State, w: Journal.Faults): Kept
    requires Encodable(empty) ==> w.ValidFor(Journal.RecordLen(Encode(empty)))
  {
    if !Encodable(empty) then k
    else
      var o := Journal.Save(crc, k.flash, k.mem, Encode(empty), w);
      Kept(o.flash, o.mem, if o.result == Journal.Saved then KeyToSave(empty) else k.key)
  }

  /** The sector read again, at boot or when a driver is brought up. */
  function OpenKept(crc: Journal.Checksum, flash: seq<byte>): Kept {
    var m := Journal.Scan(crc, flash);
    Kept(flash, m, LoadedKey(m.t.last))
  }

  datatype Attempt =
    | Saving(st: State, w: Journal.Faults)
    | Forgetting(st: State, w: Journal.Faults)
    | Restarting

  predicate Fits(a: Attempt) {
    !a.Restarting? && Encodable(a.st) ==> a.w.ValidFor(Journal.RecordLen(Encode(a.st)))
  }

  function StepKept(crc: Journal.Checksum, k: Kept, a: Attempt): Kept
    requires Fits(a)
  {
    match a
    case Saving(st, w) => SaveKept(crc, k, st, w)
    case Forgetting(st, w) => ForgetKept(crc, k, st, w)
    case Restarting => OpenKept(crc, k.flash)
  }

  /** The attempt reached the flash, cleared the sector, and failed to write. */
  predicate Loses(crc: Journal.Checksum, k: Kept, a: Attempt)
    requires Fits(a)
  {
    match a
    case Saving(st, w) => LostToErase(crc, k, st, w)
    case Forgetting(st, w) => Encodable(st) && ClearedThenFailed(crc, k, Encode(st), w)
    case Restarting => false
  }

  /** Whatever is attempted leaves the key in step, unless it cleared a readable record and then failed. */
  lemma StepKeepsInStep(crc: Journal.Checksum, k: Kept, a: Attempt)
    requires InStep(k) && Fits(a)
    ensures InStep(StepKept(crc, k, a)) <==> !(Loses(crc, k, a) && k.key.Some?)
  {
    match a
    case Saving(st, w) => SaveKeepsInStep(crc, k, st, w);
    case Forgetting(st, w) =>
      if Encodable(st) {
        EncodedKeyLoads(st);
        ClearedThenFailedIs(crc, k, Encode(st), w);
      }
      hide Journal.Save, LoadedKey, ClearedThenFailed;
    case Restarting =>
  }

  /** A run in which no write following an erase fails. */
  predicate NoLoss(crc: Journal.Checksum, k: Kept, run: seq<Attempt>)
    decreases |run|
  {
    run == [] ||
    (Fits(run[0]) && !Loses(crc, k, run[0]) && NoLoss(crc, StepKept(crc, k, run[0]), run[1..]))
  }

  function RunKept(crc: Journal.Checksum, k: Kept, run: seq<Attempt>): Kept
    requires NoLoss(crc, k, run)
    decreases |run|
  {
    if run == [] then k else RunKept(crc, StepKept(crc, k, run[0]), run[1..])
  }

  /** One more attempt on a run is that attempt made where the run ends. */
  lemma {:induction false} RunOneMore(crc: Journal.Checksum, k: Kept, run: seq<Attempt>, a: Attempt)
    requires NoLoss(crc, k, run) && Fits(a) && !Loses(crc, RunKept(crc, k, run), a)
    ensures NoLoss(crc, k, run + [a]) && RunKept(crc, k, run + [a]) == StepKept(crc, RunKept(crc, k, run), a)
    ensures RunKept(crc, k, []) == k
    decreases |run|
  {
    hide StepKept, Loses, Fits;
    if run == [] {
      assert run + [a] == [a] && [a][1..] == [];
      assert NoLoss(crc, StepKept(crc, k, a), []);
    } else {
      assert (run + [a])[1..] == run[1..] + [a];
      RunOneMore(crc, StepKept(crc, k, run[0]), run[1..], a);
    }
  }

  /** From boot, over any such run of saves, resets to factory state and restarts, the key is that of the record the journal would load. */
  lemma {:induction false} RunStaysInStep(crc: Journal.Checksum, k: Kept, run: seq<Attempt>)
    requires InStep(k) && NoLoss(crc, k, run)
    ensures InStep(RunKept(crc, k, run))
    decreases |run|
  {
    if run != [] {
      StepKeepsInStep(crc, k, run[0]);
      RunStaysInStep(crc, StepKept(crc, k, run[0]), run[1..]);
    }
  }

  // ---- a run that loses them --------------------------------------------------------

  const FAILING_WRITE := Journal.Faults(true, true, true, 0, false, true)

  lemma NeverRefused(crc: Journal.Checksum, size: nat, st: State)
    requires Encodable(st) && Journal.RecordLen(Encode(st)) <= size
    ensures !Journal.Refused(crc, size, Encode(st))
  {
    EncodingIsShort(st);
    hide Encode;
  }

  /** Saving on a sector just erased, and opening it again. */
  lemma SavedThenOpened(crc: Journal.Checksum, size: nat, st: State)
    requires Encodable(st) && Journal.RecordLen(Encode(st)) <= size
    ensures var p := Encode(st);
      var k := OpenKept(crc, Journal.Repeat(Journal.ERASED, size));
      var k1 := SaveKept(crc, k, st, Rescan.Works(p));
      && k.key == None && |k1.flash| == size
      && OpenKept(crc, k1.flash) == k1 && k1.mem.t.last == Some(p) && k1.mem.next == Journal.RecordLen(p)
  {
    var p := Encode(st);
    var f := Journal.Repeat(Journal.ERASED, size);
    NeverRefused(crc, size, st);
    CrashSafety.ErasedScansEmpty(crc, f);
    EncodedKeyLoads(st);
    var m := Journal.Mem(0, Journal.START);
    Rescan.SaveOverErased(crc, f, m, p);
    hide Encode, Journal.Save, Journal.Scan, Journal.Refused, Journal.Erases;
    CrashSafety.OpenedSaveMatchesRescan(crc, f, p, Rescan.Works(p));
  }

  lemma OpenedInStep(crc: Journal.Checksum, flash: seq<byte>)
    ensures var k := OpenKept(crc, flash); InStep(k) && k.flash == flash
  {
  }

  /** Behind a record of a there is no room for one of b, which has another key. */
  lemma ClearsForOther(crc: Journal.Checksum, size: nat, k: Kept, a: State, b: State)
    requires Encodable(a) && Encodable(b) && !SameChoices(a, b) && InStep(k) && k.mem.t.last == Some(Encode(a))
    requires |k.flash| == size && k.mem.next == Journal.RecordLen(Encode(a))
    requires Journal.RecordLen(Encode(b)) <= size < Journal.RecordLen(Encode(a)) + Journal.RecordLen(Encode(b))
    ensures LostToErase(crc, k, b, FAILING_WRITE) && FAILING_WRITE.ValidFor(Journal.RecordLen(Encode(b)))
    ensures k.key == KeyToSave(a) && k.key.Some?
  {
    NeverRefused(crc, size, b);
    EncodedKeyLoads(a);
    EncodedKeyLoads(b);
    KeyTellsChoices(a, b);
    hide Encode, Journal.Refused, SameChoices, Journal.RecordLen, SettingsKey, LoadedKey;
    assert Journal.Erases(k.flash, k.mem, Encode(b), FAILING_WRITE);
  }

  /**
   From an erased sector, with two states that differ in a choice and a sector that
   holds either record but not both: save one, restart and read it back, then save the
   other. The sector is cleared, and if the write then fails, nothing would load while
   the key still says the first is there; saving the first again writes nothing.
   */
  lemma LossIsReached(crc: Journal.Checksum, size: nat, a: State, b: State, v: Journal.Faults)
    requires Encodable(a) && Encodable(b) && !SameChoices(a, b)
    requires Journal.RecordLen(Encode(a)) <= size && Journal.RecordLen(Encode(b)) <= size
    requires size < Journal.RecordLen(Encode(a)) + Journal.RecordLen(Encode(b))
    requires v.ValidFor(Journal.RecordLen(Encode(a)))
    ensures var k1 := SaveKept(crc, OpenKept(crc, Journal.Repeat(Journal.ERASED, size)), a, Rescan.Works(Encode(a)));
      var k2 := OpenKept(crc, k1.flash);
      var k3 := SaveKept(crc, k2, b, FAILING_WRITE);
      && InStep(k2) && k2.key == KeyToSave(a) && k2.mem.t.last == Some(Encode(a))
      && LostToErase(crc, k2, b, FAILING_WRITE)
      && !InStep(k3) && LoadedKey(k3.mem.t.last) == None && SaveKept(crc, k3, a, v) == k3
  {
    hide Encode, Journal.Save, Journal.Scan, Journal.Refused, Journal.Erases, SameChoices, Journal.RecordLen, SettingsKey,
      SaveKept, OpenKept, LostToErase;
    SavedThenOpened(crc, size, a);
    EncodedKeyLoads(a);
    var k1 := SaveKept(crc, OpenKept(crc, Journal.Repeat(Journal.ERASED, size)), a, Rescan.Works(Encode(a)));
    var k2 := OpenKept(crc, k1.flash);
    OpenedInStep(crc, k1.flash);
    ClearsForOther(crc, size, k2, a, b);
    SaveKeepsInStep(crc, k2, b, FAILING_WRITE);
    LostSettingsAreNotRewritten(crc, k2, b, FAILING_WRITE, a, v);
  }

  // ---- the store --------------------------------------------------------------

  /** The settings of a board that has saved none. */
  const NOTHING := State([], 0, 0, false, 0, 0, 0, [])

  /** The state of the record the journal loads, with this boot counted; none if it loads nothing this version wrote. */
  function Restored(k: Kept): Option<State> {
    match k.mem.t.last
    case None => None
    case Some(b) =>
      match Decode(b)
      case None => None
      case Some(s) => Some(s.(bootCount := if s.bootCount + 1 < 0x1_0000_0000 then s.bootCount + 1 else 0))
  }

  /** The node's state as a factory reset leaves it for the record: no bonds, and nothing about the battery or the run. */
  function Emptied(st: State): State {
    st.(peers := [], bootCount := 0, sleepMs := 0, learnedMaxVolts := 0)
  }

  /** A completed write on a sector just opened, and the sector opened again: what was written is what comes back, with one boot more. */
  lemma ComesBack(crc: Journal.Checksum, f: seq<byte>, st: State, w: Journal.Faults)
    requires Encodable(st) && w.ValidFor(Journal.RecordLen(Encode(st)))
    requires var o := Journal.Save(crc, f, OpenKept(crc, f).mem, Encode(st), w);
      o.result == Journal.Saved
      && Journal.NoFalseCheck(crc, o.flash, CrashSafety.WritePos(f, OpenKept(crc, f).mem, Encode(st), w))
    ensures var o := Journal.Save(crc, f, OpenKept(crc, f).mem, Encode(st), w);
      Restored(OpenKept(crc, o.flash)) ==
      Some(st.(bootCount := if st.bootCount == 0xffff_ffff then 0 else st.bootCount + 1))
  {
    hide Encode, Decode, Journal.Save, Journal.Scan, Journal.NoFalseCheck, CrashSafety.WritePos, SettingsKey, Restored,
      Encodable, Journal.RecordLen, LoadedKey;
    CrashSafety.OpenedSaveMatchesRescan(crc, f, Encode(st), w);
    var flash := Journal.Save(crc, f, OpenKept(crc, f).mem, Encode(st), w).flash;
    RestoredFrom(OpenKept(crc, flash), st);
  }

  lemma RestoredFrom(k: Kept, st: State)
    requires Encodable(st) && k.mem.t.last == Some(Encode(st))
    ensures Restored(k) == Some(st.(bootCount := if st.bootCount == 0xffff_ffff then 0 else st.bootCount + 1))
  {
    hide Encode, Encodable, Decode, Restored;
    CodecIsBijection(st, Encode(st));
    RestoredAs(k, Encode(st), st);
  }

  lemma RestoredAs(k: Kept, b: seq<byte>, st: State)
    requires k.mem.t.last == Some(b) && Decode(b) == Some(st)
    ensures Restored(k) == Some(st.(bootCount := if st.bootCount == 0xffff_ffff then 0 else st.bootCount + 1))
  {
    hide Decode;
  }

  /** The same of a save of changed settings. */
  lemma SavedComesBack(crc: Journal.Checksum, f: seq<byte>, st: State, w: Journal.Faults)
    requires Encodable(st) && w.ValidFor(Journal.RecordLen(Encode(st))) && WouldWrite(OpenKept(crc, f).key, st)
    requires var o := Journal.Save(crc, f, OpenKept(crc, f).mem, Encode(st), w);
      o.result == Journal.Saved
      && Journal.NoFalseCheck(crc, o.flash, CrashSafety.WritePos(f, OpenKept(crc, f).mem, Encode(st), w))
    ensures Restored(OpenKept(crc, SaveKept(crc, OpenKept(crc, f), st, w).flash)) ==
            Some(st.(bootCount := if st.bootCount == 0xffff_ffff then 0 else st.bootCount + 1))
  {
    ComesBack(crc, f, st, w);
    hide Encode, Decode, Journal.Save, Journal.Scan, Journal.NoFalseCheck, CrashSafety.WritePos, SettingsKey, Restored;
  }

  /**
   And after a factory reset the next boot is the first one of a device with the name,
   colour, brightness and sound it had, no bonds, and nothing of its battery or its run.
   */
  lemma ForgottenStaysForgotten(crc: Journal.Checksum, f: seq<byte>, st: State, w: Journal.Faults)
    requires var e := Emptied(st);
      Encodable(e) && w.ValidFor(Journal.RecordLen(Encode(e)))
      && var o := Journal.Save(crc, f, OpenKept(crc, f).mem, Encode(e), w);
        o.result == Journal.Saved
        && Journal.NoFalseCheck(crc, o.flash, CrashSafety.WritePos(f, OpenKept(crc, f).mem, Encode(e), w))
    ensures Restored(OpenKept(crc, ForgetKept(crc, OpenKept(crc, f), Emptied(st), w).flash)) ==
            Some(State(st.name, st.colorId, st.brightness, st.sosMuted, 1, 0, 0, []))
  {
    ComesBack(crc, f, Emptied(st), w);
    hide Encode, Decode, Journal.Save, Journal.Scan, Journal.NoFalseCheck, CrashSafety.WritePos, SettingsKey, Restored;
  }

  /** Nothing comes back from a sector whose newest record this version cannot read, or that has none. */
  lemma NothingComesBack(crc: Journal.Checksum, f: seq<byte>)
    ensures Restored(OpenKept(crc, f)) == None <==>
            var last := Journal.Scan(crc, f).t.last; last == None || Decode(last.value) == None
  {
    hide Journal.Scan, Decode;
  }

  class Store {
    var j: Log?
    var key: Option<seq<byte>>
    var state: State
    var found: bool

    constructor ()
      ensures j == null && Unread()
    {
      j, key, found, state := null, None, false, NOTHING;
    }

    function View(): Kept
      requires j != null
      reads this, j, j.sec.mem
    {
      Kept(j.sec.mem[..], j.InMemory(), key)
    }

    /** Nothing known of the flash. */
    predicate Unread()
      reads this
    {
      key == None && !found && state == NOTHING
    }

    /** Opens the journal and takes up the record it loads; without one that decodes, nothing is known of the flash. */
    method Open(sec: Sector?, crc: Journal.Checksum)
      requires j == null && Unread()
      modifies this, if sec == null then {} else {sec}
      ensures sec == null ==> j == null
      ensures j == null ==> Unread()
      ensures !found ==> state == NOTHING
      ensures j != null ==> sec != null && fresh(j) && j.sec == sec && j.crc == crc && InStep(View())
      ensures j != null ==> j.InMemory() == Journal.Scan(crc, sec.mem[..]) && CrashSafety.HeadAligned(sec.mem[..], j.InMemory())
      ensures j != null ==> View() == OpenKept(crc, sec.mem[..]) && (if found then Some(state) else None) == Restored(View())
    {
      hide Decode, Journal.Scan, SettingsKey;
      var e, log := FlashLog.Open(sec, crc);
      if log == null {
        return;
      }
      j := log;
      if log.last.None? {
        return;
      }
      var s := Unmarshal(log.last.value);
      if s.None? {
        return;
      }
      key := SettingsKey(s.value);
      found := true;
      state := s.value.(bootCount := if s.value.bootCount + 1 < 0x1_0000_0000 then s.value.bootCount + 1 else 0);
    }

    /** Saves `st` if its key is another than the one kept, and keeps its key if that completes. */
    method Save(st: State) returns (wrote: bool, ghost w: Journal.Faults)
      requires j != null ==> CrashSafety.HeadAligned(j.sec.mem[..], j.InMemory())
      modifies this, j, if j == null then {} else {j.sec, j.sec.mem}
      ensures j == old(j)
      ensures wrote <==> j != null && WouldWrite(old(key), st)
      ensures !wrote ==> key == old(key) && state == old(state) && found == old(found)
      ensures Encodable(st) ==> w.ValidFor(Journal.RecordLen(Encode(st)))
      ensures j != null ==> View() == SaveKept(j.crc, old(View()), st, w)
      ensures j != null ==> CrashSafety.HeadAligned(j.sec.mem[..], j.InMemory())
    {
      w := Journal.Faults(true, true, true, 0, false, true);
      wrote := false;
      if j == null {
        return;
      }
      var b := Marshal(st);
      if b.None? {
        return;
      }
      KeyTellsChoices(st, st);
      var k := SettingsKey(st);
      if k == key {
        return;
      }
      wrote := true;
      var result;
      result, w := j.Save(b.value);
      if result == Journal.Saved {
        key, state, found := k, st, true;
      }
    }

    /** Wipes the settings: what the node is after its factory reset is written as an emptied record, whatever was there. */
    method Forget(reset: State) returns (ok: bool, ghost w: Journal.Faults)
      requires j != null ==> CrashSafety.HeadAligned(j.sec.mem[..], j.InMemory())
      modifies this, j, if j == null then {} else {j.sec, j.sec.mem}
      ensures j == old(j)
      ensures var empty := Emptied(reset);
        ok ==> j != null && Encodable(empty) && j.last == Some(Encode(empty)) && key == KeyToSave(empty) && state == empty && found
      ensures !ok ==> key == old(key) && state == old(state) && found == old(found)
      ensures Encodable(Emptied(reset)) ==> w.ValidFor(Journal.RecordLen(Encode(Emptied(reset))))
      ensures j != null ==> View() == ForgetKept(j.crc, old(View()), Emptied(reset), w)
      ensures j != null ==> CrashSafety.HeadAligned(j.sec.mem[..], j.InMemory())
    {
      w := Journal.Faults(true, true, true, 0, false, true);
      ok := false;
      if j == null {
        return;
      }
      var empty := Emptied(reset);
      var b := Marshal(empty);
      if b.None? {
        return;
      }
      KeyTellsChoices(empty, empty);
      var result;
      result, w := j.Save(b.value);
      if result == Journal.Saved {
        key, state, found := SettingsKey(empty), empty, true;
        ok := true;
      }
    }

    /**
     Reads the sector now, if it could not be read before; then the record goes back
     into the node, and what the node is with it is saved.
     */
    method Reopen(sec: Sector?, crc: Journal.Checksum, node: Option<State> -> State) returns (wrote: bool, ghost w: Journal.Faults)
      requires j == null ==> Unread()
      modifies this, if sec == null then {} else {sec, sec.mem}
      ensures old(j) != null ==> j == old(j) && key == old(key) && state == old(state) && found == old(found) && !wrote
      ensures j == null ==> Unread() && !wrote
      ensures old(j) == null && j != null ==>
                sec != null && fresh(j) && j.sec == sec && j.crc == crc
                && var k := OpenKept(crc, old(sec.mem[..]));
                  var st := node(Restored(k));
                  && (Encodable(st) ==> w.ValidFor(Journal.RecordLen(Encode(st))))
                  && View() == SaveKept(crc, k, st, w) && (wrote <==> WouldWrite(k.key, st))
    {
      w := Journal.Faults(true, true, true, 0, false, true);
      wrote := false;
      if j != null {
        return;
      }
      Open(sec, crc);
      if j == null {
        return;
      }
      assert View() == OpenKept(crc, sec.mem[..]);
      var record := if found then Some(state) else None;
      wrote, w := Save(node(record));
    }
  }
}
