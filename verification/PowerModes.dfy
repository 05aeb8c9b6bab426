/** The power mode that follows from a battery reading, the cutoff, and what the device learns about its battery. */
module PowerModes {
  import opened Bytes
  import opened BatteryGauge

  const LOW_VOLTS := 3.45
  const CUTOFF_VOLTS := 3.15
  const MARGIN := 0.04

  datatype Mode = Normal | Eco | Low | Off

  datatype Battery = Battery(volts: real, percent: int, charging: bool, low: bool, noPowerChip: bool, noBattery: bool)

  datatype Power = Power(mode: Mode, off: bool, maxVolts: real, peakVolts: real, prevVolts: real)

  /** The mode a reading asks for, of a device that is on. */
  function ModeFor(b: Battery): Mode {
    if b.noPowerChip || b.noBattery then Normal
    else if b.charging then Normal
    else if 0.0 < b.volts <= CUTOFF_VOLTS then Off
    else if b.low || 0.0 < b.volts <= LOW_VOLTS then Low
    else if 0 < b.percent <= 40 then Eco
    else Normal
  }

  function Update(p: Power, b: Battery): (Power, bool) {
    if p.off then (p, false)
    else (p.(mode := ModeFor(b)), ModeFor(b) != p.mode)
  }

  function PowerOff(p: Power): Power {
    if p.off then p else p.(off := true, mode := Off)
  }

  function Cleared(p: Power): Power {
    p.(maxVolts := 0.0, peakVolts := 0.0, prevVolts := 0.0)
  }

  function PowerOn(p: Power): Power {
    if !p.off then p else Cleared(p.(off := false, mode := Normal))
  }

  /** The peak is remembered whatever the charger does; it becomes the battery's ceiling once a charge has stopped raising it. */
  function Learn(p: Power, b: Battery): Power {
    var p1 := if b.volts > p.peakVolts && Plausible(Num(b.volts)) then p.(peakVolts := b.volts) else p;
    if !b.charging || p1.peakVolts == 0.0 then p1
    else if p1.peakVolts > p1.prevVolts then p1.(prevVolts := p1.peakVolts)
    else if p1.peakVolts > p1.maxVolts - MARGIN then p1.(maxVolts := p1.peakVolts - MARGIN)
    else p1
  }

  /** A reading taken: the battery is learned from while the device is on, and the mode follows; the cutoff powers it down. */
  function Apply(p: Power, b: Battery): Power {
    var p1 := if p.off then p else Learn(p, b);
    var (p2, changed) := Update(p1, b);
    if changed && p2.mode == Off then PowerOff(p2) else p2
  }

  datatype Event = Reading(b: Battery) | SwitchOff | SwitchOn | Forget

  function Handle(p: Power, e: Event): Power {
    match e
    case Reading(b) => Apply(p, b)
    case SwitchOff => PowerOff(p)
    case SwitchOn => PowerOn(p)
    case Forget => Cleared(p)
  }

  function After(p: Power, events: seq<Event>): Power
    decreases |events|
  {
    if events == [] then p else After(Handle(p, events[0]), events[1..])
  }

  /** Off in mode exactly when off in fact; and the ceiling learned is under the peaks it was learned from. */
  predicate Inv(p: Power) {
    && (p.mode == Off <==> p.off)
    && (p.peakVolts == 0.0 || Plausible(Num(p.peakVolts)))
    && 0.0 <= p.prevVolts <= p.peakVolts
    && (p.maxVolts == 0.0 || 3.15 <= p.maxVolts <= p.prevVolts - MARGIN)
  }

  const NEW := Power(Normal, false, 0.0, 0.0, 0.0)

  lemma HandleKeeps(p: Power, e: Event)
    requires Inv(p)
    ensures Inv(Handle(p, e))
  {
    if e.Reading? && !p.off {
      assert p.prevVolts == 0.0 || p.peakVolts > 0.0;
    }
  }

  lemma {:induction false} EveryRun(p: Power, events: seq<Event>)
    requires Inv(p)
    ensures Inv(After(p, events))
    decreases |events|
  {
    hide Inv, Handle;
    if events != [] {
      HandleKeeps(p, events[0]);
      EveryRun(Handle(p, events[0]), events[1..]);
    }
  }

  /** Whatever is read, switched or forgotten, the mode says off exactly when the device is off. */
  lemma ModeAgreesWithPower(events: seq<Event>)
    ensures var p := After(NEW, events); p.mode == Off <==> p.off
  {
    EveryRun(NEW, events);
  }

  /** A reading switches a device off exactly at the cutoff: a cell that is there, not charging, above zero and at most 3.15 V. */
  lemma CutsOffExactly(p: Power, b: Battery)
    requires Inv(p) && !p.off
    ensures Apply(p, b).off <==> !b.noPowerChip && !b.noBattery && !b.charging && 0.0 < b.volts <= CUTOFF_VOLTS
  {
  }

  /**
   The mode a reading leaves a device in that is on: without a battery to speak of, or on
   the charger, normal; then off up to 3.15 V, low up to 3.45 V or when the power chip
   says so, eco up to 40 percent, and normal. A voltage or percentage of 0 says nothing.
   */
  lemma ModeIsExactly(p: Power, b: Battery)
    requires Inv(p) && !p.off
    ensures var mode := Apply(p, b).mode; var runs := !b.noPowerChip && !b.noBattery && !b.charging;
      && (mode == Off <==> runs && 0.0 < b.volts <= 3.15)
      && (mode == Low <==> runs && ((b.low && !(0.0 < b.volts <= 3.15)) || 3.15 < b.volts <= 3.45))
      && (mode == Eco <==> runs && !b.low && (b.volts <= 0.0 || b.volts > 3.45) && 0 < b.percent <= 40)
  {
  }

  /** An update says whether the mode is another than it was. */
  lemma UpdateTellsChange(p: Power, b: Battery)
    ensures var (q, changed) := Update(p, b);
      && (changed <==> q.mode != p.mode) && (p.off ==> q == p) && q == p.(mode := q.mode)
  {
  }

  /** Of two readings alike but for the voltage, the lower one never leaves the device running harder. */
  lemma LowerRunsNoHarder(p: Power, a: Battery, volts: real)
    requires Inv(p) && !p.off && 0.0 < volts <= a.volts
    ensures Rank(Apply(p, a.(volts := volts)).mode) >= Rank(Apply(p, a).mode)
  {
  }

  function Rank(m: Mode): nat {
    match m case Normal => 0 case Eco => 1 case Low => 2 case Off => 3
  }

  /** Off stays off whatever is read, and nothing is learned then; switching on starts normal, knowing nothing of the battery. */
  lemma OnlySwitchingOnWakes(p: Power, b: Battery)
    requires Inv(p)
    ensures p.off ==> Apply(p, b) == p
    ensures Handle(p, SwitchOff).off && Handle(p, SwitchOff).maxVolts == p.maxVolts
    ensures Handle(p, SwitchOn) == if p.off then NEW else p
    ensures Handle(p, Forget) == p.(maxVolts := 0.0, peakVolts := 0.0, prevVolts := 0.0)
  {
  }

  /**
   What a reading teaches a device that is on. The peak is the highest voltage between
   3.19 V and 4.6 V so far; on the charger it is remembered while it still rises, and once
   it does not, the ceiling is 0.04 V under it.
   */
  lemma LearnsExactly(p: Power, b: Battery)
    requires Inv(p) && !p.off
    ensures var q := Apply(p, b);
      && q.peakVolts == (if 3.19 <= b.volts <= 4.6 && b.volts > p.peakVolts then b.volts else p.peakVolts)
      && q.prevVolts == (if b.charging then q.peakVolts else p.prevVolts)
      && q.maxVolts == if b.charging && q.peakVolts > 0.0 && q.peakVolts == p.prevVolts
                       then q.peakVolts - 0.04 else p.maxVolts
  {
  }

  /** No plausible reading among the events is above h. */
  predicate SeenUpTo(events: seq<Event>, h: real) {
    forall e :: e in events && e.Reading? && Plausible(Num(e.b.volts)) ==> e.b.volts <= h
  }

  lemma {:induction false} PeakIsSeen(p: Power, events: seq<Event>, h: real)
    requires SeenUpTo(events, h) && p.peakVolts <= h && h >= 0.0
    ensures After(p, events).peakVolts <= h
    decreases |events|
  {
    if events != [] {
      assert events[0] in events && forall e :: e in events[1..] ==> e in events;
      PeakIsSeen(Handle(p, events[0]), events[1..], h);
    }
  }

  /** The ceiling learned is at least 0.04 V under the highest plausible voltage ever read. */
  lemma CeilingWasSeen(events: seq<Event>, h: real)
    requires SeenUpTo(events, h) && h >= 0.0
    ensures var p := After(NEW, events); p.maxVolts == 0.0 || p.maxVolts <= h - MARGIN
  {
    PeakIsSeen(NEW, events, h);
    EveryRun(NEW, events);
  }

  /** A ceiling is learned only on the charger, once a charge has not raised the peak; while on, it never comes down. */
  lemma CeilingOnlyRises(p: Power, b: Battery)
    requires Inv(p)
    ensures Apply(p, b).maxVolts >= p.maxVolts
    ensures Apply(p, b).maxVolts != p.maxVolts ==> b.charging && !p.off && Apply(p, b).maxVolts == p.prevVolts - MARGIN
  {
  }

  /**
   And a ceiling can be learned that reads empty: two readings of 3.2 V on the charger
   make it 3.16 V, which is below the table.
   */
  lemma LearnsEmptyCeiling()
    ensures var b := Battery(3.2, 0, true, false, false, false);
      var p := After(NEW, [Reading(b), Reading(b)]);
      p.maxVolts == 3.16 && PctFor(Num(p.maxVolts), Num(p.maxVolts)) == 0
  {
    var b := Battery(3.2, 0, true, false, false, false);
    var events := [Reading(b), Reading(b)];
    var p1 := Power(Normal, false, 0.0, 3.2, 3.2);
    assert Handle(NEW, events[0]) == p1;
    assert events[1..] == [Reading(b)] && events[1..][1..] == [];
    assert After(NEW, events) == After(p1, events[1..]) == After(Handle(p1, Reading(b)), []);
    hide PctFor;
    FullAtCeiling(3.16);
  }

  lemma TwoReadings(p: Power, volts: real)
    requires p == NEW && Plausible(Num(volts)) && volts > CUTOFF_VOLTS
    ensures var b := Battery(volts, 0, true, false, false, false);
      Handle(Handle(p, Reading(b)), Reading(b)) == Power(Normal, false, volts - MARGIN, volts, volts)
  {
  }

  /**
   And a charge that stops lower makes a reading fall: 3.8 V learned, forgotten, and
   3.16 V learned after it. What read full then does not now.
   */
  lemma LowerCeilingReadsLower()
    ensures var high, low := Battery(3.84, 0, true, false, false, false), Battery(3.2, 0, true, false, false, false);
      var p := After(NEW, [Reading(high), Reading(high)]);
      var q := After(p, [Forget, Reading(low), Reading(low)]);
      && p.maxVolts == 3.8 && q.maxVolts == 3.16
      && PctFor(Num(3.8), Num(p.maxVolts)) == 100 && PctFor(Num(3.8), Num(q.maxVolts)) <= 99
  {
    var high, low := Battery(3.84, 0, true, false, false, false), Battery(3.2, 0, true, false, false, false);
    TwoReadings(NEW, 3.84);
    TwoReadings(NEW, 3.2);
    FullAtCeiling(3.8);
    UnstretchedIsNotFull(3.8);
    assert Rounded(3.16) <= FLAT_MV && Rounded(3.8) == 3800;
    var p := Power(Normal, false, 3.8, 3.84, 3.84);
    assert Handle(p, Forget) == NEW;
    hide Handle, PctFor, Rounded;
    TwoEvents(NEW, [Reading(high), Reading(high)]);
    var rest := [Forget, Reading(low), Reading(low)];
    assert After(p, rest) == After(NEW, rest[1..]);
    TwoEvents(NEW, rest[1..]);
  }

  lemma TwoEvents(p: Power, events: seq<Event>)
    requires |events| == 2
    ensures After(p, events) == Handle(Handle(p, events[0]), events[1])
  {
    hide Handle;
    assert After(p, events) == After(Handle(p, events[0]), events[1..]);
    assert events[1..][1..] == [];
  }

  // ---- the same, in place ------------------------------------------------------------------

  class Monitor {
    var mode: Mode
    var off: bool
    var maxVolts: real
    var peakVolts: real
    var prevVolts: real

    function At(): Power
      reads this
    {
      Power(mode, off, maxVolts, peakVolts, prevVolts)
    }

    constructor ()
      ensures At() == NEW && Inv(At())
    {
      mode, off, maxVolts, peakVolts, prevVolts := Normal, false, 0.0, 0.0, 0.0;
    }

    method LearnFrom(b: Battery)
      modifies this
      ensures At() == Learn(old(At()), b)
    {
      if b.volts > peakVolts && Plausible(Num(b.volts)) {
        peakVolts := b.volts;
      }
      if !b.charging || peakVolts == 0.0 {
        return;
      }
      if peakVolts > prevVolts {
        prevVolts := peakVolts;
        return;
      }
      if peakVolts > maxVolts - MARGIN {
        maxVolts := peakVolts - MARGIN;
      }
    }

    method UpdateMode(b: Battery) returns (changed: bool)
      modifies this`mode
      ensures (At(), changed) == Update(old(At()), b)
    {
      if off {
        return false;
      }
      var was := mode;
      if b.noPowerChip || b.noBattery || b.charging {
        mode := Normal;
      } else if 0.0 < b.volts <= CUTOFF_VOLTS {
        mode := Off;
      } else if b.low || 0.0 < b.volts <= LOW_VOLTS {
        mode := Low;
      } else if 0 < b.percent <= 40 {
        mode := Eco;
      } else {
        mode := Normal;
      }
      changed := mode != was;
    }

    method ApplyReading(b: Battery)
      requires Inv(At())
      modifies this
      ensures At() == Apply(old(At()), b) && Inv(At())
    {
      HandleKeeps(At(), Reading(b));
      if !off {
        LearnFrom(b);
      }
      var changed := UpdateMode(b);
      if changed && mode == Off {
        off := true;
      }
    }
  }
}
