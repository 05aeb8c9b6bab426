/**
 The gesture recogniser: presses and releases of one input in, taps and holds out.
 Times are nanoseconds. The history gives every accepted press a number and
 records what became of it.
 */
module Gestures {
  import opened Bytes

  const TAP_WINDOW := 400_000_000
  const EDGE_LOCKOUT := 30_000_000
  const MAX_TAPS := 4
  const BOOT_DEBOUNCE := 3_000_000_000

  datatype Gesture = SingleTap | DoubleTap | TripleTap | Hold | LongHold

  /** What was reported of one press: how many holds, long holds and taps it was part of, and whether a long hold came before its hold. */
  datatype Fate = Fate(holds: nat, longs: nat, taps: nat, early: bool)

  datatype Recogniser = Recogniser(
    holdFor: nat, longFor: nat,          // longFor is 0 on an input without a long hold
    down: bool, downAt: int, lastEdge: int, held: bool, longHeld: bool, taps: nat, lastRelease: int, blockedUntil: int,
    // history: what was reported of each press accepted so far, and the presses that count as taps not reported yet
    fates: seq<Fate>, waiting: seq<nat>)

  predicate Accepts(r: Recogniser, now: int) {
    now >= r.blockedUntil && !r.down && now - r.lastEdge >= EDGE_LOCKOUT
  }

  function Press(r: Recogniser, now: int): Recogniser {
    if !Accepts(r, now) then r
    else r.(down := true, downAt := now, lastEdge := now, held := false, longHeld := false,
            fates := r.fates + [Fate(0, 0, 0, false)])
  }

  function Release(r: Recogniser, now: int): Recogniser {
    if !r.down then r
    else
      var r1 := r.(down := false, lastEdge := now);
      if r.held || r.longHeld then r1.(taps := 0, waiting := [])
      else if now - r.lastEdge < EDGE_LOCKOUT then r1
      else r1.(taps := if r.taps < MAX_TAPS then r.taps + 1 else r.taps, lastRelease := now,
               waiting := if r.fates != [] then r.waiting + [|r.fates| - 1] else r.waiting)
  }

  function TapGesture(taps: nat): Gesture {
    match taps case 1 => SingleTap case 2 => DoubleTap case _ => TripleTap
  }

  /** What a poll at now reports: of a press that is down its hold before its long hold, of one that is up its taps. */
  function Due(r: Recogniser, now: int): seq<Gesture> {
    if r.down then
      (if !r.held && now - r.downAt >= r.holdFor then [Hold] else [])
      + (if r.longFor > 0 && !r.longHeld && now - r.downAt >= r.longFor then [LongHold] else [])
    else if r.taps > 0 && now - r.lastRelease >= TAP_WINDOW then [TapGesture(r.taps)]
    else []
  }

  /** The press that is down is reported as due says. */
  function Report(f: Fate, due: seq<Gesture>): Fate {
    var held := f.(holds := f.holds + (if Hold in due then 1 else 0));
    if LongHold in due then held.(longs := held.longs + 1, early := held.early || held.holds == 0 || (Hold in due && due[0] == LongHold))
    else held
  }

  function Poll(r: Recogniser, now: int): Recogniser {
    var due := Due(r, now);
    if r.down then
      r.(held := r.held || Hold in due, longHeld := r.longHeld || LongHold in due,
         fates := if r.fates == [] then [] else r.fates[|r.fates| - 1 := Report(r.fates[|r.fates| - 1], due)])
    else if due != [] then
      r.(taps := 0, waiting := [],
         fates := seq(|r.fates|, i requires 0 <= i < |r.fates| =>
                    if i in r.waiting then r.fates[i].(taps := r.fates[i].taps + 1) else r.fates[i]))
    else r
  }

  /** When polling next has something to report. */
  function Next(r: Recogniser): Option<int> {
    if r.down then
      if !r.held then Some(r.downAt + r.holdFor)
      else if r.longFor > 0 && !r.longHeld then Some(r.downAt + r.longFor)
      else None
    else if r.taps > 0 then Some(r.lastRelease + TAP_WINDOW)
    else None
  }

  /** No presses for d, and none of what was under way. */
  function Block(r: Recogniser, now: int, d: int): Recogniser {
    r.(blockedUntil := now + d, down := false, taps := 0, waiting := [])
  }

  /** The device powers down: what a finger had started means nothing any more. */
  function Clear(r: Recogniser, never: int): Recogniser {
    r.(down := false, held := false, longHeld := false, taps := 0, lastRelease := never, waiting := [])
  }

  datatype Event = DoPress(now: int) | DoRelease(now: int) | DoPoll(now: int) | DoBlock(now: int, d: int) | DoClear(never: int)

  function Handle(r: Recogniser, e: Event): Recogniser {
    match e
    case DoPress(now) => Press(r, now)
    case DoRelease(now) => Release(r, now)
    case DoPoll(now) => Poll(r, now)
    case DoBlock(now, d) => Block(r, now, d)
    case DoClear(never) => Clear(r, never)
  }

  function After(r: Recogniser, events: seq<Event>): Recogniser
    decreases |events|
  {
    if events == [] then r else After(Handle(r, events[0]), events[1..])
  }

  // ---- what every run keeps --------------------------------------------------------------

  /** At most one hold, at most one long hold and that after the hold, and no tap out of a press that was held. */
  predicate Proper(f: Fate) {
    f.holds <= 1 && f.longs <= f.holds && f.taps <= 1 && f.holds + f.taps <= 1 && !f.early
  }

  predicate Increasing(s: seq<nat>) {
    forall i, j :: 0 <= i < j < |s| ==> s[i] < s[j]
  }

  /** The presses that count as taps came one after the other, and nothing was reported of them. */
  predicate Uncounted(fates: seq<Fate>, waiting: seq<nat>) {
    && Increasing(waiting)
    && forall k :: 0 <= k < |waiting| ==> waiting[k] < |fates| && fates[waiting[k]] == Fate(0, 0, 0, false)
  }

  /** The press that is down has been reported as its flags say. */
  predicate Current(r: Recogniser) {
    r.down ==>
      && r.fates != [] && (r.longHeld ==> r.held)
      && r.fates[|r.fates| - 1] == Fate(if r.held then 1 else 0, if r.longHeld then 1 else 0, 0, false)
      && |r.fates| - 1 !in r.waiting
  }

  predicate Inv(r: Recogniser) {
    && (r.longFor == 0 || r.holdFor <= r.longFor)
    && r.taps == Min(|r.waiting|, MAX_TAPS)
    && (forall i :: 0 <= i < |r.fates| ==> Proper(r.fates[i]))
    && Uncounted(r.fates, r.waiting) && Current(r)
  }

  function New(holdFor: nat, longFor: nat, boot: int, never: int): Recogniser {
    Recogniser(holdFor, longFor, false, never, never, false, false, 0, never, boot + BOOT_DEBOUNCE, [], [])
  }

  lemma PressKeeps(r: Recogniser, now: int)
    requires Inv(r)
    ensures Inv(Press(r, now))
  {
    var r' := Press(r, now);
    assert forall k :: 0 <= k < |r.waiting| ==> r'.fates[r.waiting[k]] == r.fates[r.waiting[k]];
  }

  lemma OneMoreTap(fates: seq<Fate>, waiting: seq<nat>)
    requires Uncounted(fates, waiting) && fates != [] && |fates| - 1 !in waiting
    requires fates[|fates| - 1] == Fate(0, 0, 0, false)
    ensures Uncounted(fates, waiting + [|fates| - 1])
  {
    assert forall k :: 0 <= k < |waiting| ==> waiting[k] in waiting;
  }

  lemma ReleaseKeeps(r: Recogniser, now: int)
    requires Inv(r)
    ensures Inv(Release(r, now))
  {
    if r.down && !r.held && !r.longHeld {
      OneMoreTap(r.fates, r.waiting);
    }
  }

  lemma PollDownKeeps(r: Recogniser, now: int)
    requires Inv(r) && r.down
    ensures Inv(Poll(r, now))
  {
    var r' := Poll(r, now);
    assert forall k :: 0 <= k < |r.waiting| ==> r.waiting[k] in r.waiting;
    var due := Due(r, now);
    assert Hold in due <==> !r.held && now - r.downAt >= r.holdFor;
    assert LongHold in due <==> r.longFor > 0 && !r.longHeld && now - r.downAt >= r.longFor;
    assert Hold in due ==> due[0] == Hold;
    hide Due;
    assert Current(r');
    assert Proper(r'.fates[|r.fates| - 1]);
  }

  lemma PollUpKeeps(r: Recogniser, now: int)
    requires Inv(r) && !r.down
    ensures Inv(Poll(r, now))
  {
    forall i | 0 <= i < |r.fates| && i in r.waiting
      ensures r.fates[i] == Fate(0, 0, 0, false)
    {
      var k :| 0 <= k < |r.waiting| && r.waiting[k] == i;
    }
    hide Due;
  }

  lemma PollKeeps(r: Recogniser, now: int)
    requires Inv(r)
    ensures Inv(Poll(r, now))
  {
    if r.down {
      PollDownKeeps(r, now);
    } else {
      PollUpKeeps(r, now);
    }
  }

  lemma HandleKeeps(r: Recogniser, e: Event)
    requires Inv(r)
    ensures Inv(Handle(r, e))
  {
    match e
    case DoPress(now) => PressKeeps(r, now);
    case DoRelease(now) => ReleaseKeeps(r, now);
    case DoPoll(now) => PollKeeps(r, now);
    case _ =>
  }

  lemma {:induction false} EveryRun(r: Recogniser, events: seq<Event>)
    requires Inv(r)
    ensures Inv(After(r, events))
    decreases |events|
  {
    hide Inv, Handle;
    if events != [] {
      HandleKeeps(r, events[0]);
      EveryRun(Handle(r, events[0]), events[1..]);
    }
  }

  /** Whatever is done to an input, and whenever: no press is held twice, long-held before it is held, or counted as a tap once held. */
  lemma EveryPressIsProper(holdFor: nat, longFor: nat, boot: int, never: int, events: seq<Event>)
    requires longFor == 0 || holdFor <= longFor
    ensures var r := After(New(holdFor, longFor, boot, never), events);
      r.taps <= 4 && forall p :: 0 <= p < |r.fates| ==> Proper(r.fates[p])
  {
    EveryRun(New(holdFor, longFor, boot, never), events);
  }

  /** Timings the other way round would report the long hold first, so that order is what keeps it last. */
  lemma LongHoldFirst(holdFor: nat, longFor: nat, boot: int, never: int)
    requires 0 < longFor < holdFor && never <= boot
    ensures var at := boot + BOOT_DEBOUNCE;
      var r := After(New(holdFor, longFor, boot, never), [DoPress(at), DoPoll(at + longFor)]);
      r.fates == [Fate(0, 1, 0, true)]
  {
    var at := boot + BOOT_DEBOUNCE;
    var r0 := New(holdFor, longFor, boot, never);
    var r1 := Press(r0, at);
    assert Due(r1, at + longFor) == [LongHold];
    var events := [DoPress(at), DoPoll(at + longFor)];
    assert events[1..] == [DoPoll(at + longFor)] && events[1..][1..] == [];
    assert After(r0, events) == After(r1, events[1..]) == After(Poll(r1, at + longFor), []);
  }

  /** A tap gesture says how many presses it was made of, three or more being a triple tap. */
  lemma TapGestureCounts(r: Recogniser, now: int)
    requires Inv(r) && !r.down && Due(r, now) != []
    ensures Due(r, now) == [if |r.waiting| == 1 then SingleTap else if |r.waiting| == 2 then DoubleTap else TripleTap]
    ensures |r.waiting| >= 1
    ensures forall k :: 0 <= k < |r.waiting| ==> Poll(r, now).fates[r.waiting[k]] == Fate(0, 0, 1, false)
  {
    assert forall k :: 0 <= k < |r.waiting| ==> r.waiting[k] in r.waiting;
  }

  /** Polling at next reports something; polling before it reports nothing. */
  lemma NextIsWhenPollReports(r: Recogniser, now: int)
    requires Inv(r)
    ensures Due(r, now) != [] <==> Next(r).Some? && now >= Next(r).value
  {
  }

  // ---- clicks -------------------------------------------------------------------------------

  /** A press is taken once the input is not blocked, no finger is down and 30 ms have passed since the last edge; no other changes anything. */
  lemma PressIsTaken(r: Recogniser, now: int)
    ensures if now >= r.blockedUntil && !r.down && now - r.lastEdge >= 30_000_000
            then Press(r, now).down && Press(r, now).downAt == now && Press(r, now).lastEdge == now
                 && |Press(r, now).fates| == |r.fates| + 1 && !Press(r, now).held && !Press(r, now).longHeld
            else Press(r, now) == r
  {
  }

  /** No input takes a press in the first three seconds, nor while it is blocked; blocking drops the press under way and the taps. */
  lemma BlockedInput(holdFor: nat, longFor: nat, boot: int, never: int, r: Recogniser, now: int, d: int, later: int)
    ensures later < boot + 3_000_000_000 ==> Press(New(holdFor, longFor, boot, never), later) == New(holdFor, longFor, boot, never)
    ensures var b := Block(r, now, d); !b.down && b.waiting == [] && Due(b, later) == [] && (later < now + d ==> Press(b, later) == b)
    ensures boot + 3_000_000_000 <= later && never + 30_000_000 <= later ==> Press(New(holdFor, longFor, boot, never), later).down
    ensures now + d <= later && r.lastEdge + 30_000_000 <= later ==> Press(Block(r, now, d), later).down
  {
  }

  /** A press let go before it is held counts as one tap more, if it lasted 30 ms; a shorter one counts for nothing, and neither does one that was held. */
  lemma ReleaseCounts(r: Recogniser, up: int)
    requires Inv(r) && r.down
    ensures var r' := Release(r, up);
      && !r'.down && r'.lastEdge == up && r'.fates == r.fates
      && (!r.held && up - r.lastEdge >= 30_000_000 ==>
            r'.waiting == r.waiting + [|r.fates| - 1] && r'.lastRelease == up)
      && (!r.held && up - r.lastEdge < 30_000_000 ==> r'.waiting == r.waiting && r'.lastRelease == r.lastRelease)
      && (r.held ==> r'.waiting == [])
  {
  }

  /** Presses and releases that follow one another, each at least 30 ms after the one before. */
  predicate Clean(edge: int, clicks: seq<(int, int)>)
    decreases |clicks|
  {
    clicks == [] ||
    (clicks[0].0 - edge >= 30_000_000 && clicks[0].1 - clicks[0].0 >= 30_000_000 && Clean(clicks[0].1, clicks[1..]))
  }

  function Clicks(clicks: seq<(int, int)>): seq<Event> {
    if clicks == [] then [] else [DoPress(clicks[0].0), DoRelease(clicks[0].1)] + Clicks(clicks[1..])
  }

  lemma OneClick(r: Recogniser, click: (int, int))
    requires Inv(r) && !r.down && click.0 >= r.blockedUntil && Clean(r.lastEdge, [click])
    ensures var r' := Release(Press(r, click.0), click.1);
      && Inv(r') && !r'.down && r'.lastEdge == click.1 && r'.lastRelease == click.1 && r'.blockedUntil == r.blockedUntil
      && |r'.waiting| == |r.waiting| + 1
  {
    PressKeeps(r, click.0);
    ReleaseKeeps(Press(r, click.0), click.1);
  }

  lemma {:induction false} ClicksWait(r: Recogniser, clicks: seq<(int, int)>)
    requires Inv(r) && !r.down && Clean(r.lastEdge, clicks) && (clicks != [] ==> clicks[0].0 >= r.blockedUntil)
    ensures var r' := After(r, Clicks(clicks));
      && Inv(r') && !r'.down && |r'.waiting| == |r.waiting| + |clicks|
      && r'.lastRelease == if clicks == [] then r.lastRelease else clicks[|clicks| - 1].1
    decreases |clicks|
  {
    if clicks != [] {
      var click, rest := clicks[0], clicks[1..];
      assert Clean(r.lastEdge, [click]);
      OneClick(r, click);
      var r1 := Release(Press(r, click.0), click.1);
      TwoEvents(r, DoPress(click.0), DoRelease(click.1), Clicks(rest));
      hide Inv, Press, Release;
      ClicksWait(r1, rest);
    }
  }

  lemma TwoEvents(r: Recogniser, a: Event, b: Event, rest: seq<Event>)
    ensures After(r, [a, b] + rest) == After(Handle(Handle(r, a), b), rest)
  {
    var all := [a, b] + rest;
    assert all[1..] == [b] + rest;
    assert ([b] + rest)[1..] == rest;
    hide Handle;
  }

  /**
   Clean clicks on an idle input are reported 400 ms after the last one, and not before:
   one as a single tap, two as a double tap, more as a triple tap.
   */
  lemma {:induction false} ClicksMakeGesture(r: Recogniser, clicks: seq<(int, int)>, now: int)
    requires Inv(r) && !r.down && r.waiting == [] && clicks != []
    requires Clean(r.lastEdge, clicks) && clicks[0].0 >= r.blockedUntil
    ensures Due(After(r, Clicks(clicks)), now) ==
            if now - clicks[|clicks| - 1].1 < 400_000_000 then []
            else [if |clicks| == 1 then SingleTap else if |clicks| == 2 then DoubleTap else TripleTap]
  {
    ClicksWait(r, clicks);
    hide After, Clicks, Clean;
  }

  /** A poll with nothing to report changes nothing; one that reports taps leaves none waiting and nothing more to report. */
  lemma PollsChangeNothingElse(r: Recogniser, now: int, later: int)
    requires Inv(r)
    ensures Due(r, now) == [] ==> Poll(r, now) == r
    ensures !r.down && Due(r, now) != [] ==>
              Poll(r, now).waiting == [] && Next(Poll(r, now)) == None && Due(Poll(r, now), later) == []
  {
    if r.down && r.fates != [] {
      var n := |r.fates|;
      assert r.fates[n - 1 := r.fates[n - 1]] == r.fates;
    }
  }

  // ---- a hold walked from end to end ----------------------------------------------------------

  /** How many gestures the press that is down can still make. */
  function Left(r: Recogniser): nat {
    if !r.down then 0 else (if r.held then 0 else 1) + (if r.longHeld then 0 else 1)
  }

  /** Each poll at next makes at least one of them. */
  lemma WalkGoesOn(r: Recogniser)
    requires r.down && Next(r).Some? && Inv(r)
    ensures var r' := Poll(r, Next(r).value); Left(r') < Left(r) && Inv(r') && r'.down
  {
    PollKeeps(r, Next(r).value);
  }

  /** What a finger down from at to end makes: a hold, and then a long hold, each at its own time. */
  function Held(r: Recogniser, at: int, end: int): seq<(Gesture, int)> {
    (if at + r.holdFor <= end then [(Hold, at + r.holdFor)] else [])
    + (if r.longFor > 0 && at + r.longFor <= end then [(LongHold, at + r.longFor)] else [])
  }

  function Stamped(gs: seq<Gesture>, at: int): seq<(Gesture, int)> {
    seq(|gs|, i requires 0 <= i < |gs| => (gs[i], at))
  }

  /** What the press that went down at has reported so far. */
  function Reported(r: Recogniser, at: int): seq<(Gesture, int)> {
    (if r.held then [(Hold, at + r.holdFor)] else []) + (if r.longHeld then [(LongHold, at + r.longFor)] else [])
  }

  /** One poll at next adds to the report what falls due there, and nothing past it. */
  lemma WalkStep(r: Recogniser, end: int)
    requires Inv(r) && r.down && Next(r).Some? && Next(r).value <= end && Reported(r, r.downAt) <= Held(r, r.downAt, end)
    ensures var at := Next(r).value; var r' := Poll(r, at);
      && r'.downAt == r.downAt && r'.down
      && Reported(r', r.downAt) == Reported(r, r.downAt) + Stamped(Due(r, at), at)
      && Reported(r', r.downAt) <= Held(r', r.downAt, end)
      && Held(r', r.downAt, end) == Held(r, r.downAt, end)
  {
    var at := Next(r).value;
    var both := r.longFor > 0 && !r.longHeld && r.longFor == r.holdFor;
    assert Due(r, at) == if r.held then [LongHold] else if both then [Hold, LongHold] else [Hold];
    WalkStamps(r, at);
    hide Inv, Due;
  }

  lemma WalkStamps(r: Recogniser, at: int)
    ensures Stamped([Hold], at) == [(Hold, at)] && Stamped([LongHold], at) == [(LongHold, at)]
    ensures Stamped([Hold, LongHold], at) == [(Hold, at), (LongHold, at)]
  {
  }

  /** When next is past the end, everything due by then has been reported. */
  lemma WalkEnds(r: Recogniser, end: int)
    requires Inv(r) && r.down && (Next(r).Some? ==> Next(r).value > end) && Reported(r, r.downAt) <= Held(r, r.downAt, end)
    ensures Reported(r, r.downAt) == Held(r, r.downAt, end)
  {
  }

  lemma PollKeepsDown(r: Recogniser, now: int)
    ensures Poll(r, now).down <==> r.down
  {
  }

  lemma SameTimings(r: Recogniser, r': Recogniser, at: int, end: int)
    requires r'.holdFor == r.holdFor && r'.longFor == r.longFor
    ensures Held(r', at, end) == Held(r, at, end)
  {
  }

  lemma PressStarts(r: Recogniser, now: int)
    requires Accepts(r, now)
    ensures var r' := Press(r, now); r'.down && r'.downAt == now && Reported(r', now) == [] && Told(r') == 0 && Together(r')
  {
  }

  lemma ReleaseEnds(r: Recogniser, now: int)
    ensures !Release(r, now).down
  {
  }

  lemma ClearIsUp(r: Recogniser, never: int)
    ensures !Clear(r, never).down && Clear(r, never).taps == 0
  {
  }

  lemma PressRefused(r: Recogniser, now: int)
    requires !Accepts(r, now)
    ensures Press(r, now) == r
  {
  }

  lemma ClearEnds(r: Recogniser)
    requires !r.down && r.taps == 0
    ensures Next(r) == None && Left(r) == 0
  {
  }

  /** What is reported when the input is cleared after a poll: all of it, but for the first, which may leave the long hold out. */
  function Shown(r: Recogniser, at: int, end: int, clears: Option<nat>): seq<(Gesture, int)> {
    if clears == Some(0) && r.longFor != r.holdFor then Held(r, at, end)[..Min(1, |Held(r, at, end)|)]
    else Held(r, at, end)
  }

  /** How many polls it took to report what the press that is down has made. */
  function Told(r: Recogniser): nat {
    if !r.held then 0 else if !r.longHeld || r.longFor == r.holdFor then 1 else 2
  }

  /** Two gestures due at the same time are told together. */
  predicate Together(r: Recogniser) {
    r.held && r.longFor > 0 && r.longFor == r.holdFor ==> r.longHeld
  }

  lemma NothingTold(r: Recogniser)
    requires Inv(r) && r.down && Told(r) == 0
    ensures Reported(r, r.downAt) == []
  {
  }

  lemma ShownByTimings(r: Recogniser, r': Recogniser, at: int, end: int, clears: Option<nat>)
    requires r'.holdFor == r.holdFor && r'.longFor == r.longFor
    ensures Shown(r', at, end, clears) == Shown(r, at, end, clears)
  {
    SameTimings(r, r', at, end);
    hide Held;
  }

  lemma ShownAtEnd(r: Recogniser, at: int, end: int, clears: Option<nat>)
    ensures clears != Some(0) || Held(r, at, end) == [] ==> Shown(r, at, end, clears) == Held(r, at, end)
  {
    hide Held;
  }

  /** One more poll has been taken, and if the input is cleared after it, this is all that is shown. */
  lemma WalkShows(r: Recogniser, end: int, clears: Option<nat>)
    requires Inv(r) && r.down && Next(r).Some? && Next(r).value <= end && Reported(r, r.downAt) <= Held(r, r.downAt, end)
    requires Together(r)
    ensures var r' := Poll(r, Next(r).value);
      && Told(r') == Told(r) + 1 && Together(r')
      && (clears == Some(Told(r)) ==> Reported(r', r.downAt) == Shown(r', r.downAt, end, clears))
  {
    var at := Next(r).value;
    var both := r.longFor > 0 && !r.longHeld && r.longFor == r.holdFor;
    assert Due(r, at) == if r.held then [LongHold] else if both then [Hold, LongHold] else [Hold];
    WalkStep(r, end);
    hide Inv, Due;
  }

  // ---- the recogniser as it runs -----------------------------------------------------------------

  class Input {
    const holdFor: nat
    const longFor: nat
    var down: bool
    var downAt: int
    var lastEdge: int
    var held: bool
    var longHeld: bool
    var taps: nat
    var lastRelease: int
    var blockedUntil: int
    ghost var fates: seq<Fate>
    ghost var waiting: seq<nat>

    ghost function At(): Recogniser
      reads this
    {
      Recogniser(holdFor, longFor, down, downAt, lastEdge, held, longHeld, taps, lastRelease, blockedUntil, fates, waiting)
    }

    ghost predicate Valid()
      reads this
    {
      Inv(At())
    }

    constructor (holdFor: nat, longFor: nat, boot: int, never: int)
      requires longFor == 0 || holdFor <= longFor
      ensures Valid() && At() == New(holdFor, longFor, boot, never)
    {
      this.holdFor, this.longFor := holdFor, longFor;
      down, downAt, lastEdge, held, longHeld, taps, lastRelease := false, never, never, false, false, 0, never;
      blockedUntil, fates, waiting := boot + BOOT_DEBOUNCE, [], [];
    }

    method PressDown(now: int) returns (taken: bool)
      requires Valid()
      modifies this
      ensures Valid() && At() == Press(old(At()), now)
      ensures taken <==> Accepts(old(At()), now)
    {
      PressKeeps(At(), now);
      if now < blockedUntil || down || now - lastEdge < EDGE_LOCKOUT {
        return false;
      }
      down, downAt, lastEdge := true, now, now;
      held, longHeld := false, false;
      fates := fates + [Fate(0, 0, 0, false)];
      taken := true;
    }

    method LiftUp(now: int)
      requires Valid()
      modifies this
      ensures Valid() && At() == Release(old(At()), now)
    {
      ReleaseKeeps(At(), now);
      if !down {
        return;
      }
      var bounce := now - lastEdge < EDGE_LOCKOUT;
      down, lastEdge := false, now;
      if held || longHeld {
        taps := 0;
        waiting := [];
        return;
      }
      if bounce {
        return;
      }
      if taps < MAX_TAPS {
        taps := taps + 1;
      }
      lastRelease := now;
      waiting := waiting + [|fates| - 1];
    }

    method PollNow(now: int) returns (out: seq<Gesture>)
      requires Valid()
      modifies this
      ensures Valid() && At() == Poll(old(At()), now) && out == Due(old(At()), now)
    {
      PollKeeps(At(), now);
      ghost var was := At();
      out := [];
      if down {
        if !held && now - downAt >= holdFor {
          held := true;
          out := out + [Hold];
        }
        if longFor > 0 && !longHeld && now - downAt >= longFor {
          longHeld := true;
          out := out + [LongHold];
        }
        fates := Poll(was, now).fates;
        return;
      }
      if taps > 0 && now - lastRelease >= TAP_WINDOW {
        out := [TapGesture(taps)];
        taps := 0;
        fates, waiting := Poll(was, now).fates, [];
      }
    }

    method NextAt() returns (at: Option<int>)
      ensures at == Next(At())
    {
      if down {
        if !held {
          return Some(downAt + holdFor);
        }
        if longFor > 0 && !longHeld {
          return Some(downAt + longFor);
        }
        return None;
      }
      if taps > 0 {
        return Some(lastRelease + TAP_WINDOW);
      }
      return None;
    }

    method ClearPending(never: int)
      requires Valid()
      modifies this
      ensures Valid() && At() == Clear(old(At()), never)
    {
      down, held, longHeld, taps, lastRelease := false, false, false, 0, never;
      waiting := [];
    }

    /**
     A press held for d, walked forward from gesture to gesture. A gesture may end the
     press: clears says after which poll, if any, the input is cleared. The walk always
     ends, and reports what the press makes up to its end or until it is cleared, each
     gesture with the time it falls due.
     */
    method HoldFor(d: nat, now: int, clears: Option<nat>, never: int) returns (out: seq<(Gesture, int)>)
      requires Valid()
      modifies this
      ensures Valid()
      ensures !Accepts(old(At()), now) ==> At() == old(At()) && out == []
      ensures Accepts(old(At()), now) ==> out == Shown(old(At()), now, now + d, clears) && !down
    {
      hide Inv, Accepts, Press, Release, Poll, Clear, Due, Next, Left, Held, Reported, Shown, Told, Together;
      out := [];
      var end := now + d;
      ghost var was := At();
      var taken := PressDown(now);
      if !taken {
        PressRefused(was, now);
        return;
      }
      PressStarts(was, now);
      SameTimings(was, At(), now, end);
      var polls := 0;
      var at := NextAt();
      while at.Some? && at.value <= end
        invariant Valid() && at == Next(At())
        invariant down ==> downAt == now && out == Reported(At(), now) && out <= Held(was, now, end) && polls == Told(At()) && Together(At())
        invariant down ==> clears != Some(0) || polls == 0
        invariant !down ==> at == None && out == Shown(was, now, end, clears)
        decreases Left(At())
      {
        WalkGoesOn(At());
        SameTimings(At(), was, now, end);
        WalkStep(At(), end);
        WalkShows(At(), end, clears);
        PollKeepsDown(At(), at.value);
        var gestures := PollNow(at.value);
        out := out + Stamped(gestures, at.value);
        SameTimings(At(), was, now, end);
        ShownByTimings(At(), was, now, end, clears);
        if clears == Some(polls) {
          ClearIsUp(At(), never);
          ClearPending(never);
          ClearEnds(At());
        }
        polls := polls + 1;
        at := NextAt();
      }
      if down {
        SameTimings(At(), was, now, end);
        WalkEnds(At(), end);
        if polls == 0 {
          NothingTold(At());
        }
        ShownAtEnd(was, now, end, clears);
      }
      ReleaseEnds(At(), end);
      LiftUp(end);
    }
  }
}
