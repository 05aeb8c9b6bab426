/**
 The node's timer queue and its chain of radio windows, through clock adoption,
 GNSS locks and power cycles. Times are nanoseconds; what a job sends is not
 part of this module, only what it schedules.
 */
module Timers {
  import opened Bytes

  const MS := 1_000_000
  const NO_SAT_PERIOD := 5_000_000_000
  const TX_DELAY := 75_000_000
  const MIN_CLOCK := 1_577_836_800_000_000_000        // 2020-01-01
  const MAX_CLOCK := 2_147_483_647_000_000_000        // the last second a signed 32-bit field holds

  /** Which tenth of the second the bursts of a window without a clock are at. */
  type Phase = p: nat | p < 10

  datatype Task =
    | Window
    | Burst(start: int, count: nat)     // one more burst of a window without a clock
    | MeshTick
    | PairLoop
    | PairEnd
    | Message(id: nat)                  // a single frame to send later

  datatype Kind = KWindow | KBurst | KTick | KOnce

  function KindOf(t: Task): Kind {
    match t
    case Window => KWindow
    case Burst(_, _) => KBurst
    case MeshTick => KTick
    case _ => KOnce
  }

  datatype Job = Job(at: int, order: nat, task: Task)

  datatype Node = Node(
    jobs: seq<Job>, seq_: nat, off: bool, clockSet: bool, gnssClock: bool, offset: int,
    boot: int, lastTX: int, phase: Phase, fast: bool, pairing: bool, pairEnd: int)

  // ---- scheduling ----------------------------------------------------------------

  /** Go's remainder, which takes the sign of the dividend. */
  function Rem(a: int, b: int): int
    requires b > 0
  {
    if a >= 0 then a % b else -((-a) % b)
  }

  function UnixMilli(t: int): int {
    t / 1_000_000
  }

  function Add(n: Node, at: int, task: Task): Node {
    n.(seq_ := n.seq_ + 1, jobs := n.jobs + [Job(at, n.seq_ + 1, task)])
  }

  function Period(n: Node): int {
    if !n.clockSet then 5000 else if n.fast then 1000 else 4000
  }

  function WindowTime(n: Node, now: int): int {
    if n.clockSet then
      now + (Period(n) - Rem(UnixMilli(now + n.offset), Period(n))) * 1_000_000 + TX_DELAY
    else Max(n.lastTX + NO_SAT_PERIOD, now) + TX_DELAY
  }

  function TickTime(n: Node, now: int): int {
    var next := now + (4000 - Rem(UnixMilli(now + n.offset), 4000)) * 1_000_000 - 200_000_000;
    if next <= now then next + 4_000_000_000 else next
  }

  /** How long after a burst at t the next one is due: at the next phase of the second. */
  function BurstWait(n: Node, t: int, phase: Phase): int {
    var since := t - n.boot;
    var sinceMs := if since >= 0 then since / 1_000_000 else -((-since) / 1_000_000);
    var wait := (900 - 100 * phase) * 1_000_000 - Rem(sinceMs, 1000) * 1_000_000;
    if wait <= 0 then wait + 1_000_000_000 else wait
  }

  /** A burst of the window that opened at start; count came before it. */
  function RunBurst(n: Node, now: int, start: int, count: nat): Node {
    if count + 1 >= 3 then n
    else
      var phase := (n.phase + 1) % 10;
      var at := now + BurstWait(n, now, phase);
      var n1 := n.(phase := phase);
      if at - start <= 2_500_000_000 then Add(n1, at, Burst(start, count + 1)) else n1
  }

  function Run(n: Node, now: int, task: Task, random: nat -> nat): Node {
    match task
    case Window =>
      var n1 := n.(lastTX := now);
      if n.clockSet then Add(n1, WindowTime(n1, now), Window)
      else Add(RunBurst(n1, now, now, 0), now + NO_SAT_PERIOD, Window)
    case Burst(start, count) => RunBurst(n, now, start, count)
    case MeshTick => Add(n, TickTime(n, now), MeshTick)
    case PairLoop => if n.pairing then Add(n, now + (50 + random(n.seq_) % 50) * MS, PairLoop) else n
    case PairEnd => if now < n.pairEnd then n else n.(pairing := false)
    case Message(_) => n
  }

  // ---- running what is due ---------------------------------------------------------

  /** a is to run before b. */
  predicate Before(a: Job, b: Job) {
    a.at < b.at || (a.at == b.at && a.order < b.order)
  }

  /** The due job to run first, or -1. */
  function First(jobs: seq<Job>, now: int): (i: int)
    ensures -1 <= i < |jobs|
    ensures i == -1 <==> forall k :: 0 <= k < |jobs| ==> jobs[k].at > now
    ensures i >= 0 ==> jobs[i].at <= now && forall k :: 0 <= k < |jobs| && jobs[k].at <= now ==> !Before(jobs[k], jobs[i])
  {
    if jobs == [] then -1
    else
      var last := |jobs| - 1;
      var i := First(jobs[..last], now);
      assert jobs == jobs[..last] + [jobs[last]];
      if jobs[last].at <= now && (i < 0 || Before(jobs[last], jobs[i])) then last else i
  }

  function Without(jobs: seq<Job>, i: nat): seq<Job>
    requires i < |jobs|
  {
    jobs[..i] + jobs[i + 1..]
  }

  function DueCount(jobs: seq<Job>, now: int): nat {
    if jobs == [] then 0 else (if jobs[0].at <= now then 1 else 0) + DueCount(jobs[1..], now)
  }

  lemma {:induction false} DueConcat(a: seq<Job>, b: seq<Job>, now: int)
    ensures DueCount(a + b, now) == DueCount(a, now) + DueCount(b, now)
  {
    if a == [] {
      assert a + b == b;
    } else {
      assert (a + b)[1..] == a[1..] + b;
      DueConcat(a[1..], b, now);
    }
  }

  lemma DueWithout(jobs: seq<Job>, i: nat, now: int)
    requires i < |jobs|
    ensures DueCount(Without(jobs, i), now) == DueCount(jobs, now) - (if jobs[i].at <= now then 1 else 0)
  {
    var a, b := jobs[..i], jobs[i + 1..];
    DueConcat(a, b, now);
    DueConcat(a, [jobs[i]] + b, now);
    DueConcat([jobs[i]], b, now);
    assert jobs == a + ([jobs[i]] + b);
    assert [jobs[i]][1..] == [];
  }

  /** n' has n's jobs and some more, all of them strictly later than now. */
  predicate Later(n: Node, n': Node, now: int) {
    && n.jobs <= n'.jobs && n.seq_ <= n'.seq_
    && forall k :: |n.jobs| <= k < |n'.jobs| ==> n'.jobs[k].at > now
  }

  lemma WaitsArePositive(n: Node, now: int, phase: Phase)
    ensures BurstWait(n, now, phase) > 0 && WindowTime(n, now) > now && TickTime(n, now) > now
  {
    RemRange(UnixMilli(now + n.offset), Period(n));
    RemRange(UnixMilli(now + n.offset), 4000);
    var since := now - n.boot;
    RemRange(if since >= 0 then since / 1_000_000 else -((-since) / 1_000_000), 1000);
    hide Rem;
  }

  lemma RemRange(a: int, b: int)
    requires b > 0
    ensures -b < Rem(a, b) < b && (a >= 0 ==> Rem(a, b) >= 0) && (a <= 0 ==> Rem(a, b) <= 0)
  {
  }

  /** What the remainder leaves is the quotient truncated towards zero. */
  lemma RemIsExact(a: int, b: int)
    requires b > 0
    ensures a - Rem(a, b) == if a >= 0 then b * (a / b) else -(b * ((-a) / b))
  {
  }

  /** Whatever a job schedules is strictly later than now. */
  lemma RunSchedulesLater(n: Node, now: int, task: Task, random: nat -> nat)
    ensures Later(n, Run(n, now, task, random), now)
  {
    WaitsArePositive(n, now, (n.phase + 1) % 10);
    WaitsArePositive(n.(lastTX := now), now, (n.phase + 1) % 10);
    hide WindowTime, TickTime, BurstWait;
  }

  lemma {:induction false} NoneDue(jobs: seq<Job>, now: int)
    requires forall k :: 0 <= k < |jobs| ==> jobs[k].at > now
    ensures DueCount(jobs, now) == 0
  {
    if jobs != [] {
      NoneDue(jobs[1..], now);
    }
  }

  /** So every job run leaves fewer due. */
  lemma FewerDue(n: Node, now: int, random: nat -> nat)
    requires First(n.jobs, now) >= 0
    ensures DueCount(RunFirst(n, now, random).jobs, now) < DueCount(n.jobs, now)
  {
    hide Run, Without, DueCount;
    var i := First(n.jobs, now);
    var rest := n.(jobs := Without(n.jobs, i));
    DueWithout(n.jobs, i, now);
    RunSchedulesLater(rest, now, n.jobs[i].task, random);
    LaterAddsNoDue(rest, Run(rest, now, n.jobs[i].task, random), now);
  }

  lemma LaterAddsNoDue(n: Node, n': Node, now: int)
    requires Later(n, n', now)
    ensures DueCount(n'.jobs, now) == DueCount(n.jobs, now)
  {
    hide DueCount;
    var added := n'.jobs[|n.jobs|..];
    assert n'.jobs == n.jobs + added;
    DueConcat(n.jobs, added, now);
    NoneDue(added, now);
  }

  /** Take the first due job off the queue and run it. */
  function RunFirst(n: Node, now: int, random: nat -> nat): Node
    requires First(n.jobs, now) >= 0
  {
    var i := First(n.jobs, now);
    Run(n.(jobs := Without(n.jobs, i)), now, n.jobs[i].task, random)
  }

  function RunDue(n: Node, now: int, random: nat -> nat): Node
    decreases DueCount(n.jobs, now)
  {
    if First(n.jobs, now) < 0 then n
    else
      FewerDue(n, now, random);
      RunDue(RunFirst(n, now, random), now, random)
  }

  lemma {:induction false} RunDueEnds(n: Node, now: int, random: nat -> nat)
    ensures First(RunDue(n, now, random).jobs, now) < 0
    decreases DueCount(n.jobs, now)
  {
    hide RunFirst, DueCount, First, Run;
    if First(n.jobs, now) >= 0 {
      FewerDue(n, now, random);
      RunDueEnds(RunFirst(n, now, random), now, random);
    }
  }

  /** The loop comes to an end with nothing due. */
  lemma NothingLeftDue(n: Node, now: int, random: nat -> nat)
    ensures forall j :: j in RunDue(n, now, random).jobs ==> j.at > now
  {
    RunDueEnds(n, now, random);
  }

  // ---- clocks and power -----------------------------------------------------------------

  predicate UsableClock(wall: int) {
    MIN_CLOCK < wall <= MAX_CLOCK
  }

  function Once(jobs: seq<Job>): seq<Job> {
    if jobs == [] then []
    else if KindOf(jobs[0].task) == KOnce then [jobs[0]] + Once(jobs[1..])
    else Once(jobs[1..])
  }

  predicate HasWindow(jobs: seq<Job>) {
    exists k :: 0 <= k < |jobs| && KindOf(jobs[k].task) in {KWindow, KBurst}
  }

  predicate HasTick(jobs: seq<Job>) {
    exists k :: 0 <= k < |jobs| && KindOf(jobs[k].task) == KTick
  }

  /** Start both repeating chains afresh by the wall clock, if the device is on. */
  function StartAligned(n: Node, now: int): Node {
    if n.off then n
    else
      var n1 := n.(jobs := Once(n.jobs));
      var n2 := Add(n1, WindowTime(n1, now), Window);
      Add(n2, TickTime(n2, now), MeshTick)
  }

  function StopPairing(n: Node): Node {
    n.(pairing := false)
  }

  function PowerOff(n: Node): Node {
    if n.off then n else StopPairing(n).(off := true, jobs := [])
  }

  function PowerOn(n: Node, now: int): Node {
    if !n.off then n
    else
      var n1 := n.(off := false);
      var n2 := if HasWindow(n1.jobs) then n1 else Add(n1, WindowTime(n1, now), Window);
      if n2.clockSet && !HasTick(n2.jobs) then Add(n2, TickTime(n2, now), MeshTick) else n2
  }

  /** A reading: the time of a usable fix, whether the windows run at the fast period, and whether the battery has just run down. */
  datatype Reading = Reading(fix: Option<int>, fast: bool, empty: bool)

  /** A GNSS fix sets the clock each time, and the windows by it the first time. */
  function Lock(n: Node, now: int, wall: int): Node {
    if !UsableClock(wall) then n
    else
      var c := n.(offset := wall - now, clockSet := true);
      if c.gnssClock then c else StartAligned(c.(gnssClock := true), now)
  }

  function Read(n: Node, now: int, r: Reading): Node {
    var n1 := n.(fast := r.fast);
    var n2 := if r.fix.Some? then Lock(n1, now, r.fix.value) else n1;
    if r.empty then PowerOff(n2) else n2
  }

  /** A peer's clock, taken by a node that has none and has been up for 30 s. */
  function AdoptClock(n: Node, now: int, wall: int): Node {
    if n.clockSet || n.gnssClock || now - n.boot < 30_000_000_000 || !UsableClock(wall) then n
    else StartAligned(n.(offset := wall - now, clockSet := true), now)
  }

  function SetClock(n: Node, now: int, wall: int, r: Reading): Node {
    if !UsableClock(wall) then n
    else Read(StartAligned(n.(offset := wall - now, clockSet := true, gnssClock := true), now), now, r)
  }

  function Pair(n: Node, now: int, full: bool, random: nat -> nat): Node {
    if n.off || n.pairing || full then n
    else
      var n1 := n.(pairing := true, pairEnd := now + 6_000_000_000);
      Add(Run(n1, now, PairLoop, random), n1.pairEnd, PairEnd)
  }

  /** What a gesture, a frame or the console makes the node do. */
  datatype Act =
    | DoPair(full: bool)
    | DoStopPairing
    | DoPowerOff
    | DoPowerOn
    | DoAdopt(wall: int)
    | DoLater(after: nat, id: nat)     // a frame to send in a moment

  function Do(n: Node, now: int, a: Act, random: nat -> nat): Node {
    match a
    case DoPair(full) => Pair(n, now, full, random)
    case DoStopPairing => StopPairing(n)
    case DoPowerOff => PowerOff(n)
    case DoPowerOn => PowerOn(n, now)
    case DoAdopt(wall) => AdoptClock(n, now, wall)
    case DoLater(after, id) => Add(n, now + after * MS, Message(id))
  }

  function DoAll(n: Node, now: int, acts: seq<Act>, random: nat -> nat): Node
    decreases |acts|
  {
    if acts == [] then n else DoAll(Do(n, now, acts[0], random), now, acts[1..], random)
  }

  /** A node fresh from its constructor, before its first reading. */
  function New(now: int, never: int, fast: bool): Node {
    Node([], 0, false, false, false, 0, now, never, 0, fast, false, 0)
  }

  /** A new node takes a reading and then arms a window, unless the reading did or switched it off. */
  function Boot(now: int, never: int, r: Reading): Node {
    var n := Read(New(now, never, false), now, r);
    if !n.off && !HasWindow(n.jobs) then Add(n, WindowTime(n, now), Window) else n
  }

  datatype Event =
    | Polled(now: int, r: Reading, acts: seq<Act>)
    | Heard(now: int, r: Reading, acts: seq<Act>)
    | ClockSet(now: int, wall: int, r: Reading)
    | Told(now: int, acts: seq<Act>)

  /** Poll: take a reading, act on the inputs, then run every due job. */
  function Poll(n: Node, now: int, r: Reading, acts: seq<Act>, random: nat -> nat): Node
  {
    RunDue(DoAll(Read(n, now, r), now, acts, random), now, random)
  }

  function Handle(n: Node, e: Event, random: nat -> nat): Node
  {
    match e
    case Polled(now, r, acts) => Poll(n, now, r, acts, random)
    case Heard(now, r, acts) =>
      var n1 := Read(n, now, r);
      if n1.off then n1 else DoAll(n1, now, acts, random)
    case ClockSet(now, wall, r) => SetClock(n, now, wall, r)
    case Told(now, acts) => DoAll(n, now, acts, random)
  }

  // ---- the chains -----------------------------------------------------------------------------

  function Count(jobs: seq<Job>, k: Kind): nat {
    if jobs == [] then 0 else (if KindOf(jobs[0].task) == k then 1 else 0) + Count(jobs[1..], k)
  }

  /** A pending burst comes before the window that ends its chain. */
  predicate BurstsFirst(jobs: seq<Job>) {
    forall i, j :: 0 <= i < |jobs| && 0 <= j < |jobs| && jobs[i].task.Burst? && jobs[j].task.Window? ==>
      jobs[i].at < jobs[j].at && jobs[i].task.start + NO_SAT_PERIOD == jobs[j].at
  }

  /**
   While on, one window is pending, and one mesh tick exactly when the clock is set;
   a burst only without a clock. While off, none of them.
   */
  predicate Chains(n: Node) {
    && Count(n.jobs, KWindow) == (if n.off then 0 else 1)
    && Count(n.jobs, KTick) == (if !n.off && n.clockSet then 1 else 0)
    && Count(n.jobs, KBurst) <= (if n.off || n.clockSet then 0 else 1)
    && BurstsFirst(n.jobs)
  }

  /** Jobs are numbered in the order they were queued. */
  predicate Numbered(n: Node) {
    Ordered(n.jobs, n.seq_)
  }

  predicate Ordered(jobs: seq<Job>, top: nat) {
    && (forall i, j :: 0 <= i < j < |jobs| ==> jobs[i].order < jobs[j].order)
    && (forall i :: 0 <= i < |jobs| ==> jobs[i].order <= top)
  }

  predicate Sane(n: Node) {
    Chains(n) && Numbered(n) && (n.gnssClock ==> n.clockSet)
  }

  lemma {:induction false} CountConcat(a: seq<Job>, b: seq<Job>, k: Kind)
    ensures Count(a + b, k) == Count(a, k) + Count(b, k)
  {
    if a == [] {
      assert a + b == b;
    } else {
      assert (a + b)[1..] == a[1..] + b;
      CountConcat(a[1..], b, k);
    }
  }

  lemma CountAdd(n: Node, at: int, task: Task, k: Kind)
    ensures Count(Add(n, at, task).jobs, k) == Count(n.jobs, k) + (if KindOf(task) == k then 1 else 0)
  {
    var j := [Job(at, n.seq_ + 1, task)];
    CountConcat(n.jobs, j, k);
    assert j[1..] == [];
  }

  lemma CountWithout(jobs: seq<Job>, i: nat, k: Kind)
    requires i < |jobs|
    ensures Count(Without(jobs, i), k) == Count(jobs, k) - (if KindOf(jobs[i].task) == k then 1 else 0)
  {
    var a, b, j := jobs[..i], jobs[i + 1..], [jobs[i]];
    assert jobs == a + (j + b) && j[1..] == [];
    CountConcat(a, b, k);
    CountConcat(a, j + b, k);
    CountConcat(j, b, k);
  }

  lemma {:induction false} CountZero(jobs: seq<Job>, k: Kind)
    ensures Count(jobs, k) == 0 <==> forall i :: 0 <= i < |jobs| ==> KindOf(jobs[i].task) != k
  {
    if jobs != [] {
      CountZero(jobs[1..], k);
      assert forall i :: 0 < i < |jobs| ==> jobs[i] == jobs[1..][i - 1];
    }
  }

  lemma {:induction false} OnceCounts(jobs: seq<Job>, k: Kind)
    ensures Count(Once(jobs), k) == if k == KOnce then Count(jobs, k) else 0
  {
    if jobs != [] {
      OnceCounts(jobs[1..], k);
    }
  }

  lemma {:induction false} OnceSelects(jobs: seq<Job>)
    ensures forall x :: x in Once(jobs) ==> x in jobs
  {
    if jobs != [] {
      OnceSelects(jobs[1..]);
      assert forall x :: x in jobs[1..] ==> x in jobs;
      assert jobs[0] in jobs;
    }
  }

  lemma {:induction false} OnceKeepsOrder(jobs: seq<Job>, top: nat)
    requires Ordered(jobs, top)
    ensures Ordered(Once(jobs), top)
  {
    if jobs != [] {
      var rest := jobs[1..];
      assert forall i :: 0 <= i < |rest| ==> rest[i] == jobs[i + 1];
      OnceKeepsOrder(rest, top);
      OnceSelects(rest);
      var o := Once(rest);
      forall i | 0 <= i < |o|
        ensures jobs[0].order < o[i].order
      {
        assert o[i] in rest;
      }
    }
  }

  // ---- each operation keeps them -----------------------------------------------------------------

  lemma AddKeepsNumbers(n: Node, at: int, task: Task)
    requires Numbered(n)
    ensures Numbered(Add(n, at, task))
  {
  }

  /** A single frame, a pairing step or the end of a window leaves the chains alone. */
  lemma AddOnce(n: Node, at: int, task: Task)
    requires Sane(n) && KindOf(task) == KOnce
    ensures Sane(Add(n, at, task))
  {
    CountAdd(n, at, task, KWindow);
    CountAdd(n, at, task, KTick);
    CountAdd(n, at, task, KBurst);
    AddKeepsNumbers(n, at, task);
    hide Count;
  }

  predicate Bare(jobs: seq<Job>) {
    Count(jobs, KWindow) == 0 && Count(jobs, KTick) == 0 && Count(jobs, KBurst) == 0
  }

  /** Without a burst pending, a window of any time is ahead of none. */
  lemma NoBurst(jobs: seq<Job>)
    requires Count(jobs, KBurst) == 0
    ensures BurstsFirst(jobs)
  {
    CountZero(jobs, KBurst);
    hide Count;
    assert forall i :: 0 <= i < |jobs| && jobs[i].task.Burst? ==> KindOf(jobs[i].task) == KBurst;
  }

  /** Arming one window, and a tick if the clock is set, on a node that has neither. */
  lemma ArmBoth(n: Node, at: int, tick: int)
    requires Bare(n.jobs) && Numbered(n) && !n.off && (n.gnssClock ==> n.clockSet)
    ensures var n1 := Add(n, at, Window); Sane(if n.clockSet then Add(n1, tick, MeshTick) else n1)
  {
    var n1 := Add(n, at, Window);
    var n2 := Add(n1, tick, MeshTick);
    forall k ensures Count(n1.jobs, k) == Count(n.jobs, k) + (if k == KWindow then 1 else 0)
    {
      CountAdd(n, at, Window, k);
    }
    forall k ensures Count(n2.jobs, k) == Count(n1.jobs, k) + (if k == KTick then 1 else 0)
    {
      CountAdd(n1, tick, MeshTick, k);
    }
    AddKeepsNumbers(n, at, Window);
    AddKeepsNumbers(n1, tick, MeshTick);
    NoBurst(n1.jobs);
    NoBurst(n2.jobs);
    hide Count, BurstsFirst, Ordered;
  }

  lemma StartAlignedKeeps(n: Node, now: int)
    requires Numbered(n) && n.clockSet && (n.off ==> Bare(n.jobs))
    ensures Sane(StartAligned(n, now))
  {
    if n.off {
      NoBurst(n.jobs);
    } else {
      var n1 := n.(jobs := Once(n.jobs));
      forall k ensures Count(n1.jobs, k) == if k == KOnce then Count(n.jobs, k) else 0
      {
        OnceCounts(n.jobs, k);
      }
      OnceKeepsOrder(n.jobs, n.seq_);
      ArmBoth(n1, WindowTime(n1, now), TickTime(Add(n1, WindowTime(n1, now), Window), now));
    }
  }

  lemma PowerOffKeeps(n: Node)
    requires Sane(n)
    ensures Sane(PowerOff(n)) && PowerOff(n).off
  {
  }

  lemma PowerOnKeeps(n: Node, now: int)
    requires Sane(n)
    ensures Sane(PowerOn(n, now)) && !PowerOn(n, now).off
  {
    if n.off {
      var n1 := n.(off := false);
      forall k ensures Count(n1.jobs, k) == 0 <==> forall i :: 0 <= i < |n1.jobs| ==> KindOf(n1.jobs[i].task) != k
      {
        CountZero(n1.jobs, k);
      }
      hide Count;
      assert !HasWindow(n1.jobs) && !HasTick(n1.jobs);
      var n2 := Add(n1, WindowTime(n1, now), Window);
      assert !HasTick(n2.jobs);
      ArmBoth(n1, WindowTime(n1, now), TickTime(n2, now));
    }
  }

  lemma LockKeeps(n: Node, now: int, wall: int)
    requires Sane(n)
    ensures Sane(Lock(n, now, wall))
  {
    if UsableClock(wall) {
      var c := n.(offset := wall - now, clockSet := true);
      if c.gnssClock {
        assert Sane(c);
      } else {
        StartAlignedKeeps(c.(gnssClock := true), now);
      }
    }
  }

  lemma ReadKeeps(n: Node, now: int, r: Reading)
    requires Sane(n)
    ensures Sane(Read(n, now, r))
  {
    var n1 := n.(fast := r.fast);
    assert Sane(n1);
    hide Sane, Lock, PowerOff;
    if r.fix.Some? {
      LockKeeps(n1, now, r.fix.value);
      PowerOffKeeps(Lock(n1, now, r.fix.value));
    }
    PowerOffKeeps(n1);
  }

  lemma DoKeeps(n: Node, now: int, a: Act, random: nat -> nat)
    requires Sane(n)
    ensures Sane(Do(n, now, a, random))
  {
    match a
    case DoPair(full) =>
      if !n.off && !n.pairing && !full {
        var n1 := n.(pairing := true, pairEnd := now + 6_000_000_000);
        assert Sane(n1);
        var at := now + (50 + random(n1.seq_) % 50) * MS;
        AddOnce(n1, at, PairLoop);
        AddOnce(Add(n1, at, PairLoop), n1.pairEnd, PairEnd);
      }
    case DoStopPairing => assert Sane(StopPairing(n));
    case DoPowerOff => PowerOffKeeps(n);
    case DoPowerOn => PowerOnKeeps(n, now);
    case DoAdopt(wall) =>
      if !n.clockSet {
        StartAlignedKeeps(n.(offset := wall - now, clockSet := true), now);
      }
    case DoLater(after, id) => AddOnce(n, now + after * MS, Message(id));
  }

  // ---- running a job keeps them ---------------------------------------------------------------------

  lemma WithoutKeeps(n: Node, i: nat)
    requires i < |n.jobs| && Numbered(n) && BurstsFirst(n.jobs)
    ensures var rest := n.(jobs := Without(n.jobs, i)); Numbered(rest) && BurstsFirst(rest.jobs)
  {
    var rest := Without(n.jobs, i);
    assert forall k :: 0 <= k < |rest| ==> rest[k] == n.jobs[if k < i then k else k + 1];
  }

  lemma AddKeepsBursts(jobs: seq<Job>, j: Job)
    requires BurstsFirst(jobs)
    requires j.task.Burst? ==> forall k :: 0 <= k < |jobs| && jobs[k].task.Window? ==>
                                 j.at < jobs[k].at && j.task.start + NO_SAT_PERIOD == jobs[k].at
    requires j.task.Window? ==> forall k :: 0 <= k < |jobs| && jobs[k].task.Burst? ==>
                                  jobs[k].at < j.at && jobs[k].task.start + NO_SAT_PERIOD == j.at
    ensures BurstsFirst(jobs + [j])
  {
  }

  /** A window's turn comes only when no burst is pending: a burst is due before the window that ends its chain. */
  lemma WindowAfterBursts(n: Node, now: int, i: nat)
    requires Sane(n) && First(n.jobs, now) == i && n.jobs[i].task.Window?
    ensures Count(n.jobs, KBurst) == 0
  {
    hide Count;
    forall k | 0 <= k < |n.jobs|
      ensures KindOf(n.jobs[k].task) != KBurst
    {
    }
    CountZero(n.jobs, KBurst);
  }

  /** What is true of the queue with job i taken off it. */
  predicate Popped(n: Node, k: Kind) {
    && Numbered(n) && BurstsFirst(n.jobs) && (n.gnssClock ==> n.clockSet)
    && Count(n.jobs, KWindow) == (if n.off || k == KWindow then 0 else 1)
    && Count(n.jobs, KTick) == (if n.off || !n.clockSet || k == KTick then 0 else 1)
    && Count(n.jobs, KBurst) <= (if n.off || n.clockSet || k == KBurst then 0 else 1)
    && (k != KOnce ==> !n.off) && (k == KTick ==> n.clockSet) && (k == KBurst ==> !n.clockSet)
  }

  lemma PopFirst(n: Node, i: nat)
    requires Sane(n) && i < |n.jobs|
    ensures Popped(n.(jobs := Without(n.jobs, i)), KindOf(n.jobs[i].task))
  {
    forall k ensures Count(Without(n.jobs, i), k) == Count(n.jobs, k) - (if KindOf(n.jobs[i].task) == k then 1 else 0)
    {
      CountWithout(n.jobs, i, k);
    }
    WithoutKeeps(n, i);
    hide Count, Without, Ordered, BurstsFirst;
  }

  /** A chain without a burst pending, and whose window, if any is pending, opens 5 s after start. */
  predicate Quiet(n: Node, start: int) {
    && !n.off && !n.clockSet && Numbered(n) && BurstsFirst(n.jobs) && (n.gnssClock ==> n.clockSet)
    && Count(n.jobs, KWindow) <= 1 && Count(n.jobs, KTick) == 0 && Count(n.jobs, KBurst) == 0
    && forall k :: 0 <= k < |n.jobs| && n.jobs[k].task.Window? ==> start + NO_SAT_PERIOD == n.jobs[k].at
  }

  /** The same chain with at most one burst of its own. */
  predicate Bursting(n: Node, n': Node, start: int) {
    && n' == n.(jobs := n'.jobs, seq_ := n'.seq_, phase := n'.phase) && Numbered(n') && BurstsFirst(n'.jobs)
    && Count(n'.jobs, KWindow) == Count(n.jobs, KWindow) && Count(n'.jobs, KTick) == 0 && Count(n'.jobs, KBurst) <= 1
    && forall k :: 0 <= k < |n'.jobs| && n'.jobs[k].task.Burst? ==> BurstOf(n'.jobs[k], start)
  }

  lemma NoBurstOf(n: Node, start: int)
    requires Quiet(n, start)
    ensures forall k :: 0 <= k < |n.jobs| ==> !n.jobs[k].task.Burst?
  {
    CountZero(n.jobs, KBurst);
    hide Count;
    assert forall k :: 0 <= k < |n.jobs| && n.jobs[k].task.Burst? ==> KindOf(n.jobs[k].task) == KBurst;
  }

  lemma AddBurst(n: Node, at: int, start: int, count: nat)
    requires Quiet(n, start) && at < start + NO_SAT_PERIOD
    ensures Bursting(n, Add(n, at, Burst(start, count)), start)
  {
    var task := Burst(start, count);
    CountAdd(n, at, task, KWindow);
    CountAdd(n, at, task, KTick);
    CountAdd(n, at, task, KBurst);
    NoBurstOf(n, start);
    AddKeepsNumbers(n, at, task);
    AddKeepsBursts(n.jobs, Job(at, n.seq_ + 1, task));
    hide Count, Ordered, BurstsFirst;
  }

  /** A burst puts at most one more on the queue, before the window that ends the chain. */
  lemma RunBurstKeeps(n: Node, now: int, start: int, count: nat)
    requires Quiet(n, start)
    ensures Bursting(n, RunBurst(n, now, start, count), start)
  {
    var phase := (n.phase + 1) % 10;
    var at := now + BurstWait(n, now, phase);
    var n1 := n.(phase := phase);
    assert Quiet(n1, start);
    NoBurstOf(n, start);
    hide BurstWait, Count, Ordered, BurstsFirst;
    if count + 1 < 3 && at - start <= 2_500_000_000 {
      AddBurst(n1, at, start, count + 1);
    }
  }

  predicate BurstOf(j: Job, start: int)
    requires j.task.Burst?
  {
    j.at < start + NO_SAT_PERIOD && j.task.start == start
  }

  lemma AddWindow(n: Node, at: int)
    requires Popped(n, KWindow)
    requires forall k :: 0 <= k < |n.jobs| && n.jobs[k].task.Burst? ==>
               n.jobs[k].at < at && n.jobs[k].task.start + NO_SAT_PERIOD == at
    ensures Sane(Add(n, at, Window))
  {
    forall k ensures Count(Add(n, at, Window).jobs, k) == Count(n.jobs, k) + (if KWindow == k then 1 else 0)
    {
      CountAdd(n, at, Window, k);
    }
    AddKeepsNumbers(n, at, Window);
    AddKeepsBursts(n.jobs, Job(at, n.seq_ + 1, Window));
    hide Count, Ordered, BurstsFirst;
  }

  lemma AddTick(n: Node, at: int)
    requires Popped(n, KTick)
    ensures Sane(Add(n, at, MeshTick))
  {
    forall k ensures Count(Add(n, at, MeshTick).jobs, k) == Count(n.jobs, k) + (if KTick == k then 1 else 0)
    {
      CountAdd(n, at, MeshTick, k);
    }
    AddKeepsNumbers(n, at, MeshTick);
    AddKeepsBursts(n.jobs, Job(at, n.seq_ + 1, MeshTick));
    hide Count, Ordered, BurstsFirst;
  }

  lemma RunWindowKeeps(n: Node, now: int, random: nat -> nat)
    requires Popped(n, KWindow) && Count(n.jobs, KBurst) == 0
    ensures Sane(Run(n, now, Window, random))
  {
    var n1 := n.(lastTX := now);
    CountZero(n.jobs, KBurst);
    CountZero(n.jobs, KWindow);
    hide Count, Ordered, BurstsFirst, WindowTime;
    assert forall k :: 0 <= k < |n.jobs| ==> KindOf(n.jobs[k].task) == KBurst || !n.jobs[k].task.Burst?;
    assert forall k :: 0 <= k < |n.jobs| ==> KindOf(n.jobs[k].task) == KWindow || !n.jobs[k].task.Window?;
    if n.clockSet {
      AddWindow(n1, WindowTime(n1, now));
    } else {
      RunBurstKeeps(n1, now, now, 0);
      hide RunBurst;
      AddWindow(RunBurst(n1, now, now, 0), now + NO_SAT_PERIOD);
    }
  }

  lemma RunBurstJobKeeps(n: Node, now: int, task: Task, random: nat -> nat)
    requires task.Burst? && Popped(n, KBurst)
    requires forall k :: 0 <= k < |n.jobs| && n.jobs[k].task.Window? ==> task.start + NO_SAT_PERIOD == n.jobs[k].at
    ensures Sane(Run(n, now, task, random))
  {
    hide Count, Ordered, BurstsFirst;
    RunBurstKeeps(n, now, task.start, task.count);
    hide RunBurst;
  }

  lemma RunTickKeeps(n: Node, now: int, random: nat -> nat)
    requires Popped(n, KTick)
    ensures Sane(Run(n, now, MeshTick, random))
  {
    hide Sane, Popped, TickTime, Add;
    AddTick(n, TickTime(n, now));
  }

  lemma RunOnceKeeps(n: Node, now: int, task: Task, random: nat -> nat)
    requires KindOf(task) == KOnce && Popped(n, KOnce)
    ensures Sane(Run(n, now, task, random))
  {
    hide Count, Ordered, BurstsFirst;
    assert Sane(n) && Sane(n.(pairing := false));
    hide Sane, Add;
    AddOnce(n, now + (50 + random(n.seq_) % 50) * MS, PairLoop);
  }

  /** The windows left when a burst is taken off are those it was queued before. */
  lemma RestOfChain(n: Node, i: nat)
    requires i < |n.jobs| && n.jobs[i].task.Burst? && BurstsFirst(n.jobs)
    ensures var rest := Without(n.jobs, i);
      forall k :: 0 <= k < |rest| && rest[k].task.Window? ==> n.jobs[i].task.start + NO_SAT_PERIOD == rest[k].at
  {
    var rest := Without(n.jobs, i);
    assert forall k :: 0 <= k < |rest| ==> rest[k] == n.jobs[if k < i then k else k + 1];
  }

  /** The first due job off the queue and run: the chains are as they were. */
  lemma RunFirstKeeps(n: Node, now: int, random: nat -> nat)
    requires Sane(n) && First(n.jobs, now) >= 0
    ensures Sane(RunFirst(n, now, random))
  {
    var i := First(n.jobs, now);
    var task := n.jobs[i].task;
    var rest := n.(jobs := Without(n.jobs, i));
    PopFirst(n, i);
    CountWithout(n.jobs, i, KBurst);
    if task.Window? {
      WindowAfterBursts(n, now, i);
    } else if task.Burst? {
      RestOfChain(n, i);
    }
    hide Sane, Popped, Count, Run, First, Without, BurstsFirst;
    match task
    case Window => RunWindowKeeps(rest, now, random);
    case Burst(_, _) => RunBurstJobKeeps(rest, now, task, random);
    case MeshTick => RunTickKeeps(rest, now, random);
    case _ => RunOnceKeeps(rest, now, task, random);
  }

  lemma {:induction false} RunDueKeeps(n: Node, now: int, random: nat -> nat)
    requires Sane(n)
    ensures Sane(RunDue(n, now, random))
    decreases DueCount(n.jobs, now)
  {
    hide RunFirst, DueCount, First, Run, Sane;
    if First(n.jobs, now) >= 0 {
      FewerDue(n, now, random);
      RunFirstKeeps(n, now, random);
      RunDueKeeps(RunFirst(n, now, random), now, random);
    }
  }

  // ---- whole runs ---------------------------------------------------------------------------------------

  lemma {:induction false} DoAllKeeps(n: Node, now: int, acts: seq<Act>, random: nat -> nat)
    requires Sane(n)
    ensures Sane(DoAll(n, now, acts, random))
    decreases |acts|
  {
    hide Sane, Do;
    if acts != [] {
      DoKeeps(n, now, acts[0], random);
      DoAllKeeps(Do(n, now, acts[0], random), now, acts[1..], random);
    }
  }

  lemma SetClockKeeps(n: Node, now: int, wall: int, r: Reading)
    requires Sane(n)
    ensures Sane(SetClock(n, now, wall, r))
  {
    if UsableClock(wall) {
      var c := n.(offset := wall - now, clockSet := true, gnssClock := true);
      StartAlignedKeeps(c, now);
      hide Sane, Read, StartAligned;
      ReadKeeps(StartAligned(c, now), now, r);
    }
  }

  lemma HandleKeeps(n: Node, e: Event, random: nat -> nat)
    requires Sane(n)
    ensures Sane(Handle(n, e, random))
  {
    hide Sane, Read, DoAll, SetClock, RunDue;
    match e
    case Polled(now, r, acts) =>
      ReadKeeps(n, now, r);
      DoAllKeeps(Read(n, now, r), now, acts, random);
      RunDueKeeps(DoAll(Read(n, now, r), now, acts, random), now, random);
    case Heard(now, r, acts) =>
      ReadKeeps(n, now, r);
      DoAllKeeps(Read(n, now, r), now, acts, random);
    case ClockSet(now, wall, r) => SetClockKeeps(n, now, wall, r);
    case Told(now, acts) => DoAllKeeps(n, now, acts, random);
  }

  lemma LockedAtBoot(now: int, never: int, fast: bool, wall: int)
    requires UsableClock(wall)
    ensures var n := Lock(New(now, never, fast), now, wall); Sane(n) && !n.off && HasWindow(n.jobs)
  {
    var c := New(now, never, fast).(offset := wall - now, clockSet := true, gnssClock := true);
    StartAlignedKeeps(c, now);
    CountZero(StartAligned(c, now).jobs, KWindow);
    hide Count, WindowTime, TickTime, Once;
  }

  lemma BootIsSane(now: int, never: int, r: Reading)
    ensures Sane(Boot(now, never, r))
  {
    var n := New(now, never, r.fast);
    if r.fix.Some? && UsableClock(r.fix.value) {
      LockedAtBoot(now, never, r.fast, r.fix.value);
      hide Lock, Sane;
      PowerOffKeeps(Lock(n, now, r.fix.value));
    } else if !r.empty {
      ArmBoth(n, WindowTime(n, now), 0);
      hide WindowTime;
    }
  }

  function After(n: Node, events: seq<Event>, random: nat -> nat): Node
    decreases |events|
  {
    if events == [] then n else After(Handle(n, events[0], random), events[1..], random)
  }

  /** From power-up on, through anything: one window chain while on, and one mesh tick exactly when the clock is set. */
  lemma {:induction false} EveryRun(n: Node, events: seq<Event>, random: nat -> nat)
    requires Sane(n)
    ensures Sane(After(n, events, random))
    decreases |events|
  {
    hide Sane, Handle;
    if events != [] {
      HandleKeeps(n, events[0], random);
      EveryRun(Handle(n, events[0], random), events[1..], random);
    }
  }

  // ---- when the next window is ----------------------------------------------------------------------------

  const LONGEST := 5_075_000_000

  /** No window is further off than the longest period, given a clock that is past the epoch. */
  predicate Timely(n: Node, now: int) {
    && n.lastTX <= now && (n.clockSet ==> now + n.offset >= 0)
    && forall k :: 0 <= k < |n.jobs| && n.jobs[k].task.Window? ==> n.jobs[k].at <= now + LONGEST
  }

  lemma TimelyLater(n: Node, now: int, later: int)
    requires Timely(n, now) && now <= later
    ensures Timely(n, later)
  {
  }

  lemma MilliIsPositive(t: int)
    requires t >= 0
    ensures UnixMilli(t) >= 0
  {
  }

  lemma WindowIsSoon(n: Node, now: int)
    requires n.lastTX <= now && (n.clockSet ==> now + n.offset >= 0)
    ensures WindowTime(n, now) <= now + LONGEST
  {
    RemRange(UnixMilli(now + n.offset), Period(n));
    if n.clockSet {
      MilliIsPositive(now + n.offset);
    }
    hide Rem, UnixMilli;
  }

  lemma AddTimely(n: Node, now: int, at: int, task: Task)
    requires Timely(n, now) && (task.Window? ==> at <= now + LONGEST)
    ensures Timely(Add(n, at, task), now)
  {
  }

  lemma {:induction false} OnceTimely(n: Node, now: int)
    requires n.lastTX <= now && (n.clockSet ==> now + n.offset >= 0)
    ensures Timely(n.(jobs := Once(n.jobs)), now)
  {
    OnceHasNoWindow(n.jobs);
  }

  lemma {:induction false} OnceHasNoWindow(jobs: seq<Job>)
    ensures forall k :: 0 <= k < |Once(jobs)| ==> !Once(jobs)[k].task.Window?
  {
    if jobs != [] {
      OnceHasNoWindow(jobs[1..]);
    }
  }

  lemma StartAlignedTimely(n: Node, now: int)
    requires Timely(n.(jobs := []), now) && (n.off ==> Timely(n, now))
    ensures Timely(StartAligned(n, now), now)
  {
    if !n.off {
      var n1 := n.(jobs := Once(n.jobs));
      OnceTimely(n, now);
      WindowIsSoon(n1, now);
      hide WindowTime, TickTime, Timely, Once;
      AddTimely(n1, now, WindowTime(n1, now), Window);
      var n2 := Add(n1, WindowTime(n1, now), Window);
      AddTimely(n2, now, TickTime(n2, now), MeshTick);
    }
  }

  lemma LockTimely(n: Node, now: int, wall: int)
    requires Timely(n, now)
    ensures Timely(Lock(n, now, wall), now)
  {
    if UsableClock(wall) {
      var c := n.(offset := wall - now, clockSet := true);
      assert Timely(c, now);
      if !c.gnssClock {
        StartAlignedTimely(c.(gnssClock := true), now);
      }
    }
  }

  lemma ReadTimely(n: Node, now: int, r: Reading)
    requires Timely(n, now)
    ensures Timely(Read(n, now, r), now)
  {
    var n1 := n.(fast := r.fast);
    assert Timely(n1, now);
    if r.fix.Some? {
      LockTimely(n1, now, r.fix.value);
    }
    hide Lock;
  }

  lemma PowerOnTimely(n: Node, now: int)
    requires Timely(n, now)
    ensures Timely(PowerOn(n, now), now)
  {
    if n.off {
      var n1 := n.(off := false);
      assert Timely(n1, now);
      WindowIsSoon(n1, now);
      hide WindowTime, TickTime, Timely;
      AddTimely(n1, now, WindowTime(n1, now), Window);
      var n2 := if HasWindow(n1.jobs) then n1 else Add(n1, WindowTime(n1, now), Window);
      AddTimely(n2, now, TickTime(n2, now), MeshTick);
    }
  }

  lemma PairTimely(n: Node, now: int, full: bool, random: nat -> nat)
    requires Timely(n, now)
    ensures Timely(Pair(n, now, full, random), now)
  {
    if !n.off && !n.pairing && !full {
      var n1 := n.(pairing := true, pairEnd := now + 6_000_000_000);
      assert Timely(n1, now);
      var at := now + (50 + random(n1.seq_) % 50) * MS;
      hide Timely;
      AddTimely(n1, now, at, PairLoop);
      AddTimely(Add(n1, at, PairLoop), now, n1.pairEnd, PairEnd);
    }
  }

  lemma DoTimely(n: Node, now: int, a: Act, random: nat -> nat)
    requires Timely(n, now)
    ensures Timely(Do(n, now, a, random), now)
  {
    match a
    case DoPair(full) => PairTimely(n, now, full, random);
    case DoPowerOn => PowerOnTimely(n, now);
    case DoAdopt(wall) =>
      if UsableClock(wall) {
        var c := n.(offset := wall - now, clockSet := true);
        assert Timely(c, now) && Timely(c.(jobs := []), now);
        StartAlignedTimely(c, now);
      }
      hide StartAligned;
    case DoLater(after, id) => AddTimely(n, now, now + after * MS, Message(id));
    case _ =>
  }

  lemma {:induction false} DoAllTimely(n: Node, now: int, acts: seq<Act>, random: nat -> nat)
    requires Timely(n, now)
    ensures Timely(DoAll(n, now, acts, random), now)
    decreases |acts|
  {
    hide Timely, Do;
    if acts != [] {
      DoTimely(n, now, acts[0], random);
      DoAllTimely(Do(n, now, acts[0], random), now, acts[1..], random);
    }
  }

  lemma RunBurstTimely(n: Node, now: int, start: int, count: nat)
    requires Timely(n, now)
    ensures Timely(RunBurst(n, now, start, count), now)
  {
    var phase := (n.phase + 1) % 10;
    var n1 := n.(phase := phase);
    assert Timely(n1, now);
    hide Timely, BurstWait;
    AddTimely(n1, now, now + BurstWait(n, now, phase), Burst(start, count + 1));
  }

  lemma RunTimely(n: Node, now: int, task: Task, random: nat -> nat)
    requires Timely(n, now)
    ensures Timely(Run(n, now, task, random), now)
  {
    var n1 := n.(lastTX := now);
    assert Timely(n1, now) && Timely(n.(pairing := false), now);
    match task
    case Window =>
      WindowIsSoon(n1, now);
      RunBurstTimely(n1, now, now, 0);
      hide Timely, WindowTime, RunBurst;
      AddTimely(n1, now, WindowTime(n1, now), Window);
      AddTimely(RunBurst(n1, now, now, 0), now, now + NO_SAT_PERIOD, Window);
    case Burst(start, count) => RunBurstTimely(n, now, start, count);
    case MeshTick => AddTimely(n, now, TickTime(n, now), MeshTick);
    case PairLoop => AddTimely(n, now, now + (50 + random(n.seq_) % 50) * MS, PairLoop);
    case _ =>
  }

  lemma RunFirstTimely(n: Node, now: int, random: nat -> nat)
    requires Timely(n, now) && First(n.jobs, now) >= 0
    ensures Timely(RunFirst(n, now, random), now)
  {
    var i := First(n.jobs, now);
    var rest := n.(jobs := Without(n.jobs, i));
    assert forall k :: 0 <= k < |rest.jobs| ==> rest.jobs[k] == n.jobs[if k < i then k else k + 1];
    assert Timely(rest, now);
    hide Timely, First, Run, Without;
    RunTimely(rest, now, n.jobs[i].task, random);
  }

  lemma {:induction false} RunDueTimely(n: Node, now: int, random: nat -> nat)
    requires Timely(n, now)
    ensures Timely(RunDue(n, now, random), now)
    decreases DueCount(n.jobs, now)
  {
    hide Timely, DueCount, First, RunFirst;
    if First(n.jobs, now) >= 0 {
      FewerDue(n, now, random);
      RunFirstTimely(n, now, random);
      RunDueTimely(RunFirst(n, now, random), now, random);
    }
  }

  lemma HandleTimely(n: Node, e: Event, random: nat -> nat)
    requires Timely(n, e.now)
    ensures Timely(Handle(n, e, random), e.now)
  {
    match e
    case Polled(now, r, acts) =>
      ReadTimely(n, now, r);
      hide Timely, Read, DoAll, RunDue;
      DoAllTimely(Read(n, now, r), now, acts, random);
      RunDueTimely(DoAll(Read(n, now, r), now, acts, random), now, random);
    case Heard(now, r, acts) =>
      ReadTimely(n, now, r);
      hide Timely, Read, DoAll;
      DoAllTimely(Read(n, now, r), now, acts, random);
    case ClockSet(now, wall, r) =>
      if UsableClock(wall) {
        var c := n.(offset := wall - now, clockSet := true, gnssClock := true);
        assert Timely(c, now) && Timely(c.(jobs := []), now);
        StartAlignedTimely(c, now);
        hide Timely, Read, StartAligned;
        ReadTimely(StartAligned(c, now), now, r);
      }
    case Told(now, acts) =>
      hide Timely, DoAll;
      DoAllTimely(n, now, acts, random);
  }

  lemma BootIsTimely(now: int, never: int, r: Reading)
    requires never <= now
    ensures Timely(Boot(now, never, r), now)
  {
    var n := New(now, never, false);
    ReadTimely(n, now, r);
    var n1 := Read(n, now, r);
    WindowIsSoon(n1, now);
    hide Read, WindowTime;
    AddTimely(n1, now, WindowTime(n1, now), Window);
  }

  /** Events come at nondecreasing times, from now on. */
  predicate Forward(now: int, events: seq<Event>)
    decreases |events|
  {
    events == [] || (now <= events[0].now && Forward(events[0].now, events[1..]))
  }

  function EndTime(now: int, events: seq<Event>): int {
    if events == [] then now else events[|events| - 1].now
  }

  lemma {:induction false} StaysTimely(n: Node, now: int, events: seq<Event>, random: nat -> nat)
    requires Timely(n, now) && Forward(now, events)
    ensures Timely(After(n, events, random), EndTime(now, events))
    decreases |events|
  {
    hide Timely, Handle;
    if events != [] {
      var e := events[0];
      TimelyLater(n, now, e.now);
      HandleTimely(n, e, random);
      StaysTimely(Handle(n, e, random), e.now, events[1..], random);
    }
  }

  lemma PollEndsWithNothingDue(n: Node, poll: Event, random: nat -> nat)
    requires poll.Polled?
    ensures forall j :: j in Handle(n, poll, random).jobs ==> j.at > poll.now
  {
    NothingLeftDue(DoAll(Read(n, poll.now, poll.r), poll.now, poll.acts, random), poll.now, random);
    hide RunDue, DoAll, Read;
  }

  /** The one window a node that is on has pending. */
  lemma PendingWindow(n: Node, now: int)
    requires Sane(n) && Timely(n, now) && !n.off && forall j :: j in n.jobs ==> j.at > now
    ensures exists j :: j in n.jobs && j.task.Window? && now < j.at <= now + LONGEST
  {
    CountZero(n.jobs, KWindow);
    hide Count;
    var k :| 0 <= k < |n.jobs| && KindOf(n.jobs[k].task) == KWindow;
    assert n.jobs[k] in n.jobs;
  }

  /**
   From power-up on, after any events and then a poll: nothing is due, and while the
   device is on there is one window pending, less than 5.1 s away, and one mesh tick
   exactly when the clock is set.
   */
  lemma PollLeavesOneWindow(now: int, never: int, r: Reading, events: seq<Event>, poll: Event, random: nat -> nat)
    requires never <= now && Forward(now, events) && poll.Polled? && EndTime(now, events) <= poll.now
    ensures var n := Handle(After(Boot(now, never, r), events, random), poll, random);
      && (forall j :: j in n.jobs ==> j.at > poll.now)
      && Sane(n)
      && (!n.off ==> exists j :: j in n.jobs && j.task.Window? && poll.now < j.at <= poll.now + 5_075_000_000)
  {
    hide Handle, After, Boot, Sane, Timely, Forward;
    var b := Boot(now, never, r);
    BootIsSane(now, never, r);
    BootIsTimely(now, never, r);
    EveryRun(b, events, random);
    StaysTimely(b, now, events, random);
    var n := After(b, events, random);
    TimelyLater(n, EndTime(now, events), poll.now);
    HandleKeeps(n, poll, random);
    HandleTimely(n, poll, random);
    PollEndsWithNothingDue(n, poll, random);
    if !Handle(n, poll, random).off {
      PendingWindow(Handle(n, poll, random), poll.now);
    }
  }

  // ---- what each job is for, in milliseconds ---------------------------------------------------------------

  /** `slot` is the first moment after now whose wall-clock milliseconds are a multiple of p. */
  predicate FirstMultiple(n: Node, now: int, slot: int, p: nat) {
    var here, there := (now + n.offset) / 1_000_000, (slot + n.offset) / 1_000_000;
    && 0 < p && here < there <= here + p && there % p == 0
    && slot - now == (there - here) * 1_000_000
    && forall k :: here < k < there ==> k % p != 0
  }

  lemma NoneBetween(w: nat, p: nat, k: int)
    requires 0 < p && w < k < w + (p - w % p)
    ensures k % p != 0
  {
    var q, r := w / p, k / p;
    assert q * p < k < (q + 1) * p;
    Ranks(r, q, p);
    Ranks(q + 1, r, p);
  }

  lemma Ranks(a: int, b: int, p: nat)
    ensures a <= b ==> a * p <= b * p
  {
    if a <= b {
      assert b * p == a * p + (b - a) * p;
    }
  }

  lemma FirstSlot(n: Node, now: int, p: nat)
    requires p == 1000 || p == 4000
    requires now + n.offset >= 0
    ensures FirstMultiple(n, now, now + (p - Rem(UnixMilli(now + n.offset), p)) * 1_000_000, p)
  {
    var w := UnixMilli(now + n.offset);
    MilliIsPositive(now + n.offset);
    NextMultiple(w);
    MilliShift(now + n.offset, p - w % p);
    forall k | w < k < w + (p - w % p)
      ensures k % p != 0
    {
      NoneBetween(w, p, k);
    }
    assert Rem(w, p) == w % p;
    hide Rem;
    assert (now + (p - w % p) * 1_000_000) + n.offset == (now + n.offset) + (p - w % p) * 1_000_000;
  }

  /**
   With a clock, the window sends 75 ms after a slot: the first multiple of 4 s of
   wall-clock time after now while upright, of 1 s while a Totem lies flat. Without one
   it sends 75 ms after the 5 s from the last window are over, or after now if they are.
   */
  lemma WindowsAreAligned(n: Node, now: int)
    requires n.clockSet ==> now + n.offset >= 0
    ensures n.clockSet && !n.fast ==> FirstMultiple(n, now, WindowTime(n, now) - 75_000_000, 4000)
    ensures n.clockSet && n.fast ==> FirstMultiple(n, now, WindowTime(n, now) - 75_000_000, 1000)
    ensures !n.clockSet && n.lastTX + 5_000_000_000 >= now ==> WindowTime(n, now) == n.lastTX + 5_075_000_000
    ensures !n.clockSet && n.lastTX + 5_000_000_000 < now ==> WindowTime(n, now) == now + 75_000_000
  {
    if n.clockSet {
      FirstSlot(n, now, if n.fast then 1000 else 4000);
    }
    hide Rem, FirstMultiple;
  }

  /**
   A window that runs at its time queues the next one, 4 s on or 1 s on with a clock,
   and 5 s on without; and with a clock it queues nothing else.
   */
  lemma WindowsRepeat(n: Node, now: int, random: nat -> nat)
    requires n.clockSet ==> now + n.offset >= 0
    ensures var jobs := Run(n, now, Window, random).jobs; var next := Last(jobs);
      && |jobs| > |n.jobs| && next.task == Window
      && (n.clockSet ==> |jobs| == |n.jobs| + 1)
      && (n.clockSet && ((now + n.offset) / 1_000_000) % (if n.fast then 1000 else 4000) == 75 ==>
            next.at == now + (if n.fast then 1_000_000_000 else 4_000_000_000))
      && (!n.clockSet ==> next.at == now + 5_000_000_000)
    ensures Run(n, now, Window, random).lastTX == now
  {
    var n1 := n.(lastTX := now);
    if n.clockSet && ((now + n.offset) / 1_000_000) % (if n.fast then 1000 else 4000) == 75 {
      LateSlot(n1, now);
    }
    hide Rem, WindowTime, BurstWait;
  }

  function Last(jobs: seq<Job>): Job {
    if jobs == [] then Job(0, 0, Window) else jobs[|jobs| - 1]
  }

  /** Asked 75 ms after a slot, the next slot is a whole period after that one. */
  lemma LateSlot(n: Node, now: int)
    requires n.clockSet && now + n.offset >= 0
    requires ((now + n.offset) / 1_000_000) % (if n.fast then 1000 else 4000) == 75
    ensures WindowTime(n, now) == now + (if n.fast then 1_000_000_000 else 4_000_000_000)
  {
    assert UnixMilli(now + n.offset) >= 0;
  }

  /** The mesh tick is 200 ms before a multiple of 4 s of wall-clock time: the first such moment after now. */
  lemma TicksAreAligned(n: Node, now: int)
    requires now + n.offset >= 0
    ensures var at := TickTime(n, now);
      && (FirstMultiple(n, now, at + 200_000_000, 4000) || FirstMultiple(n, now, at - 3_800_000_000, 4000))
      && now < at <= now + 4_000_000_000
  {
    FirstSlot(n, now, 4000);
    hide Rem;
  }

  /** After a burst at t, the next is when the milliseconds since boot are at the phase's tenth of the second, within a second. */
  lemma BurstsAreOnPhase(n: Node, t: int, phase: Phase)
    requires n.boot <= t
    ensures var wait := BurstWait(n, t, phase);
      && 0 < wait <= 1_000_000_000
      && ((t + wait - n.boot) / 1_000_000) % 1000 == 900 - 100 * phase
  {
    var ms := (t - n.boot) / 1_000_000;
    var wait := BurstWait(n, t, phase);
    MilliShift(t - n.boot, wait / 1_000_000);
    assert wait == (wait / 1_000_000) * 1_000_000;
    assert t + wait - n.boot == (t - n.boot) + (wait / 1_000_000) * 1_000_000;
    Residue(ms, wait / 1_000_000, 900 - 100 * phase);
  }

  lemma Residue(ms: nat, wait: int, want: nat)
    requires want < 1000 && wait in {want - ms % 1000, want - ms % 1000 + 1000}
    ensures (ms + wait) % 1000 == want
  {
  }

  /** A burst leads to the next phase and one more burst, while fewer than three have been and the next is within 2.5 s of the window. */
  lemma BurstsGoOn(n: Node, now: int, start: int, count: nat)
    ensures var n' := RunBurst(n, now, start, count); var phase := if n.phase == 9 then 0 else n.phase + 1;
      var at := now + BurstWait(n, now, phase);
      && n'.phase == (if count < 2 then phase else n.phase)
      && n'.jobs == if count < 2 && at <= start + 2_500_000_000
                    then n.jobs + [Job(at, n.seq_ + 1, Burst(start, count + 1))] else n.jobs
  {
    hide BurstWait;
  }

  /**
   A clock is taken from a peer exactly by a node that has none, has been up for 30 s and
   is offered a time after 2020 began that a signed 32-bit second can hold; it is then
   right to the nanosecond, and while on the node starts both chains afresh by it.
   */
  lemma ClockIsAdopted(n: Node, now: int, wall: int)
    requires !n.clockSet && !n.gnssClock
    ensures var n' := AdoptClock(n, now, wall);
      if now - n.boot >= 30_000_000_000 && 1_577_836_800_000_000_000 < wall <= 2_147_483_647_000_000_000
      then n'.clockSet && !n'.gnssClock && now + n'.offset == wall
           && (!n.off ==> |n'.jobs| == |Once(n.jobs)| + 2 && Once(n.jobs) <= n'.jobs && Last(n'.jobs).task == MeshTick)
      else n' == n
  {
    hide WindowTime, TickTime, Once;
  }

  /** A fix sets the clock each time its own is usable; the chains start afresh by it the first time only. */
  lemma FixSetsClock(n: Node, now: int, wall: int, r: Reading)
    requires r.fix == Some(wall) && !r.empty
    ensures var n' := Read(n, now, r);
      && n'.fast == r.fast && n'.off == n.off
      && (if 1_577_836_800_000_000_000 < wall <= 2_147_483_647_000_000_000
          then n'.clockSet && n'.gnssClock && now + n'.offset == wall && (n.gnssClock ==> n'.jobs == n.jobs)
          else n'.clockSet == n.clockSet && n'.gnssClock == n.gnssClock && n'.offset == n.offset && n'.jobs == n.jobs)
  {
    hide WindowTime, TickTime, Once;
  }

  /** A manual clock counts as a receiver's from then on. */
  lemma ManualClockIsKept(n: Node, now: int, wall: int, r: Reading)
    requires r.fix == None && !r.empty
    ensures var n' := SetClock(n, now, wall, r);
      if 1_577_836_800_000_000_000 < wall <= 2_147_483_647_000_000_000
      then n'.clockSet && n'.gnssClock && now + n'.offset == wall else n' == n
  {
    hide WindowTime, TickTime, Once;
  }

  /**
   A device powers up without a clock, not pairing, and on, with one window 75 ms away,
   if its first reading has neither a time nor an empty battery.
   */
  lemma BootsClockless(now: int, never: int, r: Reading)
    requires r.fix == None && !r.empty && never + 5_000_000_000 <= now
    ensures var n := Boot(now, never, r);
      && !n.off && !n.clockSet && !n.gnssClock && !n.pairing && n.fast == r.fast && n.boot == now && n.phase == 0
      && n.jobs == [Job(now + 75_000_000, 1, Window)]
  {
  }

  /** A frame heard by a device that is on and stays on is acted on, after the reading. */
  lemma FramesAreActedOn(n: Node, now: int, r: Reading, acts: seq<Act>, random: nat -> nat)
    requires !n.off && !r.empty
    ensures Handle(n, Heard(now, r, acts), random) == DoAll(Read(n, now, r), now, acts, random)
  {
    hide WindowTime, TickTime, Once, DoAll;
  }

  /** A frame heard by a device whose battery turns out to have run down, or that is off, makes it do nothing more. */
  lemma NothingAfterPowerDown(n: Node, now: int, r: Reading, acts: seq<Act>, random: nat -> nat)
    requires r.empty || (n.off && r.fix == None)
    ensures var n' := Handle(n, Heard(now, r, acts), random);
      n'.off && (!n.off ==> n'.jobs == [] && !n'.pairing) && (n.off ==> n'.jobs == n.jobs && n'.pairing == n.pairing)
  {
    hide WindowTime, TickTime, Once, DoAll;
  }

  /** Powering down leaves no job and closes the pairing window; a device that is off is left as it is. */
  lemma PowerOffLeavesNothing(n: Node)
    ensures PowerOff(n) == if n.off then n else n.(off := true, jobs := [], pairing := false)
  {
  }

  /** What a device is told is done in order, each thing where the one before left it. */
  lemma {:induction false} ActsAreDone(n: Node, now: int, acts: seq<Act>, a: Act, random: nat -> nat)
    ensures DoAll(n, now, [], random) == n
    ensures DoAll(n, now, acts + [a], random) == Do(DoAll(n, now, acts, random), now, a, random)
    decreases |acts|
  {
    hide Do;
    if acts == [] {
      assert acts + [a] == [a] && [a][1..] == [];
      assert DoAll(n, now, [a], random) == DoAll(Do(n, now, a, random), now, [], random);
    } else {
      assert (acts + [a])[1..] == acts[1..] + [a];
      ActsAreDone(Do(n, now, acts[0], random), now, acts[1..], a, random);
    }
  }

  /** Events are handled in order, each where the one before left the node. */
  lemma {:induction false} EventsAreHandled(n: Node, events: seq<Event>, e: Event, random: nat -> nat)
    ensures After(n, [], random) == n
    ensures After(n, events + [e], random) == Handle(After(n, events, random), e, random)
    decreases |events|
  {
    hide Handle;
    if events == [] {
      assert events + [e] == [e] && [e][1..] == [];
      assert After(n, [e], random) == After(Handle(n, e, random), [], random);
    } else {
      assert (events + [e])[1..] == events[1..] + [e];
      EventsAreHandled(Handle(n, events[0], random), events[1..], e, random);
    }
  }

  /** Pairing opens for six seconds, unless it is open, the device is off or it is full: its end and its first turn, 50 to 99 ms away, are queued. */
  lemma PairingIsArmed(n: Node, now: int, full: bool, random: nat -> nat)
    ensures var n' := Pair(n, now, full, random);
      if n.off || n.pairing || full then n' == n
      else
        && n'.pairing && n'.pairEnd == now + 6_000_000_000 && |n'.jobs| == |n.jobs| + 2 && n.jobs <= n'.jobs
        && n'.jobs[|n.jobs|].task == PairLoop
        && now + 50_000_000 <= n'.jobs[|n.jobs|].at <= now + 99_000_000
        && n'.jobs[|n.jobs| + 1].task == PairEnd && n'.jobs[|n.jobs| + 1].at == now + 6_000_000_000
  {
  }

  /** Pairing closes at its end and not before; until then it takes another turn within 100 ms. */
  lemma PairingCloses(n: Node, now: int, random: nat -> nat)
    ensures Run(n, now, PairEnd, random).pairing <==> n.pairing && now < n.pairEnd
    ensures var jobs := Run(n, now, PairLoop, random).jobs;
      if n.pairing then |jobs| == |n.jobs| + 1 && Last(jobs).task == PairLoop
                        && now + 50_000_000 <= Last(jobs).at <= now + 99_000_000
      else jobs == n.jobs
  {
  }

  lemma MilliShift(t: int, d: int)
    ensures UnixMilli(t + d * 1_000_000) == UnixMilli(t) + d
  {
  }

  lemma NextMultiple(w: int)
    ensures (w + (1000 - w % 1000)) % 1000 == 0 && (w + (4000 - w % 4000)) % 4000 == 0
  {
  }
}
