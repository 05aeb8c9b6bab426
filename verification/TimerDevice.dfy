/** The node's timers as they run: the job list and the clock fields change in place. */
module TimerDevice {
  import opened Bytes
  import opened Timers

  class Device {
    var jobs: seq<Job>
    var seq_: nat
    var off: bool
    var clockSet: bool
    var gnssClock: bool
    var offset: int
    const boot: int
    var lastTX: int
    var phase: Phase
    var fast: bool
    var pairing: bool
    var pairEnd: int
    const random: nat -> nat

    /** The device as a value. */
    function At(): Node
      reads this
    {
      Node(jobs, seq_, off, clockSet, gnssClock, offset, boot, lastTX, phase, fast, pairing, pairEnd)
    }

    constructor (now: int, never: int, r: Reading, random: nat -> nat)
      ensures At() == Boot(now, never, r) && Sane(At()) && this.random == random
    {
      var n := Boot(now, never, r);
      BootIsSane(now, never, r);
      BootKeepsBoot(now, never, r);
      jobs, seq_, off, clockSet, gnssClock, offset := n.jobs, n.seq_, n.off, n.clockSet, n.gnssClock, n.offset;
      boot, lastTX, phase, fast, pairing, pairEnd := n.boot, n.lastTX, n.phase, n.fast, n.pairing, n.pairEnd;
      this.random := random;
    }

    method AddJob(at: int, task: Task)
      modifies this`jobs, this`seq_
      ensures At() == Add(old(At()), at, task)
    {
      seq_ := seq_ + 1;
      jobs := jobs + [Job(at, seq_, task)];
    }

    /** The next radio window: on a wall-clock slot with a clock, 5 s after the last without. */
    method ScheduleWindow(now: int)
      modifies this`jobs, this`seq_
      ensures At() == Add(old(At()), WindowTime(old(At()), now), Window)
    {
      var start: int;
      if clockSet {
        var p := if fast then 1000 else 4000;
        start := now + (p - Rem(UnixMilli(now + offset), p)) * 1_000_000;
      } else {
        start := lastTX + NO_SAT_PERIOD;
        if start < now {
          start := now;
        }
      }
      AddJob(start + TX_DELAY, Window);
    }

    method ScheduleTick(now: int)
      modifies this`jobs, this`seq_
      ensures At() == Add(old(At()), TickTime(old(At()), now), MeshTick)
    {
      hide Rem, UnixMilli;
      var next := now + (4000 - Rem(UnixMilli(now + offset), 4000)) * 1_000_000 - 200_000_000;
      if next <= now {
        next := next + 4_000_000_000;
      }
      AddJob(next, MeshTick);
    }

    method DoBurst(now: int, start: int, count: nat)
      modifies this
      ensures At() == RunBurst(old(At()), now, start, count)
    {
      if count + 1 >= 3 {
        return;
      }
      hide BurstWait;
      var wait := BurstWait(At(), now, (phase + 1) % 10);
      phase := (phase + 1) % 10;
      if now + wait - start <= 2_500_000_000 {
        AddJob(now + wait, Burst(start, count + 1));
      }
    }

    method DoWindow(now: int)
      modifies this
      ensures At() == Run(old(At()), now, Window, random)
    {
      hide RunBurst, WindowTime;
      lastTX := now;
      if clockSet {
        ScheduleWindow(now);
        return;
      }
      DoBurst(now, now, 0);
      AddJob(now + NO_SAT_PERIOD, Window);
    }

    method DoPairLoop(now: int)
      modifies this
      ensures At() == Run(old(At()), now, PairLoop, random)
    {
      if pairing {
        AddJob(now + (50 + random(seq_) % 50) * MS, PairLoop);
      }
    }

    method RunTask(now: int, task: Task)
      modifies this
      ensures At() == Run(old(At()), now, task, random)
    {
      hide RunBurst, WindowTime, TickTime;
      match task
      case Window => DoWindow(now);
      case Burst(start, count) => DoBurst(now, start, count);
      case MeshTick => ScheduleTick(now);
      case PairLoop => DoPairLoop(now);
      case PairEnd =>
        if now >= pairEnd {
          pairing := false;
        }
      case Message(_) =>
    }

    /** The index of the due job to run first, or -1. */
    method FindFirst(now: int) returns (i: int)
      ensures i == First(jobs, now)
    {
      i := -1;
      var j := 0;
      while j < |jobs|
        invariant 0 <= j <= |jobs| && i == First(jobs[..j], now)
      {
        assert jobs[..j + 1][..j] == jobs[..j] && jobs[..j + 1][j] == jobs[j];
        if jobs[j].at <= now && (i < 0 || Before(jobs[j], jobs[i])) {
          i := j;
        }
        j := j + 1;
      }
      assert jobs[..|jobs|] == jobs;
    }

    /** Poll's loop: run every due job, the ones they schedule included. */
    method RunJobs(now: int)
      modifies this
      ensures At() == RunDue(old(At()), now, random)
      ensures forall j :: j in jobs ==> j.at > now
      ensures old(Sane(At())) ==> Sane(At())
    {
      ghost var was := At();
      NothingLeftDue(was, now, random);
      if Sane(was) {
        RunDueKeeps(was, now, random);
      }
      while true
        invariant RunDue(At(), now, random) == RunDue(was, now, random)
        decreases DueCount(jobs, now)
      {
        hide Run, Sane, DueCount, First;
        var i := FindFirst(now);
        if i < 0 {
          break;
        }
        FewerDue(At(), now, random);
        ghost var before := At();
        var task := jobs[i].task;
        jobs := jobs[..i] + jobs[i + 1..];
        RunTask(now, task);
        assert At() == RunFirst(before, now, random);
      }
    }

    method Align(now: int)
      modifies this
      ensures At() == StartAligned(old(At()), now)
    {
      if off {
        return;
      }
      hide WindowTime, TickTime;
      KeepOnce();
      ScheduleWindow(now);
      ScheduleTick(now);
    }

    /** Drop every job that repeats. */
    method KeepOnce()
      modifies this`jobs
      ensures jobs == Once(old(jobs))
    {
      var kept: seq<Job> := [];
      var i := 0;
      while i < |jobs|
        invariant 0 <= i <= |jobs| && kept + Once(jobs[i..]) == Once(jobs)
      {
        assert jobs[i..][1..] == jobs[i + 1..];
        if KindOf(jobs[i].task) == KOnce {
          assert kept + ([jobs[i]] + Once(jobs[i + 1..])) == (kept + [jobs[i]]) + Once(jobs[i + 1..]);
          kept := kept + [jobs[i]];
        }
        i := i + 1;
      }
      assert kept + [] == kept;
      jobs := kept;
    }

    method SwitchOff()
      modifies this
      ensures At() == PowerOff(old(At()))
      ensures old(Sane(At())) ==> Sane(At())
    {
      if off {
        return;
      }
      pairing, off, jobs := false, true, [];
    }

    method SwitchOn(now: int)
      modifies this
      ensures At() == PowerOn(old(At()), now)
      ensures old(Sane(At())) ==> Sane(At())
    {
      ghost var was := At();
      if Sane(was) {
        PowerOnKeeps(was, now);
      }
      if !off {
        return;
      }
      hide WindowTime, TickTime, Sane;
      off := false;
      if !HasWindow(jobs) {
        ScheduleWindow(now);
      }
      if clockSet && !HasTick(jobs) {
        ScheduleTick(now);
      }
    }
  }

  lemma BootKeepsBoot(now: int, never: int, r: Reading)
    ensures Boot(now, never, r).boot == now
  {
    hide WindowTime, TickTime, Once;
  }
}
