/**
 The half-duplex transmit window of the client. Any number of threads send
 batches, wait for the window, grant it away, take it back on a handoff, or
 start the session. One step of one thread is one critical section, one channel
 operation or one completed write, and the schedule is any sequence of steps.
 */
module TxWindow {
  import opened Bytes

  datatype Phase =
    | Idle
    | Look(todo: Option<nat>)                // AwaitTX, before it takes the lock; with Send's frames, if it is Send's
    | Sleep(w: nat, todo: Option<nat>)       // AwaitTX, waiting for its channel to close
    | Forget(w: nat)                         // AwaitTX gave up: about to drop its waiter
    | Lock(frames: nat)                      // Send: about to take the batch lock
    | Check(frames: nat)                     // Send: has it, about to look who owns the window
    | Writing(left: nat, batch: nat)         // Send: that many frames of the batch to go
    | GrantLock | GrantClear | GrantWrite
    | Regain                                 // Grant's write failed: about to take the window back
    | Handoff                                // the receiver: about to take the window
    | Close(list: seq<nat>, locked: bool)    // took the window, has these channels left to close
    | StartClear                             // Start: about to give the window away

  /** A frame that reached the link: one of a batch, with the frames left after it, or a grant. */
  datatype Frame =
    | Data(batch: nat, left: nat, window: nat, owned: bool)
    | Grant

  /** What the threads share, with the history the promises speak of. */
  datatype Shared = Shared(
    owns: bool, waiters: seq<nat>, closed: set<nat>, lock: Option<nat>,
    // channels made, batches begun, the one being written, times the window was given away,
    // batches during which Start gave it away, and the frames that reached the link
    channels: nat, batches: nat, open: Option<nat>, window: nat, disturbed: set<nat>, wire: seq<Frame>)

  datatype State = State(g: Shared, threads: seq<Phase>)

  /** What a thread decides, or learns, in a step. */
  datatype Choice = DoSend(frames: nat) | DoAwait | DoGrant | DoHandoff | DoStart | Woken | GiveUp | Ok | Fail

  datatype Step = Step(t: nat, c: Choice)

  /** The outcome of a step: the shared state and where the thread is now. */
  datatype Moved = Moved(g: Shared, p: Phase)

  function Without(ws: seq<nat>, w: nat): (r: seq<nat>)
    ensures forall x :: x in r <==> x in ws && x != w
    ensures NoDup(ws) ==> NoDup(r)
  {
    if ws == [] then []
    else if ws[0] == w then Without(ws[1..], w)
    else
      var r := Without(ws[1..], w);
      assert forall x :: x in ws <==> x == ws[0] || x in ws[1..];
      assert NoDup(ws) ==> NoDup(ws[1..]) && ws[0] !in ws[1..];
      [ws[0]] + r
  }

  /** The phases in which a thread holds the batch lock. */
  predicate Holds(p: Phase) {
    p.Check? || p.Writing? || p.GrantClear? || p.GrantWrite? || p.Regain? || (p.Close? && p.locked)
  }

  /** Owning the window and taking over everyone registered for it are one critical section. */
  function TakeTX(g: Shared, locked: bool): Moved {
    Moved(g.(owns := true, waiters := []), Close(g.waiters, locked))
  }

  function Begin(c: Choice): Phase {
    match c
    case DoSend(n) => Look(Some(n))
    case DoAwait => Look(None)
    case DoGrant => GrantLock
    case DoHandoff => Handoff
    case DoStart => StartClear
    case _ => Idle
  }

  function Awake(todo: Option<nat>): Phase {
    match todo case None => Idle case Some(n) => Lock(n)
  }

  function Waiting(g: Shared, p: Phase, c: Choice): Moved {
    match p
    case Look(todo) =>
      if g.owns then Moved(g, Awake(todo))
      else Moved(g.(waiters := g.waiters + [g.channels], channels := g.channels + 1), Sleep(g.channels, todo))
    case Sleep(w, todo) =>
      if c == Woken && w in g.closed then Moved(g, Awake(todo))
      else if c == GiveUp then Moved(g, Forget(w))
      else Moved(g, p)
    case Forget(w) => Moved(g.(waiters := Without(g.waiters, w)), Idle)
    case _ => Moved(g, p)
  }

  function Sending(g: Shared, t: nat, p: Phase, c: Choice): Moved {
    match p
    case Lock(n) => if g.lock == None then Moved(g.(lock := Some(t)), Check(n)) else Moved(g, p)
    case Check(n) =>
      if g.owns then Moved(g.(batches := g.batches + 1, open := Some(g.batches)), Writing(n, g.batches))
      else Moved(g.(lock := None), Look(Some(n)))
    case Writing(left, b) =>
      if left == 0 || c == Fail then Moved(g.(lock := None, open := None), Idle)
      else Moved(g.(wire := g.wire + [Data(b, left - 1, g.window, g.owns)]), Writing(left - 1, b))
    case _ => Moved(g, p)
  }

  function Granting(g: Shared, t: nat, p: Phase, c: Choice): Moved {
    match p
    case GrantLock => if g.lock == None then Moved(g.(lock := Some(t)), GrantClear) else Moved(g, p)
    case GrantClear => Moved(g.(owns := false, window := g.window + 1), GrantWrite)
    case GrantWrite =>
      if c == Fail then Moved(g, Regain) else Moved(g.(lock := None, wire := g.wire + [Grant]), Idle)
    case Regain => TakeTX(g, true)
    case Handoff => TakeTX(g, false)
    case Close(list, locked) =>
      if list == [] then Moved(if locked then g.(lock := None) else g, Idle)
      else Moved(g.(closed := g.closed + {list[0]}), Close(list[1..], locked))
    case StartClear =>
      var hit := if g.open.Some? then {g.open.value} else {};
      Moved(g.(owns := false, window := g.window + 1, disturbed := g.disturbed + hit), Idle)
    case _ => Moved(g, p)
  }

  function Act(g: Shared, t: nat, p: Phase, c: Choice): Moved {
    if p.Idle? then Moved(g, Begin(c))
    else if Waits(p) || p.Look? then Waiting(g, p, c)
    else if p.Lock? || p.Check? || p.Writing? then Sending(g, t, p, c)
    else Granting(g, t, p, c)
  }

  function Take(s: State, step: Step): State {
    if step.t >= |s.threads| then s
    else
      var m := Act(s.g, step.t, s.threads[step.t], step.c);
      State(m.g, s.threads[step.t := m.p])
  }

  // ---- what every schedule keeps ---------------------------------------------------------

  /** Nobody is registered for a window the app already owns. */
  predicate NoneOnOwned(g: Shared) {
    g.owns ==> g.waiters == []
  }

  lemma NoneOnOwnedKept(s: State, step: Step)
    requires NoneOnOwned(s.g)
    ensures NoneOnOwned(Take(s, step).g)
  {
  }

  /** The batch lock is held by the thread that acts as its holder and by no other, and that one writes the open batch. */
  predicate Locking(s: State) {
    && (s.g.lock.Some? ==> s.g.lock.value < |s.threads|)
    && (forall t :: 0 <= t < |s.threads| ==> (Holds(s.threads[t]) <==> s.g.lock == Some(t)))
    && (forall t :: 0 <= t < |s.threads| && s.threads[t].Writing? ==> s.g.open == Some(s.threads[t].batch))
    && (s.g.open.Some? ==> s.g.lock.Some? && s.threads[s.g.lock.value].Writing?)
  }

  /** A thread takes the lock when it is free, and gives up only the lock it holds; likewise the open batch. */
  lemma LockStep(g: Shared, t: nat, p: Phase, c: Choice)
    requires Holds(p) <==> g.lock == Some(t)
    requires p.Writing? ==> g.open == Some(p.batch)
    requires g.open.Some? && g.lock == Some(t) ==> p.Writing?
    requires g.open.Some? ==> g.lock.Some?
    ensures var m := Act(g, t, p, c);
      && (Holds(m.p) <==> m.g.lock == Some(t))
      && (m.p.Writing? ==> m.g.open == Some(m.p.batch))
      && (m.g.open.Some? && m.g.lock == Some(t) ==> m.p.Writing?)
      && ((m.g.lock == g.lock && m.g.open == g.open) || (g.lock in {None, Some(t)} && m.g.lock in {None, Some(t)}))
      && (m.g.open.Some? ==> m.g.lock.Some?)
  {
  }

  lemma LockingKept(s: State, step: Step)
    requires Locking(s)
    ensures Locking(Take(s, step))
  {
    if step.t < |s.threads| {
      LockStep(s.g, step.t, s.threads[step.t], step.c);
      hide Act;
    }
  }

  predicate Waits(p: Phase) {
    p.Sleep? || p.Forget?
  }

  /** Every wait has a channel of its own. */
  predicate OwnChannels(s: State) {
    && (forall t :: 0 <= t < |s.threads| && Waits(s.threads[t]) ==> s.threads[t].w < s.g.channels)
    && (forall t, u :: 0 <= t < u < |s.threads| && Waits(s.threads[t]) && Waits(s.threads[u]) ==>
          s.threads[t].w != s.threads[u].w)
  }

  /** A thread waits on the channel it made, or makes a new one and registers it. */
  lemma ChannelStep(g: Shared, t: nat, p: Phase, c: Choice)
    ensures var m := Act(g, t, p, c);
      && g.channels <= m.g.channels
      && (Waits(m.p) ==> (Waits(p) && m.p.w == p.w) || m.p.w == g.channels < m.g.channels)
      && (m.p.Sleep? ==> m.p == p || m.p.w in m.g.waiters)
  {
  }

  lemma OwnChannelsKept(s: State, step: Step)
    requires OwnChannels(s)
    ensures OwnChannels(Take(s, step))
  {
    if step.t < |s.threads| {
      ChannelStep(s.g, step.t, s.threads[step.t], step.c);
      hide Act;
    }
  }

  predicate Closing(p: Phase, w: int) {
    p.Close? && w in p.list
  }

  /** A channel is registered, or already closed, or on the list of a thread that is closing channels. */
  predicate Reached(s: State, w: nat) {
    w in s.g.waiters || w in s.g.closed || exists u :: 0 <= u < |s.threads| && Closing(s.threads[u], w)
  }

  predicate NobodyLost(s: State) {
    forall t :: 0 <= t < |s.threads| && s.threads[t].Sleep? ==> Reached(s, s.threads[t].w)
  }

  /** What a step does to the channels: register one, drop one, take all over, close one, or nothing. */
  predicate Registers(g: Shared, p: Phase, m: Moved) {
    && !p.Close? && !m.p.Close?
    && m.g.waiters == g.waiters + [g.channels] && m.g.channels == g.channels + 1 && m.g.closed == g.closed
  }

  predicate Drops(g: Shared, p: Phase, m: Moved) {
    && p.Forget? && !m.p.Close?
    && m.g.waiters == Without(g.waiters, p.w) && m.g.channels == g.channels && m.g.closed == g.closed
  }

  predicate TakesOver(g: Shared, p: Phase, m: Moved) {
    && !p.Close? && m.p.Close? && m.p.list == g.waiters
    && m.g.waiters == [] && m.g.channels == g.channels && m.g.closed == g.closed
  }

  predicate Closes(g: Shared, p: Phase, m: Moved) {
    && p.Close? && p.list != [] && m.p.Close? && m.p.list == p.list[1..]
    && m.g.waiters == g.waiters && m.g.channels == g.channels && m.g.closed == g.closed + {p.list[0]}
  }

  predicate Leaves(g: Shared, p: Phase, m: Moved) {
    && (p.Close? ==> p.list == []) && !m.p.Close?
    && m.g.waiters == g.waiters && m.g.channels == g.channels && m.g.closed == g.closed
  }

  lemma ChannelsMove(g: Shared, t: nat, p: Phase, c: Choice)
    ensures var m := Act(g, t, p, c);
      Registers(g, p, m) || Drops(g, p, m) || TakesOver(g, p, m) || Closes(g, p, m) || Leaves(g, p, m)
  {
  }

  /** A sleeper that could be reached still can be. */
  lemma ReachedKept(s: State, step: Step, w: nat)
    requires Reached(s, w) && step.t < |s.threads|
    requires s.threads[step.t].Forget? ==> s.threads[step.t].w != w
    ensures Reached(Take(s, step), w)
  {
    var s', t := Take(s, step), step.t;
    var p, m := s.threads[t], Act(s.g, t, s.threads[t], step.c);
    ChannelsMove(s.g, t, p, step.c);
    hide Act;
    if w in s.g.waiters {
      assert TakesOver(s.g, p, m) ==> Closing(s'.threads[t], w);
    } else if w !in s.g.closed {
      var u :| 0 <= u < |s.threads| && Closing(s.threads[u], w);
      if u == t {
        assert p.list == [p.list[0]] + p.list[1..];
        assert w == p.list[0] || Closing(s'.threads[u], w);
      } else {
        assert Closing(s'.threads[u], w);
      }
    }
  }

  lemma NobodyLostKept(s: State, step: Step)
    requires NobodyLost(s) && OwnChannels(s)
    ensures NobodyLost(Take(s, step))
  {
    if step.t < |s.threads| {
      var s' := Take(s, step);
      ChannelStep(s.g, step.t, s.threads[step.t], step.c);
      forall t | 0 <= t < |s'.threads| && s'.threads[t].Sleep?
        ensures Reached(s', s'.threads[t].w)
      {
        hide Act;
        if s'.threads[t] == s.threads[t] {
          ReachedKept(s, step, s.threads[t].w);
        }
      }
    }
  }

  /** A channel is registered once, or on one thread's list once, or closed: never two of these. */
  ghost predicate ClosedOnce(s: State) {
    && Registered(s.g)
    && (forall t :: 0 <= t < |s.threads| && s.threads[t].Close? ==> Taken(s.g, s.threads[t].list))
    && (forall t, u :: 0 <= t < u < |s.threads| && s.threads[t].Close? && s.threads[u].Close? ==>
          Apart(s.threads[t].list, s.threads[u].list))
  }

  predicate Registered(g: Shared) {
    && NoDup(g.waiters)
    && (forall w :: w in g.waiters ==> w < g.channels && w !in g.closed)
    && (forall w :: w in g.closed ==> w < g.channels)
  }

  predicate Taken(g: Shared, list: seq<nat>) {
    NoDup(list) && forall w :: w in list ==> w < g.channels && w !in g.waiters && w !in g.closed
  }

  predicate Apart(a: seq<nat>, b: seq<nat>) {
    forall w :: w in a ==> w !in b
  }

  lemma RestOf(list: seq<nat>)
    requires NoDup(list) && list != []
    ensures NoDup(list[1..]) && list[0] !in list[1..]
    ensures forall w :: w in list <==> w == list[0] || w in list[1..]
  {
    assert list == [list[0]] + list[1..];
  }

  /** What one step means for the channels, and for the list of a thread standing by. */
  lemma OneListStep(g: Shared, t: nat, p: Phase, c: Choice)
    requires Registered(g) && (p.Close? ==> Taken(g, p.list))
    ensures var m := Act(g, t, p, c);
      Registered(m.g) && (m.p.Close? ==> Taken(m.g, m.p.list))
  {
    ChannelsMove(g, t, p, c);
    var m := Act(g, t, p, c);
    hide Act;
    if Closes(g, p, m) {
      RestOf(p.list);
    } else if Registers(g, p, m) {
      assert forall i :: 0 <= i < |g.waiters| ==> g.waiters[i] in g.waiters;
    }
  }

  lemma StandsBy(g: Shared, t: nat, p: Phase, c: Choice, list: seq<nat>)
    requires Registered(g) && Taken(g, list) && (p.Close? ==> Taken(g, p.list) && Apart(p.list, list))
    ensures var m := Act(g, t, p, c);
      Taken(m.g, list) && (m.p.Close? ==> Apart(m.p.list, list) && Apart(list, m.p.list))
  {
    ChannelsMove(g, t, p, c);
    var m := Act(g, t, p, c);
    hide Act;
    if Closes(g, p, m) {
      RestOf(p.list);
    }
  }

  lemma ClosedOnceKept(s: State, step: Step)
    requires ClosedOnce(s)
    ensures ClosedOnce(Take(s, step))
  {
    if step.t < |s.threads| {
      var s', t := Take(s, step), step.t;
      var p := s.threads[t];
      OneListStep(s.g, t, p, step.c);
      forall u | 0 <= u < |s.threads| && u != t && s.threads[u].Close?
        ensures Taken(s'.g, s.threads[u].list)
        ensures s'.threads[t].Close? ==>
          Apart(s'.threads[t].list, s.threads[u].list) && Apart(s.threads[u].list, s'.threads[t].list)
      {
        hide Act, Taken;
        StandsBy(s.g, t, p, step.c, s.threads[u].list);
      }
      hide Act, Taken, Apart;
    }
  }

  predicate SameBatch(f: Frame, g: Frame) {
    f.Data? && g.Data? && f.batch == g.batch
  }

  predicate Unbroken(wire: seq<Frame>, i: nat, j: int)
    requires j < |wire|
  {
    forall k :: i <= k <= j ==> SameBatch(wire[i], wire[k])
  }

  lemma UnbrokenGrows(wire: seq<Frame>, f: Frame, i: nat, j: int)
    requires j < |wire| && Unbroken(wire, i, j)
    ensures Unbroken(wire + [f], i, j)
    ensures i <= j == |wire| - 1 && SameBatch(wire[i], f) ==> Unbroken(wire + [f], i, |wire|)
  {
    var w := wire + [f];
    assert forall k :: 0 <= k < |wire| ==> w[k] == wire[k];
  }

  /** Frames of a batch are next to each other and in order; and in one window, owned by the app, unless Start disturbed it. */
  predicate Tidy(g: Shared) {
    && (forall i, j :: 0 <= i < j < |g.wire| && SameBatch(g.wire[i], g.wire[j]) ==>
          g.wire[i].left == g.wire[j].left + (j - i)
          && (g.wire[i].window == g.wire[j].window || g.wire[i].batch in g.disturbed))
    && (forall i, j :: 0 <= i < j < |g.wire| && SameBatch(g.wire[i], g.wire[j]) ==> Unbroken(g.wire, i, j))
    && (forall i :: 0 <= i < |g.wire| && g.wire[i].Data? ==>
          g.wire[i].batch < g.batches && (g.wire[i].owned || g.wire[i].batch in g.disturbed))
  }

  /** An open batch is the newest, its frames so far end the wire, and the app owns the window they are in unless Start gave it away. */
  predicate OpenBatch(g: Shared, left: nat, b: nat) {
    && b + 1 == g.batches
    && (g.owns || b in g.disturbed)
    && (forall i :: 0 <= i < |g.wire| && g.wire[i].Data? && g.wire[i].batch == b ==>
          g.wire[i].left == left + (|g.wire| - 1 - i)
          && (g.wire[i].window == g.window || b in g.disturbed))
    && (forall i :: 0 <= i < |g.wire| && g.wire[i].Data? && g.wire[i].batch == b ==>
          Unbroken(g.wire, i, |g.wire| - 1))
  }

  ghost predicate Batches(s: State) {
    && Tidy(s.g)
    && forall t :: 0 <= t < |s.threads| && s.threads[t].Writing? ==>
         OpenBatch(s.g, s.threads[t].left, s.threads[t].batch)
  }

  lemma WriteOne(g: Shared, left: nat, b: nat)
    requires Tidy(g) && OpenBatch(g, left + 1, b)
    ensures var g' := g.(wire := g.wire + [Data(b, left, g.window, g.owns)]); Tidy(g') && OpenBatch(g', left, b)
  {
    var f := Data(b, left, g.window, g.owns);
    forall i, j | 0 <= i <= j < |g.wire| && Unbroken(g.wire, i, j)
      ensures Unbroken(g.wire + [f], i, j)
      ensures j == |g.wire| - 1 && SameBatch(g.wire[i], f) ==> Unbroken(g.wire + [f], i, |g.wire|)
    {
      UnbrokenGrows(g.wire, f, i, j);
    }
    assert Unbroken(g.wire + [f], |g.wire|, |g.wire|);
    hide Unbroken;
  }

  lemma WriteGrant(g: Shared)
    requires Tidy(g)
    ensures Tidy(g.(lock := None, wire := g.wire + [Grant]))
  {
    forall i, j | 0 <= i <= j < |g.wire| && Unbroken(g.wire, i, j)
      ensures Unbroken(g.wire + [Grant], i, j)
    {
      UnbrokenGrows(g.wire, Grant, i, j);
    }
    hide Unbroken;
  }

  /** What does not touch the wire and takes nothing back leaves its frames as tidy as they were. */
  lemma SameWire(g: Shared, g': Shared)
    requires Tidy(g) && g'.wire == g.wire && g.batches <= g'.batches && g.disturbed <= g'.disturbed
    ensures Tidy(g')
  {
  }

  lemma FreshBatch(g: Shared)
    requires Tidy(g)
    ensures forall i :: 0 <= i < |g.wire| && g.wire[i].Data? ==> g.wire[i].batch != g.batches
  {
  }

  lemma WriterStep(g: Shared, t: nat, p: Phase, c: Choice)
    requires Tidy(g) && (p.Writing? ==> OpenBatch(g, p.left, p.batch))
    ensures var m := Act(g, t, p, c);
      Tidy(m.g) && (m.p.Writing? ==> OpenBatch(m.g, m.p.left, m.p.batch))
  {
    var m := Act(g, t, p, c);
    if p.Writing? && m.p.Writing? {
      hide OpenBatch, Tidy;
      WriteOne(g, m.p.left, p.batch);
    } else if p.GrantWrite? && m.p.Idle? {
      hide OpenBatch, Tidy;
      WriteGrant(g);
    } else {
      hide Tidy;
      SameWire(g, m.g);
      if p.Check? && m.p.Writing? {
        FreshBatch(g);
      }
    }
  }

  lemma BystanderStep(g: Shared, t: nat, p: Phase, c: Choice, left: nat, b: nat)
    requires OpenBatch(g, left, b) && g.open == Some(b) && g.lock.Some? && g.lock != Some(t) && !Holds(p)
    ensures OpenBatch(Act(g, t, p, c).g, left, b)
  {
  }

  lemma BatchesKept(s: State, step: Step)
    requires Batches(s) && Locking(s)
    ensures Batches(Take(s, step))
  {
    if step.t < |s.threads| {
      var s', t := Take(s, step), step.t;
      WriterStep(s.g, t, s.threads[t], step.c);
      forall u | 0 <= u < |s.threads| && u != t && s.threads[u].Writing?
        ensures OpenBatch(s'.g, s.threads[u].left, s.threads[u].batch)
      {
        hide Act, OpenBatch;
        BystanderStep(s.g, t, s.threads[t], step.c, s.threads[u].left, s.threads[u].batch);
      }
      hide Act, OpenBatch;
    }
  }

  ghost predicate Inv(s: State) {
    NoneOnOwned(s.g) && Locking(s) && OwnChannels(s) && NobodyLost(s) && ClosedOnce(s) && Batches(s)
  }

  function Initial(threads: nat): State {
    State(Shared(true, [], {}, None, 0, 0, None, 0, {}, []), seq(threads, _ => Idle))
  }

  lemma TakeKeeps(s: State, step: Step)
    requires Inv(s)
    ensures Inv(Take(s, step))
  {
    hide Take, Locking, OwnChannels, NobodyLost, ClosedOnce, Batches, NoneOnOwned;
    NoneOnOwnedKept(s, step);
    LockingKept(s, step);
    OwnChannelsKept(s, step);
    NobodyLostKept(s, step);
    ClosedOnceKept(s, step);
    BatchesKept(s, step);
  }

  function Run(s: State, steps: seq<Step>): State
    decreases |steps|
  {
    if steps == [] then s else Run(Take(s, steps[0]), steps[1..])
  }

  /** Every schedule of any number of threads. */
  lemma {:induction false} EverySchedule(s: State, steps: seq<Step>)
    requires Inv(s)
    ensures Inv(Run(s, steps))
    decreases |steps|
  {
    if steps != [] {
      TakeKeeps(s, steps[0]);
      EverySchedule(Take(s, steps[0]), steps[1..]);
    }
  }

  lemma Reachable(threads: nat, steps: seq<Step>)
    ensures Inv(Run(Initial(threads), steps))
  {
    EverySchedule(Initial(threads), steps);
  }

  // ---- what callers see -----------------------------------------------------------------------

  /** Nobody sleeps on a window the app owns: each sleeper is woken, or on the list of a thread that wakes it next. */
  lemma OwnedWindowWakesEveryone(s: State, t: nat)
    requires Inv(s) && s.g.owns && t < |s.threads| && s.threads[t].Sleep?
    ensures s.threads[t].w in s.g.closed || exists u :: 0 <= u < |s.threads| && Closing(s.threads[u], s.threads[t].w)
  {
    assert Reached(s, s.threads[t].w);
  }

  /** No channel is closed twice, which would stop the program. */
  lemma NeverClosedTwice(s: State, u: nat)
    requires Inv(s) && u < |s.threads| && s.threads[u].Close? && s.threads[u].list != []
    ensures s.threads[u].list[0] !in s.g.closed
  {
    assert Taken(s.g, s.threads[u].list);
  }

  /** How many of the steps are thread t's own. */
  function Own(steps: seq<Step>, t: nat): nat {
    if steps == [] then 0 else (if steps[0].t == t then 1 else 0) + Own(steps[1..], t)
  }

  /** A closed channel stays closed, whoever steps. */
  lemma {:induction false} ClosedStays(s: State, steps: seq<Step>)
    ensures s.g.closed <= Run(s, steps).g.closed
    decreases |steps|
  {
    if steps != [] {
      ClosedStaysOneStep(s, steps[0]);
      hide Take;
      ClosedStays(Take(s, steps[0]), steps[1..]);
    }
  }

  lemma ClosedStaysOneStep(s: State, step: Step)
    ensures s.g.closed <= Take(s, step).g.closed
  {
    if step.t < |s.threads| {
      ChannelsMove(s.g, step.t, s.threads[step.t], step.c);
      hide Act;
    }
  }

  /** A thread with a list of channels closes one with each step of its own. */
  lemma OwnStepCloses(s: State, c: Choice, t: nat)
    requires t < |s.threads| && s.threads[t].Close? && s.threads[t].list != []
    ensures var s' := Take(s, Step(t, c)); var list := s.threads[t].list;
      |s'.threads| == |s.threads| && s'.threads[t].Close? && s'.threads[t].list == list[1..] && list[0] in s'.g.closed
  {
  }

  /** So after as many steps of its own as the list is long, all of it is closed, whatever the other threads do meanwhile. */
  lemma {:induction false} ListGetsClosed(s: State, steps: seq<Step>, t: nat)
    requires t < |s.threads| && s.threads[t].Close? && Own(steps, t) >= |s.threads[t].list|
    ensures forall w :: w in s.threads[t].list ==> w in Run(s, steps).g.closed
    decreases |steps|
  {
    var list := s.threads[t].list;
    if list != [] {
      var s' := Take(s, steps[0]);
      if steps[0].t == t {
        OwnStepCloses(s, steps[0].c, t);
        ClosedStays(s', steps[1..]);
        assert list == [list[0]] + list[1..];
      }
      hide Act;
      assert s'.threads[t].Close?;
      ListGetsClosed(s', steps[1..], t);
    }
  }

  /**
   Taking the window, after a grant that failed or on a handoff: once the thread has
   had as many steps as there were waiters, the channel of every sleeper among them is
   closed, whatever the other threads do meanwhile.
   */
  lemma TakingTheWindowWakesEveryone(s: State, t: nat, c: Choice, steps: seq<Step>)
    requires t < |s.threads| && (s.threads[t].Regain? || s.threads[t].Handoff?)
    requires Own(steps, t) >= |s.g.waiters|
    ensures var s' := Take(s, Step(t, c));
      && s'.g.owns && s'.g.waiters == []
      && forall u :: 0 <= u < |s.threads| && s.threads[u].Sleep? && s.threads[u].w in s.g.waiters ==>
           s.threads[u].w in Run(s', steps).g.closed
  {
    ListGetsClosed(Take(s, Step(t, c)), steps, t);
  }

  /** A grant whose write fails goes on to take the window back, and stands there until its own next step. */
  lemma FailedGrantGivesBack(s: State, t: nat, between: seq<Step>, c: Choice, steps: seq<Step>)
    requires t < |s.threads| && s.threads[t].GrantWrite? && Own(between, t) == 0
    requires Own(steps, t) >= |Run(Take(s, Step(t, Fail)), between).g.waiters|
    ensures var s1 := Run(Take(s, Step(t, Fail)), between); var s2 := Take(s1, Step(t, c));
      && |s1.threads| == |s.threads| && s1.threads[t].Regain? && s2.g.owns && s2.g.waiters == []
      && forall u :: 0 <= u < |s1.threads| && s1.threads[u].Sleep? && s1.threads[u].w in s1.g.waiters ==>
           s1.threads[u].w in Run(s2, steps).g.closed
  {
    var s0 := Take(s, Step(t, Fail));
    assert s0 == State(s.g, s.threads[t := Regain]);
    StandsStill(s0, between, t);
    hide Take, Run;
    TakingTheWindowWakesEveryone(Run(s0, between), t, c, steps);
  }

  lemma {:induction false} StandsStill(s: State, steps: seq<Step>, t: nat)
    requires t < |s.threads| && Own(steps, t) == 0
    ensures |Run(s, steps).threads| == |s.threads| && Run(s, steps).threads[t] == s.threads[t]
    decreases |steps|
  {
    hide Act;
    if steps != [] {
      StandsStill(Take(s, steps[0]), steps[1..], t);
    }
  }

  /** And a sleeper whose channel is closed goes on. */
  lemma WokenGoesOn(s: State, u: nat)
    requires u < |s.threads| && s.threads[u].Sleep? && s.threads[u].w in s.g.closed
    ensures Take(s, Step(u, Woken)).threads[u] == Awake(s.threads[u].todo)
  {
  }

  /** And no other sleeper does, but one that gives up: it drops its own waiter and no other's, and sends nothing. */
  lemma SleepsUntilClosed(s: State, u: nat, c: Choice)
    requires u < |s.threads| && s.threads[u].Sleep?
    ensures var s' := Take(s, Step(u, c)); var w := s.threads[u].w;
      if c == Woken && w in s.g.closed then s'.g == s.g && s'.threads[u] == Awake(s.threads[u].todo)
      else if c == GiveUp then
        var s2 := Take(s', Step(u, c));
        s'.g == s.g && s'.threads[u] == Forget(w) && s2.threads[u] == Idle
        && (forall x :: x in s2.g.waiters <==> x in s.g.waiters && x != w)
        && s2.g == s.g.(waiters := s2.g.waiters)
      else s' == s
  {
  }

  /** A batch in progress excludes every other batch and every grant. */
  lemma OneAtATime(s: State, t: nat, u: nat)
    requires Inv(s) && t < |s.threads| && u < |s.threads| && t != u && s.threads[t].Writing?
    ensures !Holds(s.threads[u])
  {
  }

  /** A batch no Start disturbed is written in order, unbroken, in one window that the app owns. */
  lemma OneWindow(s: State, i: nat, j: nat)
    requires Inv(s) && i < j < |s.g.wire| && SameBatch(s.g.wire[i], s.g.wire[j])
    requires s.g.wire[i].batch !in s.g.disturbed
    ensures forall k :: i <= k <= j ==> SameBatch(s.g.wire[i], s.g.wire[k]) && s.g.wire[k].owned
                                        && s.g.wire[k].window == s.g.wire[i].window
                                        && s.g.wire[k].left == s.g.wire[i].left - (k - i)
  {
  }

  // ---- a batch is what was asked for ---------------------------------------------------------

  /**
   What an onlooker notes of a schedule: how many frames each thread last asked Send
   for; for each batch, what its thread had asked for and where on the wire it began;
   and for each batch a write of which failed, how many frames were then to go.
   */
  datatype Notes = Notes(requests: map<nat, nat>, asked: seq<nat>, starts: seq<nat>, refused: map<nat, nat>)

  const NOTHING := Notes(map[], [], [], map[])

  function Note(s: State, h: Notes, step: Step): Notes {
    if step.t >= |s.threads| then h
    else
      match s.threads[step.t]
      case Idle => if step.c.DoSend? then h.(requests := h.requests[step.t := step.c.frames]) else h
      case Check(_) =>
        if s.g.owns && step.t in h.requests
        then h.(asked := h.asked + [h.requests[step.t]], starts := h.starts + [|s.g.wire|]) else h
      case Writing(left, b) => if left > 0 && step.c == Fail then h.(refused := h.refused[b := left]) else h
      case _ => h
  }

  function NotesOf(s: State, h: Notes, steps: seq<Step>): Notes
    decreases |steps|
  {
    if steps == [] then h else NotesOf(Take(s, steps[0]), Note(s, h, steps[0]), steps[1..])
  }

  predicate Of(f: Frame, b: nat) {
    f.Data? && f.batch == b
  }

  /** The frames of batch b on the wire are n from `at` on, the first n of so many asked for, in order. */
  predicate Sent(wire: seq<Frame>, b: nat, at: nat, asked: nat, n: nat) {
    && at + n <= |wire| && n <= asked
    && forall i :: 0 <= i < |wire| ==>
         && (Of(wire[i], b) <==> at <= i < at + n)
         && (Of(wire[i], b) ==> wire[i].left == asked - 1 - (i - at))
  }

  lemma SentGrows(wire: seq<Frame>, f: Frame, b: nat, at: nat, asked: nat, n: nat)
    requires Sent(wire, b, at, asked, n)
    ensures !Of(f, b) ==> Sent(wire + [f], b, at, asked, n)
    ensures Of(f, b) && at + n == |wire| && n < asked && f.left == asked - 1 - n ==> Sent(wire + [f], b, at, asked, n + 1)
  {
  }

  /** The frames Send is still to begin writing, for a thread on its way there. */
  function Carries(p: Phase): Option<nat> {
    match p
    case Look(todo) => todo
    case Sleep(_, todo) => todo
    case Lock(n) => Some(n)
    case Check(n) => Some(n)
    case _ => None
  }

  predicate Carried(h: Notes, t: nat, p: Phase) {
    Carries(p).Some? ==> t in h.requests && h.requests[t] == Carries(p).value
  }

  /** How much of batch b is on the wire while `left` frames of it are to go. */
  predicate SentBut(g: Shared, h: Notes, b: nat, left: nat) {
    && b < |h.asked| && b < |h.starts| && left <= h.asked[b]
    && Sent(g.wire, b, h.starts[b], h.asked[b], h.asked[b] - left)
  }

  /** A batch that is over is all there, or all that went before the write that failed. */
  predicate OverBatch(g: Shared, h: Notes, b: nat) {
    if b in h.refused then h.refused[b] > 0 && SentBut(g, h, b, h.refused[b]) else SentBut(g, h, b, 0)
  }

  predicate UnderWay(g: Shared, h: Notes, left: nat, b: nat) {
    && b !in h.refused && SentBut(g, h, b, left)
    && h.starts[b] + (h.asked[b] - left) == |g.wire|
  }

  ghost predicate Noted(s: State, h: Notes) {
    && |h.asked| == |h.starts| == s.g.batches
    && (forall b :: b in h.refused ==> b < s.g.batches)
    && (forall t :: 0 <= t < |s.threads| ==> Carried(h, t, s.threads[t]))
    && (forall b: nat :: b < s.g.batches && s.g.open != Some(b) ==> OverBatch(s.g, h, b))
    && (forall t :: 0 <= t < |s.threads| && s.threads[t].Writing? ==>
          UnderWay(s.g, h, s.threads[t].left, s.threads[t].batch))
  }

  /** What a step puts on the wire: a frame of the thread's own batch, a grant, or nothing. */
  lemma WireStep(g: Shared, t: nat, p: Phase, c: Choice)
    ensures var m := Act(g, t, p, c);
      if p.Writing? && p.left > 0 && c != Fail then
        m.g.wire == g.wire + [Data(p.batch, p.left - 1, g.window, g.owns)] && m.p == Writing(p.left - 1, p.batch)
      else if p.GrantWrite? && c != Fail then m.g.wire == g.wire + [Grant] && m.p.Idle?
      else m.g.wire == g.wire
    ensures var m := Act(g, t, p, c);
      m.g.batches == g.batches + (if p.Check? && g.owns then 1 else 0)
  {
  }

  /** A batch that is over stays as it is: nothing of it goes on the wire any more. */
  lemma OverStays(g: Shared, h: Notes, b: nat, g': Shared, h': Notes)
    requires OverBatch(g, h, b)
    requires g'.wire == g.wire || (exists f :: !Of(f, b) && g'.wire == g.wire + [f])
    requires h.asked <= h'.asked && h.starts <= h'.starts
    requires (b in h.refused <==> b in h'.refused) && (b in h.refused ==> h'.refused[b] == h.refused[b])
    ensures OverBatch(g', h', b)
  {
    if g'.wire != g.wire {
      var f :| !Of(f, b) && g'.wire == g.wire + [f];
      SentGrows(g.wire, f, b, h.starts[b], h.asked[b], h.asked[b] - (if b in h.refused then h.refused[b] else 0));
    }
  }

  /** One frame more of a batch under way, or its end. */
  lemma WritingNotes(s: State, h: Notes, t: nat, c: Choice)
    requires t < |s.threads| && s.threads[t].Writing? && UnderWay(s.g, h, s.threads[t].left, s.threads[t].batch)
    ensures var s', h' := Take(s, Step(t, c)), Note(s, h, Step(t, c));
      && Carries(s'.threads[t]) == None
      && (if s'.threads[t].Writing? then UnderWay(s'.g, h', s'.threads[t].left, s'.threads[t].batch)
          else OverBatch(s'.g, h', s.threads[t].batch))
  {
    var p := s.threads[t];
    var b, left := p.batch, p.left;
    WireStep(s.g, t, p, c);
    if left > 0 && c != Fail {
      SentGrows(s.g.wire, Data(b, left - 1, s.g.window, s.g.owns), b, h.starts[b], h.asked[b], h.asked[b] - left);
    }
  }

  /** A batch that begins has nothing on the wire, and all that was asked for to go. */
  lemma CheckNotes(s: State, h: Notes, t: nat, c: Choice)
    requires t < |s.threads| && s.threads[t].Check? && Carried(h, t, s.threads[t]) && Tidy(s.g)
    requires |h.asked| == |h.starts| == s.g.batches && s.g.batches !in h.refused
    ensures var s', h' := Take(s, Step(t, c)), Note(s, h, Step(t, c));
      && Carried(h', t, s'.threads[t])
      && (s'.threads[t].Writing? ==> UnderWay(s'.g, h', s'.threads[t].left, s'.threads[t].batch))
  {
    FreshBatch(s.g);
    hide Tidy;
    if s.g.owns {
      assert Sent(s.g.wire, s.g.batches, |s.g.wire|, h.requests[t], 0);
    }
  }

  /** Until then a thread carries what it was asked for. */
  lemma CarryNotes(s: State, h: Notes, t: nat, c: Choice)
    requires t < |s.threads| && Carried(h, t, s.threads[t]) && !s.threads[t].Writing? && !s.threads[t].Check?
    ensures var s', h' := Take(s, Step(t, c)), Note(s, h, Step(t, c));
      Carried(h', t, s'.threads[t]) && !s'.threads[t].Writing?
  {
  }

  /** The thread's own request, and its own batch, in a step of its own. */
  lemma OwnNotes(s: State, h: Notes, t: nat, c: Choice)
    requires Noted(s, h) && Inv(s) && t < |s.threads|
    ensures var s', h' := Take(s, Step(t, c)), Note(s, h, Step(t, c));
      && Carried(h', t, s'.threads[t])
      && (s'.threads[t].Writing? ==> UnderWay(s'.g, h', s'.threads[t].left, s'.threads[t].batch))
      && (s.threads[t].Writing? && !s'.threads[t].Writing? ==> OverBatch(s'.g, h', s.threads[t].batch))
  {
    assert Carried(h, t, s.threads[t]);
    hide Act, Carries, UnderWay, OverBatch, Take, Note, Tidy;
    if s.threads[t].Writing? {
      WritingNotes(s, h, t, c);
      assert Carries(Take(s, Step(t, c)).threads[t]) == None;
    } else if s.threads[t].Check? {
      CheckNotes(s, h, t, c);
    } else {
      CarryNotes(s, h, t, c);
    }
  }

  lemma OthersNotes(s: State, h: Notes, step: Step, u: nat)
    requires Noted(s, h) && Inv(s) && step.t < |s.threads| && u < |s.threads| && u != step.t
    ensures var s', h' := Take(s, step), Note(s, h, step);
      && Carried(h', u, s'.threads[u])
      && (s'.threads[u].Writing? ==> UnderWay(s'.g, h', s'.threads[u].left, s'.threads[u].batch))
  {
    var p := s.threads[step.t];
    assert Carried(h, u, s.threads[u]);
    WireStep(s.g, step.t, p, step.c);
    if s.threads[u].Writing? {
      OneAtATime(s, u, step.t);
      assert UnderWay(s.g, h, s.threads[u].left, s.threads[u].batch);
    }
    hide Inv, Act, SentBut;
  }

  lemma OverNotes(s: State, h: Notes, step: Step, b: nat)
    requires Noted(s, h) && Inv(s) && step.t < |s.threads| && b < s.g.batches && s.g.open != Some(b)
    ensures OverBatch(Take(s, step).g, Note(s, h, step), b)
  {
    var s', h' := Take(s, step), Note(s, h, step);
    var p := s.threads[step.t];
    WireStep(s.g, step.t, p, step.c);
    assert p.Writing? ==> p.batch != b;
    hide Inv, Act, OverBatch;
    assert s'.g.wire == s.g.wire || (exists f :: !Of(f, b) && s'.g.wire == s.g.wire + [f]) by {
      if p.Writing? && p.left > 0 {
        assert !Of(Data(p.batch, p.left - 1, s.g.window, s.g.owns), b);
      } else {
        assert !Of(Grant, b);
      }
    }
    OverStays(s.g, h, b, s'.g, h');
  }

  /** Which batch is open changes only in a step of the thread that writes it. */
  lemma OpenStep(s: State, step: Step)
    requires Inv(s) && step.t < |s.threads|
    ensures var s' := Take(s, step); var p := s.threads[step.t];
      && (s'.g.open != s.g.open && s.g.open.Some? ==> p.Writing? && s.g.open == Some(p.batch) && !s'.threads[step.t].Writing?)
      && (p.Check? && s.g.owns ==> s'.g.open == Some(s.g.batches))
      && s'.g.batches == s.g.batches + (if p.Check? && s.g.owns then 1 else 0)
  {
  }

  lemma NotedKept(s: State, h: Notes, step: Step)
    requires Noted(s, h) && Inv(s)
    ensures Noted(Take(s, step), Note(s, h, step))
  {
    if step.t < |s.threads| {
      var s', h' := Take(s, step), Note(s, h, step);
      OwnNotes(s, h, step.t, step.c);
      OpenStep(s, step);
      forall u | 0 <= u < |s.threads| && u != step.t
        ensures Carried(h', u, s'.threads[u])
        ensures s'.threads[u].Writing? ==> UnderWay(s'.g, h', s'.threads[u].left, s'.threads[u].batch)
      {
        OthersNotes(s, h, step, u);
      }
      forall b: nat | b < s'.g.batches && s'.g.open != Some(b)
        ensures OverBatch(s'.g, h', b)
      {
        if s.g.open != Some(b) {
          OverNotes(s, h, step, b);
        }
      }
      assert Carried(h, step.t, s.threads[step.t]);
      hide Inv, Act, Carried, UnderWay, OverBatch;
    }
  }

  lemma {:induction false} EveryScheduleIsNoted(s: State, h: Notes, steps: seq<Step>)
    requires Inv(s) && Noted(s, h)
    ensures Noted(Run(s, steps), NotesOf(s, h, steps))
    decreases |steps|
  {
    hide Inv, Noted, Take, Note;
    if steps != [] {
      TakeKeeps(s, steps[0]);
      NotedKept(s, h, steps[0]);
      EveryScheduleIsNoted(Take(s, steps[0]), Note(s, h, steps[0]), steps[1..]);
    }
  }

  /**
   In every schedule, of a batch that is over the wire holds exactly the frames its Send
   was asked for, one behind the other from the first, which has all the others to go,
   to the last; or, if a write of it failed, those before the failed one.
   */
  lemma BatchIsWhole(threads: nat, steps: seq<Step>, b: nat)
    requires var s := Run(Initial(threads), steps); b < s.g.batches && s.g.open != Some(b)
    ensures var wire := Run(Initial(threads), steps).g.wire; var h := NotesOf(Initial(threads), NOTHING, steps);
      && b < |h.asked| && b < |h.starts|
      && var n, at := h.asked[b], h.starts[b];
      && (b !in h.refused ==>
            && at + n <= |wire|
            && (forall i :: 0 <= i < |wire| ==> (wire[i].Data? && wire[i].batch == b <==> at <= i < at + n))
            && (forall i :: at <= i < at + n ==> wire[i].left == n - 1 - (i - at)))
      && (b in h.refused ==>
            && 0 < h.refused[b] <= n && at + n - h.refused[b] <= |wire|
            && (forall i :: 0 <= i < |wire| ==> (wire[i].Data? && wire[i].batch == b <==> at <= i < at + n - h.refused[b]))
            && (forall i :: at <= i < at + n - h.refused[b] ==> wire[i].left == n - 1 - (i - at)))
  {
    Reachable(threads, []);
    EveryScheduleIsNoted(Initial(threads), NOTHING, steps);
    var s, h := Run(Initial(threads), steps), NotesOf(Initial(threads), NOTHING, steps);
    hide Run, NotesOf, Inv;
    assert OverBatch(s.g, h, b);
    assert forall i :: 0 <= i < |s.g.wire| ==> (Of(s.g.wire[i], b) <==> s.g.wire[i].Data? && s.g.wire[i].batch == b);
  }

  /** Only Start, taken by another thread while a batch is being written, disturbs one; and it always does. */
  lemma OnlyStartDisturbs(s: State, step: Step)
    requires Inv(s) && step.t < |s.threads|
    ensures Take(s, step).g.disturbed != s.g.disturbed ==> s.threads[step.t].StartClear? && s.g.open.Some?
    ensures s.threads[step.t].StartClear? && s.g.open.Some? ==>
              s.g.open.value in Take(s, step).g.disturbed && !Take(s, step).g.owns
  {
  }

  /** A run through the listed states, each a step from the one before. */
  predicate Visits(states: seq<State>, steps: seq<Step>) {
    |states| == |steps| + 1 && forall i :: 0 <= i < |steps| ==> states[i + 1] == Take(states[i], steps[i])
  }

  lemma {:induction false} RunVisits(states: seq<State>, steps: seq<Step>)
    requires Visits(states, steps)
    ensures Run(states[0], steps) == states[|steps|]
    decreases |steps|
  {
    hide Take;
    if steps != [] {
      RunVisits(states[1..], steps[1..]);
    }
  }

  const OPENED := Shared(true, [], {}, Some(0), 0, 1, Some(0), 0, {}, [])

  lemma OpenOneBatch(steps: seq<Step>)
    requires steps == [Step(0, DoSend(1)), Step(0, Ok), Step(0, Ok), Step(0, Ok)]
    ensures Run(Initial(2), steps) == State(OPENED, [Writing(1, 0), Idle])
  {
    var g := Initial(2).g;
    var states := [Initial(2), State(g, [Look(Some(1)), Idle]), State(g, [Lock(1), Idle]),
      State(g.(lock := Some(0)), [Check(1), Idle]), State(OPENED, [Writing(1, 0), Idle])];
    assert states[1] == Take(states[0], steps[0]);
    assert states[2] == Take(states[1], steps[1]);
    assert states[3] == Take(states[2], steps[2]);
    assert states[4] == Take(states[3], steps[3]);
    RunVisits(states, steps);
  }

  lemma DisturbIt(steps: seq<Step>)
    requires steps == [Step(1, DoStart), Step(1, Ok), Step(0, Ok)]
    ensures Run(State(OPENED, [Writing(1, 0), Idle]), steps).g.wire == [Data(0, 0, 1, false)]
  {
    var g := OPENED.(owns := false, window := 1, disturbed := {0});
    var states := [State(OPENED, [Writing(1, 0), Idle]), State(OPENED, [Writing(1, 0), StartClear]),
      State(g, [Writing(1, 0), Idle]), State(g.(wire := [Data(0, 0, 1, false)]), [Writing(0, 0), Idle])];
    assert states[1] == Take(states[0], steps[0]);
    assert states[2] == Take(states[1], steps[1]);
    assert states[3] == Take(states[2], steps[2]);
    RunVisits(states, steps);
  }

  lemma {:induction false} RunJoins(s: State, a: seq<Step>, b: seq<Step>)
    ensures Run(s, a + b) == Run(Run(s, a), b)
    decreases |a|
  {
    hide Take;
    if a == [] {
      assert a + b == b;
    } else {
      assert (a + b)[1..] == a[1..] + b;
      RunJoins(Take(s, a[0]), a[1..], b);
    }
  }

  // ---- undisturbed, every call goes through -----------------------------------------------------

  /** k steps of thread t, nothing failing. */
  function Alone(t: nat, k: nat): seq<Step> {
    if k == 0 then [] else [Step(t, Ok)] + Alone(t, k - 1)
  }

  /** The frames of batch b from the one that has `left` to go, itself included, to the last. */
  function Frames(b: nat, left: nat, window: nat): seq<Frame> {
    if left == 0 then [] else [Data(b, left - 1, window, true)] + Frames(b, left - 1, window)
  }

  lemma {:induction false} WritesOut(s: State, t: nat)
    requires t < |s.threads| && s.threads[t].Writing? && s.g.owns
    ensures var p := s.threads[t]; var s' := Run(s, Alone(t, p.left + 1));
      && s'.g == s.g.(wire := s.g.wire + Frames(p.batch, p.left, s.g.window), lock := None, open := None)
      && s'.threads == s.threads[t := Idle]
    decreases s.threads[t].left
  {
    var p := s.threads[t];
    var s1 := Take(s, Step(t, Ok));
    assert Alone(t, p.left + 1)[1..] == Alone(t, p.left);
    if p.left == 0 {
      assert Run(s1, []) == s1;
      assert s.g.wire + [] == s.g.wire;
    } else {
      assert s1 == State(s.g.(wire := s.g.wire + [Data(p.batch, p.left - 1, s.g.window, true)]),
                         s.threads[t := Writing(p.left - 1, p.batch)]);
      hide Take;
      WritesOut(s1, t);
      assert s1.threads[t := Idle] == s.threads[t := Idle];
      assert s1.g.wire + Frames(p.batch, p.left - 1, s.g.window) == s.g.wire + Frames(p.batch, p.left, s.g.window);
    }
  }

  /**
   Send of n frames, in a window the app owns and while nobody sends or grants: the n
   frames reach the link as one batch, the lock is free again and the thread is done.
   */
  lemma SendGoesThrough(s: State, t: nat, n: nat)
    requires t < |s.threads| && s.threads[t].Idle? && s.g.owns && s.g.lock == None
    ensures var s' := Run(s, [Step(t, DoSend(n))] + Alone(t, 3) + Alone(t, n + 1));
      && s'.g.wire == s.g.wire + Frames(s.g.batches, n, s.g.window)
      && s'.g.lock == None && s'.g.owns && s'.threads == s.threads && s'.g.batches == s.g.batches + 1
  {
    var begin := [Step(t, DoSend(n))] + Alone(t, 3);
    var g, threads := s.g, s.threads;
    assert Alone(t, 3) == [Step(t, Ok), Step(t, Ok), Step(t, Ok)] by {
      assert Alone(t, 0) == [] && Alone(t, 1) == [Step(t, Ok)] && Alone(t, 2) == [Step(t, Ok), Step(t, Ok)];
    }
    var g4 := g.(lock := Some(t), batches := g.batches + 1, open := Some(g.batches));
    var states := [s, State(g, threads[t := Look(Some(n))]), State(g, threads[t := Lock(n)]),
      State(g.(lock := Some(t)), threads[t := Check(n)]), State(g4, threads[t := Writing(n, g.batches)])];
    assert states[1] == Take(states[0], begin[0]);
    assert states[2] == Take(states[1], begin[1]);
    assert states[3] == Take(states[2], begin[2]);
    assert states[4] == Take(states[3], begin[3]);
    hide Take;
    RunVisits(states, begin);
    RunJoins(s, begin, Alone(t, n + 1));
    WritesOut(states[4], t);
    assert threads[t := Writing(n, g.batches)][t := Idle] == threads;
  }

  /** A grant while nobody sends: one frame on the wire, and the window is the device's. */
  lemma GrantGoesThrough(s: State, t: nat)
    requires t < |s.threads| && s.threads[t].Idle? && s.g.lock == None
    ensures var s' := Run(s, [Step(t, DoGrant), Step(t, Ok), Step(t, Ok), Step(t, Ok)]);
      && s'.g.wire == s.g.wire + [Grant] && !s'.g.owns && s'.g.window == s.g.window + 1
      && s'.g.lock == None && s'.g.waiters == s.g.waiters && s'.threads == s.threads
  {
    hide Take, Run;
    var taken, written := [Step(t, DoGrant), Step(t, Ok)], [Step(t, Ok), Step(t, Ok)];
    GrantTaken(s, t);
    GrantWritten(State(s.g.(lock := Some(t)), s.threads[t := GrantClear]), t);
    RunJoins(s, taken, written);
    assert taken + written == [Step(t, DoGrant), Step(t, Ok), Step(t, Ok), Step(t, Ok)];
    assert s.threads[t := GrantClear][t := Idle] == s.threads;
  }

  lemma GrantTaken(s: State, t: nat)
    requires t < |s.threads| && s.threads[t].Idle? && s.g.lock == None
    ensures Run(s, [Step(t, DoGrant), Step(t, Ok)]) == State(s.g.(lock := Some(t)), s.threads[t := GrantClear])
  {
    var steps := [Step(t, DoGrant), Step(t, Ok)];
    var states := [s, State(s.g, s.threads[t := GrantLock]), State(s.g.(lock := Some(t)), s.threads[t := GrantClear])];
    assert states[1] == Take(states[0], steps[0]);
    assert states[2] == Take(states[1], steps[1]);
    hide Take;
    RunVisits(states, steps);
  }

  lemma GrantWritten(s: State, t: nat)
    requires t < |s.threads| && s.threads[t].GrantClear?
    ensures Run(s, [Step(t, Ok), Step(t, Ok)]) ==
            State(s.g.(owns := false, window := s.g.window + 1, lock := None, wire := s.g.wire + [Grant]), s.threads[t := Idle])
  {
    var steps := [Step(t, Ok), Step(t, Ok)];
    var given := s.g.(owns := false, window := s.g.window + 1);
    var states := [s, State(given, s.threads[t := GrantWrite]),
      State(given.(lock := None, wire := s.g.wire + [Grant]), s.threads[t := Idle])];
    assert states[1] == Take(states[0], steps[0]);
    assert states[2] == Take(states[1], steps[1]);
    hide Take;
    RunVisits(states, steps);
  }

  /** A thread that awaits the window goes on if the app owns it, and registers a channel of its own to sleep on if not. */
  lemma AwaitSleepsUnlessOwned(s: State, t: nat, todo: Option<nat>, c: Choice)
    requires t < |s.threads| && s.threads[t] == Look(todo)
    ensures var s' := Take(s, Step(t, c));
      if s.g.owns then s'.g == s.g && s'.threads[t] == (if todo == None then Idle else Lock(todo.value))
      else s'.threads[t] == Sleep(s.g.channels, todo) && s'.g.waiters == s.g.waiters + [s.g.channels]
           && s'.g.channels == s.g.channels + 1
  {
  }

  /** Start during a batch: the batch's last frame is written in a window the app has given away. */
  lemma StartBreaksBatch()
    ensures exists steps :: Run(Initial(2), steps).g.wire == [Data(0, 0, 1, false)]
  {
    hide Run, Take;
    var a, b := [Step(0, DoSend(1)), Step(0, Ok), Step(0, Ok), Step(0, Ok)], [Step(1, DoStart), Step(1, Ok), Step(0, Ok)];
    OpenOneBatch(a);
    DisturbIt(b);
    RunJoins(Initial(2), a, b);
  }
}
