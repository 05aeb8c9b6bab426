/**
 The receive ring between the radio task, which pushes frames, and the main
 loop, which pops them: one producer, one consumer, 32-bit counters that wrap,
 and one memory access per step.
 */
module Ring {
  import opened Bytes

  const RX_MAX: nat := 250
  // src, dst, rssi and len come first, then the data.
  const SLOT_CELLS: nat := 264

  datatype Frame = Frame(src: seq<byte>, dst: seq<byte>, rssi: byte, data: seq<byte>)

  predicate WellFormed(f: Frame) {
    |f.src| == 6 && |f.dst| == 6 && 0 < |f.data| <= RX_MAX
  }

  /** The cells a push writes, in the order it writes them. */
  function Cells(f: Frame): (c: seq<byte>)
    requires WellFormed(f)
    ensures 14 < |c| <= SLOT_CELLS
  {
    f.src + f.dst + [f.rssi, |f.data|] + f.data
  }

  /** The frame a popped slot carries. */
  function FrameOf(c: seq<byte>): Frame
    requires |c| == SLOT_CELLS
  {
    var end: nat := if 14 + c[13] <= SLOT_CELLS then 14 + c[13] else SLOT_CELLS;
    Frame(c[0..6], c[6..12], c[12], c[14..end])
  }

  predicate Carries(c: seq<byte>, f: Frame) {
    |c| == SLOT_CELLS && WellFormed(f) && c[..|Cells(f)|] == Cells(f)
  }

  lemma CarriedFrame(c: seq<byte>, f: Frame)
    requires Carries(c, f)
    ensures FrameOf(c) == f
  {
    var k := Cells(f);
    assert k[0..6] == f.src && k[6..12] == f.dst && k[12] == f.rssi && k[13] == |f.data| && k[14..] == f.data;
    assert c[0..6] == k[0..6] && c[6..12] == k[6..12];
    assert c[12] == c[..|k|][12] && c[13] == c[..|k|][13];
    assert c[14..|k|] == c[..|k|][14..];
  }

  // ---- wrapping counters -----------------------------------------------------

  /** What a 32-bit counter reads after n increments from zero. */
  function Wrap(n: nat): u32 {
    n % 0x1_0000_0000
  }

  /** Unsigned 32-bit subtraction. */
  function Diff(a: u32, b: u32): u32 {
    if a >= b then a - b else a - b + 0x1_0000_0000
  }

  /** Unsigned 32-bit addition. */
  function Plus(a: u32, k: u32): u32 {
    if a + k < 0x1_0000_0000 then a + k else a + k - 0x1_0000_0000
  }

  /** The slot a counter names: head % TOTEM_RX_SLOTS. */
  function Slot(a: nat): (k: nat)
    ensures k < 16
  {
    a % 16
  }

  lemma WrapPlus(n: nat, k: u32)
    ensures Wrap(n + k) == Plus(Wrap(n), k)
  {
    var q := n / 0x1_0000_0000;
    var r := Wrap(n) + k;
    assert n + k == 0x1_0000_0000 * q + r;
    if r < 0x1_0000_0000 {
      ModOf(n + k, q, r);
    } else {
      ModOf(n + k, q + 1, r - 0x1_0000_0000);
    }
  }

  lemma ModOf(n: int, q: int, r: u32)
    requires n == 0x1_0000_0000 * q + r
    ensures n % 0x1_0000_0000 == r
  {
  }

  /** 2^32 is a multiple of 16: the slot does not notice the wrap. */
  lemma WrapSlot(n: nat)
    ensures Slot(Wrap(n)) == Slot(n)
  {
    var q := n / 0x1_0000_0000;
    assert n == 16 * (0x1000_0000 * q) + Wrap(n);
    SlotShift(Wrap(n), 0x1000_0000 * q);
  }

  lemma SlotShift(r: nat, m: nat)
    ensures Slot(16 * m + r) == Slot(r)
  {
    assert 16 * m + r == 16 * (m + r / 16) + r % 16;
  }

  lemma PlusSlot(a: u32, k: u32)
    ensures Slot(Plus(a, k)) == Slot(a + k)
  {
    if a + k >= 0x1_0000_0000 {
      SlotShift(a + k - 0x1_0000_0000, 0x1000_0000);
    }
  }

  /** Two counters at most 16 apart keep their distance through the wrap, and their slots. */
  lemma Wrapped(h: nat, t: nat)
    requires t <= h <= t + 16
    ensures Diff(Wrap(h), Wrap(t)) == h - t
    ensures Wrap(h) == Wrap(t) <==> h == t
    ensures Plus(Wrap(h), 1) == Wrap(h + 1) && Plus(Wrap(t), 1) == Wrap(t + 1)
    ensures Slot(Wrap(h)) == Slot(h) && Slot(Wrap(t)) == Slot(t)
  {
    WrapPlus(t, h - t);
    WrapPlus(h, 1);
    WrapPlus(t, 1);
    WrapSlot(h);
    WrapSlot(t);
  }

  /** Fewer than 16 apart and not equal: different slots. */
  lemma OtherSlot(a: nat, b: nat)
    requires a < b < a + 16
    ensures Slot(a) != Slot(b)
  {
  }

  // ---- the interleaved machine --------------------------------------------------

  datatype Producer =
    | PIdle
    | PTail(f: Frame, head: u32)               // head read, tail not yet
    | PWrite(f: Frame, head: u32, i: nat)      // i cells of the slot written
    | PDropRead(f: Frame)                      // full: about to read the drop counter
    | PDropWrite(f: Frame, d: u32)             // and about to store it

  datatype Consumer =
    | CIdle
    | CHead(tail: u32)                         // tail read, head not yet
    | CCopy(tail: u32, out: seq<byte>)         // |out| cells of the slot copied

  /** Shared memory, the two program counters, and the history the promises speak of. */
  datatype State = State(
    slots: seq<seq<byte>>, head: u32, tail: u32, dropped: u32,
    p: Producer, c: Consumer,
    offered: nat, refused: nat, drops: nat, accepted: seq<Frame>, popped: seq<Frame>)

  datatype Step = Offer(f: Frame) | Produce | Consume

  function ProduceStep(s: State): State
    requires Inv(s)
  {
    match s.p
    case PIdle => s
    case PTail(f, head) =>
      if Diff(head, s.tail) >= 16 then s.(p := PDropRead(f)) else s.(p := PWrite(f, head, 0))
    case PDropRead(f) => s.(p := PDropWrite(f, s.dropped))
    case PDropWrite(f, d) => s.(dropped := Plus(d, 1), drops := s.drops + 1, p := PIdle)
    case PWrite(f, head, i) =>
      if i < |Cells(f)| then
        var k := Slot(head);
        s.(slots := s.slots[k := s.slots[k][i := Cells(f)[i]]], p := PWrite(f, head, i + 1))
      else s.(head := Plus(head, 1), accepted := s.accepted + [f], p := PIdle)
  }

  function ConsumeStep(s: State): State
    requires Inv(s)
  {
    match s.c
    case CIdle => s.(c := CHead(s.tail))
    case CHead(tail) => if tail == s.head then s.(c := CIdle) else s.(c := CCopy(tail, []))
    case CCopy(tail, out) =>
      if |out| < SLOT_CELLS then s.(c := CCopy(tail, out + [s.slots[Slot(tail)][|out|]]))
      else s.(tail := Plus(tail, 1), popped := s.popped + [FrameOf(out)], c := CIdle)
  }

  /** One step of either side; an offer starts a push when the producer is idle. */
  function Take(s: State, step: Step): State
    requires Inv(s)
  {
    match step
    case Offer(f) =>
      if s.p != PIdle then s
      else if !WellFormed(f) then s.(offered := s.offered + 1, refused := s.refused + 1)
      else s.(offered := s.offered + 1, p := PTail(f, s.head))
    case Produce => ProduceStep(s)
    case Consume => ConsumeStep(s)
  }

  predicate SlotsHold(s: State) {
    && |s.slots| == 16 && (forall k :: 0 <= k < 16 ==> |s.slots[k]| == SLOT_CELLS)
    && |s.popped| <= |s.accepted|
    && forall k :: |s.popped| <= k < |s.accepted| ==> Carries(s.slots[Slot(k)], s.accepted[k])
  }

  predicate ProducerOk(s: State) {
    match s.p
    case PIdle => true
    case PTail(f, head) => WellFormed(f) && head == s.head
    case PDropRead(f) => true
    case PDropWrite(f, d) => d == s.dropped
    case PWrite(f, head, i) =>
      && WellFormed(f) && head == s.head && |s.accepted| < |s.popped| + 16
      && i <= |Cells(f)| && |s.slots| == 16 && |s.slots[Slot(head)]| == SLOT_CELLS
      && s.slots[Slot(head)][..i] == Cells(f)[..i]
  }

  predicate ConsumerOk(s: State) {
    match s.c
    case CIdle => true
    case CHead(tail) => tail == s.tail
    case CCopy(tail, out) =>
      && tail == s.tail && |s.popped| < |s.accepted|
      && |s.slots| == 16 && |out| <= SLOT_CELLS == |s.slots[Slot(tail)]|
      && out == s.slots[Slot(tail)][..|out|]
  }

  predicate Inv(s: State) {
    && s.head == Wrap(|s.accepted|) && s.tail == Wrap(|s.popped|) && s.dropped == Wrap(s.drops)
    && |s.popped| <= |s.accepted| <= |s.popped| + 16
    && s.popped == s.accepted[..|s.popped|]
    && s.offered == s.refused + s.drops + |s.accepted| + (if s.p == PIdle then 0 else 1)
    && SlotsHold(s) && ProducerOk(s) && ConsumerOk(s)
  }

  lemma WriteCellKeeps(s: State)
    requires Inv(s) && s.p.PWrite? && s.p.i < |Cells(s.p.f)|
    ensures Inv(ProduceStep(s))
  {
    var PWrite(f, head, i) := s.p;
    var h, t := |s.accepted|, |s.popped|;
    Wrapped(h, t);
    var k := Slot(head);
    var s' := ProduceStep(s);
    assert s'.slots[k][..i + 1] == s.slots[k][..i] + [Cells(f)[i]] == Cells(f)[..i + 1];
    forall n | t <= n < h
      ensures Carries(s'.slots[Slot(n)], s'.accepted[n])
    {
      OtherSlot(n, h);
    }
    if s.c.CCopy? {
      OtherSlot(t, h);
    }
  }

  lemma PublishKeeps(s: State)
    requires Inv(s) && s.p.PWrite? && s.p.i == |Cells(s.p.f)|
    ensures Inv(ProduceStep(s))
  {
    var h, t := |s.accepted|, |s.popped|;
    Wrapped(h, t);
    var f := s.p.f;
    assert Cells(f)[..|Cells(f)|] == Cells(f);
    assert Carries(s.slots[Slot(h)], f);
  }

  lemma ProduceKeeps(s: State)
    requires Inv(s)
    ensures Inv(ProduceStep(s))
  {
    match s.p
    case PWrite(f, head, i) =>
      if i < |Cells(f)| {
        WriteCellKeeps(s);
      } else {
        PublishKeeps(s);
      }
    case PTail(f, head) => Wrapped(|s.accepted|, |s.popped|);
    case PDropWrite(f, d) => WrapPlus(s.drops, 1);
    case _ =>
  }

  lemma ConsumeKeeps(s: State)
    requires Inv(s)
    ensures Inv(ConsumeStep(s))
  {
    var h, t := |s.accepted|, |s.popped|;
    Wrapped(h, t);
    match s.c
    case CCopy(tail, out) =>
      var slot := s.slots[Slot(t)];
      if |out| < SLOT_CELLS {
        assert slot[..|out| + 1] == slot[..|out|] + [slot[|out|]];
      } else {
        assert out == slot;
        CarriedFrame(slot, s.accepted[t]);
        assert s.accepted[..t + 1] == s.accepted[..t] + [s.accepted[t]];
      }
    case _ =>
  }

  lemma TakeKeeps(s: State, step: Step)
    requires Inv(s)
    ensures Inv(Take(s, step))
  {
    ProduceKeeps(s);
    ConsumeKeeps(s);
  }

  /** The ring as the program starts, whatever is in the slots. */
  predicate Initial(s: State) {
    && |s.slots| == 16 && (forall k :: 0 <= k < 16 ==> |s.slots[k]| == SLOT_CELLS)
    && s.head == s.tail == s.dropped == 0 && s.p == PIdle && s.c == CIdle
    && s.offered == s.refused == s.drops == 0 && s.accepted == s.popped == []
  }

  lemma InitialInv(s: State)
    requires Initial(s)
    ensures Inv(s)
  {
  }

  function Run(s: State, steps: seq<Step>): (r: State)
    requires Inv(s)
    ensures Inv(r)
    decreases |steps|
  {
    if steps == [] then s
    else
      TakeKeeps(s, steps[0]);
      Run(Take(s, steps[0]), steps[1..])
  }

  /** One more access on an interleaving is that access made where it ends. */
  lemma {:induction false} RunOneMore(s: State, steps: seq<Step>, step: Step)
    requires Inv(s)
    ensures Run(s, []) == s && Run(s, steps + [step]) == Take(Run(s, steps), step)
    decreases |steps|
  {
    hide Take, Inv;
    if steps == [] {
      assert [step][1..] == [] && steps + [step] == [step];
      TakeKeeps(s, step);
      assert Run(s, [step]) == Run(Take(s, step), []);
    } else {
      assert (steps + [step])[1..] == steps[1..] + [step];
      TakeKeeps(s, steps[0]);
      RunOneMore(Take(s, steps[0]), steps[1..], step);
    }
  }

  /**
   In every interleaving, through any number of wraps: what was popped is what was
   accepted, in order; never more than 16 wait; every frame offered is accepted,
   dropped, refused or still being pushed; and the counter of drops is exact up to
   its own wrap.
   */
  lemma {:induction false} EveryInterleaving(s: State, steps: seq<Step>)
    requires Initial(s)
    ensures Inv(s)
    ensures var r := Run(s, steps);
      && r.popped <= r.accepted && |r.accepted| - |r.popped| == Diff(r.head, r.tail) <= 16
      && r.offered == |r.accepted| + r.drops + r.refused + (if r.p == PIdle then 0 else 1)
      && r.dropped == Wrap(r.drops)
  {
    InitialInv(s);
    var r := Run(s, steps);
    Wrapped(|r.accepted|, |r.popped|);
  }

  /** The slot being written is never one being copied out, nor one still waiting. */
  lemma NeverOverwrites(s: State)
    requires Inv(s) && s.p.PWrite?
    ensures s.c.CCopy? ==> Slot(s.p.head) != Slot(s.c.tail)
    ensures forall k :: |s.popped| <= k < |s.accepted| ==> Slot(k) != Slot(s.p.head)
  {
    Wrapped(|s.accepted|, |s.popped|);
    forall k | |s.popped| <= k < |s.accepted|
      ensures Slot(k) != Slot(s.p.head)
    {
      OtherSlot(k, |s.accepted|);
    }
  }

  /** A push drops a frame only while 16 wait, and a pop gives up only when none does. */
  lemma DropsOnlyWhenFull(s: State)
    requires Inv(s)
    ensures s.p.PTail? ==> (ProduceStep(s).p.PDropRead? <==> |s.accepted| == |s.popped| + 16)
    ensures s.c.CHead? ==> (ConsumeStep(s).c.CIdle? <==> s.popped == s.accepted)
  {
    Wrapped(|s.accepted|, |s.popped|);
  }

  // ---- a call on its own ---------------------------------------------------------

  function Produces(k: nat): seq<Step> {
    if k == 0 then [] else [Produce] + Produces(k - 1)
  }

  function Consumes(k: nat): seq<Step> {
    if k == 0 then [] else [Consume] + Consumes(k - 1)
  }

  lemma {:induction false} WritesOn(s: State)
    requires Inv(s) && s.p.PWrite?
    ensures var s' := Run(s, Produces(|Cells(s.p.f)| - s.p.i + 1));
      && s'.accepted == s.accepted + [s.p.f] && s'.p == PIdle
      && s'.popped == s.popped && s'.c == s.c && s'.tail == s.tail && s'.dropped == s.dropped && s'.refused == s.refused
    decreases |Cells(s.p.f)| - s.p.i
  {
    var k := |Cells(s.p.f)| - s.p.i;
    ProduceKeeps(s);
    var s1 := ProduceStep(s);
    assert Produces(k + 1)[1..] == Produces(k);
    assert Run(s, Produces(k + 1)) == Run(s1, Produces(k));
    if k > 0 {
      OneCell(s);
      hide Inv, ProduceStep, Cells;
      WritesOn(s1);
    } else {
      assert Run(s1, []) == s1;
    }
  }

  lemma OneCell(s: State)
    requires Inv(s) && s.p.PWrite? && s.p.i < |Cells(s.p.f)|
    ensures var s' := ProduceStep(s);
      && s'.p == PWrite(s.p.f, s.p.head, s.p.i + 1) && s'.accepted == s.accepted
      && s'.popped == s.popped && s'.c == s.c && s'.tail == s.tail && s'.dropped == s.dropped && s'.refused == s.refused
  {
  }

  /**
   A push with nothing in between: a frame that is none is refused, one that is goes
   behind those waiting if fewer than 16 are, and is dropped and counted if 16 are.
   */
  lemma PushGoesThrough(s: State, f: Frame)
    requires Inv(s) && s.p == PIdle
    ensures var waiting := |s.accepted| - |s.popped|;
      var frame := |f.src| == 6 && |f.dst| == 6 && 1 <= |f.data| <= 250;
      && (!frame ==> Take(s, Offer(f)) == s.(offered := s.offered + 1, refused := s.refused + 1))
      && (frame && waiting < 16 ==>
            var s' := Run(s, [Offer(f)] + Produces(16 + |f.data|));
            s'.p == PIdle && s'.accepted == s.accepted + [f] && s'.popped == s.popped && s'.dropped == s.dropped)
      && (frame && waiting == 16 ==>
            var s' := Run(s, [Offer(f)] + Produces(3));
            s'.p == PIdle && s'.accepted == s.accepted && s'.popped == s.popped && s'.dropped == Plus(s.dropped, 1))
  {
    if WellFormed(f) {
      TakeKeeps(s, Offer(f));
      var s1 := Take(s, Offer(f));
      DropsOnlyWhenFull(s1);
      ProduceKeeps(s1);
      var s2 := ProduceStep(s1);
      if |s.accepted| - |s.popped| < 16 {
        assert |Cells(f)| == 14 + |f.data|;
        var steps := [Offer(f)] + Produces(|Cells(f)| + 2);
        assert steps[1..] == Produces(|Cells(f)| + 2) && steps[1..][1..] == Produces(|Cells(f)| + 1);
        assert Run(s, steps) == Run(s1, steps[1..]) == Run(s2, steps[1..][1..]);
        assert s2.p == PWrite(f, s.head, 0);
        hide Inv, ProduceStep, Cells;
        WritesOn(s2);
      } else {
        var steps := [Offer(f)] + Produces(3);
        assert Produces(1) == [Produce] && Produces(2) == [Produce] + [Produce] && Produces(3) == [Produce] + Produces(2);
        assert steps[1..] == Produces(3) && Produces(3)[1..] == Produces(2) && Produces(2)[1..] == Produces(1) && Produces(1)[1..] == [];
        ProduceKeeps(s2);
        var s3 := ProduceStep(s2);
        ProduceKeeps(s3);
        assert Run(s, steps) == Run(s1, Produces(3)) == Run(s2, Produces(2)) == Run(s3, Produces(1)) == ProduceStep(s3);
      }
    }
  }

  lemma {:induction false} CopiesOn(s: State)
    requires Inv(s) && s.c.CCopy?
    ensures var s' := Run(s, Consumes(SLOT_CELLS - |s.c.out| + 1));
      && s'.popped == s.popped + [s.accepted[|s.popped|]] && s'.c == CIdle && s'.accepted == s.accepted
    decreases SLOT_CELLS - |s.c.out|
  {
    var k := SLOT_CELLS - |s.c.out|;
    ConsumeKeeps(s);
    var s1 := ConsumeStep(s);
    assert Consumes(k + 1)[1..] == Consumes(k);
    assert Run(s, Consumes(k + 1)) == Run(s1, Consumes(k));
    if k > 0 {
      hide Inv;
      CopiesOn(s1);
    } else {
      assert s1.accepted == s.accepted && |s1.popped| == |s.popped| + 1;
      assert s1.popped == s1.accepted[..|s1.popped|];
      assert s.popped == s.accepted[..|s.popped|];
      assert Run(s1, []) == s1;
    }
  }

  /** A pop with nothing in between takes the oldest frame waiting, or nothing if none waits. */
  lemma PopGoesThrough(s: State)
    requires Inv(s) && s.c == CIdle
    ensures if s.popped == s.accepted then Run(s, Consumes(2)) == s
            else
              var s' := Run(s, Consumes(SLOT_CELLS + 3));
              s'.popped == s.popped + [s.accepted[|s.popped|]] && s'.c == CIdle && s'.accepted == s.accepted
  {
    ConsumeKeeps(s);
    var s1 := ConsumeStep(s);
    DropsOnlyWhenFull(s1);
    ConsumeKeeps(s1);
    var s2 := ConsumeStep(s1);
    if s.popped == s.accepted {
      assert Consumes(1) == [Consume] && Consumes(2)[1..] == Consumes(1) && Consumes(1)[1..] == [];
      assert Run(s, Consumes(2)) == Run(s1, Consumes(1)) == s2;
    } else {
      assert Consumes(SLOT_CELLS + 3)[1..] == Consumes(SLOT_CELLS + 2) && Consumes(SLOT_CELLS + 2)[1..] == Consumes(SLOT_CELLS + 1);
      assert Run(s, Consumes(SLOT_CELLS + 3)) == Run(s1, Consumes(SLOT_CELLS + 2)) == Run(s2, Consumes(SLOT_CELLS + 1));
      assert s2.c == CCopy(s.tail, []);
      CopiesOn(s2);
    }
  }

  // ---- the two calls ------------------------------------------------------------

  ghost function WaitingIn(slots: seq<seq<byte>>, head: u32, tail: u32): (w: seq<Frame>)
    requires |slots| == 16 && Diff(head, tail) <= 16
    requires forall k :: 0 <= k < 16 ==> |slots[k]| == SLOT_CELLS
    ensures |w| == Diff(head, tail)
  {
    seq(Diff(head, tail), k requires 0 <= k < Diff(head, tail) => FrameOf(slots[Slot(Plus(tail, k))]))
  }

  /** Between the two sides, the slots hold exactly the frames accepted and not yet popped. */
  lemma WaitingIsUnpopped(s: State)
    requires Inv(s)
    ensures Diff(s.head, s.tail) <= 16
    ensures WaitingIn(s.slots, s.head, s.tail) == s.accepted[|s.popped|..]
  {
    var h, t := |s.accepted|, |s.popped|;
    Wrapped(h, t);
    forall k | 0 <= k < h - t
      ensures FrameOf(s.slots[Slot(Plus(s.tail, k))]) == s.accepted[t + k]
    {
      WrapPlus(t, k);
      WrapSlot(t + k);
      CarriedFrame(s.slots[Slot(t + k)], s.accepted[t + k]);
    }
  }

  class Buffer {
    const slots: array<seq<byte>>
    var head: u32
    var tail: u32
    var dropped: u32

    constructor ()
      ensures Valid() && Waiting() == [] && dropped == 0 && fresh(slots)
    {
      slots := new seq<byte>[16](_ => seq(SLOT_CELLS, _ => 0));
      head, tail, dropped := 0, 0, 0;
    }

    ghost predicate Valid()
      reads this, slots
    {
      && slots.Length == 16 && Diff(head, tail) <= 16
      && forall k :: 0 <= k < 16 ==> |slots[k]| == SLOT_CELLS
    }

    /** The frames waiting, oldest first. */
    ghost function Waiting(): (w: seq<Frame>)
      requires Valid()
      reads this, slots
    {
      WaitingIn(slots[..], head, tail)
    }

    /** Copies one frame in: refused when it cannot be an ESP-NOW payload, dropped when the ring is full. */
    method Push(f: Frame)
      requires Valid() && |f.src| == 6 && |f.dst| == 6
      modifies this`head, this`dropped, slots
      ensures Valid() && tail == old(tail)
      ensures !WellFormed(f) ==> Waiting() == old(Waiting()) && dropped == old(dropped)
      ensures WellFormed(f) && |old(Waiting())| < 16 ==> Waiting() == old(Waiting()) + [f] && dropped == old(dropped)
      ensures WellFormed(f) && |old(Waiting())| == 16 ==> Waiting() == old(Waiting()) && dropped == Plus(old(dropped), 1)
    {
      if !WellFormed(f) {
        return;
      }
      if Diff(head, tail) >= 16 {
        dropped := Plus(dropped, 1);
        return;
      }
      var k := Slot(head);
      ghost var before := slots[..];
      var cells := Cells(f);
      for i := 0 to |cells|
        modifies slots
        invariant |slots[k]| == SLOT_CELLS && slots[k][..i] == cells[..i]
        invariant forall n :: 0 <= n < 16 && n != k ==> slots[n] == before[n]
      {
        slots[k] := slots[k][i := cells[i]];
      }
      CarriedFrame(slots[k], f);
      PushedIn(before, slots[..], head, tail, f);
      head := Plus(head, 1);
    }

    /** The frame that has waited longest, if any waits. */
    method Pop() returns (out: Option<Frame>)
      requires Valid()
      modifies this`tail
      ensures Valid()
      ensures if |old(Waiting())| == 0 then out == None && Waiting() == []
              else out == Some(old(Waiting())[0]) && Waiting() == old(Waiting())[1..]
    {
      if tail == head {
        return None;
      }
      PoppedFrom(slots[..], head, tail);
      var slot := slots[Slot(tail)];
      out := Some(FrameOf(slot));
      tail := Plus(tail, 1);
    }
  }

  /** Filling the slot of `head` and stepping it appends one frame to those waiting. */
  lemma PushedIn(before: seq<seq<byte>>, after: seq<seq<byte>>, head: u32, tail: u32, f: Frame)
    requires |before| == |after| == 16 && Diff(head, tail) < 16
    requires forall k :: 0 <= k < 16 ==> |before[k]| == |after[k]| == SLOT_CELLS
    requires forall k :: 0 <= k < 16 && k != Slot(head) ==> after[k] == before[k]
    requires FrameOf(after[Slot(head)]) == f
    ensures Diff(Plus(head, 1), tail) == Diff(head, tail) + 1
    ensures WaitingIn(after, Plus(head, 1), tail) == WaitingIn(before, head, tail) + [f]
  {
    var d := Diff(head, tail);
    assert Plus(tail, d) == head;
    forall k | 0 <= k < d
      ensures Slot(Plus(tail, k)) != Slot(head)
    {
      PlusSlot(tail, k);
      PlusSlot(tail, d);
      OtherSlot(tail + k, tail + d);
    }
  }

  /** Stepping `tail` takes the oldest frame off those waiting. */
  lemma PoppedFrom(slots: seq<seq<byte>>, head: u32, tail: u32)
    requires |slots| == 16 && head != tail && Diff(head, tail) <= 16
    requires forall k :: 0 <= k < 16 ==> |slots[k]| == SLOT_CELLS
    ensures Diff(head, Plus(tail, 1)) == Diff(head, tail) - 1
    ensures WaitingIn(slots, head, tail) == [FrameOf(slots[Slot(tail)])] + WaitingIn(slots, head, Plus(tail, 1))
  {
    assert forall k :: 0 <= k < Diff(head, tail) - 1 ==> Plus(Plus(tail, 1), k) == Plus(tail, k + 1);
  }
}
