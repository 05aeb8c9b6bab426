/**
 The client's write queue: any number of callers and receivers append, one
 writer performs every GATT write. Each step below is one critical section or
 one channel operation; the schedule is any sequence of them.
 */
module WriteQueue {
  import opened Bytes

  /** A frame on the data characteristic, by category and command, or on the status one; reset is what Ready asks of a new session. */
  datatype Frame = Data(cat: byte, cmd: byte) | Ready(reset: bool) | Status

  /** The records the legacy loop repeats until they are acknowledged. */
  datatype Record = StaticData | WiFiList | PeerSync

  function AckFor(r: Record): Frame {
    match r
    case StaticData => Data(1, 0)
    case WiFiList => Data(2, 0)
    case PeerSync => Data(6, 8)
  }

  /**
   One queued write. A call is waited for by the caller with that number; an ack by
   nobody. `seen` is how many records had been handled when it entered the queue.
   */
  datatype Req =
    | Call(id: nat, f: Frame, seen: nat)
    | Ack(r: Record, seen: nat)

  datatype Result = Written | Failed | Disconnected

  datatype Caller = Signalling | Waiting | Done(result: Result)

  datatype Writer =
    | Select                       // waiting for a token or for the link to drop
    | Drain                        // about to look at the queue
    | Write(r: Req)                // took r, about to write it
    | Reply(r: Req, ok: bool)      // wrote a call, about to report it
    | Abandon(rest: seq<Req>)      // the link dropped: answering what was queued
    | Stopped

  datatype State = State(
    queue: seq<Req>, pending: set<Record>, token: bool, linkDone: bool,
    writer: Writer, callers: seq<Caller>, replies: map<nat, Result>, ackSignals: nat,
    // history: every request ever queued, written, written and taken by the link, and settled (written or
    // abandoned, and answered); records handled
    queued: seq<Req>, written: seq<Req>, delivered: seq<Req>, settled: seq<Req>, handled: nat)

  datatype Step =
    | Append(f: Frame)                 // write: queue a request
    | Signal(id: nat)                  // and wake the writer
    | Receive(r: Record)               // legacyAck: queue an ack unless one is waiting
    | SignalAck
    | Collect(id: nat)                 // the caller reads its result
    | GiveUp(id: nat)                  // or sees the link drop
    | DropLink
    | WriterStep(ok: bool)             // the writer; ok is what the link answers
    | WriterSeesDrop                   // the writer's select takes the link's side

  /** The writer is done with r: its caller, if it has one, finds the result in its channel. */
  function Answer(s: State, r: Req, result: Result): State {
    s.(settled := s.settled + [r], replies := if r.Call? then s.replies[r.id := result] else s.replies)
  }

  function WriterNext(s: State, ok: bool): State {
    match s.writer
    case Select => if s.token then s.(token := false, writer := Drain) else s
    case Drain =>
      if s.queue == [] then s.(writer := Select)
      else
        var r := s.queue[0];
        s.(queue := s.queue[1..], writer := Write(r), pending := if r.Ack? then s.pending - {r.r} else s.pending)
    case Write(r) =>
      var s1 := s.(written := s.written + [r], delivered := if ok then s.delivered + [r] else s.delivered);
      if r.Call? then s1.(writer := Reply(r, ok)) else s1.(settled := s.settled + [r], writer := Drain)
    case Reply(r, wrote) => Answer(s, r, if wrote then Written else Failed).(writer := Drain)
    case Abandon(rest) =>
      if rest == [] then s.(writer := Stopped)
      else Answer(s, rest[0], Disconnected).(writer := Abandon(rest[1..]))
    case Stopped => s
  }

  function Take(s: State, step: Step): State {
    match step
    case Append(f) =>
      var r := Call(|s.callers|, f, s.handled);
      s.(queue := s.queue + [r], queued := s.queued + [r], callers := s.callers + [Signalling])
    case Signal(id) =>
      if id < |s.callers| && s.callers[id] == Signalling
      then s.(callers := s.callers[id := Waiting], token := true) else s
    case Receive(r) =>
      var n := s.handled + 1;
      if r in s.pending then s.(handled := n)
      else
        s.(handled := n, pending := s.pending + {r}, ackSignals := s.ackSignals + 1,
           queue := s.queue + [Ack(r, n)], queued := s.queued + [Ack(r, n)])
    case SignalAck => if s.ackSignals > 0 then s.(ackSignals := s.ackSignals - 1, token := true) else s
    case Collect(id) =>
      if id < |s.callers| && s.callers[id] == Waiting && id in s.replies
      then s.(callers := s.callers[id := Done(s.replies[id])]) else s
    case GiveUp(id) =>
      if id < |s.callers| && s.callers[id] == Waiting && s.linkDone
      then s.(callers := s.callers[id := Done(Disconnected)]) else s
    case DropLink => s.(linkDone := true)
    case WriterStep(ok) => WriterNext(s, ok)
    case WriterSeesDrop =>
      if s.linkDone && s.writer == Select
      then s.(queue := [], pending := {}, writer := Abandon(s.queue)) else s
  }

  // ---- what every schedule keeps -------------------------------------------------

  /** How many acks for r wait in q. */
  function AckCount(q: seq<Req>, r: Record): nat {
    if q == [] then 0
    else (if q[0].Ack? && q[0].r == r then 1 else 0) + AckCount(q[1..], r)
  }

  lemma {:induction false} AckCountAppend(q: seq<Req>, x: Req, r: Record)
    ensures AckCount(q + [x], r) == AckCount(q, r) + (if x.Ack? && x.r == r then 1 else 0)
  {
    if q == [] {
      assert q + [x] == [x];
    } else {
      assert (q + [x])[1..] == q[1..] + [x];
      AckCountAppend(q[1..], x, r);
    }
  }

  /** What the writer has taken and not settled, in order. */
  function Owes(w: Writer): seq<Req> {
    match w
    case Write(r) => [r]
    case Reply(r, _) => [r]
    case Abandon(rest) => rest
    case _ => []
  }

  function CallIds(q: seq<Req>): set<nat> {
    set k | 0 <= k < |q| && q[k].Call? :: q[k].id
  }

  predicate Over(w: Writer) {
    w.Abandon? || w.Stopped?
  }

  /** First in, first out: what is settled, in hand and waiting is what was queued, and what was written starts it. */
  predicate Fifo(s: State) {
    && s.queued == s.settled + Owes(s.writer) + s.queue
    && (if Over(s.writer) then s.written <= s.settled
        else s.written == s.settled + (if s.writer.Reply? then [s.writer.r] else []))
    && (s.writer.Reply? ==> s.writer.r.Call?)
  }

  /** Callers are numbered in the order they queue, and a record is handled before its ack is queued. */
  predicate InOrder(q: seq<Req>, callers: nat, handled: nat) {
    && (forall i :: 0 <= i < |q| ==> q[i].seen <= handled && (q[i].Call? ==> q[i].id < callers))
    && (forall i, j :: 0 <= i < j < |q| && q[i].Call? && q[j].Call? ==> q[i].id < q[j].id)
    && (forall i, j :: 0 <= i < j < |q| && q[i].Call? && q[j].Ack? ==> q[i].seen < q[j].seen)
  }

  /** What the writer may still write. */
  function ToWrite(s: State): seq<Req> {
    if Over(s.writer) then [] else (if s.writer.Write? then [s.writer.r] else []) + s.queue
  }

  /** What reached the device, and what may yet, is in order too. */
  predicate InOrderThere(s: State) {
    InOrder(s.delivered + ToWrite(s), |s.callers|, s.handled)
  }

  /** Every caller has queued exactly its own request. */
  ghost predicate EveryCallQueued(s: State) {
    forall c: nat :: c in CallIds(s.queued) <==> c < |s.callers|
  }

  /** An ack is marked pending exactly when exactly one for it waits in the queue. */
  predicate AcksMarked(s: State) {
    forall r :: AckCount(s.queue, r) == if r in s.pending then 1 else 0
  }

  /** The calls answered are the calls settled, and a caller's result is its answer unless the link dropped. */
  predicate Answered(s: State) {
    && s.replies.Keys == CallIds(s.settled)
    && (forall c :: 0 <= c < |s.callers| && s.callers[c].Done? ==>
          (s.linkDone && s.callers[c].result == Disconnected) || (c in s.replies && s.callers[c].result == s.replies[c]))
    && (Over(s.writer) ==> s.linkDone)
  }

  /** What each answer says happened to the call: the link took it, refused it, or was never asked. */
  predicate Says(result: Result, c: nat, written: set<nat>, delivered: set<nat>) {
    match result
    case Written => c in delivered
    case Failed => c in written && c !in delivered
    case Disconnected => c !in written
  }

  predicate ResultsTrue(replies: map<nat, Result>, written: set<nat>, delivered: set<nat>) {
    forall c :: c in replies ==> Says(replies[c], c, written, delivered)
  }

  /** The answers given are true of the writes made, and the one in hand will be. */
  predicate Results(s: State) {
    var written, delivered := CallIds(s.written), CallIds(s.delivered);
    && delivered <= written && ResultsTrue(s.replies, written, delivered)
    && (s.writer.Reply? && s.writer.r.Call? ==>
          s.writer.r.id in written && (s.writer.r.id in delivered <==> s.writer.ok))
  }

  /** A queue with work has someone coming for it. */
  predicate NoLostWake(s: State) {
    s.queue != [] ==>
      || s.token || s.ackSignals > 0 || Signalling in s.callers
      || s.writer.Drain? || s.writer.Write? || s.writer.Reply? || Over(s.writer)
  }

  ghost predicate Inv(s: State) {
    Fifo(s) && InOrder(s.queued, |s.callers|, s.handled) && InOrderThere(s) && EveryCallQueued(s)
    && AcksMarked(s) && Answered(s) && Results(s) && NoLostWake(s)
  }

  const START := State([], {}, false, false, Select, [], map[], 0, [], [], [], [], 0)

  // ---- one lemma per promise ----------------------------------------------------------

  lemma FromFront(settled: seq<Req>, rest: seq<Req>, queue: seq<Req>)
    requires rest != []
    ensures settled + rest + queue == (settled + [rest[0]]) + rest[1..] + queue
  {
    assert rest == [rest[0]] + rest[1..];
  }

  lemma PrefixGrows(w: seq<Req>, settled: seq<Req>, r: Req)
    requires w <= settled
    ensures w <= settled + [r]
  {
  }

  lemma FrontTaken(settled: seq<Req>, queue: seq<Req>)
    requires queue != []
    ensures settled + [] + queue == settled + [queue[0]] + queue[1..]
  {
    assert queue == [queue[0]] + queue[1..];
    assert settled + [] == settled;
  }

  lemma NothingInHand(a: seq<Req>)
    ensures a + [] == a
  {
  }

  lemma WriterKeepsFifo(s: State, ok: bool)
    requires Fifo(s)
    ensures Fifo(WriterNext(s, ok))
  {
    NothingInHand(s.settled);
    match s.writer
    case Drain =>
      if s.queue != [] {
        FrontTaken(s.settled, s.queue);
      }
    case Write(r) => NothingInHand(s.settled + [r]);
    case Reply(r, _) => NothingInHand(s.settled + [r]);
    case Abandon(rest) =>
      if rest != [] {
        FromFront(s.settled, rest, s.queue);
        PrefixGrows(s.written, s.settled, rest[0]);
      }
    case _ =>
  }

  lemma FifoKept(s: State, step: Step)
    requires Fifo(s)
    ensures Fifo(Take(s, step))
  {
    if step.WriterStep? {
      WriterKeepsFifo(s, step.ok);
    } else {
      hide WriterNext;
      assert s.settled + [] == s.settled;
    }
  }

  lemma CallIdsAppend(q: seq<Req>, x: Req)
    ensures CallIds(q + [x]) == CallIds(q) + (if x.Call? then {x.id} else {})
  {
    var t := q + [x];
    assert forall k :: 0 <= k < |q| ==> t[k] == q[k];
    if x.Call? {
      assert t[|q|] == x;
    }
  }

  lemma CallIdsConcat(p: seq<Req>, q: seq<Req>)
    ensures CallIds(p + q) == CallIds(p) + CallIds(q)
  {
    var t := p + q;
    assert forall k :: 0 <= k < |p| ==> t[k] == p[k];
    assert forall k :: 0 <= k < |q| ==> t[|p| + k] == q[k];
  }

  lemma WriterLeavesCallers(s: State, ok: bool)
    ensures var t := WriterNext(s, ok);
      t.queued == s.queued && t.callers == s.callers && t.handled == s.handled
  {
  }

  lemma OrderAppend(q: seq<Req>, x: Req, callers: nat, handled: nat, callers': nat, handled': nat)
    requires InOrder(q, callers, handled) && callers <= callers' && handled <= handled' && x.seen <= handled'
    requires if x.Call? then x.id == callers < callers' else handled < x.seen
    ensures InOrder(q + [x], callers', handled')
  {
  }

  lemma OrderKept(s: State, step: Step)
    requires InOrder(s.queued, |s.callers|, s.handled) && EveryCallQueued(s)
    ensures var t := Take(s, step); InOrder(t.queued, |t.callers|, t.handled) && EveryCallQueued(t)
  {
    hide WriterNext, CallIds, InOrder;
    var n := |s.callers|;
    match step
    case Append(f) =>
      CallIdsAppend(s.queued, Call(n, f, s.handled));
      OrderAppend(s.queued, Call(n, f, s.handled), n, s.handled, n + 1, s.handled);
    case Receive(r) =>
      if r in s.pending {
        OrderGrows(s.queued, n, s.handled, n, s.handled + 1);
      } else {
        CallIdsAppend(s.queued, Ack(r, s.handled + 1));
        OrderAppend(s.queued, Ack(r, s.handled + 1), n, s.handled, n, s.handled + 1);
      }
    case WriterStep(ok) => WriterLeavesCallers(s, ok);
    case _ =>
  }

  lemma OrderGrows(q: seq<Req>, callers: nat, handled: nat, callers': nat, handled': nat)
    requires InOrder(q, callers, handled) && callers <= callers' && handled <= handled'
    ensures InOrder(q, callers', handled')
  {
  }

  lemma OrderPart(p: seq<Req>, x: seq<Req>, q: seq<Req>, callers: nat, handled: nat)
    requires InOrder(p + x + q, callers, handled)
    ensures InOrder(p + q, callers, handled) && InOrder(p, callers, handled)
  {
    var all := p + x + q;
    assert forall i :: 0 <= i < |p + q| ==> (p + q)[i] == all[if i < |p| then i else i + |x|];
    assert forall i :: 0 <= i < |p| ==> p[i] == all[i];
  }

  /** A step of the writer leaves what may reach the device as it was, less the request whose write just failed. */
  lemma WriterDelivers(s: State, ok: bool)
    ensures var t := WriterNext(s, ok);
      if s.writer.Write? && !ok then
        t.delivered + ToWrite(t) == s.delivered + s.queue && s.delivered + ToWrite(s) == s.delivered + [s.writer.r] + s.queue
      else t.delivered + ToWrite(t) == s.delivered + ToWrite(s)
  {
    TakenFromQueue(s.queue);
    match s.writer
    case Write(r) =>
      Regrouped(s.delivered, r, s.queue);
    case _ =>
  }

  lemma TakenFromQueue(q: seq<Req>)
    ensures [] + q == q && (q != [] ==> [q[0]] + q[1..] == q)
  {
  }

  lemma Regrouped(d: seq<Req>, r: Req, q: seq<Req>)
    ensures d + ([r] + q) == d + [r] + q
  {
  }

  lemma WriterKeepsOrderThere(s: State, ok: bool)
    requires InOrderThere(s)
    ensures InOrderThere(WriterNext(s, ok))
  {
    WriterDelivers(s, ok);
    WriterLeavesCallers(s, ok);
    hide InOrder, WriterNext, ToWrite;
    if s.writer.Write? && !ok {
      OrderPart(s.delivered, [s.writer.r], s.queue, |s.callers|, s.handled);
    }
  }

  /** One more request in the queue, which the writer will get to unless it is over. */
  lemma QueueGrows(s: State, t: State, x: Req)
    requires t.writer == s.writer && t.delivered == s.delivered && t.queue == s.queue + [x]
    ensures var all := s.delivered + ToWrite(s);
      t.delivered + ToWrite(t) == if Over(s.writer) then all else all + [x]
  {
  }

  lemma OrderThereGrows(s: State, t: State, x: Req)
    requires InOrderThere(s) && |s.callers| <= |t.callers| && s.handled <= t.handled && x.seen <= t.handled
    requires if x.Call? then x.id == |s.callers| < |t.callers| else s.handled < x.seen
    requires t.writer == s.writer && t.delivered == s.delivered && t.queue == s.queue + [x]
    ensures InOrderThere(t)
  {
    var all := s.delivered + ToWrite(s);
    QueueGrows(s, t, x);
    hide InOrder, ToWrite;
    OrderAppend(all, x, |s.callers|, s.handled, |t.callers|, t.handled);
    OrderGrows(all, |s.callers|, s.handled, |t.callers|, t.handled);
  }

  lemma OrderThereKept(s: State, step: Step)
    requires InOrderThere(s)
    ensures InOrderThere(Take(s, step))
  {
    hide WriterNext, InOrder;
    var n, h := |s.callers|, s.handled;
    var all := s.delivered + ToWrite(s);
    var t := Take(s, step);
    match step
    case Append(f) =>
      OrderThereGrows(s, t, Call(n, f, h));
    case Receive(r) =>
      if r in s.pending {
        OrderGrows(all, n, h, n, h + 1);
      } else {
        OrderThereGrows(s, t, Ack(r, h + 1));
      }
    case WriterStep(ok) => WriterKeepsOrderThere(s, ok);
    case WriterSeesDrop =>
      assert s.delivered + ToWrite(s) + [] == all;
      assert s.delivered + [] == s.delivered;
      OrderPart(s.delivered, ToWrite(s), [], n, h);
    case _ =>
      assert ToWrite(t) == ToWrite(s);
  }

  lemma WriterKeepsAcks(s: State, ok: bool, r: Record)
    requires AcksMarked(s)
    ensures var t := WriterNext(s, ok); AckCount(t.queue, r) == if r in t.pending then 1 else 0
  {
    assert AckCount(s.queue, r) == if r in s.pending then 1 else 0;
  }

  lemma AcksKept(s: State, step: Step)
    requires AcksMarked(s)
    ensures AcksMarked(Take(s, step))
  {
    var t := Take(s, step);
    forall r
      ensures AckCount(t.queue, r) == if r in t.pending then 1 else 0
    {
      hide WriterNext;
      assert AckCount(s.queue, r) == if r in s.pending then 1 else 0;
      match step
      case Append(f) => AckCountAppend(s.queue, Call(|s.callers|, f, s.handled), r);
      case Receive(x) => AckCountAppend(s.queue, Ack(x, s.handled + 1), r);
      case WriterStep(ok) => WriterKeepsAcks(s, ok, r);
      case WriterSeesDrop => assert AckCount([], r) == 0;
      case _ =>
    }
  }

  lemma WakeKept(s: State, step: Step)
    requires NoLostWake(s)
    ensures NoLostWake(Take(s, step))
  {
    var t := Take(s, step);
    if step.Append? {
      assert t.callers[|s.callers|] == Signalling;
    } else if Signalling in s.callers && !t.token {
      var k :| 0 <= k < |s.callers| && s.callers[k] == Signalling;
      assert t.callers[k] == Signalling;
    }
  }

  /** What the writer settles next has not been settled before: nobody is sent two results. */
  lemma SettlesOnce(s: State)
    requires Fifo(s) && InOrder(s.queued, |s.callers|, s.handled) && Owes(s.writer) != []
    ensures var r := Owes(s.writer)[0]; r.Call? ==> r.id !in CallIds(s.settled)
  {
    var n := |s.settled|;
    var r := Owes(s.writer)[0];
    assert s.queued[n] == r;
    assert forall k :: 0 <= k < n ==> s.queued[k] == s.settled[k];
  }

  function IdOf(r: Req): set<nat> {
    if r.Call? then {r.id} else {}
  }

  /** t has settled r besides what s had, and answered it if it is a call. */
  predicate Settles(s: State, t: State, r: Req) {
    && t.settled == s.settled + [r] && t.replies.Keys == s.replies.Keys + IdOf(r)
    && forall c :: c in s.replies && c !in IdOf(r) ==> t.replies[c] == s.replies[c]
  }

  lemma AnswerSettles(s: State, r: Req, result: Result)
    ensures var t := Answer(s, r, result);
      t.callers == s.callers && t.linkDone == s.linkDone && Settles(s, t, r)
  {
  }

  /** A step of the writer settles nothing, or what it owes first, and answers that if it is a call. */
  lemma WriterSettles(s: State, ok: bool)
    requires s.writer.Reply? ==> s.writer.r.Call?
    ensures var t := WriterNext(s, ok);
      && t.callers == s.callers && t.linkDone == s.linkDone && (Over(t.writer) <==> Over(s.writer))
      && ((t.settled == s.settled && t.replies == s.replies)
          || (Owes(s.writer) != [] && Settles(s, t, Owes(s.writer)[0])))
  {
    hide Settles, Answer;
    match s.writer
    case Write(r) => AckSettles(s, WriterNext(s, ok), r);
    case Reply(r, wrote) =>
      var result := if wrote then Written else Failed;
      AnswerSettles(s, r, result);
      SameSettles(s, Answer(s, r, result), WriterNext(s, ok), r);
    case Abandon(rest) =>
      if rest != [] {
        AnswerSettles(s, rest[0], Disconnected);
        SameSettles(s, Answer(s, rest[0], Disconnected), WriterNext(s, ok), rest[0]);
      }
    case _ =>
  }

  lemma AckSettles(s: State, t: State, r: Req)
    requires t.replies == s.replies
    ensures r.Ack? && t.settled == s.settled + [r] ==> Settles(s, t, r)
  {
  }

  lemma SameSettles(s: State, t: State, t': State, r: Req)
    requires Settles(s, t, r) && t'.settled == t.settled && t'.replies == t.replies
    ensures Settles(s, t', r)
  {
  }

  lemma WriterKeepsAnswered(s: State, ok: bool)
    requires Fifo(s) && InOrder(s.queued, |s.callers|, s.handled) && Answered(s)
    ensures Answered(WriterNext(s, ok))
  {
    WriterSettles(s, ok);
    if Owes(s.writer) != [] {
      SettlesOnce(s);
      CallIdsAppend(s.settled, Owes(s.writer)[0]);
    }
    hide Fifo, InOrder, CallIds, WriterNext, Owes;
  }

  lemma AnsweredKept(s: State, step: Step)
    requires Fifo(s) && InOrder(s.queued, |s.callers|, s.handled) && EveryCallQueued(s) && Answered(s)
    ensures Answered(Take(s, step))
  {
    if step.WriterStep? {
      WriterKeepsAnswered(s, step.ok);
    } else if step.Append? {
      SettledAreQueued(s);
    }
    hide WriterNext, Fifo, InOrder, CallIds, EveryCallQueued;
  }

  lemma SettledAreQueued(s: State)
    requires Fifo(s) && EveryCallQueued(s)
    ensures forall c :: c in CallIds(s.settled) ==> c < |s.callers|
  {
    forall c | c in CallIds(s.settled)
      ensures c < |s.callers|
    {
      var k :| 0 <= k < |s.settled| && s.settled[k].Call? && s.settled[k].id == c;
      assert s.queued[k] == s.settled[k];
      assert c in CallIds(s.queued);
    }
  }

  /** What is taken to be written, or was written and not answered, has no answer yet; what is abandoned was never written. */
  lemma InHandIsUnanswered(s: State)
    requires Fifo(s) && InOrder(s.queued, |s.callers|, s.handled) && Answered(s)
    requires Owes(s.writer) != [] && Owes(s.writer)[0].Call?
    ensures var c := Owes(s.writer)[0].id;
      c !in s.replies && (c in CallIds(s.written) ==> s.writer.Reply?)
  {
    SettlesOnce(s);
    if !s.writer.Reply? {
      assert forall k :: 0 <= k < |s.written| ==> s.settled[k] == s.written[k];
    }
  }

  /** Another write, of a call not answered yet, leaves every answer true. */
  lemma WriteKeepsTrue(replies: map<nat, Result>, written: set<nat>, delivered: set<nat>, more: set<nat>, taken: set<nat>)
    requires ResultsTrue(replies, written, delivered) && taken <= more && more !! replies.Keys
    ensures ResultsTrue(replies, written + more, delivered + taken)
  {
    forall c | c in replies
      ensures Says(replies[c], c, written + more, delivered + taken)
    {
      assert Says(replies[c], c, written, delivered);
    }
  }

  lemma WriterKeepsResults(s: State, ok: bool)
    requires Fifo(s) && InOrder(s.queued, |s.callers|, s.handled) && Answered(s) && Results(s)
    ensures Results(WriterNext(s, ok))
  {
    if Owes(s.writer) != [] && Owes(s.writer)[0].Call? {
      InHandIsUnanswered(s);
    }
    match s.writer
    case Write(r) =>
      CallIdsAppend(s.written, r);
      CallIdsAppend(s.delivered, r);
      var ids := IdOf(r);
      WriteKeepsTrue(s.replies, CallIds(s.written), CallIds(s.delivered), ids, if ok then ids else {});
      hide Fifo, InOrder, CallIds, Answered;
      assert CallIds(s.delivered) + {} == CallIds(s.delivered);
    case _ =>
      hide Fifo, InOrder, CallIds, Answered;
  }

  lemma ResultsKept(s: State, step: Step)
    requires Fifo(s) && InOrder(s.queued, |s.callers|, s.handled) && Answered(s) && Results(s)
    ensures Results(Take(s, step))
  {
    if step.WriterStep? {
      WriterKeepsResults(s, step.ok);
    }
    hide WriterNext, Fifo, InOrder, CallIds, Answered;
  }

  lemma TakeKeeps(s: State, step: Step)
    requires Inv(s)
    ensures Inv(Take(s, step))
  {
    FifoKept(s, step);
    OrderKept(s, step);
    OrderThereKept(s, step);
    AcksKept(s, step);
    AnsweredKept(s, step);
    ResultsKept(s, step);
    WakeKept(s, step);
  }

  function Run(s: State, steps: seq<Step>): State
    decreases |steps|
  {
    if steps == [] then s else Run(Take(s, steps[0]), steps[1..])
  }

  /** Every schedule, from the moment the session starts. */
  lemma {:induction false} EverySchedule(s: State, steps: seq<Step>)
    requires Inv(s)
    ensures Inv(Run(s, steps))
    decreases |steps|
  {
    if steps != [] {
      TakeKeeps(s, steps[0]);
      EverySchedule(Take(s, steps[0]), steps[1..]);
    }
  }

  /** One more step on a schedule is that step taken where the schedule ends. */
  lemma {:induction false} RunOneMore(s: State, steps: seq<Step>, step: Step)
    ensures Run(s, []) == s && Run(s, steps + [step]) == Take(Run(s, steps), step)
    decreases |steps|
  {
    hide Take;
    if steps == [] {
      assert [step][1..] == [] && steps + [step] == [step];
      assert Run(s, [step]) == Run(Take(s, step), []);
    } else {
      assert (steps + [step])[1..] == steps[1..] + [step];
      RunOneMore(Take(s, steps[0]), steps[1..], step);
    }
  }

  lemma Reachable(steps: seq<Step>)
    ensures Inv(Run(START, steps))
  {
    StartsInOrder();
    EverySchedule(START, steps);
  }

  lemma StartsInOrder()
    ensures Inv(START)
  {
    assert START.delivered + ToWrite(START) == [];
    assert CallIds([]) == {};
    assert forall r :: AckCount([], r) == 0;
  }

  // ---- what callers and the device see ---------------------------------------------------

  /** Writes happen in queue order, and each queued request is written at most once. */
  lemma WritesFollowTheQueue(s: State)
    requires Inv(s)
    ensures s.written <= s.queued
    ensures forall i, j :: 0 <= i < j < |s.written| && s.written[i].Call? && s.written[j].Call? ==>
              s.written[i].id < s.written[j].id
  {
  }

  /** A result, once sent or taken, is never replaced; and a caller gets the writer's result while the link holds. */
  lemma OneOutcome(s: State, step: Step, c: nat)
    requires Inv(s)
    ensures var t := Take(s, step);
      && (c in s.replies ==> c in t.replies && t.replies[c] == s.replies[c])
      && (c < |s.callers| && s.callers[c].Done? ==> t.callers[c] == s.callers[c])
    ensures !s.linkDone && c < |s.callers| && s.callers[c].Done? ==>
              c in s.replies && s.callers[c].result == s.replies[c]
  {
    if step.WriterStep? {
      WriterKeepsReplies(s, step.ok, c);
    }
    hide Inv, WriterNext, Fifo, InOrder, EveryCallQueued, CallIds, Owes;
    assert Answered(s) by { AnsweredOf(s); }
  }

  lemma AnsweredOf(s: State)
    requires Inv(s)
    ensures Answered(s)
  {
  }

  lemma WriterKeepsReplies(s: State, ok: bool, c: nat)
    requires Inv(s)
    ensures var t := WriterNext(s, ok);
      (c in s.replies ==> c in t.replies && t.replies[c] == s.replies[c]) && t.callers == s.callers
  {
    WriterLeavesCallers(s, ok);
    if Owes(s.writer) != [] {
      SettlesOnce(s);
    }
    hide InOrder, InOrderThere, AcksMarked, EveryCallQueued, NoLostWake, Results;
  }

  /**
   In every schedule an answer says what the link did: Written exactly if it took the
   frame, Failed exactly if it was asked and refused it, Disconnected exactly if it was
   never asked. A caller holds its answer, or the link dropped and it was told so.
   */
  lemma ResultsAreTrue(steps: seq<Step>, c: nat)
    ensures var s := Run(START, steps);
      && (c in s.replies ==>
            && (s.replies[c] == Written <==> c in CallIds(s.delivered))
            && (s.replies[c] == Failed <==> c in CallIds(s.written) && c !in CallIds(s.delivered))
            && (s.replies[c] == Disconnected <==> c !in CallIds(s.written)))
      && (c < |s.callers| && s.callers[c].Done? ==>
            || (s.linkDone && s.callers[c].result == Disconnected)
            || (c in s.replies && s.callers[c].result == s.replies[c]))
  {
    Reachable(steps);
    var s := Run(START, steps);
    hide CallIds, Run, Fifo, InOrder, InOrderThere, AcksMarked, EveryCallQueued;
    if c in s.replies {
      assert Says(s.replies[c], c, CallIds(s.written), CallIds(s.delivered));
    }
  }

  /** A call still without an answer is in the writer's hands or in the queue, so it will get one. */
  lemma UnansweredIsHeld(s: State, c: nat)
    requires Inv(s) && c < |s.callers| && c !in s.replies
    ensures c in CallIds(Owes(s.writer) + s.queue)
  {
    hide InOrder, InOrderThere, AcksMarked, AckCount, NoLostWake, CallIds;
    assert c in CallIds(s.queued);
    var held := Owes(s.writer) + s.queue;
    assert s.queued == s.settled + held;
    CallIdsConcat(s.settled, held);
  }

  /** The writer's remaining work: requests to settle, and how far it is with the one in hand. */
  function Work(s: State): nat {
    4 * (|Owes(s.writer)| + |s.queue|)
    + (match s.writer case Drain => 2 case Write(_) => 1 case Reply(_, _) => 0 case Abandon(_) => 1 case _ => 0)
  }

  /** While the link is up, unfinished work always has a step ready that is not the caller's, and the writer's steps use it up. */
  lemma WorkGetsDone(s: State, ok: bool)
    requires Inv(s) && s.queue + Owes(s.writer) != []
    ensures || s.ackSignals > 0 || Signalling in s.callers
            || (s.writer == Select && s.token)
            || Work(WriterNext(s, ok)) < Work(s)
            || s.writer.Stopped?
  {
  }

  /** The writer on its own, with what the link answers to each write. */
  function WriterRun(s: State, oks: seq<bool>): State
    decreases |oks|
  {
    if oks == [] then s else WriterRun(WriterNext(s, oks[0]), oks[1..])
  }

  /** The writer is at work on what is queued, or has a token to be. */
  predicate Called(s: State) {
    s.queue != [] ==> s.token || s.writer.Drain? || s.writer.Write? || s.writer.Reply?
  }

  /** What is left to do, a token being worth a look at the queue. */
  function Left(s: State): nat {
    Work(s) + (if s.token then 3 else 0)
  }

  lemma WriterGetsOn(s: State, ok: bool)
    requires Called(s) && !Over(s.writer)
    ensures var t := WriterNext(s, ok);
      && Called(t) && !Over(t.writer) && t.callers == s.callers
      && (Left(t) < Left(s) || (t == s && s.writer == Select && !s.token && s.queue == []))
  {
  }

  lemma NothingLeft(s: State)
    requires Called(s) && !Over(s.writer) && Left(s) == 0
    ensures s.queue == [] && Owes(s.writer) == []
  {
  }

  lemma {:induction false} WriterFinishes(s: State, oks: seq<bool>)
    requires Inv(s) && Called(s) && !Over(s.writer) && |oks| >= Left(s)
    ensures var t := WriterRun(s, oks);
      Inv(t) && t.callers == s.callers && t.queue == [] && Owes(t.writer) == []
    decreases |oks|
  {
    hide Inv, WriterNext, Called, Over, Left;
    if oks == [] {
      NothingLeft(s);
    } else {
      var t := WriterNext(s, oks[0]);
      assert t == Take(s, WriterStep(oks[0]));
      TakeKeeps(s, WriterStep(oks[0]));
      WriterGetsOn(s, oks[0]);
      if Left(t) < Left(s) {
        WriterFinishes(t, oks[1..]);
      } else {
        WriterRests(s, oks);
      }
    }
  }

  /** With nothing to do the writer does nothing. */
  lemma {:induction false} WriterRests(s: State, oks: seq<bool>)
    requires s.writer == Select && !s.token
    ensures WriterRun(s, oks) == s
    decreases |oks|
  {
    if oks != [] {
      assert WriterNext(s, oks[0]) == s;
      hide WriterNext;
      WriterRests(s, oks[1..]);
    }
  }

  /**
   Once somebody has called the writer, it answers everyone: in as many of its own
   steps as there is work, and three for a token, every caller has its result, whatever
   the link answers to the writes.
   */
  lemma EveryCallIsAnswered(s: State, oks: seq<bool>)
    requires Inv(s) && Called(s) && !Over(s.writer) && |oks| >= Left(s)
    ensures forall c: nat :: c < |s.callers| ==> c in WriterRun(s, oks).replies
  {
    var t := WriterRun(s, oks);
    WriterFinishes(s, oks);
    forall c: nat | c < |s.callers|
      ensures c in t.replies
    {
      if c !in t.replies {
        UnansweredIsHeld(t, c);
      }
    }
  }

  /**
   And when the link has dropped, the writer at its select takes that up and answers
   everyone still queued in one step each: every caller then has a result, and those
   without one till then are told that the link dropped.
   */
  lemma DroppedIsAnswered(s: State, oks: seq<bool>, c: nat)
    requires Inv(s) && s.linkDone && s.writer == Select && |oks| == |s.queue| + 1 && c < |s.callers|
    ensures var t := WriterRun(Take(s, WriterSeesDrop), oks);
      && t.writer == Stopped && t.queue == [] && t.pending == {}
      && c in t.replies && t.replies[c] == if c in s.replies then s.replies[c] else Disconnected
  {
    hide Inv, WriterNext, WriterRun;
    TakeKeeps(s, WriterSeesDrop);
    AbandonsAll(Take(s, WriterSeesDrop), oks, c);
  }

  lemma {:induction false} AbandonsAll(s: State, oks: seq<bool>, c: nat)
    requires Inv(s) && s.writer.Abandon? && s.queue == [] && |oks| == |s.writer.rest| + 1 && c < |s.callers|
    ensures var t := WriterRun(s, oks);
      && t.writer == Stopped && t.queue == [] && t.pending == s.pending
      && c in t.replies && t.replies[c] == if c in s.replies then s.replies[c] else Disconnected
    decreases |oks|
  {
    var t := WriterNext(s, oks[0]);
    AbandonStep(s, oks[0], c);
    assert t == Take(s, WriterStep(oks[0]));
    TakeKeeps(s, WriterStep(oks[0]));
    hide Inv, WriterNext, Take;
    if s.writer.rest == [] {
      assert WriterRun(t, oks[1..]) == t;
    } else {
      AbandonsAll(t, oks[1..], c);
    }
  }

  /** One request abandoned, or the last of them gone. */
  lemma AbandonStep(s: State, ok: bool, c: nat)
    requires Inv(s) && s.writer.Abandon? && s.queue == [] && c < |s.callers|
    ensures var t := WriterNext(s, ok);
      && t.queue == [] && t.pending == s.pending && t.callers == s.callers
      && (if s.writer.rest == [] then t.writer == Stopped && c in s.replies else t.writer == Abandon(s.writer.rest[1..]))
      && (c in s.replies ==> c in t.replies && t.replies[c] == s.replies[c])
      && (c !in s.replies && c in t.replies ==> t.replies[c] == Disconnected)
  {
    if c !in s.replies {
      UnansweredIsHeld(s, c);
    }
    if s.writer.rest != [] {
      SettlesOnce(s);
    }
    hide InOrder, InOrderThere, AcksMarked, AckCount, NoLostWake, EveryCallQueued, Fifo;
  }

  /** A waiting caller takes its answer once there is one, or leaves once the link has dropped; otherwise it goes on waiting. */
  lemma CallersLeave(s: State, id: nat)
    requires id < |s.callers| && s.callers[id] == Waiting
    ensures var t := Take(s, Collect(id));
      if id in s.replies then t.callers == s.callers[id := Done(s.replies[id])] else t == s
    ensures var t := Take(s, GiveUp(id));
      if s.linkDone then t.callers == s.callers[id := Done(Disconnected)] else t == s
    ensures Take(s, DropLink).linkDone
  {
  }

  /** A signal leaves a token, whoever gives it, and is given once. */
  lemma SignalsOnce(s: State, id: nat)
    ensures var t := Take(s, SignalAck);
      if s.ackSignals > 0 then t.token && t.ackSignals == s.ackSignals - 1 else t == s
    ensures var t := Take(s, Signal(id));
      if id < |s.callers| && s.callers[id] == Signalling then t.token && t.callers == s.callers[id := Waiting] else t == s
  {
  }

  /** A handled record has an unwritten ack for it in the queue. */
  lemma HandledRecordHasAck(s: State, r: Record)
    requires Inv(s)
    ensures AckCount(Take(s, Receive(r)).queue, r) == 1
  {
    TakeKeeps(s, Receive(r));
  }

  // ---- the device's side --------------------------------------------------------------------

  /** The frame that goes out for a request. */
  function FrameOf(r: Req): Frame {
    match r
    case Call(_, f, _) => f
    case Ack(record, _) => AckFor(record)
  }

  /**
   The Static Data request the device still holds: the command of the last category 1
   data frame, which it repeats the record for while that is 1, unless a Ready frame
   has begun a new session since.
   */
  function Outstanding(log: seq<Req>): Option<Req> {
    if log == [] then None
    else
      var r := log[|log| - 1];
      match FrameOf(r)
      case Data(cat, cmd) =>
        if cat != 1 then Outstanding(log[..|log| - 1]) else if cmd == 1 then Some(r) else None
      case Ready(reset) => if reset then None else Outstanding(log[..|log| - 1])
      case Status => Outstanding(log[..|log| - 1])
  }

  /**
   What one more frame makes of the request held: (1, 1) is one, any other frame of
   category 1 clears it, a Ready frame clears it if it asks for a reset, and no other
   frame touches it.
   */
  lemma HeldAfter(log: seq<Req>, id: nat, f: Frame, seen: nat)
    ensures var r := Call(id, f, seen); var held := Outstanding(log + [r]);
      && (f == Data(1, 1) ==> held == Some(r))
      && (f.Data? && f.cat == 1 && f.cmd != 1 ==> held == None)
      && (f == Ready(true) ==> held == None)
      && (f == Ready(false) || f == Status || (f.Data? && f.cat != 1) ==> held == Outstanding(log))
    ensures Outstanding(log + [Ack(StaticData, seen)]) == None && Outstanding([]) == None
    ensures Outstanding(log + [Ack(WiFiList, seen)]) == Outstanding(log + [Ack(PeerSync, seen)]) == Outstanding(log)
  {
    assert (log + [Call(id, f, seen)])[..|log|] == log;
    assert (log + [Ack(StaticData, seen)])[..|log|] == log;
    assert (log + [Ack(WiFiList, seen)])[..|log|] == log;
    assert (log + [Ack(PeerSync, seen)])[..|log|] == log;
  }

  lemma {:induction false} OutstandingIsThere(log: seq<Req>)
    requires Outstanding(log).Some?
    ensures exists i :: 0 <= i < |log| && log[i] == Outstanding(log).value && log[i].Call?
    decreases |log|
  {
    var f := FrameOf(log[|log| - 1]);
    if !(f.Data? && f.cat == 1) {
      var front := log[..|log| - 1];
      OutstandingIsThere(front);
      var i :| 0 <= i < |front| && front[i] == Outstanding(front).value && front[i].Call?;
      assert log[i] == front[i];
    } else {
      assert log[|log| - 1].Call?;
    }
  }

  /**
   An ack that reaches the device and clears a Static Data request there answers a
   record handled after that request was queued, whatever writes failed in between: a
   stale ack never cancels a newer request before a record has reached the client.
   */
  lemma AckClearsOnlyAnswered(s: State, n: nat)
    requires Inv(s) && n < |s.delivered| && s.delivered[n].Ack?
    requires Outstanding(s.delivered[..n]).Some?
    ensures Outstanding(s.delivered[..n]).value.seen < s.delivered[n].seen
  {
    OutstandingIsThere(s.delivered[..n]);
    var i :| 0 <= i < n && s.delivered[..n][i] == Outstanding(s.delivered[..n]).value && s.delivered[..n][i].Call?;
    var all := s.delivered + ToWrite(s);
    assert all[i] == s.delivered[i] && all[n] == s.delivered[n];
  }

  // ---- the critical sections, in place ---------------------------------------------------------

  /** The record whose ack a data frame calls for, told by its header alone. */
  function NeedsAck(frame: seq<byte>): (o: Option<Record>)
  {
    if |frame| < 2 then None
    else if frame[0] == 1 && frame[1] == 2 then Some(StaticData)
    else if |frame| > 3 && frame[0] == 2 && frame[1] == 2 && frame[2] == 0x5b && (frame[3] == 0x22 || frame[3] == 0x5d)
    then Some(WiFiList)
    else if frame[0] == 6 && frame[1] == 7 then Some(PeerSync)
    else None
  }

  /** The header of a frame, read as the app's acks are. */
  predicate Header(frame: seq<byte>, cat: byte, cmd: byte) {
    |frame| >= 2 && frame[0] == cat && frame[1] == cmd
  }

  /**
   Exactly the records the device repeats are acked, each by its own frame: Static Data
   (1, 2) by (1, 0); a WiFi list, which is (2, 2) with a list in it, empty or not, by
   (2, 0); Peer Sync (6, 7) by (6, 8). Nothing else of the frame is looked at.
   */
  lemma RepeatedRecordsAreAcked(frame: seq<byte>, seen: nat)
    ensures var ack := NeedsAck(frame);
      && (ack.Some? && FrameOf(Ack(ack.value, seen)) == Data(1, 0) <==> Header(frame, 1, 2))
      && (ack.Some? && FrameOf(Ack(ack.value, seen)) == Data(2, 0) <==>
            Header(frame, 2, 2) && |frame| >= 4 && frame[2..4] in {['['as int, '"' as int], ['[' as int, ']' as int]})
      && (ack.Some? && FrameOf(Ack(ack.value, seen)) == Data(6, 8) <==> Header(frame, 6, 7))
      && (ack.Some? ==> FrameOf(Ack(ack.value, seen)) in {Data(1, 0), Data(2, 0), Data(6, 8)})
  {
    if |frame| >= 4 {
      assert frame[2..4] == [frame[2], frame[3]];
    }
  }

  /** A record that is not waiting to be acked has its ack queued behind everything else, and one that is leaves the queue alone. */
  lemma RecordQueuesItsAck(s: State, r: Record)
    ensures var t := Take(s, Receive(r));
      && t.queue == (if r in s.pending then s.queue else s.queue + [Ack(r, s.handled + 1)])
      && t.pending == s.pending + {r} && t.handled == s.handled + 1
      && t.ackSignals == s.ackSignals + (if r in s.pending then 0 else 1)
  {
  }

  /**
   The mutex-guarded fields of the session, with the numbers its requests carry.
   `at` is the point the schedule has reached; every method is one step of it.
   */
  class Session {
    var queue: seq<Req>
    var pending: set<Record>
    var wake: bool
    var calls: nat
    var handled: nat
    ghost var at: State

    ghost predicate Valid()
      reads this
    {
      && at.queue == queue && at.pending == pending && at.token == wake
      && |at.callers| == calls && at.handled == handled && Inv(at)
    }

    constructor ()
      ensures Valid() && at == START && queue == [] && pending == {} && !wake && calls == handled == 0 && !at.linkDone
    {
      Reachable([]);
      hide Inv;
      queue, pending, wake, calls, handled, at := [], {}, false, 0, 0, START;
    }

    /** The receiver, on a data frame in legacy mode; the result says whether it must now signal. */
    method LegacyAck(frame: seq<byte>) returns (queued: bool)
      requires Valid()
      modifies this
      ensures Valid()
      ensures NeedsAck(frame) == None ==> at == old(at)
      ensures NeedsAck(frame).Some? ==> at == Take(old(at), Receive(NeedsAck(frame).value))
      ensures queued <==> at.ackSignals == old(at).ackSignals + 1
    {
      hide Inv, NeedsAck, WriterNext;
      queued := false;
      var key := NeedsAck(frame);
      if key == None {
        return;
      }
      TakeKeeps(at, Receive(key.value));
      at := Take(at, Receive(key.value));
      handled := handled + 1;
      if key.value in pending {
        return;
      }
      pending := pending + {key.value};
      queue := queue + [Ack(key.value, handled)];
      queued := true;
    }

    /** A caller queues a frame to be written; id is its turn. */
    method Enqueue(f: Frame) returns (id: nat)
      requires Valid()
      modifies this
      ensures Valid() && at == Take(old(at), Append(f))
      ensures id == old(|at.callers|)
    {
      hide Inv;
      TakeKeeps(at, Append(f));
      at := Take(at, Append(f));
      id := calls;
      queue := queue + [Call(id, f, handled)];
      calls := calls + 1;
    }

    /** Whoever queued a request leaves a token, unless one is there. */
    method Wake(ghost who: Option<nat>)
      requires Valid()
      requires match who case Some(id) => id < |at.callers| && at.callers[id] == Signalling case None => at.ackSignals > 0
      modifies this
      ensures Valid() && at == Take(old(at), if who.Some? then Signal(who.value) else SignalAck)
    {
      ghost var step := if who.Some? then Signal(who.value) else SignalAck;
      hide Inv;
      TakeKeeps(at, step);
      at := Take(at, step);
      wake := true;
    }

    /** The writer takes the request at the front, if there is one. */
    method TakeNext(ghost ok: bool) returns (r: Option<Req>)
      requires Valid() && at.writer == Drain
      modifies this
      ensures Valid() && at == Take(old(at), WriterStep(ok))
      ensures r == if old(queue) == [] then None else Some(old(queue)[0])
      ensures r.Some? ==> at.writer == Write(r.value)
    {
      hide Inv;
      TakeKeeps(at, WriterStep(ok));
      at := Take(at, WriterStep(ok));
      if |queue| == 0 {
        return None;
      }
      r := Some(queue[0]);
      queue := queue[1..];
      if r.value.Ack? {
        pending := pending - {r.value.r};
      }
    }

    /** The link dropped: everything still queued is to be answered, and no ack is waiting any more. */
    method DropAll() returns (rest: seq<Req>)
      requires Valid() && at.writer == Select && at.linkDone
      modifies this
      ensures Valid() && at == Take(old(at), WriterSeesDrop)
      ensures rest == old(queue) && queue == [] && pending == {}
    {
      hide Inv;
      TakeKeeps(at, WriterSeesDrop);
      at := Take(at, WriterSeesDrop);
      rest := queue;
      queue := [];
      pending := {};
    }
  }
}
