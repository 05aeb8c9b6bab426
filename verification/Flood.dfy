/**
 A network of any number of mesh nodes. Frames on the air may be heard by any
 node, any number of times, in any order, at nondecreasing times; anything else
 about a node may change between frames, except its clock and its duplicate table.
 */
module Flood {
  import opened Bytes
  import opened LocateFrame
  import opened MeshNode

  /** A frame on the air: the hops it was first put there with, and the nodes that have relayed it since, in order. */
  datatype Flight = Flight(data: seq<byte>, start: byte, path: seq<nat>)

  /** One relay: which node, and which flood. */
  datatype Entry = Entry(node: nat, uid: u16, expiry: i32)

  datatype World = World(now: int, nodes: seq<Node>, air: seq<Flight>, relays: seq<Entry>)

  datatype Step =
    | Wait(now: int)
    | Inject(data: seq<byte>)                          // a frame from an origin, or from anywhere
    | Change(i: nat, n: Node)                          // anything else that happens to a node
    | Hear(i: nat, k: nat, src: MAC, rssi: int, c: Chance)

  /** What an event outside the mesh code may do: not touch the clock offset or the duplicate table. */
  predicate Elsewhere(n: Node, n': Node) {
    n'.offset == n.offset && n'.recent == n.recent
  }

  /** Node i hears flight k; a relay of it goes on the air. */
  function Deliver(w: World, i: nat, k: nat, rx: Received, c: Chance): World
    requires i < |w.nodes| && k < |w.air|
  {
    var o := Receive(w.nodes[i], w.now, rx, c);
    var w1 := w.(nodes := w.nodes[i := o.node]);
    if o.sent != [] && o.sent[|o.sent| - 1].Relay? && Parse(rx.data).Some? then
      var m := Parse(rx.data).value;
      w1.(air := w.air + [Flight(o.sent[|o.sent| - 1].data, w.air[k].start, w.air[k].path + [i])],
          relays := w.relays + [Entry(i, m.uid, m.expiry)])
    else w1
  }

  function Take(w: World, step: Step): World {
    match step
    case Wait(now) => if now >= w.now then w.(now := now) else w
    case Inject(data) =>
      if Parse(data).Some? then w.(air := w.air + [Flight(data, Parse(data).value.hops, [])]) else w
    case Change(i, n) =>
      if i < |w.nodes| && Elsewhere(w.nodes[i], n) then w.(nodes := w.nodes[i := n]) else w
    case Hear(i, k, src, rssi, c) =>
      if i < |w.nodes| && k < |w.air| then Deliver(w, i, k, Received(src, rssi, w.air[k].data), c) else w
  }

  /**
   The conditions on a run: a frame is heard less than 400 s ahead of its expiry,
   and the hearing node's table has room for it once the dead entries are swept.
   */
  predicate Fair(w: World, step: Step) {
    step.Hear? && step.i < |w.nodes| && step.k < |w.air| && Parse(w.air[step.k].data).Some? ==>
      var n := w.nodes[step.i];
      Parse(w.air[step.k].data).value.expiry - WallSec(n.offset, w.now) < 400 && |Swept(n.recent, w.now)| < RECENT_MAX
  }

  /** The reading that comes before a frame is such an event, exactly while it leaves the clock offset alone. */
  lemma ReadingIsElsewhere(n: Node, r: Reading)
    ensures Elsewhere(n, Sensed(n, r)) <==> r.offset == n.offset
  {
  }

  // ---- each node relays a flood at most once ---------------------------------------------

  /** A flood this node must not relay again: it has expired here, or its UID is kept until it has. */
  predicate Done(n: Node, now: int, uid: u16, expiry: i32) {
    WallSec(n.offset, now) > expiry || (uid in n.recent && WallSec(n.offset, n.recent[uid]) > expiry)
  }

  predicate Settled(w: World) {
    forall e :: e in w.relays ==> e.node < |w.nodes| && Done(w.nodes[e.node], w.now, e.uid, e.expiry)
  }

  predicate Once(w: World) {
    forall a, b :: 0 <= a < b < |w.relays| ==> w.relays[a] != w.relays[b]
  }

  /** Time only settles a flood further. */
  lemma DoneLater(n: Node, now: int, later: int, uid: u16, expiry: i32)
    requires Done(n, now, uid, expiry) && now <= later
    ensures Done(n, later, uid, expiry)
  {
    WallMonotone(n.offset, now, later);
  }

  /** Recording a UID that is not live keeps every flood settled that was. */
  lemma DoneAfterRecord(n: Node, n': Node, now: int, m: Locate, c: Chance, uid: u16, expiry: i32)
    requires Done(n, now, uid, expiry) && |Swept(n.recent, now)| < RECENT_MAX && !Seen(n.recent, now, m.uid)
    requires n'.offset == n.offset && n'.recent == Recorded(n, now, m, c)
    ensures Done(n', now, uid, expiry)
  {
    if WallSec(n.offset, now) <= expiry {
      if n.recent[uid] <= now {
        WallMonotone(n.offset, n.recent[uid], now);
      }
      assert uid != m.uid && n.recent[uid] > now;
      assert Live(n.recent, now)[uid] == n.recent[uid];
    }
  }

  /** And the flood just recorded is settled. */
  lemma RecordSettles(n: Node, n': Node, now: int, m: Locate, c: Chance)
    requires n'.offset == n.offset && n'.recent == Recorded(n, now, m, c) && m.expiry - WallSec(n.offset, now) < 400
    ensures Done(n', now, m.uid, m.expiry)
  {
    OutlivesFrame(n.offset, now, m.expiry);
  }

  /** A settled flood is not relayed. */
  lemma DoneIsNotRelayed(n: Node, now: int, m: Locate, c: Chance)
    requires Done(n, now, m.uid, m.expiry)
    ensures !(Fresh(n, now, m) && MayRelay(n, now, m, c))
  {
    if m.uid in n.recent && n.recent[m.uid] <= now {
      WallMonotone(n.offset, n.recent[m.uid], now);
    }
  }

  /** One frame heard by one node, fairly. */
  lemma HearSettles(n: Node, now: int, rx: Received, c: Chance, uid: u16, expiry: i32)
    requires Parse(rx.data).Some? ==>
               Parse(rx.data).value.expiry - WallSec(n.offset, now) < 400 && |Swept(n.recent, now)| < RECENT_MAX
    ensures var o := Receive(n, now, rx, c);
      && (Done(n, now, uid, expiry) ==> Done(o.node, now, uid, expiry))
      && (o.sent != [] ==> Done(o.node, now, Parse(rx.data).value.uid, Parse(rx.data).value.expiry))
  {
    TableAfter(n, now, rx, c);
    var o := Receive(n, now, rx, c);
    hide Receive, Parse, Done, Recorded;
    if o.node.recent == n.recent {
      SameTable(n, o.node, now, uid, expiry);
    } else if Done(n, now, uid, expiry) {
      DoneAfterRecord(n, o.node, now, Parse(rx.data).value, c, uid, expiry);
    }
    if o.sent != [] {
      RecordSettles(n, o.node, now, Parse(rx.data).value, c);
    }
  }

  lemma SameTable(n: Node, n': Node, now: int, uid: u16, expiry: i32)
    requires Elsewhere(n, n')
    ensures Done(n, now, uid, expiry) == Done(n', now, uid, expiry)
  {
  }

  predicate Relays(o: Outcome) {
    o.sent != [] && o.sent[|o.sent| - 1].Relay?
  }

  /** What one frame does to the world, as far as the relays go. */
  lemma DeliverIs(w: World, i: nat, k: nat, rx: Received, c: Chance)
    requires i < |w.nodes| && k < |w.air|
    ensures var o := Receive(w.nodes[i], w.now, rx, c); var w' := Deliver(w, i, k, rx, c);
      && w'.now == w.now && w'.nodes == w.nodes[i := o.node]
      && (Relays(o) ==> Parse(rx.data).Some?)
      && w'.relays == (if Relays(o) then w.relays + [Entry(i, Parse(rx.data).value.uid, Parse(rx.data).value.expiry)]
                       else w.relays)
      && w'.air == (if Relays(o) then w.air + [Flight(o.sent[|o.sent| - 1].data, w.air[k].start, w.air[k].path + [i])]
                    else w.air)
  {
    var o := Receive(w.nodes[i], w.now, rx, c);
    if Relays(o) {
      RelaysOnlyIf(w.nodes[i], w.now, rx, c, |o.sent| - 1);
    }
    hide Receive, Parse;
  }

  /** What is relayed now has not been relayed here before. */
  lemma RelayIsNew(w: World, i: nat, rx: Received, c: Chance)
    requires Settled(w) && i < |w.nodes| && Relays(Receive(w.nodes[i], w.now, rx, c))
    ensures Parse(rx.data).Some? && Entry(i, Parse(rx.data).value.uid, Parse(rx.data).value.expiry) !in w.relays
  {
    var o := Receive(w.nodes[i], w.now, rx, c);
    RelaysOnlyIf(w.nodes[i], w.now, rx, c, |o.sent| - 1);
    hide Receive, Parse, Done, Fresh, MayRelay;
    var m := Parse(rx.data).value;
    if Entry(i, m.uid, m.expiry) in w.relays {
      DoneIsNotRelayed(w.nodes[i], w.now, m, c);
    }
  }

  lemma AppendOnce(relays: seq<Entry>, e: Entry, w: World, w': World)
    requires Once(w) && w.relays == relays && e !in relays && w'.relays == relays + [e]
    ensures Once(w')
  {
    assert forall a :: 0 <= a < |relays| ==> relays[a] in relays;
  }

  lemma HearOnce(w: World, i: nat, k: nat, rx: Received, c: Chance)
    requires Settled(w) && Once(w) && i < |w.nodes| && k < |w.air|
    ensures Once(Deliver(w, i, k, rx, c))
  {
    DeliverIs(w, i, k, rx, c);
    if Relays(Receive(w.nodes[i], w.now, rx, c)) {
      RelayIsNew(w, i, rx, c);
      var w' := Deliver(w, i, k, rx, c);
      AppendOnce(w.relays, w'.relays[|w.relays|], w, w');
    }
    hide Receive, Parse, Deliver, Settled, Relays;
  }

  lemma HearSettled(w: World, i: nat, k: nat, rx: Received, c: Chance)
    requires Settled(w) && i < |w.nodes| && k < |w.air|
    requires Parse(rx.data).Some? ==>
               Parse(rx.data).value.expiry - WallSec(w.nodes[i].offset, w.now) < 400
               && |Swept(w.nodes[i].recent, w.now)| < RECENT_MAX
    ensures Settled(Deliver(w, i, k, rx, c))
  {
    var w' := Deliver(w, i, k, rx, c);
    DeliverIs(w, i, k, rx, c);
    HearSettles(w.nodes[i], w.now, rx, c, 0, 0);
    forall e | e in w.relays
      ensures e.node < |w.nodes| && Done(w'.nodes[e.node], w.now, e.uid, e.expiry)
    {
      hide Receive, Parse, Done, Deliver, Swept;
      HearSettles(w.nodes[i], w.now, rx, c, e.uid, e.expiry);
    }
    hide Receive, Parse, Done, Deliver, Swept;
  }

  lemma HearKeeps(w: World, i: nat, k: nat, src: MAC, rssi: int, c: Chance)
    requires Settled(w) && Once(w) && i < |w.nodes| && k < |w.air| && Fair(w, Hear(i, k, src, rssi, c))
    ensures var w' := Deliver(w, i, k, Received(src, rssi, w.air[k].data), c); Settled(w') && Once(w')
  {
    hide Parse, Deliver, Settled, Once, Swept;
    HearOnce(w, i, k, Received(src, rssi, w.air[k].data), c);
    HearSettled(w, i, k, Received(src, rssi, w.air[k].data), c);
  }

  lemma StepKeeps(w: World, step: Step)
    requires Settled(w) && Once(w) && Fair(w, step)
    ensures Settled(Take(w, step)) && Once(Take(w, step))
  {
    match step
    case Wait(now) =>
      forall e | e in w.relays && now >= w.now
        ensures Done(w.nodes[e.node], now, e.uid, e.expiry)
      {
        DoneLater(w.nodes[e.node], w.now, now, e.uid, e.expiry);
      }
      hide Done;
    case Inject(_) => hide Parse, Done;
    case Change(i, n) =>
      forall e | e in w.relays && i < |w.nodes| && Elsewhere(w.nodes[i], n) && e.node == i
        ensures Done(n, w.now, e.uid, e.expiry)
      {
        SameTable(w.nodes[i], n, w.now, e.uid, e.expiry);
      }
      hide Done;
    case Hear(i, k, src, rssi, c) =>
      hide Parse, Done, Deliver;
      if i < |w.nodes| && k < |w.air| {
        HearKeeps(w, i, k, src, rssi, c);
      }
  }

  // ---- every frame's way through the network ----------------------------------------------

  /** A frame's hops are the nodes that relayed it, each once and each on record; and a relayed frame has hops left. */
  predicate Traced(w: World, f: Flight) {
    && Parse(f.data).Some?
    && var m := Parse(f.data).value;
      && NoDup(f.path)
      && (forall i :: i in f.path ==> i < |w.nodes| && Entry(i, m.uid, m.expiry) in w.relays)
      && m.hops == f.start + |f.path|
      && (f.path != [] ==> m.hops < m.maxHops)
  }

  predicate AllTraced(w: World) {
    forall f :: f in w.air ==> Traced(w, f)
  }

  lemma TracedLater(w: World, w': World, f: Flight)
    requires Traced(w, f) && |w'.nodes| == |w.nodes| && forall e :: e in w.relays ==> e in w'.relays
    ensures Traced(w', f)
  {
  }

  lemma ExtendTrace(w: World, w': World, f: Flight, f': Flight, i: nat)
    requires Traced(w, f) && i < |w.nodes| == |w'.nodes| && Carries(f.data, f'.data)
    requires f'.start == f.start && f'.path == f.path + [i]
    requires var m := Parse(f.data).value;
      && Entry(i, m.uid, m.expiry) !in w.relays && w'.relays == w.relays + [Entry(i, m.uid, m.expiry)]
    ensures Traced(w', f')
  {
    hide Parse;
    assert forall j :: 0 <= j < |f.path| ==> f.path[j] in f.path;
    assert w'.relays[|w.relays|] in w'.relays;
  }

  /** What a relay keeps of a frame. */
  predicate Carries(data: seq<byte>, data': seq<byte>) {
    && Parse(data).Some? && Parse(data').Some?
    && var m, m' := Parse(data).value, Parse(data').value;
      m'.uid == m.uid && m'.expiry == m.expiry && m'.hops == m.hops + 1 && m'.hops < m'.maxHops
  }

  lemma RelayCarries(n: Node, now: int, rx: Received, c: Chance)
    requires Relays(Receive(n, now, rx, c))
    ensures var o := Receive(n, now, rx, c); Carries(rx.data, o.sent[|o.sent| - 1].data)
  {
    var o := Receive(n, now, rx, c);
    RelayDecodes(n, now, rx, c, |o.sent| - 1);
    hide Receive, Parse;
  }

  lemma RelayedIsTraced(w: World, i: nat, k: nat, rx: Received, c: Chance)
    requires Settled(w) && i < |w.nodes| && k < |w.air| && rx.data == w.air[k].data && Traced(w, w.air[k])
    requires Relays(Receive(w.nodes[i], w.now, rx, c))
    ensures var w' := Deliver(w, i, k, rx, c);
      |w'.air| == |w.air| + 1 && w'.air[..|w.air|] == w.air && Traced(w', w'.air[|w.air|])
  {
    var o := Receive(w.nodes[i], w.now, rx, c);
    var w' := Deliver(w, i, k, rx, c);
    DeliverIs(w, i, k, rx, c);
    RelayIsNew(w, i, rx, c);
    RelayCarries(w.nodes[i], w.now, rx, c);
    hide Receive, Parse, Traced, Settled, Deliver;
    ExtendTrace(w, w', w.air[k], w'.air[|w.air|], i);
  }

  lemma StepTraces(w: World, step: Step)
    requires Settled(w) && AllTraced(w)
    ensures AllTraced(Take(w, step))
  {
    var w' := Take(w, step);
    match step
    case Wait(_) =>
      forall f | f in w'.air ensures Traced(w', f) { hide Parse; TracedLater(w, w', f); }
    case Inject(data) =>
      hide Parse;
      forall f | f in w.air ensures Traced(w', f) { TracedLater(w, w', f); }
    case Change(i, n) =>
      forall f | f in w'.air ensures Traced(w', f) { hide Parse; TracedLater(w, w', f); }
    case Hear(i, k, src, rssi, c) =>
      if i < |w.nodes| && k < |w.air| {
        var rx := Received(src, rssi, w.air[k].data);
        DeliverIs(w, i, k, rx, c);
        if Relays(Receive(w.nodes[i], w.now, rx, c)) {
          assert Traced(w, w.air[k]);
          RelayedIsTraced(w, i, k, rx, c);
        }
        forall f | f in w.air ensures Traced(w', f) { hide Parse, Receive, Deliver, Traced; TracedLater(w, w', f); }
        hide Parse, Receive, Traced;
      }
  }

  // ---- frames do travel -----------------------------------------------------------------

  /** A locate frame put on the air is there to be heard, with the hops it starts at and no nodes behind it; time goes on and not back. */
  lemma InjectedIsAired(w: World, data: seq<byte>, now: int)
    ensures Take(w, Inject(data)) ==
            if Parse(data).Some? then w.(air := w.air + [Flight(data, Parse(data).value.hops, [])]) else w
    ensures Take(w, Wait(now)) == if now < w.now then w else w.(now := now)
    ensures forall i: nat, n :: i < |w.nodes| && Elsewhere(w.nodes[i], n) ==> Take(w, Change(i, n)).nodes == w.nodes[i := n]
  {
    hide Parse;
  }

  /**
   A frame on the air that a node takes up, that may go on and that it has room for goes
   on the air again, patched, with that node at the end of its path; any other does not.
   */
  lemma HeardGoesOn(w: World, i: nat, k: nat, src: MAC, rssi: int, c: Chance)
    requires i < |w.nodes| && k < |w.air| && Parse(w.air[k].data).Some?
    ensures var w' := Take(w, Hear(i, k, src, rssi, c)); var f := w.air[k]; var m := Parse(f.data).value;
      var n := w.nodes[i]; var rx := Received(src, rssi, f.data);
      if TakenUp(n, w.now, rx, m) && GoesOn(n, w.now, m, c) && HasRoom(n, m) then
        && w'.air == w.air + [Flight(Patch(f.data, n.fix.value.lat, n.fix.value.lon), f.start, f.path + [i])]
        && w'.relays == w.relays + [Entry(i, m.uid, m.expiry)]
      else w'.air == w.air && w'.relays == w.relays
  {
    var n, rx := w.nodes[i], Received(src, rssi, w.air[k].data);
    RelaysExactly(n, w.now, rx, Parse(rx.data).value, c);
    hide Receive, Parse, Patch, TakenUp, GoesOn, HasRoom;
  }

  // ---- whole runs ---------------------------------------------------------------------------

  ghost predicate Inv(w: World) {
    Settled(w) && Once(w) && AllTraced(w)
  }

  function Run(w: World, steps: seq<Step>): World
    decreases |steps|
  {
    if steps == [] then w else Run(Take(w, steps[0]), steps[1..])
  }

  /** One more step on a run is that step taken where the run ends. */
  lemma {:induction false} RunOneMore(w: World, steps: seq<Step>, step: Step)
    ensures Run(w, []) == w && Run(w, steps + [step]) == Take(Run(w, steps), step)
    decreases |steps|
  {
    hide Take;
    if steps == [] {
      assert [step][1..] == [] && steps + [step] == [step];
      assert Run(w, [step]) == Run(Take(w, step), []);
    } else {
      assert (steps + [step])[1..] == steps[1..] + [step];
      RunOneMore(Take(w, steps[0]), steps[1..], step);
    }
  }

  predicate FairRun(w: World, steps: seq<Step>)
    decreases |steps|
  {
    steps == [] || (Fair(w, steps[0]) && FairRun(Take(w, steps[0]), steps[1..]))
  }

  lemma {:induction false} EveryRun(w: World, steps: seq<Step>)
    requires Inv(w) && FairRun(w, steps)
    ensures Inv(Run(w, steps))
    decreases |steps|
  {
    if steps != [] {
      StepKeeps(w, steps[0]);
      StepTraces(w, steps[0]);
      EveryRun(Take(w, steps[0]), steps[1..]);
    }
  }

  /** The nodes that relayed a flood, in the order they did. */
  function RelayedBy(relays: seq<Entry>, uid: u16, expiry: i32): seq<nat> {
    if relays == [] then []
    else
      var e := relays[|relays| - 1];
      RelayedBy(relays[..|relays| - 1], uid, expiry) + (if e.uid == uid && e.expiry == expiry then [e.node] else [])
  }

  lemma AppendNew(s: seq<nat>, x: nat)
    requires NoDup(s) && x !in s
    ensures NoDup(s + [x]) && forall i :: i in s + [x] <==> i in s || i == x
  {
    assert forall k :: 0 <= k < |s| ==> s[k] in s;
    assert (s + [x])[|s|] == x;
  }

  lemma {:induction false} RelayersDistinct(relays: seq<Entry>, uid: u16, expiry: i32, n: nat)
    requires forall a, b :: 0 <= a < b < |relays| ==> relays[a] != relays[b]
    requires forall e :: e in relays ==> e.node < n
    ensures var r := RelayedBy(relays, uid, expiry);
      NoDup(r) && forall i :: i in r <==> Entry(i, uid, expiry) in relays
    ensures forall i :: i in RelayedBy(relays, uid, expiry) ==> i < n
    decreases |relays|
  {
    if relays != [] {
      var front, e := relays[..|relays| - 1], relays[|relays| - 1];
      assert relays == front + [e];
      assert e in relays && forall x :: x in relays <==> x in front || x == e;
      assert e !in front;
      RelayersDistinct(front, uid, expiry, n);
      var r := RelayedBy(front, uid, expiry);
      if e.uid == uid && e.expiry == expiry {
        assert e == Entry(e.node, uid, expiry) && e.node !in r;
        AppendNew(r, e.node);
      }
    }
  }

  /** Distinct naturals below n are at most n. */
  lemma {:induction false} Pigeonhole(s: seq<nat>, n: nat)
    requires NoDup(s) && forall k :: 0 <= k < |s| ==> s[k] < n
    ensures |s| <= n
    decreases n
  {
    if s != [] {
      assert s[0] < n;
      if n - 1 in s {
        var k :| 0 <= k < |s| && s[k] == n - 1;
        var rest := s[..k] + s[k + 1..];
        assert forall i :: 0 <= i < |rest| ==> rest[i] == (if i < k then s[i] else s[i + 1]);
        Pigeonhole(rest, n - 1);
      } else {
        Pigeonhole(s, n - 1);
      }
    }
  }

  predicate Quiet(w: World) {
    w.air == [] && w.relays == []
  }

  /** A flood costs the network at most one relay per node, whatever the order in which its copies are heard. */
  lemma OneRelayPerNode(w: World, steps: seq<Step>, uid: u16, expiry: i32)
    requires Quiet(w) && FairRun(w, steps)
    ensures var r := RelayedBy(Run(w, steps).relays, uid, expiry);
      NoDup(r) && |r| <= |w.nodes|
  {
    EveryRun(w, steps);
    NodesStay(w, steps);
    var w' := Run(w, steps);
    RelayersDistinct(w'.relays, uid, expiry, |w.nodes|);
    var r := RelayedBy(w'.relays, uid, expiry);
    assert forall k :: 0 <= k < |r| ==> r[k] in r;
    Pigeonhole(r, |w.nodes|);
  }

  lemma {:induction false} NodesStay(w: World, steps: seq<Step>)
    ensures |Run(w, steps).nodes| == |w.nodes|
    decreases |steps|
  {
    if steps != [] {
      assert |Take(w, steps[0]).nodes| == |w.nodes| by { hide Receive, Parse; }
      hide Take;
      NodesStay(Take(w, steps[0]), steps[1..]);
    }
  }

  /** A frame on the air has been through different nodes only, so it has gone at most one hop per node, and never past its limit. */
  lemma HopsAreBounded(w: World, steps: seq<Step>, f: Flight)
    requires Quiet(w) && FairRun(w, steps) && f in Run(w, steps).air
    ensures Parse(f.data).Some? && NoDup(f.path) && |f.path| <= |w.nodes|
    ensures var m := Parse(f.data).value;
      m.hops == f.start + |f.path| && (f.path != [] ==> m.hops < m.maxHops)
  {
    EveryRun(w, steps);
    NodesStay(w, steps);
    hide Parse, Run, FairRun;
    assert Traced(Run(w, steps), f);
    assert forall k :: 0 <= k < |f.path| ==> f.path[k] in f.path;
    Pigeonhole(f.path, |w.nodes|);
  }

  // ---- the conditions are needed ------------------------------------------------------------------

  /** A frame that expires 400 s ahead or later is forgotten while it can still be relayed. */
  lemma ForgottenTooSoon(n: Node, now: int, m: Locate, c: Chance)
    requires Fresh(n, now, m) && MayRelay(n, now, m, c) && m.expiry - WallSec(n.offset, now) >= 400
    ensures var n' := n.(recent := Recorded(n, now, m, c)); var later := now + 400 * SECOND;
      Fresh(n', later, m) && MayRelay(n', later, m, c)
  {
    WallAfter(n.offset, now, 400);
  }

  /** Recording another frame forgets a live UID exactly if the table is full of live ones and this is the one that makes room. */
  lemma ForgetsOnlyTheVictim(n: Node, now: int, m: Locate, c: Chance, uid: u16)
    requires Seen(n.recent, now, uid) && uid != m.uid
    ensures Seen(Recorded(n, now, m, c), now, uid) <==> |Swept(n.recent, now)| < RECENT_MAX || uid != c.victim
  {
  }

  /** With the table full of live UIDs, the frame with the oldest, refused as heard before, would be relayed again at once. */
  lemma EvictedTooSoon(n: Node, now: int, m: Locate, c: Chance, other: Locate, d: Chance)
    requires |Swept(n.recent, now)| >= RECENT_MAX && Oldest(Swept(n.recent, now), c.victim)
    requires c.victim == other.uid != m.uid && Seen(n.recent, now, other.uid)
    requires n.clockSet && MayRelay(n, now, other, d)
    ensures var n' := n.(recent := Recorded(n, now, m, c));
      !Fresh(n, now, other) && Fresh(n', now, other) && MayRelay(n', now, other, d)
  {
    ForgetsOnlyTheVictim(n, now, m, c, other.uid);
  }

  /**
   A clock set back: a flood that has expired here and whose UID is no longer kept would
   be relayed again exactly if the clock goes back far enough to make it unexpired.
   */
  lemma ClockSetBack(n: Node, now: int, m: Locate, c: Chance, seconds: int)
    requires WallSec(n.offset, now) > m.expiry && !Seen(n.recent, now, m.uid)
    requires n.clockSet && n.fix.Some? && m.hops + 1 < m.maxHops && m.expiry > 0
    requires !(m.relayMinDist > 0 && c.usableHop && c.near)
    ensures var n' := n.(offset := n.offset - seconds * SECOND);
      && Done(n, now, m.uid, m.expiry) && !MayRelay(n, now, m, c)
      && (Fresh(n', now, m) && MayRelay(n', now, m, c) <==> WallSec(n.offset, now) - seconds <= m.expiry)
  {
    WallAfter(n.offset, now, -seconds);
    assert now + (-seconds) * SECOND + n.offset == now + (n.offset - seconds * SECOND);
  }
}
