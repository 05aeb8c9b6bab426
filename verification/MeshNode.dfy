/**
 What one mesh node does with a locate frame: the duplicate table with its
 deadlines, the relay rules and the answer to a request. Times are nanoseconds
 on the node's own clock; `offset` turns them into wall-clock time.
 */
module MeshNode {
  import opened Bytes
  import opened LocateFrame

  const SECOND := 1_000_000_000
  const RECENT_MAX := 512
  const REPLY_HOLD := 60 * SECOND
  const ACK_LIMIT := 20
  const NO_ACK_LIMIT := 10
  const MAX_INT32 := 0x7fff_ffff

  datatype Fix = Fix(lat: u32, lon: u32, accuracy: i8)

  datatype Peer = Peer(viaMesh: bool, stale: bool, heard: bool, lastHeard: int, coords: Option<(u32, u32, int)>)

  datatype Node = Node(
    mac: MAC, owned: set<MAC>, relayUnowned: bool, sos: bool,
    off: bool, fix: Option<Fix>, clockSet: bool, offset: int,
    recent: map<u16, int>, peers: map<MAC, Peer>,
    meshAcks: nat, meshNoAcks: nat, lastReply: Option<int>, replyUID: u16, replyAt: Option<int>, originUID: u16)

  datatype Received = Received(src: MAC, rssi: int, data: seq<byte>)

  /**
   What the outside decides about one frame: a fresh random UID, whether the
   origin's and the last hop's coordinates are a position, whether the last hop is
   closer than the frame allows, and which of equally old duplicates goes first.
   */
  datatype Chance = Chance(uid: u16, usableOrigin: bool, usableHop: bool, near: bool, victim: u16)

  datatype Sent = Own(data: seq<byte>) | Relay(data: seq<byte>)

  datatype Outcome = Outcome(node: Node, sent: seq<Sent>)

  // ---- time -------------------------------------------------------------------

  function WallSec(offset: int, now: int): int {
    (now + offset) / 1_000_000_000
  }

  /** Unix seconds a new frame lives until, kept inside the signed 32-bit field. */
  function LocateExpiry(sec: int): (e: i32)
    ensures e > 0
  {
    if sec > MAX_INT32 - 120 then MAX_INT32
    else if sec < 0 then 1
    else sec + 120
  }

  /** How many seconds a frame's UID is kept. */
  function KeepFor(offset: int, now: int, expiry: i32): (sec: int)
    ensures 15 <= sec <= 400
  {
    Min(Max(expiry - WallSec(offset, now) + 15, 15), 400)
  }

  function Deadline(offset: int, now: int, expiry: i32): int {
    now + KeepFor(offset, now, expiry) * SECOND
  }

  lemma WallAfter(offset: int, now: int, sec: int)
    ensures WallSec(offset, now + sec * SECOND) == WallSec(offset, now) + sec
  {
    assert now + sec * SECOND + offset == (now + offset) + sec * 1_000_000_000;
  }

  lemma WallMonotone(offset: int, a: int, b: int)
    requires a <= b
    ensures WallSec(offset, a) <= WallSec(offset, b)
  {
  }

  /** The UID of a frame outlives the frame exactly when the frame expires less than 400 s ahead. */
  lemma OutlivesFrame(offset: int, now: int, expiry: i32)
    ensures WallSec(offset, Deadline(offset, now, expiry)) > expiry <==> expiry - WallSec(offset, now) < 400
  {
    WallAfter(offset, now, KeepFor(offset, now, expiry));
  }

  /** A frame this node builds is always remembered long enough, and is not yet expired unless its wall clock is past the field's range. */
  lemma OwnFramesAreRemembered(sec: int)
    ensures LocateExpiry(sec) - sec < 400 <==> sec > -399
    ensures 0 <= sec ==> LocateExpiry(sec) <= sec + 120
    ensures sec <= LocateExpiry(sec) <==> sec <= MAX_INT32
  {
  }

  // ---- the duplicate table ---------------------------------------------------------

  predicate Seen(recent: map<u16, int>, now: int, uid: u16) {
    uid in recent && now < recent[uid]
  }

  function Live(recent: map<u16, int>, now: int): map<u16, int> {
    map u | u in recent && now < recent[u] :: recent[u]
  }

  function Swept(recent: map<u16, int>, now: int): map<u16, int> {
    if |recent| >= RECENT_MAX then Live(recent, now) else recent
  }

  function Remember(recent: map<u16, int>, now: int, uid: u16, until: int, victim: u16): map<u16, int> {
    var swept := Swept(recent, now);
    (if |swept| >= RECENT_MAX then swept - {victim} else swept)[uid := until]
  }

  predicate Oldest(recent: map<u16, int>, victim: u16) {
    victim in recent && forall u :: u in recent ==> recent[victim] <= recent[u]
  }

  /** The table never outgrows its limit. */
  lemma RememberIsBounded(recent: map<u16, int>, now: int, uid: u16, until: int, victim: u16)
    requires |recent| <= RECENT_MAX
    requires |Swept(recent, now)| >= RECENT_MAX ==> Oldest(Swept(recent, now), victim)
    ensures |Remember(recent, now, uid, until, victim)| <= RECENT_MAX
  {
    var swept := Swept(recent, now);
    assert Live(recent, now).Keys <= recent.Keys;
    SubsetSize(Live(recent, now).Keys, recent.Keys);
    MapSize(recent);
    MapSize(Live(recent, now));
    var cleared := if |swept| >= RECENT_MAX then swept - {victim} else swept;
    if |swept| >= RECENT_MAX {
      assert cleared.Keys == swept.Keys - {victim};
      MapSize(swept);
      MapSize(cleared);
    }
    var r := cleared[uid := until];
    assert r.Keys == cleared.Keys + {uid};
    MapSize(r);
    MapSize(cleared);
  }

  /**
   What one more UID leaves: below 512 entries, all of them and the new one; at 512, the
   live ones and the new one; and at 512 live ones, all but the victim, and the new one.
   Only a full table forgets anything, and a live entry only when all are live.
   */
  lemma RememberMakesRoom(recent: map<u16, int>, now: int, uid: u16, until: int, victim: u16)
    ensures var live := map u | u in recent && now < recent[u] :: recent[u];
      Remember(recent, now, uid, until, victim) ==
      if |recent| < 512 then recent[uid := until]
      else if |live| < 512 then live[uid := until]
      else (live - {victim})[uid := until]
  {
    var live := map u | u in recent && now < recent[u] :: recent[u];
    assert live == Live(recent, now);
  }

  lemma MapSize(m: map<u16, int>)
    ensures |m| == |m.Keys|
  {
  }

  lemma {:induction false} SubsetSize(a: set<u16>, b: set<u16>)
    requires a <= b
    ensures |a| <= |b|
  {
    if a != {} {
      var x :| x in a;
      SubsetSize(a - {x}, b - {x});
    }
  }

  // ---- relaying ------------------------------------------------------------------------

  /** The relay rules: hops left, not expired, and not too close to whoever sent this copy. */
  predicate MayRelay(n: Node, now: int, m: Locate, c: Chance) {
    && n.fix.Some?
    && m.hops + 1 < m.maxHops && m.expiry > 0 && WallSec(n.offset, now) <= m.expiry
    && !(m.relayMinDist > 0 && c.usableHop && c.near)
  }

  /** The frame a relay sends: the one heard, patched. */
  function Patched(n: Node, data: seq<byte>): seq<byte>
    requires n.fix.Some? && |data| >= FRAME_LEN
  {
    Patch(data, n.fix.value.lat, n.fix.value.lon)
  }

  /** Carry a stranger's frame: requests have twice the budget replies have. */
  function RelayStranger(n: Node, now: int, data: seq<byte>, m: Locate, c: Chance): Outcome
    requires Parse(data) == Some(m)
  {
    if (if m.replyRequested then n.meshAcks >= ACK_LIMIT else n.meshNoAcks >= NO_ACK_LIMIT) || !MayRelay(n, now, m, c) then
      Outcome(n, [])
    else
      Outcome(if m.replyRequested then n.(meshAcks := n.meshAcks + 1) else n.(meshNoAcks := n.meshNoAcks + 1),
              [Relay(Patched(n, data))])
  }

  /** A locate frame of this node's own. */
  function OwnLocate(n: Node, now: int, request: bool, uid: u16): Locate {
    var at := if n.fix.Some? then n.fix.value else Fix(0, 0, -1);
    Locate(n.mac, at.lat, at.lon, at.accuracy, n.sos, uid, request, -127, 0, -1, -1, 0, 99,
           LocateExpiry(WallSec(n.offset, now)), at.lat, at.lon, 10)
  }

  function HearPeer(p: Peer, now: int, m: Locate, usable: bool): Peer {
    p.(viaMesh := true, stale := false, heard := true, lastHeard := now,
       coords := if usable then Some((m.lat, m.lon, now)) else p.coords)
  }

  predicate ReplyOK(n: Node, p: Peer, now: int) {
    && (p.viaMesh || !p.heard || now - p.lastHeard >= REPLY_HOLD)
    && (n.lastReply == None || now - n.lastReply.value >= REPLY_HOLD)
  }

  function Noted(n: Node, now: int, m: Locate, usable: bool): Node
    requires m.origin in n.peers
  {
    n.(peers := n.peers[m.origin := HearPeer(n.peers[m.origin], now, m, usable)])
  }

  function Answer(n: Node, now: int, uid: u16): Outcome {
    Outcome(n.(replyUID := uid, replyAt := Some(now), lastReply := Some(now)),
            [Own(Encode(OwnLocate(n, now, false, uid)))])
  }

  function RelayForPeer(n: Node, now: int, data: seq<byte>, m: Locate, c: Chance): Outcome
    requires Parse(data) == Some(m)
  {
    if n.meshAcks < ACK_LIMIT && MayRelay(n, now, m, c)
    then Outcome(n.(meshAcks := n.meshAcks + 1), [Relay(Patched(n, data))])
    else Outcome(n, [])
  }

  /** The frame of a bonded peer: note it, answer a request, and carry the request on. */
  function FromPeer(n: Node, now: int, data: seq<byte>, m: Locate, c: Chance): Outcome
    requires Parse(data) == Some(m) && m.origin in n.peers
  {
    var noted := Noted(n, now, m, c.usableOrigin);
    if !m.replyRequested then Outcome(noted, [])
    else
      var a := if ReplyOK(n, n.peers[m.origin], now) then Answer(noted, now, c.uid) else Outcome(noted, []);
      var r := RelayForPeer(a.node, now, data, m, c);
      Outcome(r.node, a.sent + r.sent)
  }

  /** Our own frame, back from a relay: the answer was heard, or the request was. */
  function Returned(n: Node, m: Locate): Node {
    n.(replyAt := if m.uid == n.replyUID then None else n.replyAt,
       originUID := if m.uid == n.originUID then 0 else n.originUID)
  }

  /** A frame not heard before, with a fix and a clock to judge it by. */
  predicate Fresh(n: Node, now: int, m: Locate) {
    n.fix.Some? && !Seen(n.recent, now, m.uid) && n.clockSet
  }

  function Consider(n: Node, now: int, rx: Received, m: Locate, c: Chance): Outcome
    requires Parse(rx.data) == Some(m)
  {
    if m.origin == n.mac then Outcome(Returned(n, m), [])
    else if rx.rssi < m.minRSSI || rx.rssi > m.maxRSSI then Outcome(n, [])
    else if m.origin in n.peers then FromPeer(n, now, rx.data, m, c)
    else if !n.relayUnowned then Outcome(n, [])
    else RelayStranger(n, now, rx.data, m, c)
  }

  function OnLocate(n: Node, now: int, rx: Received, m: Locate, c: Chance): Outcome
    requires Parse(rx.data) == Some(m)
  {
    if !Fresh(n, now, m) then Outcome(n, [])
    else
      var o := Consider(n, now, rx, m, c);
      var until := Deadline(n.offset, now, m.expiry);
      o.(node := o.node.(recent := Remember(o.node.recent, now, m.uid, until, c.victim)))
  }

  predicate Heeds(n: Node, rx: Received) {
    rx.src in n.owned || (n.relayUnowned && IsLocate(rx.data))
  }

  /** A frame off the air: only an owned Totem is heard, or a locate frame when carrying for strangers, and only while on. */
  function Receive(n: Node, now: int, rx: Received, c: Chance): Outcome {
    if !Heeds(n, rx) then Outcome(n, [])
    else if n.off then Outcome(n, [])
    else match Parse(rx.data)
      case None => Outcome(n, [])
      case Some(m) => OnLocate(n, now, rx, m, c)
  }

  /** What a reading of the sensors can change here: the fix, the clock, and whether the battery still holds. */
  datatype Reading = Reading(fix: Option<Fix>, clockSet: bool, offset: int, off: bool)

  /** A node that powers down forgets the answers it owes. */
  function Sensed(n: Node, r: Reading): Node {
    var n1 := n.(fix := r.fix, clockSet := r.clockSet, offset := r.offset, off := r.off);
    if r.off then n1.(replyAt := None, replyUID := 0, originUID := 0) else n1
  }

  /** A reading comes first, for a frame that is heeded by a node that is on; and the battery may give out in it. */
  function ReadAndReceive(n: Node, r: Reading, now: int, rx: Received, c: Chance): Outcome {
    if !Heeds(n, rx) || n.off then Outcome(n, []) else Receive(Sensed(n, r), now, rx, c)
  }

  // ---- what a single frame can do ---------------------------------------------------------

  /** A relay happens only for a frame that is new here and that the rules let through; there is one at most, last, and it is the patched frame. */
  lemma RelaysOnlyIf(n: Node, now: int, rx: Received, c: Chance, k: nat)
    requires var o := Receive(n, now, rx, c); k < |o.sent| && o.sent[k].Relay?
    ensures var o := Receive(n, now, rx, c);
      && k == |o.sent| - 1 && (forall j :: 0 <= j < k ==> o.sent[j].Own?)
      && Parse(rx.data).Some? && !n.off
      && Fresh(n, now, Parse(rx.data).value) && MayRelay(n, now, Parse(rx.data).value, c)
      && o.sent[k].data == Patched(n, rx.data)
  {
    hide Remember, Parse, Encode, Patch;
  }

  /** What a frame new here leaves in the duplicate table. */
  function Recorded(n: Node, now: int, m: Locate, c: Chance): map<u16, int> {
    Remember(n.recent, now, m.uid, Deadline(n.offset, now, m.expiry), c.victim)
  }

  /** What a frame from a bonded peer leaves as it was. */
  lemma FromPeerLeaves(n: Node, now: int, data: seq<byte>, m: Locate, c: Chance)
    requires Parse(data) == Some(m) && m.origin in n.peers
    ensures var o := FromPeer(n, now, data, m, c);
      o.node.recent == n.recent && o.node.offset == n.offset
  {
    var noted := Noted(n, now, m, c.usableOrigin);
    var a := Answer(noted, now, c.uid).node;
    assert a.recent == n.recent && a.offset == n.offset;
    assert noted.recent == n.recent && noted.offset == n.offset;
    hide Parse, MayRelay, ReplyOK, Patched, Noted, Answer;
  }

  lemma ConsiderLeaves(n: Node, now: int, rx: Received, m: Locate, c: Chance)
    requires Parse(rx.data) == Some(m)
    ensures var o := Consider(n, now, rx, m, c);
      o.node.recent == n.recent && o.node.offset == n.offset
  {
    hide Parse, FromPeer, RelayStranger, Returned;
    if m.origin in n.peers {
      FromPeerLeaves(n, now, rx.data, m, c);
    }
    OthersLeave(n, now, rx.data, m, c);
  }

  lemma OthersLeave(n: Node, now: int, data: seq<byte>, m: Locate, c: Chance)
    requires Parse(data) == Some(m)
    ensures var o := RelayStranger(n, now, data, m, c); o.node.recent == n.recent && o.node.offset == n.offset
    ensures Returned(n, m).recent == n.recent && Returned(n, m).offset == n.offset
  {
    hide Parse, MayRelay, Patched;
  }

  /** The duplicate table changes only for a frame that is new here, and whatever is sent, its UID is recorded. */
  lemma TableAfter(n: Node, now: int, rx: Received, c: Chance)
    ensures var o := Receive(n, now, rx, c);
      && o.node.offset == n.offset
      && (o.node.recent == n.recent
          || (Parse(rx.data).Some? && Fresh(n, now, Parse(rx.data).value)
              && o.node.recent == Recorded(n, now, Parse(rx.data).value, c)))
      && (o.sent != [] ==> Parse(rx.data).Some? && o.node.recent == Recorded(n, now, Parse(rx.data).value, c))
  {
    hide Remember, Parse, Encode, Patch, Consider, Deadline;
    if Parse(rx.data).Some? {
      ConsiderLeaves(n, now, rx, Parse(rx.data).value, c);
    }
  }

  /** A relayed frame decodes to the one heard, one hop on, from here. Its hop byte has not wrapped, and hops are left. */
  lemma RelayDecodes(n: Node, now: int, rx: Received, c: Chance, k: nat)
    requires var o := Receive(n, now, rx, c); k < |o.sent| && o.sent[k].Relay?
    ensures var m := Parse(rx.data).value; var r := Parse(Receive(n, now, rx, c).sent[k].data);
      && Parse(rx.data).Some? && n.fix.Some? && m.hops < 0xff
      && r == Some(Relayed(m, n.fix.value.lat, n.fix.value.lon))
      && 0 < r.value.maxHops - r.value.hops == (m.maxHops - m.hops) - 1
  {
    RelaysOnlyIf(n, now, rx, c, k);
    PatchDecodes(rx.data, n.fix.value.lat, n.fix.value.lon);
    hide Receive, Parse, Patch;
  }

  /** Every locate frame sent comes from this node or from a bonded peer, unless it carries for strangers. */
  lemma SentOrigins(n: Node, now: int, rx: Received, c: Chance, k: nat)
    requires k < |Receive(n, now, rx, c).sent|
    ensures var f := Parse(Receive(n, now, rx, c).sent[k].data);
      f.Some? && (f.value.origin == n.mac || f.value.origin in n.peers || n.relayUnowned)
  {
    var o := Receive(n, now, rx, c);
    if o.sent[k].Relay? {
      RelayDecodes(n, now, rx, c, k);
      hide Remember, Parse, Encode, Patch;
    } else {
      OwnSent(n, now, rx, c, k);
    }
  }

  lemma OwnSent(n: Node, now: int, rx: Received, c: Chance, k: nat)
    requires k < |Receive(n, now, rx, c).sent| && Receive(n, now, rx, c).sent[k].Own?
    ensures var f := Parse(Receive(n, now, rx, c).sent[k].data); f.Some? && f.value.origin == n.mac
  {
    hide Remember, Parse, Encode, Patch;
    var m := Parse(rx.data).value;
    ParseEncode(OwnLocate(Noted(n, now, m, c.usableOrigin), now, false, c.uid));
  }

  /** A frame is answered only if it is a bonded peer's request, at least a minute after the answer before. */
  lemma AnswersAreSpaced(n: Node, now: int, rx: Received, c: Chance, k: nat)
    requires k < |Receive(n, now, rx, c).sent| && Receive(n, now, rx, c).sent[k].Own?
    ensures Parse(rx.data).Some? && Parse(rx.data).value.replyRequested && Parse(rx.data).value.origin in n.peers
    ensures n.lastReply == None || now - n.lastReply.value >= REPLY_HOLD
  {
    hide Remember, Parse, Encode, Patch, MayRelay;
  }

  // ---- and what it does do ----------------------------------------------------------------

  /**
   The frame m is taken up: from a Totem owned here, or any locate frame when carrying
   for strangers; by a node that is on, with a fix and a clock, that has no live record
   of its UID; from another node than this, at a strength the frame asks for.
   */
  predicate TakenUp(n: Node, now: int, rx: Received, m: Locate) {
    && Parse(rx.data) == Some(m)
    && (rx.src in n.owned || n.relayUnowned) && !n.off && n.fix.Some? && n.clockSet
    && (m.uid !in n.recent || n.recent[m.uid] <= now)
    && m.origin != n.mac && m.minRSSI <= rx.rssi <= m.maxRSSI
  }

  function Last(sent: seq<Sent>): Option<Sent> {
    if sent == [] then None else Some(sent[|sent| - 1])
  }

  lemma ReceiveIs(n: Node, now: int, rx: Received, m: Locate, c: Chance)
    requires Parse(rx.data) == Some(m)
    ensures var o := Receive(n, now, rx, c);
      if TakenUp(n, now, rx, m) then
        var d := if m.origin in n.peers then FromPeer(n, now, rx.data, m, c)
                 else if n.relayUnowned then RelayStranger(n, now, rx.data, m, c) else Outcome(n, []);
        o.sent == d.sent && o.node == d.node.(recent := o.node.recent)
      else
        && o.sent == [] && o.node.meshAcks == n.meshAcks && o.node.meshNoAcks == n.meshNoAcks && o.node.peers == n.peers
        && o.node.lastReply == n.lastReply && o.node.replyUID == n.replyUID
  {
    hide Remember, Deadline, FromPeer, RelayStranger, Encode, Patch;
  }

  /** The rules, on the fields: there are hops left, the frame is not expired, and the last hop is not known to be too close. */
  predicate GoesOn(n: Node, now: int, m: Locate, c: Chance) {
    && m.hops + 1 < m.maxHops && m.expiry > 0 && (now + n.offset) / 1_000_000_000 <= m.expiry
    && (m.relayMinDist <= 0 || !c.usableHop || !c.near)
  }

  /** For its own peers a node carries requests, for strangers, if set to, replies too, each kind within its budget. */
  predicate HasRoom(n: Node, m: Locate) {
    && (if m.replyRequested then n.meshAcks < 20 else n.meshNoAcks < 10)
    && (if m.origin in n.peers then m.replyRequested else n.relayUnowned)
  }

  lemma FromPeerCarries(n: Node, now: int, data: seq<byte>, m: Locate, c: Chance)
    requires Parse(data) == Some(m) && m.origin in n.peers && n.fix.Some?
    ensures var o := FromPeer(n, now, data, m, c);
      && (if GoesOn(n, now, m, c) && HasRoom(n, m)
          then Last(o.sent) == Some(Relay(Patch(data, n.fix.value.lat, n.fix.value.lon)))
               && o.node.meshAcks == n.meshAcks + 1
          else (Last(o.sent).Some? ==> Last(o.sent).value.Own?) && o.node.meshAcks == n.meshAcks)
      && o.node.meshNoAcks == n.meshNoAcks
  {
    hide Parse, Encode, Patch, OwnLocate, ReplyOK, HearPeer;
  }

  lemma StrangerCarries(n: Node, now: int, data: seq<byte>, m: Locate, c: Chance)
    requires Parse(data) == Some(m) && m.origin !in n.peers && n.relayUnowned && n.fix.Some?
    ensures var o := RelayStranger(n, now, data, m, c);
      if GoesOn(n, now, m, c) && HasRoom(n, m)
      then o.sent == [Relay(Patch(data, n.fix.value.lat, n.fix.value.lon))]
           && o.node.meshAcks == n.meshAcks + (if m.replyRequested then 1 else 0)
           && o.node.meshNoAcks == n.meshNoAcks + (if m.replyRequested then 0 else 1)
      else o == Outcome(n, [])
  {
    hide Parse, Patch;
  }

  /**
   A frame is carried on exactly when it is taken up, the rules let it go on and there is
   room in the budget it counts against. It is then the last thing sent, with this node's
   position as its last hop, and it is counted against that budget and no other.
   */
  lemma RelaysExactly(n: Node, now: int, rx: Received, m: Locate, c: Chance)
    requires Parse(rx.data) == Some(m)
    ensures var o := Receive(n, now, rx, c);
      if TakenUp(n, now, rx, m) && GoesOn(n, now, m, c) && HasRoom(n, m)
      then Last(o.sent) == Some(Relay(Patch(rx.data, n.fix.value.lat, n.fix.value.lon)))
           && o.node.meshAcks == n.meshAcks + (if m.replyRequested then 1 else 0)
           && o.node.meshNoAcks == n.meshNoAcks + (if m.replyRequested then 0 else 1)
      else (Last(o.sent).Some? ==> Last(o.sent).value.Own?)
           && o.node.meshAcks == n.meshAcks && o.node.meshNoAcks == n.meshNoAcks
  {
    ReceiveIs(n, now, rx, m, c);
    if TakenUp(n, now, rx, m) {
      if m.origin in n.peers {
        FromPeerCarries(n, now, rx.data, m, c);
      } else if n.relayUnowned {
        StrangerCarries(n, now, rx.data, m, c);
      }
    }
    hide Receive, Parse, Patch, FromPeer, RelayStranger, TakenUp, GoesOn;
  }

  /** A node may answer a peer it has only heard over the mesh, not heard, or not heard for a minute, if its last answer is a minute old. */
  predicate MayAnswer(n: Node, now: int, m: Locate) {
    && m.origin in n.peers && m.replyRequested
    && (n.peers[m.origin].viaMesh || !n.peers[m.origin].heard || now - n.peers[m.origin].lastHeard >= 60_000_000_000)
    && (n.lastReply == None || now - n.lastReply.value >= 60_000_000_000)
  }

  /** What an answer says: where the node is, that it asks for no reply, and that it is worth carrying for two minutes. */
  predicate SaysWhere(n: Node, now: int, uid: u16, l: Locate) {
    && l.origin == n.mac && l.uid == uid && !l.replyRequested && l.sos == n.sos
    && n.fix.Some? && l.lat == l.lastHopLat == n.fix.value.lat && l.lon == l.lastHopLon == n.fix.value.lon
    && l.posAccuracy == n.fix.value.accuracy
    && l.minRSSI == -127 && l.maxRSSI == 0 && l.minDist == -1 && l.maxDist == -1
    && l.hops == 0 && l.maxHops == 99 && l.relayMinDist == 10
    && var sec := (now + n.offset) / 1_000_000_000;
      l.expiry == if sec < 0 then 1 else if sec + 120 > 0x7fff_ffff then 0x7fff_ffff else sec + 120
  }

  lemma OwnLocateSays(n: Node, now: int, uid: u16)
    ensures n.fix.Some? ==> SaysWhere(n, now, uid, OwnLocate(n, now, false, uid))
    ensures var l := OwnLocate(n, now, true, uid);
      && l.replyRequested && l.origin == n.mac && l.uid == uid
      && (n.fix == None ==> l.lat == l.lon == l.lastHopLat == l.lastHopLon == 0 && l.posAccuracy == -1)
  {
  }

  /** The answer itself, from the node once it has noted the peer. */
  lemma AnswerSays(n: Node, now: int, m: Locate, usable: bool, uid: u16)
    requires m.origin in n.peers && n.fix.Some?
    ensures var o := Answer(Noted(n, now, m, usable), now, uid);
      && |o.sent| == 1 && o.sent[0].Own? && Parse(o.sent[0].data).Some?
      && SaysWhere(n, now, uid, Parse(o.sent[0].data).value)
      && o.node.replyUID == uid && o.node.replyAt == Some(now) && o.node.lastReply == Some(now)
  {
    var noted := Noted(n, now, m, usable);
    OwnLocateSays(noted, now, uid);
    ParseEncode(OwnLocate(noted, now, false, uid));
    hide Parse, Encode, OwnLocate, HearPeer;
  }

  lemma NotingAnswersNothing(n: Node, now: int, m: Locate, usable: bool)
    requires m.origin in n.peers
    ensures var o := Noted(n, now, m, usable);
      o.replyUID == n.replyUID && o.replyAt == n.replyAt && o.lastReply == n.lastReply
  {
  }

  lemma PursuitAnswersNothing(n: Node, now: int, data: seq<byte>, m: Locate, c: Chance)
    requires Parse(data) == Some(m)
    ensures var o := RelayForPeer(n, now, data, m, c);
      && o.node.replyUID == n.replyUID && o.node.replyAt == n.replyAt && o.node.lastReply == n.lastReply
      && forall k :: 0 <= k < |o.sent| ==> o.sent[k].Relay?
  {
    hide Parse, Patch, MayRelay;
  }

  lemma FromPeerAnswers(n: Node, now: int, data: seq<byte>, m: Locate, c: Chance)
    requires Parse(data) == Some(m) && m.origin in n.peers && n.fix.Some?
    ensures var o := FromPeer(n, now, data, m, c);
      if MayAnswer(n, now, m)
      then |o.sent| >= 1 && o.sent[0].Own? && Parse(o.sent[0].data).Some?
           && SaysWhere(n, now, c.uid, Parse(o.sent[0].data).value)
           && o.node.replyUID == c.uid && o.node.replyAt == Some(now) && o.node.lastReply == Some(now)
      else (forall k :: 0 <= k < |o.sent| ==> o.sent[k].Relay?)
           && o.node.replyUID == n.replyUID && o.node.replyAt == n.replyAt && o.node.lastReply == n.lastReply
  {
    var noted := Noted(n, now, m, c.usableOrigin);
    AnswerSays(n, now, m, c.usableOrigin, c.uid);
    NotingAnswersNothing(n, now, m, c.usableOrigin);
    assert m.replyRequested ==> (ReplyOK(n, n.peers[m.origin], now) <==> MayAnswer(n, now, m));
    PursuitAnswersNothing(noted, now, data, m, c);
    PursuitAnswersNothing(Answer(noted, now, c.uid).node, now, data, m, c);
    hide Parse, Answer, Noted, RelayForPeer, SaysWhere, ReplyOK;
  }

  /**
   A frame is answered exactly when it is taken up and its origin may be answered. The
   answer goes out first, decodes to where this node is, and is remembered until it is
   heard again.
   */
  lemma AnswersExactly(n: Node, now: int, rx: Received, m: Locate, c: Chance)
    requires Parse(rx.data) == Some(m)
    ensures var o := Receive(n, now, rx, c);
      if TakenUp(n, now, rx, m) && MayAnswer(n, now, m)
      then |o.sent| >= 1 && o.sent[0].Own? && Parse(o.sent[0].data).Some?
           && SaysWhere(n, now, c.uid, Parse(o.sent[0].data).value)
           && o.node.replyUID == c.uid && o.node.replyAt == Some(now) && o.node.lastReply == Some(now)
      else (forall k :: 0 <= k < |o.sent| ==> o.sent[k].Relay?)
           && o.node.replyUID == n.replyUID && o.node.lastReply == n.lastReply
  {
    ReceiveIs(n, now, rx, m, c);
    if TakenUp(n, now, rx, m) {
      if m.origin in n.peers {
        FromPeerAnswers(n, now, rx.data, m, c);
      } else if n.relayUnowned {
        StrangerCarries(n, now, rx.data, m, c);
        assert !MayAnswer(n, now, m);
      }
    }
    hide Receive, Parse, Patch, FromPeer, RelayStranger, TakenUp, GoesOn, HasRoom, SaysWhere;
  }

  lemma FromPeerNotes(n: Node, now: int, data: seq<byte>, m: Locate, c: Chance)
    requires Parse(data) == Some(m) && m.origin in n.peers
    ensures var was := n.peers[m.origin];
      FromPeer(n, now, data, m, c).node.peers ==
      n.peers[m.origin := Peer(true, false, true, now, if c.usableOrigin then Some((m.lat, m.lon, now)) else was.coords)]
  {
    hide Parse, Encode, Patch, OwnLocate, ReplyOK, MayRelay;
  }

  /** A bonded peer whose frame is taken up is noted as heard over the mesh, now, and where it says it is; nothing else changes what is known of peers. */
  lemma PeersAreNoted(n: Node, now: int, rx: Received, m: Locate, c: Chance)
    requires Parse(rx.data) == Some(m)
    ensures Receive(n, now, rx, c).node.peers ==
            if TakenUp(n, now, rx, m) && m.origin in n.peers
            then n.peers[m.origin := Peer(true, false, true, now,
                                          if c.usableOrigin then Some((m.lat, m.lon, now)) else n.peers[m.origin].coords)]
            else n.peers
  {
    ReceiveIs(n, now, rx, m, c);
    if TakenUp(n, now, rx, m) {
      if m.origin in n.peers {
        FromPeerNotes(n, now, rx.data, m, c);
      } else if n.relayUnowned {
        StrangerCarries(n, now, rx.data, m, c);
        assert RelayStranger(n, now, rx.data, m, c).node.peers == n.peers;
      }
    }
    hide Receive, Parse, Patch, FromPeer, RelayStranger, TakenUp, GoesOn, HasRoom;
  }

  /**
   This node's own frame, heard back while on, with a fix, a clock and no live record of
   it: nothing is sent; the answer it was is no longer waited for, or the request.
   */
  lemma OwnFrameComesBack(n: Node, now: int, rx: Received, m: Locate, c: Chance)
    requires Parse(rx.data) == Some(m) && m.origin == n.mac
    requires (rx.src in n.owned || n.relayUnowned) && !n.off && n.fix.Some? && n.clockSet
    requires m.uid !in n.recent || n.recent[m.uid] <= now
    ensures var o := Receive(n, now, rx, c);
      && o.sent == [] && o.node.peers == n.peers
      && (o.node.replyAt == if m.uid == n.replyUID then None else n.replyAt)
      && (o.node.originUID == if m.uid == n.originUID then 0 else n.originUID)
  {
    hide Remember, Deadline;
  }

  /** The UID of a frame considered at all is kept until 15 s past its expiry, but for no less than 15 s and no more than 400 s from now. */
  lemma KeptUntil(n: Node, now: int, rx: Received, m: Locate, c: Chance)
    requires Parse(rx.data) == Some(m)
    requires (rx.src in n.owned || n.relayUnowned) && !n.off && n.fix.Some? && n.clockSet
    requires m.uid !in n.recent || n.recent[m.uid] <= now
    ensures var recent := Receive(n, now, rx, c).node.recent;
      var left := m.expiry - (now + n.offset) / 1_000_000_000;
      m.uid in recent &&
      recent[m.uid] == now + 1_000_000_000 * (if left <= 0 then 15 else if left >= 385 then 400 else left + 15)
  {
    hide Consider, Swept, Parse;
  }

  /** A frame is judged by the reading before it: what that lacks, the frame is not taken up for; and a node it switches off sends nothing and forgets the answers it owes. */
  lemma ReadingComesFirst(n: Node, r: Reading, now: int, rx: Received, m: Locate, c: Chance)
    requires rx.src in n.owned && !n.off && Parse(rx.data) == Some(m)
    ensures var o := ReadAndReceive(n, r, now, rx, c);
      && (o.sent != [] ==> r.fix.Some? && r.clockSet && !r.off)
      && (r.off ==> o.node == n.(fix := r.fix, clockSet := r.clockSet, offset := r.offset, off := true,
                                 replyAt := None, replyUID := 0, originUID := 0))
  {
    ReceiveIs(Sensed(n, r), now, rx, m, c);
    if r.off {
      hide Parse, OnLocate;
    } else {
      hide Receive, Parse, FromPeer, RelayStranger;
    }
  }

  /** A frame that is not heeded, or comes to a node that is off, is not even worth a reading: nothing changes. */
  lemma UnheededChangesNothing(n: Node, r: Reading, now: int, rx: Received, c: Chance)
    requires (rx.src !in n.owned && !(n.relayUnowned && |rx.data| >= 4 && rx.data[..4] == [0xa7, 0x74, 2, 0])) || n.off
    ensures ReadAndReceive(n, r, now, rx, c) == Outcome(n, [])
  {
    hide Receive;
    assert |rx.data| >= 4 ==> rx.data[..4] == [rx.data[0], rx.data[1], rx.data[2], rx.data[3]];
  }

  /** And that is all a reading does to a node: it leaves everything that is not a sensor's alone while there is power. */
  lemma ReadingChanges(n: Node, r: Reading)
    ensures var n' := Sensed(n, r);
      && n'.fix == r.fix && n'.clockSet == r.clockSet && n'.offset == r.offset && n'.off == r.off
      && n' == n.(fix := n'.fix, clockSet := n'.clockSet, offset := n'.offset, off := n'.off,
                  replyAt := n'.replyAt, replyUID := n'.replyUID, originUID := n'.originUID)
      && (if r.off then n'.replyAt == None && n'.replyUID == 0 && n'.originUID == 0
          else n'.replyAt == n.replyAt && n'.replyUID == n.replyUID && n'.originUID == n.originUID)
  {
  }

  /** Frames a node has relayed since its last radio window. */
  function Spent(n: Node): nat {
    n.meshAcks + n.meshNoAcks
  }

  predicate InBudget(n: Node) {
    n.meshAcks <= ACK_LIMIT && n.meshNoAcks <= NO_ACK_LIMIT
  }

  function RelaysIn(sent: seq<Sent>): nat {
    if sent != [] && sent[|sent| - 1].Relay? then 1 else 0
  }

  lemma FromPeerBudget(n: Node, now: int, data: seq<byte>, m: Locate, c: Chance)
    requires Parse(data) == Some(m) && m.origin in n.peers && InBudget(n)
    ensures var o := FromPeer(n, now, data, m, c);
      InBudget(o.node) && Spent(o.node) == Spent(n) + RelaysIn(o.sent)
  {
    hide Parse, ReplyOK, Noted, Answer, RelayForPeer, InBudget, Spent, RelaysIn;
    var noted := Noted(n, now, m, c.usableOrigin);
    var answered := Answer(noted, now, c.uid);
    AnswerBudget(n, now, m, c.usableOrigin, c.uid);
    PursuitBudget(noted, now, data, m, c);
    PursuitBudget(answered.node, now, data, m, c);
    LastRelay(answered.sent, RelayForPeer(answered.node, now, data, m, c).sent);
    LastRelay([], RelayForPeer(noted, now, data, m, c).sent);
  }

  lemma AnswerBudget(n: Node, now: int, m: Locate, usable: bool, uid: u16)
    requires m.origin in n.peers && InBudget(n)
    ensures var noted := Noted(n, now, m, usable); var a := Answer(noted, now, uid);
      && InBudget(noted) && Spent(noted) == Spent(n)
      && InBudget(a.node) && Spent(a.node) == Spent(n) && RelaysIn(a.sent) == 0
  {
    hide Encode, OwnLocate, HearPeer;
  }

  lemma PursuitBudget(n: Node, now: int, data: seq<byte>, m: Locate, c: Chance)
    requires Parse(data) == Some(m) && InBudget(n)
    ensures var o := RelayForPeer(n, now, data, m, c);
      InBudget(o.node) && Spent(o.node) == Spent(n) + RelaysIn(o.sent)
  {
    hide Parse, MayRelay, Patched;
  }

  lemma LastRelay(a: seq<Sent>, b: seq<Sent>)
    requires RelaysIn(a) == 0
    ensures RelaysIn(a + b) == RelaysIn(b) && RelaysIn([]) == 0
  {
    assert b == [] ==> a + b == a;
  }

  lemma StrangerBudget(n: Node, now: int, data: seq<byte>, m: Locate, c: Chance)
    requires Parse(data) == Some(m) && InBudget(n)
    ensures var o := RelayStranger(n, now, data, m, c);
      InBudget(o.node) && Spent(o.node) == Spent(n) + RelaysIn(o.sent)
  {
    hide Parse, MayRelay, Patched;
  }

  lemma ReturnedBudget(n: Node, m: Locate)
    ensures Spent(Returned(n, m)) == Spent(n) && InBudget(Returned(n, m)) == InBudget(n) && RelaysIn([]) == 0
  {
  }

  lemma ConsiderBudget(n: Node, now: int, rx: Received, m: Locate, c: Chance)
    requires Parse(rx.data) == Some(m) && InBudget(n)
    ensures var o := Consider(n, now, rx, m, c);
      InBudget(o.node) && Spent(o.node) == Spent(n) + RelaysIn(o.sent)
  {
    if m.origin in n.peers {
      FromPeerBudget(n, now, rx.data, m, c);
    }
    StrangerBudget(n, now, rx.data, m, c);
    ReturnedBudget(n, m);
    hide Parse, FromPeer, RelayStranger, Returned, InBudget, Spent, RelaysIn;
  }

  /** Between two radio windows a node relays at most 20 requests and, for strangers, at most 10 replies: every relay is counted. */
  lemma WithinBudget(n: Node, now: int, rx: Received, c: Chance)
    requires InBudget(n)
    ensures var o := Receive(n, now, rx, c);
      InBudget(o.node) && Spent(o.node) == Spent(n) + RelaysIn(o.sent)
  {
    hide Parse, Consider, Remember, Deadline;
    if Parse(rx.data).Some? {
      ConsiderBudget(n, now, rx, Parse(rx.data).value, c);
    }
  }
}
