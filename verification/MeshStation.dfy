/** A mesh node as it runs: its fields change in place, and each method does what the functions of MeshNode say. */
module MeshStation {
  import opened Bytes
  import opened LocateFrame
  import opened MeshNode

  class Station {
    const mac: MAC
    const owned: set<MAC>
    const relayUnowned: bool
    var sos: bool
    var off: bool
    var fix: Option<Fix>
    var clockSet: bool
    var offset: int
    var recent: map<u16, int>
    var peers: map<MAC, Peer>
    var meshAcks: nat
    var meshNoAcks: nat
    var lastReply: Option<int>
    var replyUID: u16
    var replyAt: Option<int>
    var originUID: u16
    var out: seq<Sent>

    /** The node as a value. */
    function At(): Node
      reads this
    {
      Node(mac, owned, relayUnowned, sos, off, fix, clockSet, offset, recent, peers,
           meshAcks, meshNoAcks, lastReply, replyUID, replyAt, originUID)
    }

    constructor (n: Node)
      ensures At() == n && out == []
    {
      mac, owned, relayUnowned, sos, off, fix, clockSet := n.mac, n.owned, n.relayUnowned, n.sos, n.off, n.fix, n.clockSet;
      offset, recent, peers, meshAcks, meshNoAcks := n.offset, n.recent, n.peers, n.meshAcks, n.meshNoAcks;
      lastReply, replyUID, replyAt, originUID, out := n.lastReply, n.replyUID, n.replyAt, n.originUID, [];
    }

    method SeenAlready(now: int, uid: u16) returns (seen: bool)
      ensures seen <==> Seen(recent, now, uid)
    {
      seen := uid in recent && now < recent[uid];
    }

    /** Drop every entry whose deadline has passed. */
    method Sweep(now: int)
      modifies this`recent
      ensures recent == Live(old(recent), now)
    {
      var keys := recent.Keys;
      ghost var was := recent;
      while keys != {}
        invariant keys <= was.Keys
        invariant recent.Keys <= was.Keys
        invariant forall u :: u in recent ==> recent[u] == was[u]
        invariant forall u :: u in was && (u in keys || now < was[u]) ==> u in recent
        invariant forall u :: u in recent && u !in keys ==> now < was[u]
        decreases |keys|
      {
        var k :| k in keys;
        keys := keys - {k};
        if k in recent && recent[k] <= now {
          recent := recent - {k};
        }
      }
      assert recent.Keys == Live(was, now).Keys;
    }

    /** The entry with the earliest deadline. */
    method FindOldest() returns (oldest: u16)
      requires recent != map[]
      ensures Oldest(recent, oldest)
    {
      var keys := recent.Keys;
      assert exists k :: k in recent;
      oldest :| oldest in recent;
      while keys != {}
        invariant keys <= recent.Keys && oldest in recent
        invariant forall u :: u in recent && u !in keys ==> recent[oldest] <= recent[u]
        decreases |keys|
      {
        var k :| k in keys;
        keys := keys - {k};
        if recent[k] < recent[oldest] {
          oldest := k;
        }
      }
    }

    /** Record a UID; the entry that had to make room for it, if one did, is the victim. */
    method AddRecent(now: int, uid: u16, expiry: i32) returns (ghost victim: u16)
      requires |recent| <= RECENT_MAX
      modifies this`recent
      ensures recent == Remember(old(recent), now, uid, Deadline(offset, now, expiry), victim)
      ensures |Swept(old(recent), now)| >= RECENT_MAX ==> Oldest(Swept(old(recent), now), victim)
      ensures |recent| <= RECENT_MAX
    {
      ghost var was := recent;
      victim := 0;
      if |recent| >= RECENT_MAX {
        Sweep(now);
      }
      if |recent| >= RECENT_MAX {
        var oldest := FindOldest();
        victim := oldest;
        recent := recent - {oldest};
      }
      recent := recent[uid := Deadline(offset, now, expiry)];
      RememberIsBounded(was, now, uid, Deadline(offset, now, expiry), victim);
    }

    /** Send the frame on, patched, if the rules let it through. */
    method TryRelay(now: int, data: seq<byte>, m: Locate, c: Chance) returns (sent: bool)
      requires Parse(data) == Some(m) && fix.Some?
      modifies this`out
      ensures sent <==> MayRelay(old(At()), now, m, c)
      ensures out == if sent then old(out) + [Relay(Patched(old(At()), data))] else old(out)
    {
      if m.hops + 1 >= m.maxHops || m.expiry <= 0 || WallSec(offset, now) > m.expiry {
        return false;
      }
      if m.relayMinDist > 0 && c.usableHop && c.near {
        return false;
      }
      out := out + [Relay(Patched(At(), data))];
      sent := true;
    }

    /** A locate frame of a Totem not bonded to this node. */
    method CarryForStranger(now: int, data: seq<byte>, m: Locate, c: Chance)
      requires Parse(data) == Some(m) && fix.Some?
      modifies this
      ensures var o := RelayStranger(old(At()), now, data, m, c);
        At() == o.node && out == old(out) + o.sent
    {
      hide Parse, MayRelay, Patched;
      assert out + [] == out;
      ghost var was := At();
      if m.replyRequested {
        if meshAcks >= ACK_LIMIT {
          return;
        }
      } else if meshNoAcks >= NO_ACK_LIMIT {
        return;
      }
      var sent := TryRelay(now, data, m, c);
      if !sent {
        return;
      }
      if m.replyRequested {
        meshAcks := meshAcks + 1;
      } else {
        meshNoAcks := meshNoAcks + 1;
      }
    }

    /** Note a bonded peer heard over the mesh. */
    method Note(now: int, m: Locate, usable: bool)
      requires m.origin in peers
      modifies this`peers
      ensures At() == Noted(old(At()), now, m, usable)
    {
      hide HearPeer;
      peers := peers[m.origin := HearPeer(peers[m.origin], now, m, usable)];
    }

    /** Answer a request with this node's own position. */
    method Reply(now: int, uid: u16)
      modifies this
      ensures var o := Answer(old(At()), now, uid); At() == o.node && out == old(out) + o.sent
    {
      hide OwnLocate, Encode;
      out := out + [Own(Encode(OwnLocate(At(), now, false, uid)))];
      replyUID, replyAt, lastReply := uid, Some(now), Some(now);
    }

    /** A locate frame of a bonded peer. */
    method HearBonded(now: int, data: seq<byte>, m: Locate, c: Chance)
      requires Parse(data) == Some(m) && fix.Some? && m.origin in peers
      modifies this
      ensures var o := FromPeer(old(At()), now, data, m, c);
        At() == o.node && out == old(out) + o.sent
    {
      hide Parse, RelayForPeer, Noted, ReplyOK;
      ghost var was, sent := At(), out;
      assert sent + [] == sent;
      var replyOK := ReplyOK(At(), peers[m.origin], now);
      Note(now, m, c.usableOrigin);
      FixStays(was, now, m, c);
      if !m.replyRequested {
        return;
      }
      if replyOK {
        Reply(now, c.uid);
      }
      hide Answer;
      ghost var noted := Noted(was, now, m, c.usableOrigin);
      ghost var a := if replyOK then Answer(noted, now, c.uid) else Outcome(noted, []);
      assert At() == a.node && out == sent + a.sent;
      Pursue(now, data, m, c);
      assert out == sent + (a.sent + RelayForPeer(a.node, now, data, m, c).sent);
    }

    /** Carry a bonded peer's request on, within the budget for requests. */
    method Pursue(now: int, data: seq<byte>, m: Locate, c: Chance)
      requires Parse(data) == Some(m) && fix.Some?
      modifies this
      ensures var o := RelayForPeer(old(At()), now, data, m, c);
        At() == o.node && out == old(out) + o.sent
    {
      hide Parse, MayRelay, Patched;
      assert out + [] == out;
      if meshAcks < ACK_LIMIT {
        var sent := TryRelay(now, data, m, c);
        if sent {
          meshAcks := meshAcks + 1;
        }
      }
    }

    /** What a frame that is new here is good for. */
    method Judge(now: int, rx: Received, m: Locate, c: Chance)
      requires Parse(rx.data) == Some(m) && fix.Some?
      modifies this
      ensures var o := Consider(old(At()), now, rx, m, c);
        At() == o.node && out == old(out) + o.sent
    {
      assert out + [] == out;
      if m.origin == mac {
        if m.uid == replyUID {
          replyAt := None;
        }
        if m.uid == originUID {
          originUID := 0;
        }
      } else if rx.rssi < m.minRSSI || rx.rssi > m.maxRSSI {
        return;
      } else if m.origin in peers {
        HearBonded(now, rx.data, m, c);
      } else if relayUnowned {
        CarryForStranger(now, rx.data, m, c);
      }
    }

    /** A locate frame heard. The UID is recorded last, whatever became of the frame. */
    method OnLocate(now: int, rx: Received, m: Locate, c: Chance) returns (ghost d: Chance)
      requires Parse(rx.data) == Some(m) && |recent| <= RECENT_MAX
      modifies this
      ensures d == c.(victim := d.victim)
      ensures var o := MeshNode.OnLocate(old(At()), now, rx, m, d);
        At() == o.node && out == old(out) + o.sent
      ensures |recent| <= RECENT_MAX
    {
      d := c;
      ghost var was := At();
      assert out + [] == out;
      var seen := SeenAlready(now, m.uid);
      if fix == None || seen || !clockSet {
        return;
      }
      Judge(now, rx, m, c);
      ghost var mid := At();
      ConsiderLeaves(was, now, rx, m, c);
      ghost var victim := AddRecent(now, m.uid, m.expiry);
      d := c.(victim := victim);
      VictimIsForTheTable(was, now, rx, m, c, victim);
      assert At() == mid.(recent := recent);
    }

    /** What a reading of the sensors changes. */
    method Sense(r: Reading)
      modifies this
      ensures At() == Sensed(old(At()), r) && out == old(out) && recent == old(recent)
    {
      fix, clockSet, offset, off := r.fix, r.clockSet, r.offset, r.off;
      if off {
        replyAt, replyUID, originUID := None, 0, 0;
      }
    }

    /** A frame that is heeded, by a node that may just have gone down. */
    method Hear(now: int, rx: Received, c: Chance) returns (ghost d: Chance)
      requires |recent| <= RECENT_MAX && Heeds(At(), rx)
      modifies this
      ensures d == c.(victim := d.victim)
      ensures var o := MeshNode.Receive(old(At()), now, rx, d);
        At() == o.node && out == old(out) + o.sent
      ensures |recent| <= RECENT_MAX
    {
      hide Parse, MeshNode.OnLocate, IsLocate;
      d := c;
      assert out + [] == out;
      if off {
        return;
      }
      var m := Parse(rx.data);
      if m.Some? {
        d := OnLocate(now, rx, m.value, c);
      }
    }

    /** A frame off the air, after the reading it is preceded by. */
    method Receive(now: int, r: Reading, rx: Received, c: Chance) returns (ghost d: Chance)
      requires |recent| <= RECENT_MAX
      modifies this
      ensures d == c.(victim := d.victim)
      ensures var o := ReadAndReceive(old(At()), r, now, rx, d);
        At() == o.node && out == old(out) + o.sent
      ensures |recent| <= RECENT_MAX
    {
      hide MeshNode.Receive, Sensed, IsLocate;
      d := c;
      assert out + [] == out;
      var carry := relayUnowned && IsLocate(rx.data);
      if (rx.src !in owned && !carry) || off {
        return;
      }
      Sense(r);
      d := Hear(now, rx, c);
    }
  }

  lemma FixStays(n: Node, now: int, m: Locate, c: Chance)
    requires m.origin in n.peers
    ensures var noted := Noted(n, now, m, c.usableOrigin);
      noted.fix == n.fix && Answer(noted, now, c.uid).node.fix == n.fix
  {
  }

  lemma VictimIsNotForRelays(n: Node, now: int, data: seq<byte>, m: Locate, c: Chance, victim: u16)
    requires Parse(data) == Some(m)
    ensures RelayForPeer(n, now, data, m, c) == RelayForPeer(n, now, data, m, c.(victim := victim))
    ensures RelayStranger(n, now, data, m, c) == RelayStranger(n, now, data, m, c.(victim := victim))
  {
    assert MayRelay(n, now, m, c) == MayRelay(n, now, m, c.(victim := victim));
    hide Parse, MayRelay, Patched;
  }

  lemma VictimIsNotForPeers(n: Node, now: int, data: seq<byte>, m: Locate, c: Chance, victim: u16)
    requires Parse(data) == Some(m) && m.origin in n.peers
    ensures FromPeer(n, now, data, m, c) == FromPeer(n, now, data, m, c.(victim := victim))
  {
    var noted := Noted(n, now, m, c.usableOrigin);
    var a := Answer(noted, now, c.uid).node;
    VictimIsNotForRelays(noted, now, data, m, c, victim);
    VictimIsNotForRelays(a, now, data, m, c, victim);
    hide Parse, RelayForPeer, Noted, Answer, ReplyOK;
  }

  /** Which duplicate makes room has no part in what becomes of the frame. */
  lemma VictimIsForTheTable(n: Node, now: int, rx: Received, m: Locate, c: Chance, victim: u16)
    requires Parse(rx.data) == Some(m)
    ensures Consider(n, now, rx, m, c) == Consider(n, now, rx, m, c.(victim := victim))
  {
    VictimIsNotForRelays(n, now, rx.data, m, c, victim);
    if m.origin in n.peers {
      VictimIsNotForPeers(n, now, rx.data, m, c, victim);
    }
    hide Parse, FromPeer, RelayStranger, Returned;
  }
}
