/** The bond table as it runs: its fields change in place, and it keeps the invariant of Bonds through every call. */
module BondTable {
  import opened Bytes
  import opened Bonds

  class Table {
    const mac: MAC
    const owned: set<MAC>
    const autoPair: bool
    const bondingRSSI: int
    var off: bool
    var peers: map<MAC, Peer>
    var order: seq<MAC>
    var pairing: bool
    var bondMAC: Option<MAC>
    var tempBond: Option<MAC>
    var pairEnd: int
    var inGroup: bool
    var smartUID: u16
    var groupUntil: int
    ghost var registered: Option<MAC>
    ghost var acked: bool

    /** The table as a value. */
    ghost function At(): Node
      reads this
    {
      Node(mac, owned, autoPair, bondingRSSI, off, peers, order, pairing, bondMAC, tempBond, pairEnd,
           inGroup, smartUID, groupUntil, registered, acked)
    }

    ghost predicate Valid()
      reads this
    {
      Inv(At())
    }

    constructor (mac: MAC, owned: set<MAC>, autoPair: bool, bondingRSSI: int)
      ensures Valid() && At() == New(mac, owned, autoPair, bondingRSSI)
    {
      this.mac, this.owned, this.autoPair, this.bondingRSSI := mac, owned, autoPair, bondingRSSI;
      off, peers, order, pairing, bondMAC, tempBond, pairEnd := false, map[], [], false, None, None, 0;
      inGroup, smartUID, groupUntil, registered, acked := false, 0, 0, None, false;
    }

    method Add(m: MAC, p: Peer)
      modifies this`peers, this`order
      ensures At() == AddPeer(old(At()), m, p)
    {
      if m in peers {
        return;
      }
      peers := peers[m := p];
      order := order + [m];
    }

    method Delete(m: MAC)
      modifies this`peers, this`order
      ensures At() == DeletePeer(old(At()), m)
    {
      peers := peers - {m};
      var kept: seq<MAC> := [];
      var i := 0;
      while i < |order|
        invariant 0 <= i <= |order| && kept + Dropped(order[i..], m) == Dropped(order, m)
      {
        assert order[i..][1..] == order[i + 1..];
        if order[i] != m {
          assert kept + ([order[i]] + Dropped(order[i + 1..], m)) == (kept + [order[i]]) + Dropped(order[i + 1..], m);
          kept := kept + [order[i]];
        }
        i := i + 1;
      }
      assert kept + [] == kept;
      order := kept;
    }

    /** Forget every peer, one at a time. */
    method Forget()
      requires Valid()
      modifies this`peers, this`order
      ensures Valid() && At() == ForgetAll(old(At()))
    {
      ghost var was := At();
      var copy := order;
      var i := 0;
      while i < |copy|
        invariant 0 <= i <= |copy| && copy == was.order
        invariant At() == was.(peers := peers, order := order)
        invariant Listed(At()) && order == copy[i..]
      {
        ghost var here := At();
        DeleteKeeps(here, copy[i]);
        FirstGoes(copy[i..]);
        Delete(copy[i]);
        i := i + 1;
      }
      assert order == [];
      assert peers.Keys == {} by {
        assert forall m :: m in order <==> m in peers;
      }
      ForgetKeeps(was);
    }

    method StartPairing(now: int)
      requires Valid()
      modifies this
      ensures Valid() && At() == Bonds.StartPairing(old(At()), now)
    {
      StartKeeps(At(), now);
      if off || pairing || |order| >= MAX_BONDS {
        return;
      }
      pairing, bondMAC, tempBond, pairEnd := true, None, None, now + PAIRING_WINDOW;
      registered, acked := None, false;
    }

    /** Close the window; whoever it registered goes with it, unless the ack came. */
    method StopPairing()
      requires Valid()
      modifies this
      ensures Valid() && At() == Bonds.StopPairing(old(At()))
      ensures old(pairing && registered.Some? && !acked) ==> old(registered).value !in peers
    {
      ghost var was := At();
      StopKeeps(was);
      if was.pairing {
        StopRollsBack(was);
      }
      if !pairing {
        return;
      }
      pairing, bondMAC := false, None;
      if tempBond.Some? {
        Delete(tempBond.value);
        tempBond := None;
      }
    }

    method CancelPairing(now: int)
      requires Valid()
      modifies this
      ensures Valid() && At() == Bonds.CancelPairing(old(At()), now)
    {
      if now >= pairEnd {
        StopPairing();
      }
    }

    /** Put a saved bond back; the result says whether the peer is bonded now. */
    method AddBond(m: MAC) returns (ok: bool)
      requires Valid()
      modifies this
      ensures Valid() && At() == Bonds.AddBond(old(At()), m)
      ensures ok <==> m in peers
    {
      AddBondKeeps(At(), m);
      if m !in owned {
        return false;
      }
      if m in peers {
        return true;
      }
      assert |order| == |At().order|;
      if |order| >= MAX_BONDS {
        return false;
      }
      Add(m, Peer(false, 0));
      ok := true;
    }

    method Choose(src: MAC)
      modifies this
      ensures At() == Bonds.Choose(old(At()), src)
    {
      if bondMAC == None {
        bondMAC := Some(src);
        if src !in peers || tempBond == Some(src) {
          tempBond, registered := Some(src), Some(src);
          Add(src, Peer(false, 0));
        }
      }
    }

    /** A bond frame. */
    method OnBond(now: int, rx: Received, ack: bool) returns (bonded: bool, done: bool)
      requires Valid() && rx.src in owned
      modifies this
      ensures Valid() && Bonding(At(), bonded, done) == Bonds.OnBond(old(At()), now, rx, ack)
    {
      ghost var was := At();
      OnBondKeeps(was, now, rx, ack);
      hide Inv, Bonds.StopPairing, Bonds.Choose;
      if !pairing || rx.rssi < bondingRSSI {
        return false, true;
      }
      if rx.src in peers && tempBond != Some(rx.src) && bondMAC == None
         && peers[rx.src].heard && now - peers[rx.src].lastHeard < ALREADY_BONDED {
        ReBondKeeps(was, rx.src);
        bondMAC := Some(rx.src);
        StopPairing();
        return false, true;
      }
      Choose(rx.src);
      if bondMAC != Some(rx.src) || !ack {
        return false, false;
      }
      if tempBond == None {
        return false, false;
      }
      tempBond := None;
      acked := true;
      return true, false;
    }

    /** Note a peer heard, or restore one that kept us. */
    method Note(now: int, rx: Received, cmd: Command)
      requires Valid() && rx.src in owned
      modifies this
      ensures Valid() && At() == Heard(old(At()), now, rx, cmd)
    {
      HeardKeeps(At(), now, rx, cmd);
      hide Inv;
      if rx.src in peers {
        peers := peers[rx.src := Peer(true, now)];
      } else if cmd == Status && rx.dst == mac && |order| < MAX_BONDS {
        Add(rx.src, Peer(true, now));
      }
    }

    /** A peer frame from an owned Totem. */
    method OnPeer(now: int, rx: Received, cmd: Command, ack: bool)
      requires Valid() && rx.src in owned
      modifies this
      ensures Valid() && At() == Bonds.OnPeer(old(At()), now, rx, cmd, ack)
    {
      hide Inv, Bonds.OnBond, Heard, Bonds.StartPairing;
      if cmd == Bond && !pairing && autoPair && !ack {
        if rx.rssi < bondingRSSI || |order| >= MAX_BONDS {
          return;
        }
        StartPairing(now);
      }
      if cmd == Unbond {
        return;
      }
      if cmd == Bond {
        var bonded, done := OnBond(now, rx, ack);
        if done {
          return;
        }
      }
      Note(now, rx, cmd);
    }

    /** The host has finished the group: it replaces the bonds, as far as they are owned and there is room. */
    method FinalizeGroup(members: seq<MAC>)
      requires Valid()
      modifies this
      ensures Valid()
      ensures At() == AddMembers(ForgetAll(Bonds.StopPairing(old(At()).(inGroup := false, smartUID := 0))), members)
    {
      ghost var was := At();
      inGroup, smartUID := false, 0;
      assert Inv(At());
      StopPairing();
      Forget();
      ghost var empty := At();
      ForgetsAll(Bonds.StopPairing(was.(inGroup := false, smartUID := 0)));
      MembersKeep(empty, members);
      var i := 0;
      while i < |members|
        invariant 0 <= i <= |members|
        invariant AddMembers(At(), members[i..]) == AddMembers(empty, members)
      {
        hide Inv;
        assert members[i..][0] == members[i] && members[i..][1..] == members[i + 1..];
        var m := members[i];
        i := i + 1;
        if m == mac || m !in owned || (m !in peers && |order| >= MAX_BONDS) {
          continue;
        }
        Add(m, Peer(false, 0));
      }
    }
  }

  lemma FirstGoes(s: seq<MAC>)
    requires s != [] && NoDup(s)
    ensures Dropped(s, s[0]) == s[1..]
  {
    assert s[0] !in s[1..];
  }

  lemma ReBondKeeps(n: Node, src: MAC)
    requires Inv(n) && n.pairing && n.bondMAC == None
    ensures Inv(n.(bondMAC := Some(src)))
  {
  }
}
