/**
 The bond table and the pairing handshake: how peers come in, through a pairing
 window, a saved record, a peer that kept us or a smart group, and how a bond that
 was never confirmed is taken back.
 */
module Bonds {
  import opened Bytes

  const MAX_BONDS := 8
  const PAIRING_WINDOW := 6_000_000_000
  const ALREADY_BONDED := 6_000_000_000

  datatype Peer = Peer(heard: bool, lastHeard: int)

  datatype Node = Node(
    mac: MAC, owned: set<MAC>, autoPair: bool, bondingRSSI: int, off: bool,
    peers: map<MAC, Peer>, order: seq<MAC>,
    pairing: bool, bondMAC: Option<MAC>, tempBond: Option<MAC>, pairEnd: int,
    inGroup: bool, smartUID: u16, groupUntil: int,
    // history of the open window: whom it registered, and whether that one's ack came
    registered: Option<MAC>, acked: bool)

  datatype Command = Status | Bond | Unbond | Other

  datatype Received = Received(src: MAC, dst: MAC, rssi: int)

  datatype Instruction = Abandon | Advertise | Finalize | Unknown

  datatype Group = Group(instruction: Instruction, uid: u16, timeoutMs: u16, members: seq<MAC>)

  // ---- the table ---------------------------------------------------------------

  function Dropped(order: seq<MAC>, m: MAC): (r: seq<MAC>)
    ensures forall x :: x in r <==> x in order && x != m
    ensures |r| <= |order| && (NoDup(order) ==> NoDup(r))
    ensures NoDup(order) && m in order ==> |r| == |order| - 1
    ensures m !in order ==> r == order
  {
    if order == [] then []
    else
      var r := Dropped(order[1..], m);
      assert forall x :: x in order <==> x == order[0] || x in order[1..];
      assert NoDup(order) ==> NoDup(order[1..]) && order[0] !in order[1..];
      if order[0] == m then r else [order[0]] + r
  }

  function AddPeer(n: Node, m: MAC, p: Peer): Node {
    if m in n.peers then n else n.(peers := n.peers[m := p], order := n.order + [m])
  }

  function DeletePeer(n: Node, m: MAC): Node {
    n.(peers := n.peers - {m}, order := Dropped(n.order, m))
  }

  function ForgetAll(n: Node): Node {
    n.(peers := map[], order := [])
  }

  /** Put a saved bond back: an owned Totem, while there is room. */
  function AddBond(n: Node, m: MAC): Node {
    if m !in n.owned || m in n.peers || |n.order| >= MAX_BONDS then n
    else AddPeer(n, m, Peer(false, 0))
  }

  function Restore(n: Node, saved: seq<MAC>): Node
    decreases |saved|
  {
    if saved == [] then n else Restore(AddBond(n, saved[0]), saved[1..])
  }

  // ---- the pairing window ---------------------------------------------------------

  function StartPairing(n: Node, now: int): Node {
    if n.off || n.pairing || |n.order| >= MAX_BONDS then n
    else n.(pairing := true, bondMAC := None, tempBond := None, pairEnd := now + PAIRING_WINDOW,
            registered := None, acked := false)
  }

  /** The window closes, and whoever it registered without an ack goes. */
  function StopPairing(n: Node): Node {
    if !n.pairing then n
    else
      var n1 := n.(pairing := false, bondMAC := None);
      if n.tempBond.Some? then DeletePeer(n1, n.tempBond.value).(tempBond := None) else n1
  }

  function CancelPairing(n: Node, now: int): Node {
    if now < n.pairEnd then n else StopPairing(n)
  }

  /** A Totem next to us that is no peer yet, or is the one this window registered. */
  predicate NewHere(n: Node, src: MAC) {
    src !in n.peers || n.tempBond == Some(src)
  }

  function Register(n: Node, src: MAC): Node {
    AddPeer(n.(tempBond := Some(src), bondMAC := Some(src), registered := Some(src)), src, Peer(false, 0))
  }

  /** The first Totem heard in the window is the one it bonds to; one that is new here is registered on trust. */
  function Choose(n: Node, src: MAC): Node {
    if n.bondMAC.Some? then n
    else if NewHere(n, src) then Register(n, src)
    else n.(bondMAC := Some(src))
  }

  /** The table after a bond frame; bonded if the frame confirmed one, done if nothing more is to be made of it. */
  datatype Bonding = Bonding(n: Node, bonded: bool, done: bool)

  function OnBond(n: Node, now: int, rx: Received, ack: bool): Bonding {
    if !n.pairing || rx.rssi < n.bondingRSSI then Bonding(n, false, true)
    else if !NewHere(n, rx.src) && n.bondMAC == None
            && n.peers[rx.src].heard && now - n.peers[rx.src].lastHeard < ALREADY_BONDED then
      Bonding(StopPairing(n.(bondMAC := Some(rx.src))), false, true)
    else
      var n1 := Choose(n, rx.src);
      if n1.bondMAC == Some(rx.src) && ack then
        if n1.tempBond == None then Bonding(n1, false, false)
        else Bonding(n1.(tempBond := None, acked := true), true, false)
      else Bonding(n1, false, false)
  }

  /** What follows a bond or a status frame: note the peer, or restore one that kept us. */
  function Heard(n: Node, now: int, rx: Received, cmd: Command): Node {
    if rx.src in n.peers then n.(peers := n.peers[rx.src := Peer(true, now)])
    else if cmd == Status && rx.dst == n.mac && |n.order| < MAX_BONDS then AddPeer(n, rx.src, Peer(true, now))
    else n
  }

  /** A peer frame. A device that pairs by itself opens a window for a Totem pairing next to it. */
  function OnPeer(n: Node, now: int, rx: Received, cmd: Command, ack: bool): Node {
    var auto := cmd == Bond && !n.pairing && n.autoPair && !ack;
    if auto && (rx.rssi < n.bondingRSSI || |n.order| >= MAX_BONDS) then n
    else
      var n1 := if auto then StartPairing(n, now) else n;
      match cmd
      case Bond =>
        var b := OnBond(n1, now, rx, ack);
        if b.done then b.n else Heard(b.n, now, rx, cmd)
      case Unbond => n1
      case _ => Heard(n1, now, rx, cmd)
  }

  // ---- smart groups -------------------------------------------------------------------

  /** A member of a finished group is bonded to if it is owned and there is room. */
  function AddMember(n: Node, m: MAC): Node {
    if m == n.mac || m !in n.owned || (m !in n.peers && |n.order| >= MAX_BONDS) then n else AddPeer(n, m, Peer(false, 0))
  }

  /** The members a finished group bonds us to. */
  function AddMembers(n: Node, members: seq<MAC>): Node
    decreases |members|
  {
    if members == [] then n else AddMembers(AddMember(n, members[0]), members[1..])
  }

  function OnGroup(n: Node, now: int, rx: Received, g: Group): Node {
    match g.instruction
    case Abandon => if n.inGroup && n.smartUID == g.uid then n.(inGroup := false, smartUID := 0) else n
    case Advertise =>
      if n.inGroup || !n.pairing then
        if n.inGroup && g.uid == n.smartUID then n.(groupUntil := now + g.timeoutMs * 1_000_000) else n
      else if n.mac in g.members then
        n.(inGroup := true, smartUID := g.uid, groupUntil := now + g.timeoutMs * 1_000_000)
      else n
    case Finalize =>
      if !n.inGroup || g.uid != n.smartUID then n
      else AddMembers(ForgetAll(StopPairing(n.(inGroup := false, smartUID := 0))), g.members)
    case Unknown => n
  }

  // ---- everything that happens to the table ----------------------------------------------

  datatype Event =
    | Pair(now: int)
    | PairTimer(now: int)
    | PowerOff
    | PowerOn
    | PeerFrame(now: int, rx: Received, cmd: Command, ack: bool)
    | GroupFrame(now: int, rx: Received, g: Group)
    | Delete(m: MAC)                    // the console unbonds a peer
    | Forget                            // or all of them
    | Reset                             // factory reset: the window first
    | Saved(peers: seq<MAC>)            // a record read back

  function Handle(n: Node, e: Event): Node {
    match e
    case Pair(now) => StartPairing(n, now)
    case PairTimer(now) => CancelPairing(n, now)
    case PowerOff => if n.off then n else StopPairing(n).(off := true)
    case PowerOn => n.(off := false)
    case PeerFrame(now, rx, cmd, ack) =>
      if rx.src !in n.owned || n.off then n else OnPeer(n, now, rx, cmd, ack)
    case GroupFrame(now, rx, g) =>
      if rx.src !in n.owned || n.off then n else OnGroup(n, now, rx, g)
    case Delete(m) => if m in n.peers && !n.off then DeletePeer(n, m) else n
    case Forget => ForgetAll(n)
    case Reset => ForgetAll(StopPairing(n))
    case Saved(peers) => Restore(n, peers)
  }

  function After(n: Node, events: seq<Event>): Node
    decreases |events|
  {
    if events == [] then n else After(Handle(n, events[0]), events[1..])
  }

  // ---- what every run keeps ----------------------------------------------------------------

  /** The order lists the peers, each once, and all of them are owned. */
  ghost predicate Listed(n: Node) {
    NoDup(n.order) && (forall m :: m in n.order <==> m in n.peers) && n.peers.Keys <= n.owned
  }

  /** Nine peers at most, and eight while a window has nobody chosen. */
  predicate Limited(n: Node) {
    |n.order| <= MAX_BONDS + 1 && (n.pairing && n.bondMAC == None ==> |n.order| <= MAX_BONDS)
  }

  /** An open window remembers whom it registered until the ack comes; a closed one remembers nobody. */
  predicate Windowed(n: Node) {
    && (!n.pairing ==> n.bondMAC == None && n.tempBond == None)
    && (n.pairing ==> n.tempBond == (if n.acked then None else n.registered))
    && (n.pairing && n.registered.Some? ==> n.bondMAC == n.registered && n.registered.value in n.owned)
    && (n.pairing && n.acked ==> n.registered.Some?)
  }

  ghost predicate Inv(n: Node) {
    Listed(n) && Limited(n) && Windowed(n)
  }

  lemma AddKeeps(n: Node, m: MAC, p: Peer)
    requires Listed(n) && m in n.owned
    ensures Listed(AddPeer(n, m, p))
    ensures |AddPeer(n, m, p).order| == |n.order| + (if m in n.peers then 0 else 1)
  {
    if m !in n.peers {
      assert forall i :: 0 <= i < |n.order| ==> n.order[i] in n.order;
      assert forall x :: x in n.order + [m] <==> x in n.order || x == m;
    }
  }

  lemma DeleteKeeps(n: Node, m: MAC)
    requires Listed(n)
    ensures Listed(DeletePeer(n, m)) && |DeletePeer(n, m).order| == |n.order| - (if m in n.peers then 1 else 0)
    ensures m !in DeletePeer(n, m).peers
  {
  }

  lemma StopKeeps(n: Node)
    requires Inv(n)
    ensures Inv(StopPairing(n)) && !StopPairing(n).pairing
    ensures |StopPairing(n).order| <= |n.order|
  {
    if n.pairing && n.tempBond.Some? {
      var n1 := n.(pairing := false, bondMAC := None);
      assert Listed(n1);
      hide Dropped;
      DeleteKeeps(n1, n.tempBond.value);
    }
  }

  lemma AddBondKeeps(n: Node, m: MAC)
    requires Inv(n)
    ensures Inv(AddBond(n, m)) && (|n.order| <= MAX_BONDS ==> |AddBond(n, m).order| <= MAX_BONDS)
  {
    if m in n.owned {
      AddKeeps(n, m, Peer(false, 0));
    }
  }

  lemma {:induction false} RestoreKeeps(n: Node, saved: seq<MAC>)
    requires Inv(n)
    ensures Inv(Restore(n, saved)) && (|n.order| <= MAX_BONDS ==> |Restore(n, saved).order| <= MAX_BONDS)
    decreases |saved|
  {
    if saved != [] {
      AddBondKeeps(n, saved[0]);
      RestoreKeeps(AddBond(n, saved[0]), saved[1..]);
    }
  }

  lemma RegisterKeeps(n: Node, src: MAC)
    requires Inv(n) && n.pairing && n.bondMAC == None && src !in n.peers && src in n.owned
    ensures Inv(Register(n, src)) && src in Register(n, src).peers
  {
    var n1 := n.(tempBond := Some(src), bondMAC := Some(src), registered := Some(src));
    AddKeeps(n1, src, Peer(false, 0));
  }

  lemma OnBondKeeps(n: Node, now: int, rx: Received, ack: bool)
    requires Inv(n) && rx.src in n.owned
    ensures Inv(OnBond(n, now, rx, ack).n)
  {
    if n.pairing && rx.rssi >= n.bondingRSSI && n.bondMAC == None {
      if NewHere(n, rx.src) {
        RegisterKeeps(n, rx.src);
      } else {
        var n1 := n.(bondMAC := Some(rx.src));
        assert Inv(n1);
        StopKeeps(n1);
      }
    }
    hide Register, StopPairing, Listed;
    var b := OnBond(n, now, rx, ack);
  }

  lemma HeardKeeps(n: Node, now: int, rx: Received, cmd: Command)
    requires Inv(n) && rx.src in n.owned
    ensures Inv(Heard(n, now, rx, cmd))
    ensures |Heard(n, now, rx, cmd).order| <= Max(|n.order|, MAX_BONDS)
  {
    AddKeeps(n, rx.src, Peer(true, now));
  }

  lemma StartKeeps(n: Node, now: int)
    requires Inv(n)
    ensures Inv(StartPairing(n, now))
  {
  }

  /** Which Totems are owned is not for the air to say. */
  lemma OwnedStays(n: Node, now: int, rx: Received, ack: bool)
    ensures StartPairing(n, now).owned == n.owned && OnBond(n, now, rx, ack).n.owned == n.owned
    ensures OnBond(StartPairing(n, now), now, rx, ack).n.owned == n.owned
  {
    hide Dropped;
  }

  lemma OnPeerKeeps(n: Node, now: int, rx: Received, cmd: Command, ack: bool)
    requires Inv(n) && rx.src in n.owned
    ensures Inv(OnPeer(n, now, rx, cmd, ack))
  {
    hide Inv, Heard, StartPairing, OnBond;
    StartKeeps(n, now);
    var auto := cmd == Bond && !n.pairing && n.autoPair && !ack;
    var n1 := if auto then StartPairing(n, now) else n;
    OwnedStays(n, now, rx, ack);
    OnBondKeeps(n1, now, rx, ack);
    HeardKeeps(n1, now, rx, cmd);
    HeardKeeps(OnBond(n1, now, rx, ack).n, now, rx, cmd);
  }

  lemma {:induction false} MembersKeep(n: Node, members: seq<MAC>)
    requires Inv(n) && |n.order| <= MAX_BONDS
    ensures Inv(AddMembers(n, members)) && |AddMembers(n, members).order| <= MAX_BONDS
    ensures forall m :: m in AddMembers(n, members).peers ==> m in n.peers || m in members
    decreases |members|
  {
    if members != [] {
      var m := members[0];
      if m in n.owned {
        AddKeeps(n, m, Peer(false, 0));
      }
      assert forall x :: x in members <==> x == m || x in members[1..];
      MembersKeep(AddMember(n, m), members[1..]);
    }
  }

  lemma ForgetKeeps(n: Node)
    requires Inv(n)
    ensures Inv(ForgetAll(n))
  {
  }

  /** The host has finished the group this node is in. */
  predicate Finishes(n: Node, g: Group) {
    g.instruction == Finalize && n.inGroup && g.uid == n.smartUID
  }

  /** A finished group leaves at most eight bonds, all among its members; any other group frame leaves the table alone. */
  lemma GroupKeeps(n: Node, now: int, rx: Received, g: Group)
    requires Inv(n)
    ensures var n' := OnGroup(n, now, rx, g);
      && Inv(n')
      && (Finishes(n, g) ==> |n'.order| <= MAX_BONDS && forall m :: m in n'.peers ==> m in g.members)
      && (!Finishes(n, g) ==> n'.order == n.order && n'.peers == n.peers)
  {
    if g.instruction == Finalize {
      var n1 := n.(inGroup := false, smartUID := 0);
      assert Inv(n1);
      hide Inv, StopPairing, AddMembers, ForgetAll;
      StopKeeps(n1);
      ForgetKeeps(StopPairing(n1));
      ForgetsAll(StopPairing(n1));
      MembersKeep(ForgetAll(StopPairing(n1)), g.members);
    }
  }

  lemma ForgetsAll(n: Node)
    ensures ForgetAll(n).order == [] && ForgetAll(n).peers == map[]
  {
  }

  lemma HandleKeeps(n: Node, e: Event)
    requires Inv(n)
    ensures Inv(Handle(n, e))
  {
    match e
    case Pair(now) => StartKeeps(n, now);
    case PairTimer(now) => StopKeeps(n);
    case PowerOff => StopKeeps(n);
    case PowerOn =>
    case PeerFrame(now, rx, cmd, ack) =>
      if rx.src in n.owned {
        OnPeerKeeps(n, now, rx, cmd, ack);
      }
      hide OnPeer;
    case GroupFrame(now, rx, g) =>
      GroupKeeps(n, now, rx, g);
      hide OnGroup;
    case Delete(m) => DeleteKeeps(n, m);
    case Forget => ForgetKeeps(n);
    case Reset =>
      StopKeeps(n);
      hide StopPairing;
      ForgetKeeps(StopPairing(n));
    case Saved(peers) =>
      hide Restore;
      RestoreKeeps(n, peers);
  }

  function New(mac: MAC, owned: set<MAC>, autoPair: bool, bondingRSSI: int): Node {
    Node(mac, owned, autoPair, bondingRSSI, false, map[], [], false, None, None, 0, false, 0, 0, None, false)
  }

  lemma {:induction false} EveryRun(n: Node, events: seq<Event>)
    requires Inv(n)
    ensures Inv(After(n, events))
    decreases |events|
  {
    hide Inv, Handle;
    if events != [] {
      HandleKeeps(n, events[0]);
      EveryRun(Handle(n, events[0]), events[1..]);
    }
  }

  /** Over any run: the order lists exactly the peers, each once; all are owned; and there are never more than nine. */
  lemma NeverMoreThanNine(mac: MAC, owned: set<MAC>, autoPair: bool, rssi: int, events: seq<Event>)
    ensures var n := After(New(mac, owned, autoPair, rssi), events);
      |n.order| <= 9 && NoDup(n.order) && (forall m :: m in n.order <==> m in n.peers) && n.peers.Keys <= owned
  {
    var n := New(mac, owned, autoPair, rssi);
    EveryRun(n, events);
    OwnedForever(n, events);
  }

  lemma {:induction false} OwnedForever(n: Node, events: seq<Event>)
    ensures After(n, events).owned == n.owned
    decreases |events|
  {
    if events != [] {
      OwnedKept(n, events[0]);
      hide Handle;
      OwnedForever(Handle(n, events[0]), events[1..]);
    }
  }

  lemma {:induction false} RestoreOwned(n: Node, saved: seq<MAC>)
    ensures Restore(n, saved).owned == n.owned
    decreases |saved|
  {
    if saved != [] {
      RestoreOwned(AddBond(n, saved[0]), saved[1..]);
    }
  }

  lemma {:induction false} MembersOwned(n: Node, members: seq<MAC>)
    ensures AddMembers(n, members).owned == n.owned
    decreases |members|
  {
    if members != [] {
      MembersOwned(AddMember(n, members[0]), members[1..]);
    }
  }

  lemma OnPeerOwned(n: Node, now: int, rx: Received, cmd: Command, ack: bool)
    ensures OnPeer(n, now, rx, cmd, ack).owned == n.owned
  {
    OwnedStays(n, now, rx, ack);
    forall x ensures Heard(x, now, rx, cmd).owned == x.owned {}
    hide OnBond, StartPairing, Heard;
  }

  lemma OnGroupOwned(n: Node, now: int, rx: Received, g: Group)
    ensures OnGroup(n, now, rx, g).owned == n.owned
  {
    MembersOwned(ForgetAll(StopPairing(n.(inGroup := false, smartUID := 0))), g.members);
    hide AddMembers, Dropped;
  }

  lemma OwnedKept(n: Node, e: Event)
    ensures Handle(n, e).owned == n.owned
  {
    hide OnPeer, OnGroup, Restore, Dropped;
    match e
    case PeerFrame(now, rx, cmd, ack) => OnPeerOwned(n, now, rx, cmd, ack);
    case GroupFrame(now, rx, g) => OnGroupOwned(n, now, rx, g);
    case Saved(peers) => RestoreOwned(n, peers);
    case _ =>
  }

  // ---- the ninth bond -------------------------------------------------------------------------

  /**
   A bond frame, heard strongly enough by a device that is on, from an owned Totem
   that is no peer, while the window is open, has nobody chosen, and eight are bonded.
   */
  predicate TakesNinth(n: Node, e: Event) {
    && e.PeerFrame? && e.cmd == Bond && !n.off
    && n.pairing && n.bondMAC == None && |n.order| == MAX_BONDS
    && e.rx.src in n.owned && e.rx.src !in n.peers && e.rx.rssi >= n.bondingRSSI
  }

  /** That is when the count passes eight, and the only time. */
  lemma OnlyHandshakePassesEight(n: Node, e: Event)
    requires Inv(n) && |n.order| <= MAX_BONDS
    ensures |Handle(n, e).order| > MAX_BONDS <==> TakesNinth(n, e)
  {
    if TakesNinth(n, e) {
      HandshakeTakesNinth(n, e.now, e.rx, e.ack);
      hide OnPeer;
    } else {
      StaysWithinEight(n, e);
    }
  }

  lemma HandshakeTakesNinth(n: Node, now: int, rx: Received, ack: bool)
    requires Inv(n) && n.pairing && n.bondMAC == None && |n.order| == MAX_BONDS
    requires rx.src !in n.peers && rx.rssi >= n.bondingRSSI
    ensures var n' := OnPeer(n, now, rx, Bond, ack);
      |n'.order| == MAX_BONDS + 1 && rx.src in n'.peers && n'.registered == Some(rx.src)
  {
    hide Listed;
  }

  lemma StaysWithinEight(n: Node, e: Event)
    requires Inv(n) && |n.order| <= MAX_BONDS && !TakesNinth(n, e)
    ensures |Handle(n, e).order| <= MAX_BONDS
  {
    match e
    case PeerFrame(now, rx, cmd, ack) =>
      if rx.src in n.owned && !n.off && |OnPeer(n, now, rx, cmd, ack).order| > MAX_BONDS {
        PassingByPeer(n, now, rx, cmd, ack);
      }
      hide OnPeer;
    case GroupFrame(now, rx, g) =>
      GroupKeeps(n, now, rx, g);
      hide OnGroup;
    case PairTimer(now) => StopKeeps(n);
    case PowerOff => StopKeeps(n);
    case Delete(m) => DeleteKeeps(n, m);
    case Saved(peers) => RestoreKeeps(n, peers);
    case _ =>
  }

  lemma OnBondGrows(n: Node, now: int, rx: Received, ack: bool)
    requires Inv(n) && rx.src in n.owned
    ensures var b := OnBond(n, now, rx, ack);
      && (|b.n.order| > |n.order| ==>
            n.pairing && n.bondMAC == None && rx.src !in n.peers && rx.rssi >= n.bondingRSSI
            && |b.n.order| == |n.order| + 1 && rx.src in b.n.peers)
  {
    if n.pairing && rx.rssi >= n.bondingRSSI && n.bondMAC == None {
      if NewHere(n, rx.src) {
        var n1 := n.(tempBond := Some(rx.src), bondMAC := Some(rx.src), registered := Some(rx.src));
        AddKeeps(n1, rx.src, Peer(false, 0));
      } else {
        assert Inv(n.(bondMAC := Some(rx.src)));
        StopKeeps(n.(bondMAC := Some(rx.src)));
      }
    }
    hide StopPairing, Listed, Windowed;
  }

  lemma PassingByPeer(n: Node, now: int, rx: Received, cmd: Command, ack: bool)
    requires Inv(n) && rx.src in n.owned && |n.order| <= MAX_BONDS < |OnPeer(n, now, rx, cmd, ack).order|
    ensures cmd == Bond && n.pairing && n.bondMAC == None && |n.order| == MAX_BONDS && rx.src !in n.peers
    ensures rx.rssi >= n.bondingRSSI
  {
    StartKeeps(n, now);
    var auto := cmd == Bond && !n.pairing && n.autoPair && !ack;
    var n1 := if auto then StartPairing(n, now) else n;
    OwnedStays(n, now, rx, ack);
    assert auto ==> |n.order| < MAX_BONDS && n1.order == n.order;
    OnBondGrows(n1, now, rx, ack);
    OnBondKeeps(n1, now, rx, ack);
    HeardKeeps(n1, now, rx, cmd);
    HeardKeeps(OnBond(n1, now, rx, ack).n, now, rx, cmd);
    hide Inv, Heard, OnBond;
  }

  // ---- a bond without its ack is taken back ------------------------------------------------------

  /** The event closes the window that is open. */
  predicate Closing(n: Node, e: Event) {
    n.pairing && !Handle(n, e).pairing
  }

  /** The Totems a group list bonds us to, if there is room: owned ones, other than this device. */
  function Bondable(n: Node, members: seq<MAC>): set<MAC> {
    set m | m in members && m in n.owned && m != n.mac
  }

  /** The list names m, an owned Totem, with fewer than eight other ones to bond to before it. */
  predicate ListedEarly(n: Node, members: seq<MAC>, m: MAC) {
    && m in n.owned && m != n.mac
    && exists k :: 0 <= k < |members| && members[k] == m && |Bondable(n, members[..k])| < MAX_BONDS
  }

  /**
   Whoever the window registered, and whose ack has not come, is in the table when the
   window closes exactly if what closes it is a finished group that lists it early enough.
   */
  lemma UnconfirmedIsRolledBack(n: Node, e: Event)
    requires Inv(n) && Closing(n, e) && n.registered.Some? && !n.acked
    ensures n.registered.value in Handle(n, e).peers <==> e.GroupFrame? && ListedEarly(n, e.g.members, n.registered.value)
  {
    StopRollsBack(n);
    match e
    case PeerFrame(now, rx, cmd, ack) =>
      if rx.src in n.owned && !n.off {
        FramesDoNotClose(n, now, rx, cmd, ack);
      }
    case GroupFrame(now, rx, g) =>
      OnlyFinishingCloses(n, now, rx, g);
      FinishedGroupBonds(n, now, rx, g, n.registered.value);
      hide OnGroup, ListedEarly;
    case Saved(peers) => RestoreWindow(n, peers);
    case _ =>
  }

  lemma OnlyFinishingCloses(n: Node, now: int, rx: Received, g: Group)
    requires n.pairing && !OnGroup(n, now, rx, g).pairing
    ensures Finishes(n, g)
  {
    hide AddMembers;
  }

  /** A finished group bonds us to exactly those it lists early enough. */
  lemma FinishedGroupBonds(n: Node, now: int, rx: Received, g: Group, m: MAC)
    requires Inv(n)
    ensures Finishes(n, g) ==> (m in OnGroup(n, now, rx, g).peers <==> ListedEarly(n, g.members, m))
  {
    if Finishes(n, g) {
      var empty := ForgetAll(StopPairing(n.(inGroup := false, smartUID := 0)));
      EmptiedForGroup(n);
      assert OnGroup(n, now, rx, g) == AddMembers(empty, g.members);
      hide OnGroup, AddMembers, ForgetAll, StopPairing, Inv, ListedEarly, Room;
      MembersExactly(empty, g.members, m);
      RoomWhenEmpty(n, empty, g.members, m);
    }
  }

  lemma EmptiedForGroup(n: Node)
    ensures var empty := ForgetAll(StopPairing(n.(inGroup := false, smartUID := 0)));
      Listed(empty) && empty.order == [] && empty.peers == map[] && empty.owned == n.owned && empty.mac == n.mac
  {
    hide Dropped;
  }

  /** m finds room in a table that holds these peers already. */
  predicate Room(n: Node, members: seq<MAC>, m: MAC) {
    && m in n.owned && m != n.mac
    && exists k :: 0 <= k < |members| && members[k] == m && |n.peers.Keys + Bondable(n, members[..k])| < MAX_BONDS
  }

  lemma RoomWhenEmpty(n: Node, empty: Node, members: seq<MAC>, m: MAC)
    requires empty.peers == map[] && empty.owned == n.owned && empty.mac == n.mac
    ensures Room(empty, members, m) <==> ListedEarly(n, members, m)
  {
    forall k | 0 <= k < |members|
      ensures empty.peers.Keys + Bondable(empty, members[..k]) == Bondable(n, members[..k])
    {
    }
  }

  lemma {:induction false} SizeOfOrder(s: seq<MAC>)
    requires NoDup(s)
    ensures |set m | m in s| == |s|
    decreases |s|
  {
    if s != [] {
      var rest := s[1..];
      assert s == [s[0]] + rest;
      SizeOfOrder(rest);
      assert (set m | m in s) == {s[0]} + (set m | m in rest);
      assert s[0] !in rest;
    }
  }

  lemma PeersAreCounted(n: Node)
    requires Listed(n)
    ensures |n.peers.Keys| == |n.order|
  {
    SizeOfOrder(n.order);
    assert n.peers.Keys == set m | m in n.order;
  }

  lemma {:induction false} AtLeast(a: set<MAC>, b: set<MAC>)
    requires a <= b
    ensures |a| <= |b|
  {
    if a != {} {
      var x :| x in a;
      AtLeast(a - {x}, b - {x});
    }
  }

  lemma {:induction false} MembersGrow(n: Node, members: seq<MAC>)
    ensures n.peers.Keys <= AddMembers(n, members).peers.Keys
    ensures |n.order| >= MAX_BONDS ==> AddMembers(n, members).peers.Keys == n.peers.Keys
    decreases |members|
  {
    if members != [] {
      MembersGrow(AddMember(n, members[0]), members[1..]);
    }
  }

  /** The table after the first member, and the rest of the list up to k, hold what the table and the list up to k + 1 do. */
  lemma SameTaken(n: Node, n1: Node, members: seq<MAC>, k: nat)
    requires k < |members| && n1.owned == n.owned && n1.mac == n.mac
    requires n1.peers.Keys == n.peers.Keys + Bondable(n, [members[0]])
    ensures n1.peers.Keys + Bondable(n1, members[1..][..k]) == n.peers.Keys + Bondable(n, members[..k + 1])
  {
    assert members[..k + 1] == [members[0]] + members[1..][..k];
  }

  lemma RoomAt(n: Node, members: seq<MAC>, m: MAC, k: nat)
    requires m in n.owned && m != n.mac && k < |members| && members[k] == m
    requires |n.peers.Keys + Bondable(n, members[..k])| < MAX_BONDS
    ensures Room(n, members, m)
  {
  }

  lemma PlaceOf(n: Node, members: seq<MAC>, m: MAC) returns (k: nat)
    requires Room(n, members, m)
    ensures m in n.owned && m != n.mac && k < |members| && members[k] == m
    ensures |n.peers.Keys + Bondable(n, members[..k])| < MAX_BONDS
  {
    k :| 0 <= k < |members| && members[k] == m && |n.peers.Keys + Bondable(n, members[..k])| < MAX_BONDS;
  }

  /** One member in: what room is left for another is the same, seen from the rest of the list. */
  lemma RoomAfterFirst(n: Node, n1: Node, members: seq<MAC>, m: MAC)
    requires members != [] && members[0] != m && n1.owned == n.owned && n1.mac == n.mac
    requires n1.peers.Keys == n.peers.Keys + Bondable(n, [members[0]])
    ensures Room(n1, members[1..], m) <==> Room(n, members, m)
  {
    hide Bondable, Room;
    if Room(n, members, m) {
      var k := PlaceOf(n, members, m);
      SameTaken(n, n1, members, k - 1);
      RoomAt(n1, members[1..], m, k - 1);
    }
    if Room(n1, members[1..], m) {
      var k := PlaceOf(n1, members[1..], m);
      SameTaken(n, n1, members, k);
      RoomAt(n, members, m, k + 1);
    }
  }

  lemma NoRoomWhenFull(n: Node, members: seq<MAC>, m: MAC)
    requires |n.peers.Keys| >= MAX_BONDS
    ensures !Room(n, members, m)
  {
    forall k | 0 <= k < |members|
      ensures |n.peers.Keys + Bondable(n, members[..k])| >= MAX_BONDS
    {
      AtLeast(n.peers.Keys, n.peers.Keys + Bondable(n, members[..k]));
    }
  }

  lemma RoomForFirst(n: Node, members: seq<MAC>)
    requires members != [] && |n.peers.Keys| < MAX_BONDS && members[0] in n.owned && members[0] != n.mac
    ensures Room(n, members, members[0])
  {
    assert n.peers.Keys + Bondable(n, members[..0]) == n.peers.Keys;
  }

  lemma AddMemberIs(n: Node, m: MAC)
    requires Listed(n) && |n.order| < MAX_BONDS
    ensures var n1 := AddMember(n, m);
      && Listed(n1) && |n1.order| <= MAX_BONDS && n1.owned == n.owned && n1.mac == n.mac
      && n1.peers.Keys == n.peers.Keys + Bondable(n, [m])
  {
    if m in n.owned {
      AddKeeps(n, m, Peer(false, 0));
    }
  }

  lemma {:induction false} MembersExactly(n: Node, members: seq<MAC>, m: MAC)
    requires Listed(n) && |n.order| <= MAX_BONDS && m !in n.peers
    ensures m in AddMembers(n, members).peers <==> Room(n, members, m)
    decreases |members|
  {
    PeersAreCounted(n);
    if |n.order| == MAX_BONDS {
      MembersGrow(n, members);
      NoRoomWhenFull(n, members, m);
    } else if members != [] {
      var n1 := AddMember(n, members[0]);
      AddMemberIs(n, members[0]);
      assert AddMembers(n, members) == AddMembers(n1, members[1..]);
      hide Listed, Room, AddMembers, AddMember;
      if members[0] == m && m in n.owned && m != n.mac {
        RoomForFirst(n, members);
        MembersGrow(n1, members[1..]);
      } else {
        MembersExactly(n1, members[1..], m);
        if members[0] == m {
          NotBondable(n, members, m);
          NotBondable(n1, members[1..], m);
        } else {
          RoomAfterFirst(n, n1, members, m);
        }
      }
    }
  }

  lemma NotBondable(n: Node, members: seq<MAC>, m: MAC)
    requires m !in n.owned || m == n.mac
    ensures !Room(n, members, m)
  {
  }

  /** In a list of no more than eight, every place is early enough. */
  lemma ShortListsAreEarly(n: Node, members: seq<MAC>, m: MAC)
    requires |members| <= MAX_BONDS
    ensures ListedEarly(n, members, m) <==> m in members && m in n.owned && m != n.mac
  {
    forall k | 0 <= k < |members|
      ensures |Bondable(n, members[..k])| <= k
    {
      AtMostListed(n, members[..k]);
    }
  }

  lemma {:induction false} AtMostListed(n: Node, s: seq<MAC>)
    ensures |Bondable(n, s)| <= |s|
    decreases |s|
  {
    if s != [] {
      assert s == [s[0]] + s[1..];
      AtMostListed(n, s[1..]);
      assert Bondable(n, s) <= {s[0]} + Bondable(n, s[1..]);
      AtLeast(Bondable(n, s), {s[0]} + Bondable(n, s[1..]));
    }
  }

  /**
   A run to a bond nobody confirmed: a new device opens its window and is invited into
   a group, registers the Totem next to it, and before that one's ack the group is
   finished with it in the list. The window closes and it stays.
   */
  lemma GroupKeepsUnconfirmed(mac: MAC, owned: set<MAC>, autoPair: bool, rssi: int, host: MAC, x: MAC, now: int, uid: u16)
    requires x in owned && host in owned && x != mac
    ensures var events := [
        Pair(now),
        GroupFrame(now, Received(host, mac, rssi), Group(Advertise, uid, 1000, [mac])),
        PeerFrame(now, Received(x, mac, rssi), Bond, false)];
      var n := After(New(mac, owned, autoPair, rssi), events);
      var e := GroupFrame(now, Received(host, mac, rssi), Group(Finalize, uid, 0, [mac, x]));
      Closing(n, e) && n.registered == Some(x) && !n.acked && x in Handle(n, e).peers
  {
    var n0 := New(mac, owned, autoPair, rssi);
    var events := [
      Pair(now),
      GroupFrame(now, Received(host, mac, rssi), Group(Advertise, uid, 1000, [mac])),
      PeerFrame(now, Received(x, mac, rssi), Bond, false)];
    var e := GroupFrame(now, Received(host, mac, rssi), Group(Finalize, uid, 0, [mac, x]));
    InvitedAndRegistered(mac, owned, autoPair, rssi, host, x, now, uid);
    EveryRun(n0, events);
    ThreeEvents(n0, events);
    var n := After(n0, events);
    hide After, Inv, Handle, ListedEarly, OnGroup;
    CloseByGroup(n, now, e.rx, e.g);
    ShortListsAreEarly(n, [mac, x], x);
    UnconfirmedIsRolledBack(n, e);
  }

  lemma InvitedAndRegistered(mac: MAC, owned: set<MAC>, autoPair: bool, rssi: int, host: MAC, x: MAC, now: int, uid: u16)
    requires x in owned && host in owned && x != mac
    ensures var n1 := Handle(New(mac, owned, autoPair, rssi), Pair(now));
      var n2 := Handle(n1, GroupFrame(now, Received(host, mac, rssi), Group(Advertise, uid, 1000, [mac])));
      var n := Handle(n2, PeerFrame(now, Received(x, mac, rssi), Bond, false));
      && n.registered == Some(x) && !n.acked && n.pairing && n.inGroup && n.smartUID == uid && !n.off
      && n.owned == owned && n.mac == mac
  {
  }

  lemma CloseByGroup(n: Node, now: int, rx: Received, g: Group)
    requires rx.src in n.owned && !n.off && n.pairing && Finishes(n, g)
    ensures Closing(n, GroupFrame(now, rx, g))
  {
    FinishingCloses(n, now, rx, g);
    hide OnGroup;
  }

  lemma FinishingCloses(n: Node, now: int, rx: Received, g: Group)
    ensures Finishes(n, g) ==> !OnGroup(n, now, rx, g).pairing
  {
    MembersAcked(ForgetAll(StopPairing(n.(inGroup := false, smartUID := 0))), g.members);
    hide AddMembers, Dropped;
  }

  lemma ThreeEvents(n: Node, events: seq<Event>)
    requires |events| == 3
    ensures After(n, events) == Handle(Handle(Handle(n, events[0]), events[1]), events[2])
  {
    hide Handle;
    var n1 := Handle(n, events[0]);
    var n2 := Handle(n1, events[1]);
    assert After(n, events) == After(n1, events[1..]);
    assert After(n1, events[1..]) == After(n2, events[1..][1..]);
    assert After(n2, events[1..][1..]) == Handle(n2, events[2]);
  }

  lemma StopRollsBack(n: Node)
    requires Inv(n) && n.pairing
    ensures n.registered.Some? && !n.acked ==> n.registered.value !in StopPairing(n).peers
    ensures n.registered.Some? && n.acked ==> StopPairing(n).peers == n.peers && StopPairing(n).order == n.order
  {
  }

  /** Once somebody is registered, no peer frame closes the window. */
  lemma FramesDoNotClose(n: Node, now: int, rx: Received, cmd: Command, ack: bool)
    requires Inv(n) && n.pairing && n.registered.Some?
    ensures OnPeer(n, now, rx, cmd, ack).pairing
  {
    hide Listed;
  }

  // ---- what opens and closes a window, and whom it takes ------------------------------------------

  /** A window opens for six seconds with nobody chosen, on a device that is on, has none open and fewer than eight bonds. */
  lemma PairOpensWindow(n: Node, now: int)
    ensures var n' := Handle(n, Pair(now));
      if !n.off && !n.pairing && |n.order| < 8
      then n'.pairing && n'.pairEnd == now + 6_000_000_000 && n'.bondMAC == None && n'.registered == None
           && !n'.acked && n'.peers == n.peers && n'.order == n.order
      else n' == n
  {
  }

  /** The timer closes the window at its end and not before; whoever it registered stays exactly if its ack came. */
  lemma TimerClosesWindow(n: Node, now: int)
    requires Inv(n) && n.pairing
    ensures var n' := Handle(n, PairTimer(now));
      && (n'.pairing <==> now < n.pairEnd)
      && (now < n.pairEnd ==> n' == n)
      && (now >= n.pairEnd ==>
            n'.peers == if n.registered.Some? && !n.acked then n.peers - {n.registered.value} else n.peers)
  {
    hide Dropped, Listed;
  }

  /** Powering down closes the window the same way, and only a device that is off is not already down. */
  lemma PowerClosesWindow(n: Node)
    requires Inv(n)
    ensures Handle(n, PowerOff).off && (!n.off ==> !Handle(n, PowerOff).pairing)
    ensures !n.off ==> Handle(n, PowerOff).peers ==
                       if n.pairing && n.registered.Some? && !n.acked then n.peers - {n.registered.value} else n.peers
    ensures n.off ==> Handle(n, PowerOff) == n
    ensures !Handle(n, PowerOn).off && Handle(n, PowerOn).peers == n.peers && Handle(n, PowerOn).pairing == n.pairing
  {
    hide Dropped, Listed;
  }

  /** A bond frame that a window which is open and has nobody chosen hears loudly enough. */
  predicate Courts(n: Node, rx: Received) {
    n.pairing && n.bondMAC == None && rx.rssi >= n.bondingRSSI && rx.src in n.owned && !n.off
  }

  /** The first one heard that is no peer yet is registered and bonded to there and then, and confirmed if the frame is an ack. */
  lemma StrangerIsTaken(n: Node, now: int, rx: Received, ack: bool)
    requires Inv(n) && Courts(n, rx) && rx.src !in n.peers
    ensures var n' := Handle(n, PeerFrame(now, rx, Bond, ack));
      && n'.pairing && n'.bondMAC == Some(rx.src) && n'.registered == Some(rx.src) && n'.acked == ack
      && n'.peers == n.peers[rx.src := Peer(true, now)] && n'.order == n.order + [rx.src]
  {
    hide Listed;
  }

  /**
   The first one heard that is a peer already: if it was heard less than six seconds ago
   the window closes, both being bonded; if not, the window is its own, registering nobody.
   */
  lemma PeerIsTaken(n: Node, now: int, rx: Received, ack: bool)
    requires Inv(n) && Courts(n, rx) && rx.src in n.peers
    ensures var n' := Handle(n, PeerFrame(now, rx, Bond, ack));
      if n.peers[rx.src].heard && now - n.peers[rx.src].lastHeard < 6_000_000_000
      then !n'.pairing && n'.peers == n.peers && n'.order == n.order
      else n'.pairing && n'.bondMAC == Some(rx.src) && n'.registered == n.registered && n'.acked == n.acked
           && n'.peers == n.peers[rx.src := Peer(true, now)] && n'.order == n.order
  {
    hide Listed;
  }

  /** Once somebody is chosen, a bond frame loud enough confirms the one registered, and takes in nobody else. */
  lemma ChosenIsConfirmed(n: Node, now: int, rx: Received, ack: bool)
    requires Inv(n) && n.pairing && n.bondMAC.Some? && !n.off && rx.src in n.owned && rx.rssi >= n.bondingRSSI
    ensures var n' := Handle(n, PeerFrame(now, rx, Bond, ack));
      && n'.pairing && n'.bondMAC == n.bondMAC && n'.registered == n.registered
      && (n'.acked <==> n.acked || (ack && n.registered == Some(rx.src)))
      && n'.peers == (if rx.src in n.peers then n.peers[rx.src := Peer(true, now)] else n.peers) && n'.order == n.order
  {
    hide Listed;
  }

  /** A bond frame does nothing when it is too faint, or when no window is open, unless the device pairs by itself. */
  lemma BondFrameIgnored(n: Node, now: int, rx: Received, ack: bool)
    requires rx.src in n.owned && !n.off && (rx.rssi < n.bondingRSSI || (!n.pairing && (!n.autoPair || ack)))
    ensures Handle(n, PeerFrame(now, rx, Bond, ack)) == n
  {
  }

  /** A device that pairs by itself answers the first bond frame loud enough: as if a window had been opened just before it. */
  lemma PairsByItself(n: Node, now: int, rx: Received)
    requires n.autoPair && !n.pairing && !n.off && rx.src in n.owned && rx.rssi >= n.bondingRSSI
    ensures Handle(n, PeerFrame(now, rx, Bond, false)) ==
            if |n.order| >= 8 then n
            else Handle(Handle(n, Pair(now)), PeerFrame(now, rx, Bond, false))
  {
    hide OnBond, Heard;
  }

  /**
   A frame that is no bond frame, from an owned Totem: an unbond notice changes nothing; a
   peer is noted; and one that is none is bonded to exactly if it sends its status to this
   device alone and there is room.
   */
  lemma OtherFrames(n: Node, now: int, rx: Received, cmd: Command, ack: bool)
    requires cmd != Bond && rx.src in n.owned && !n.off
    ensures var n' := Handle(n, PeerFrame(now, rx, cmd, ack));
      if cmd == Unbond then n' == n
      else if rx.src in n.peers then n' == n.(peers := n.peers[rx.src := Peer(true, now)])
      else if cmd == Status && rx.dst == n.mac && |n.order| < 8
      then n' == n.(peers := n.peers[rx.src := Peer(true, now)], order := n.order + [rx.src])
      else n' == n
  {
  }

  /** A group is joined only in a pairing window, when the list names this device; its timeout is put off, and it is left, only by frames of its own number. */
  lemma GroupIsJoined(n: Node, now: int, rx: Received, g: Group)
    requires rx.src in n.owned && !n.off
    ensures var n' := Handle(n, GroupFrame(now, rx, g));
      && (g.instruction == Advertise && !n.inGroup ==>
            if n.pairing && n.mac in g.members
            then n'.inGroup && n'.smartUID == g.uid && n'.groupUntil == now + g.timeoutMs * 1_000_000 else n' == n)
      && (g.instruction == Advertise && n.inGroup ==>
            n' == if g.uid == n.smartUID then n.(groupUntil := now + g.timeoutMs * 1_000_000) else n)
      && (g.instruction == Abandon ==>
            n' == if n.inGroup && g.uid == n.smartUID then n.(inGroup := false, smartUID := 0) else n)
      && (g.instruction == Finalize && n.inGroup && g.uid == n.smartUID ==> !n'.inGroup && !n'.pairing)
      && (g.instruction == Finalize && !(n.inGroup && g.uid == n.smartUID) ==> n' == n)
      && (g.instruction == Unknown ==> n' == n)
  {
    if Finishes(n, g) {
      FinishingLeaves(n, now, rx, g);
    }
    hide AddMembers, ForgetAll, StopPairing;
  }

  lemma FinishingLeaves(n: Node, now: int, rx: Received, g: Group)
    requires Finishes(n, g)
    ensures !OnGroup(n, now, rx, g).inGroup && !OnGroup(n, now, rx, g).pairing
  {
    var emptied := ForgetAll(StopPairing(n.(inGroup := false, smartUID := 0)));
    MembersAcked(emptied, g.members);
    MembersGrouped(emptied, g.members);
    hide AddMembers, Dropped;
  }

  lemma {:induction false} MembersGrouped(n: Node, members: seq<MAC>)
    ensures AddMembers(n, members).inGroup == n.inGroup
    decreases |members|
  {
    if members != [] {
      MembersGrouped(AddMember(n, members[0]), members[1..]);
    }
  }

  /** A bond frame tells that it confirmed a bond exactly when the window's registration is acked by it. */
  lemma BondedIsConfirmed(n: Node, now: int, rx: Received, ack: bool)
    requires Windowed(n)
    ensures var b := OnBond(n, now, rx, ack);
      && (b.bonded <==> b.n.pairing && b.n.acked && !(n.pairing && n.acked))
      && (b.done <==> !n.pairing || rx.rssi < n.bondingRSSI || !b.n.pairing)
  {
    hide Dropped;
  }

  /** A new device is on, has no bonds and no window, and is in no group. */
  lemma NewIsUnbonded(mac: MAC, owned: set<MAC>, autoPair: bool, rssi: int)
    ensures var n := New(mac, owned, autoPair, rssi);
      && n.mac == mac && n.owned == owned && n.autoPair == autoPair && n.bondingRSSI == rssi
      && n.peers == map[] && n.order == [] && !n.off && !n.pairing && !n.inGroup
      && n.bondMAC == None && n.tempBond == None && n.registered == None && !n.acked
  {
  }

  /** Whom a record or a finished group brings in counts as not heard yet. */
  lemma {:induction false} BroughtInUnheard(n: Node, list: seq<MAC>, m: MAC)
    requires m !in n.peers
    ensures m in Restore(n, list).peers ==> !Restore(n, list).peers[m].heard
    ensures m in AddMembers(n, list).peers ==> !AddMembers(n, list).peers[m].heard
    decreases |list|
  {
    if list != [] {
      var restored, added := AddBond(n, list[0]), AddMember(n, list[0]);
      if m in restored.peers {
        StaysAsBroughtIn(restored, list[1..], m);
      } else {
        BroughtInUnheard(restored, list[1..], m);
      }
      if m in added.peers {
        StaysAsBroughtIn(added, list[1..], m);
      } else {
        BroughtInUnheard(added, list[1..], m);
      }
    }
  }

  lemma {:induction false} StaysAsBroughtIn(n: Node, list: seq<MAC>, m: MAC)
    requires m in n.peers
    ensures m in Restore(n, list).peers && Restore(n, list).peers[m] == n.peers[m]
    ensures m in AddMembers(n, list).peers && AddMembers(n, list).peers[m] == n.peers[m]
    decreases |list|
  {
    if list != [] {
      StaysAsBroughtIn(AddBond(n, list[0]), list[1..], m);
      StaysAsBroughtIn(AddMember(n, list[0]), list[1..], m);
    }
  }

  /** The console takes out a peer of a device that is on; a reset takes out all, and closes the window. */
  lemma PeersAreDeleted(n: Node, m: MAC)
    ensures Handle(n, Delete(m)).peers == if n.off then n.peers else n.peers - {m}
    ensures Handle(n, Forget).peers == map[] && Handle(n, Forget).pairing == n.pairing
    ensures Handle(n, Reset).peers == map[] && !Handle(n, Reset).pairing
  {
    assert m !in n.peers ==> n.peers - {m} == n.peers;
  }

  lemma {:induction false} RestoreWindow(n: Node, saved: seq<MAC>)
    ensures Restore(n, saved).pairing == n.pairing
    decreases |saved|
  {
    if saved != [] {
      RestoreWindow(AddBond(n, saved[0]), saved[1..]);
    }
  }

  /** The ack counts only as a bond frame from the one registered, in the window, at the bonding strength. */
  lemma OnlyItsAckConfirms(n: Node, e: Event)
    requires Inv(n) && n.pairing && !n.acked && Handle(n, e).pairing && Handle(n, e).acked
    ensures e.PeerFrame? && e.cmd == Bond && e.ack && e.rx.rssi >= n.bondingRSSI && !n.off
    ensures Handle(n, e).registered == Some(e.rx.src)
  {
    match e
    case PeerFrame(now, rx, cmd, ack) => AckedByFrame(n, now, rx, cmd, ack);
      hide OnPeer;
    case GroupFrame(now, rx, g) =>
      AckedByGroup(n, now, rx, g);
      hide OnGroup;
    case Saved(peers) => RestoreAcked(n, peers);
    case _ =>
  }

  lemma AckedByBond(n: Node, now: int, rx: Received, ack: bool)
    requires n.pairing && !n.acked && OnBond(n, now, rx, ack).n.acked
    requires n.tempBond.Some? ==> n.registered == n.tempBond == n.bondMAC
    ensures ack && rx.rssi >= n.bondingRSSI && OnBond(n, now, rx, ack).n.registered == Some(rx.src)
  {
    hide Dropped;
  }

  lemma HeardWindow(n: Node, now: int, rx: Received, cmd: Command)
    ensures var n' := Heard(n, now, rx, cmd);
      n'.acked == n.acked && n'.registered == n.registered && n'.pairing == n.pairing
  {
  }

  lemma AckedByFrame(n: Node, now: int, rx: Received, cmd: Command, ack: bool)
    requires Inv(n) && n.pairing && !n.acked && OnPeer(n, now, rx, cmd, ack).acked
    ensures cmd == Bond && ack && rx.rssi >= n.bondingRSSI && OnPeer(n, now, rx, cmd, ack).registered == Some(rx.src)
  {
    HeardWindow(n, now, rx, cmd);
    var b := OnBond(n, now, rx, ack);
    HeardWindow(b.n, now, rx, cmd);
    if cmd == Bond && b.n.acked {
      AckedByBond(n, now, rx, ack);
    }
    hide Listed, OnBond, Heard;
  }

  lemma AckedByGroup(n: Node, now: int, rx: Received, g: Group)
    requires n.pairing && !n.acked
    ensures !OnGroup(n, now, rx, g).acked
  {
    if g.instruction == Finalize {
      MembersAcked(ForgetAll(StopPairing(n.(inGroup := false, smartUID := 0))), g.members);
    }
    hide AddMembers, Dropped;
  }

  lemma {:induction false} MembersAcked(n: Node, members: seq<MAC>)
    ensures AddMembers(n, members).acked == n.acked && AddMembers(n, members).pairing == n.pairing
    decreases |members|
  {
    if members != [] {
      MembersAcked(AddMember(n, members[0]), members[1..]);
    }
  }

  lemma {:induction false} RestoreAcked(n: Node, saved: seq<MAC>)
    ensures Restore(n, saved).acked == n.acked
    decreases |saved|
  {
    if saved != [] {
      RestoreAcked(AddBond(n, saved[0]), saved[1..]);
    }
  }

  // ---- saving and restoring the bonds ---------------------------------------------------------------

  lemma {:induction false} RestoreFull(n: Node, saved: seq<MAC>)
    requires |n.order| >= MAX_BONDS
    ensures Restore(n, saved) == n
    decreases |saved|
  {
    if saved != [] {
      RestoreFull(n, saved[1..]);
    }
  }

  /** A new Totem at the head of the list, and what is still to come. */
  lemma TakeNext(n: Node, saved: seq<MAC>)
    requires Listed(n) && saved != [] && NoDup(n.order + saved) && |n.order| < MAX_BONDS && saved[0] in n.owned
    ensures var n1 := AddBond(n, saved[0]);
      Listed(n1) && n1.order == n.order + [saved[0]] && n1.owned == n.owned && NoDup(n1.order + saved[1..])
  {
    var m := saved[0];
    var all := n.order + saved;
    assert saved == [m] + saved[1..];
    assert all[|n.order|] == m;
    assert forall i :: 0 <= i < |n.order| ==> n.order[i] == all[i];
    assert m !in n.order;
    AddKeeps(n, m, Peer(false, 0));
    assert (n.order + [m]) + saved[1..] == all;
  }

  lemma PrefixOf(s: seq<MAC>, k: nat)
    requires k < |s|
    ensures s[..k + 1] == [s[0]] + s[1..][..k]
  {
    assert s == [s[0]] + s[1..];
  }

  /** Restoring a saved list adds its first Totems, in order, until there are eight. */
  lemma {:induction false} RestoreIsPrefix(n: Node, saved: seq<MAC>)
    requires Listed(n) && NoDup(n.order + saved) && |n.order| <= MAX_BONDS && forall m :: m in saved ==> m in n.owned
    ensures Restore(n, saved).order == n.order + saved[..Min(|saved|, MAX_BONDS - |n.order|)]
    decreases |saved|
  {
    if |n.order| == MAX_BONDS {
      RestoreFull(n, saved);
      assert saved[..0] == [];
    } else if saved != [] {
      var rest := saved[1..];
      assert saved[0] in saved && forall x :: x in rest ==> x in saved;
      TakeNext(n, saved);
      hide Listed, AddBond, NoDup;
      RestoreIsPrefix(AddBond(n, saved[0]), rest);
      var k := Min(|rest|, MAX_BONDS - |n.order| - 1);
      PrefixOf(saved, k);
    }
  }

  /** A power cycle keeps the bonds, and their order, exactly when there are no more than eight: a ninth is lost. */
  lemma BondsSurviveRestart(n: Node, blank: Node)
    requires Inv(n) && blank.order == [] && blank.peers == map[] && blank.owned == n.owned
    ensures Restore(blank, n.order).order == n.order <==> |n.order| <= MAX_BONDS
    ensures Restore(blank, n.order).order <= n.order
  {
    assert blank.order + n.order == n.order;
    RestoreIsPrefix(blank, n.order);
  }

  // ---- a run to nine ------------------------------------------------------------------------------------

  /** In an open window with seven bonds: a peer that kept us takes the eighth place, then a Totem next to us asks. */
  lemma LastTwo(n: Node, now: int, a: MAC, b: MAC, rssi: int)
    requires Inv(n) && !n.off && !n.pairing && |n.order| == 7
    requires a != b && {a, b} <= n.owned && a !in n.peers && b !in n.peers && rssi >= n.bondingRSSI
    ensures var n1 := Handle(n, Pair(now));
      var n2 := Handle(n1, PeerFrame(now, Received(a, n.mac, rssi), Status, false));
      var n3 := Handle(n2, PeerFrame(now, Received(b, n.mac, rssi), Bond, true));
      |n3.order| == 9 && n3.tempBond == None && b in n3.peers
  {
    hide Dropped, Listed;
  }

  lemma SevenRestored(n: Node, s: seq<MAC>)
    requires n.order == [] && n.peers == map[] && !n.pairing && n.bondMAC == None && n.tempBond == None
    requires |s| == 7 && NoDup(s) && forall m :: m in s ==> m in n.owned
    ensures var n1 := Handle(n, Saved(s));
      Inv(n1) && n1.order == s && n1 == n.(peers := n1.peers, order := n1.order)
  {
    assert n.order + s == s && s[..7] == s;
    assert Inv(n);
    hide Restore, Inv, NoDup;
    RestoreKeeps(n, s);
    RestoreIsPrefix(n, s);
    RestoreOnlyBonds(n, s);
  }

  lemma {:induction false} RestoreOnlyBonds(n: Node, saved: seq<MAC>)
    ensures var n1 := Restore(n, saved); n1 == n.(peers := n1.peers, order := n1.order)
    decreases |saved|
  {
    if saved != [] {
      RestoreOnlyBonds(AddBond(n, saved[0]), saved[1..]);
    }
  }

  /**
   From a new device that owns them, nine Totems: seven restored from a record, a
   window opened, a status frame from the eighth and a bond ack from the ninth leave
   it bonded to all nine.
   */
  lemma NinthBond(mac: MAC, owned: set<MAC>, autoPair: bool, rssi: int, s: seq<MAC>, now: int)
    requires |s| == 9 && NoDup(s) && forall m :: m in s ==> m in owned
    ensures var events := [
        Saved(s[..7]), Pair(now),
        PeerFrame(now, Received(s[7], mac, rssi), Status, false), PeerFrame(now, Received(s[8], mac, rssi), Bond, true)];
      var n := After(New(mac, owned, autoPair, rssi), events);
      |n.order| == 9 && s[8] in n.peers && n.tempBond == None
  {
    var events := [
      Saved(s[..7]), Pair(now),
      PeerFrame(now, Received(s[7], mac, rssi), Status, false), PeerFrame(now, Received(s[8], mac, rssi), Bond, true)];
    var n := New(mac, owned, autoPair, rssi);
    var n1 := Handle(n, events[0]);
    assert forall i :: 0 <= i < 7 ==> s[..7][i] == s[i];
    assert s[7] in s && s[8] in s && forall m :: m in s[..7] ==> m in s;
    SevenRestored(n, s[..7]);
    assert s[7] !in n1.order && s[8] !in n1.order;
    LastTwo(n1, now, s[7], s[8], rssi);
    hide Handle;
    FourEvents(n, events);
  }

  lemma FourEvents(n: Node, events: seq<Event>)
    requires |events| == 4
    ensures After(n, events) == Handle(Handle(Handle(Handle(n, events[0]), events[1]), events[2]), events[3])
  {
    hide Handle;
    var n1 := Handle(n, events[0]);
    var n2 := Handle(n1, events[1]);
    var n3 := Handle(n2, events[2]);
    assert After(n, events) == After(n1, events[1..]);
    assert After(n1, events[1..]) == After(n2, events[1..][1..]);
    assert After(n2, events[1..][1..]) == After(n3, events[1..][1..][1..]);
    assert After(n3, events[1..][1..][1..]) == Handle(n3, events[3]);
  }
}
