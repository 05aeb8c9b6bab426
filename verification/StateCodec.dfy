/**
 The record that survives a reboot: its encoding, its decoding from untrusted
 bytes, and the key that decides whether it is worth a flash write. Floats are
 carried as their 32-bit patterns.
 */
module StateCodec {
  import opened Bytes
  import opened Utf8

  const STATE_VERSION: byte := 1
  const MAX_PEERS: nat := 16

  datatype Peer = Peer(mac: MAC, name: seq<byte>, colorId: i8, lat: u32, lon: u32, lastSeen: i64)

  datatype State = State(name: seq<byte>, colorId: i8, brightness: byte, sosMuted: bool,
                         bootCount: u32, sleepMs: u64, learnedMaxVolts: u32, peers: seq<Peer>)

  /** A value read off the front of some bytes, and what is left. */
  datatype Parse<+T> = Fail | Got(v: T, rest: seq<byte>) {
    predicate IsFailure() {
      Fail?
    }
    function PropagateFailure<U>(): Parse<U>
      requires Fail?
    {
      Fail
    }
    function Extract(): (T, seq<byte>)
      requires Got?
    {
      (v, rest)
    }
  }

  // ---- fields --------------------------------------------------------------

  function U64(x: i64): u64 {
    if x < 0 then x + 0x1_0000_0000_0000_0000 else x
  }

  function I64(x: u64): i64 {
    if x < 0x8000_0000_0000_0000 then x else x - 0x1_0000_0000_0000_0000
  }

  lemma Int64RoundTrip(x: i64)
    ensures I64(U64(x)) == x
  {
  }

  lemma UInt64RoundTrip(x: u64)
    ensures U64(I64(x)) == x
  {
  }

  function TakeN(b: seq<byte>, n: nat): Parse<seq<byte>> {
    if |b| < n then Fail else Got(b[..n], b[n..])
  }

  function TakeByte(b: seq<byte>): Parse<byte> {
    if |b| < 1 then Fail else Got(b[0], b[1..])
  }

  function TakeU32(b: seq<byte>): Parse<u32> {
    if |b| < 4 then Fail else Got(Get32(b[0], b[1], b[2], b[3]), b[4..])
  }

  function TakeU64(b: seq<byte>): Parse<u64> {
    if |b| < 8 then Fail
    else Got(Get64(Get32(b[0], b[1], b[2], b[3]), Get32(b[4], b[5], b[6], b[7])), b[8..])
  }

  /** A length-prefixed name: at most MAX_NAME bytes of text. */
  function TakeName(b: seq<byte>): Parse<seq<byte>> {
    var (n, b1) :- TakeByte(b);
    if n > MAX_NAME then Fail
    else
      var (name, b2) :- TakeN(b1, n);
      if Valid(name) then Got(name, b2) else Fail
  }

  function PutName(name: seq<byte>): seq<byte>
    requires |name| < 0x100
  {
    [|name|] + name
  }

  lemma TakeNPut(x: seq<byte>, rest: seq<byte>)
    ensures TakeN(x + rest, |x|) == Got(x, rest)
  {
  }

  lemma TakeU32Put(x: u32, rest: seq<byte>)
    ensures TakeU32(LE32(x) + rest) == Got(x, rest)
  {
    Get32OfLE32(x);
    assert (LE32(x) + rest)[4..] == rest;
  }

  lemma TakeU32Exact(b: seq<byte>)
    requires TakeU32(b).Got?
    ensures b == LE32(TakeU32(b).v) + TakeU32(b).rest
  {
    LE32OfGet32(b[0], b[1], b[2], b[3]);
  }

  lemma TakeU64Put(x: u64, rest: seq<byte>)
    ensures TakeU64(LE64(x) + rest) == Got(x, rest)
  {
    Get32OfLE32(x % 0x1_0000_0000);
    Get32OfLE32(x / 0x1_0000_0000);
    assert (LE64(x) + rest)[8..] == rest;
  }

  lemma TakeU64Exact(b: seq<byte>)
    requires TakeU64(b).Got?
    ensures b == LE64(TakeU64(b).v) + TakeU64(b).rest
  {
    var lo, hi := Get32(b[0], b[1], b[2], b[3]), Get32(b[4], b[5], b[6], b[7]);
    LE32OfGet32(b[0], b[1], b[2], b[3]);
    LE32OfGet32(b[4], b[5], b[6], b[7]);
    assert Get64(lo, hi) % 0x1_0000_0000 == lo && Get64(lo, hi) / 0x1_0000_0000 == hi;
  }

  lemma TakeNamePut(name: seq<byte>, rest: seq<byte>)
    requires Storable(name)
    ensures TakeName(PutName(name) + rest) == Got(name, rest)
  {
    assert (PutName(name) + rest)[1..] == name + rest;
    TakeNPut(name, rest);
  }

  lemma TakeNameExact(b: seq<byte>)
    requires TakeName(b).Got?
    ensures Storable(TakeName(b).v) && b == PutName(TakeName(b).v) + TakeName(b).rest
  {
  }

  /** Regrouping what was appended field by field. */
  lemma Regroup(a: seq<byte>, b: seq<byte>, c: seq<byte>, d: seq<byte>, e: seq<byte>, f: seq<byte>, rest: seq<byte>)
    ensures (a + (b + (c + (d + (e + f))))) + rest == a + (b + (c + (d + (e + (f + rest)))))
  {
    assert (e + f) + rest == e + (f + rest);
    assert (d + (e + f)) + rest == d + ((e + f) + rest);
    assert (c + (d + (e + f))) + rest == c + ((d + (e + f)) + rest);
    assert (b + (c + (d + (e + f)))) + rest == b + ((c + (d + (e + f))) + rest);
  }

  // ---- peers -----------------------------------------------------------------

  function EncodePeer(p: Peer): seq<byte>
    requires Storable(p.name)
  {
    p.mac + (PutName(p.name) + ([U8(p.colorId)] + (LE32(p.lat) + (LE32(p.lon) + LE64(U64(p.lastSeen))))))
  }

  function DecodePeer(b: seq<byte>): Parse<Peer> {
    var (mac, b1) :- TakeN(b, 6);
    var (name, b2) :- TakeName(b1);
    var (color, b3) :- TakeByte(b2);
    var (lat, b4) :- TakeU32(b3);
    var (lon, b5) :- TakeU32(b4);
    var (seen, b6) :- TakeU64(b5);
    Got(Peer(mac, name, I8(color), lat, lon, I64(seen)), b6)
  }

  lemma PeerRoundTrip(p: Peer, rest: seq<byte>)
    requires Storable(p.name)
    ensures DecodePeer(EncodePeer(p) + rest) == Got(p, rest)
  {
    Int64RoundTrip(p.lastSeen);
    hide LE32, LE64, TakeU32, TakeU64, TakeName, PutName, U64, I64;
    var r6 := LE64(U64(p.lastSeen)) + rest;
    var r5 := LE32(p.lon) + r6;
    var r4 := LE32(p.lat) + r5;
    var r3 := [U8(p.colorId)] + r4;
    var r2 := PutName(p.name) + r3;
    Regroup(p.mac, PutName(p.name), [U8(p.colorId)], LE32(p.lat), LE32(p.lon), LE64(U64(p.lastSeen)), rest);
    assert EncodePeer(p) + rest == p.mac + r2;
    TakeNPut(p.mac, r2);
    TakeNamePut(p.name, r3);
    assert r3[1..] == r4;
    TakeU32Put(p.lat, r5);
    TakeU32Put(p.lon, r6);
    TakeU64Put(U64(p.lastSeen), rest);
  }

  lemma PeerExact(b: seq<byte>)
    requires DecodePeer(b).Got?
    ensures Storable(DecodePeer(b).v.name) && b == EncodePeer(DecodePeer(b).v) + DecodePeer(b).rest
  {
    hide LE32, LE64, TakeU32, TakeU64, TakeName, PutName, U64, I64;
    var b1 := TakeN(b, 6).rest;
    var b2 := TakeName(b1).rest;
    var b3 := TakeByte(b2).rest;
    var b4 := TakeU32(b3).rest;
    var b5 := TakeU32(b4).rest;
    var p, rest := DecodePeer(b).v, DecodePeer(b).rest;
    TakeNameExact(b1);
    TakeU32Exact(b3);
    TakeU32Exact(b4);
    TakeU64Exact(b5);
    UInt64RoundTrip(TakeU64(b5).v);
    assert b2 == [U8(p.colorId)] + b3;
    Regroup(p.mac, PutName(p.name), [U8(p.colorId)], LE32(p.lat), LE32(p.lon), LE64(U64(p.lastSeen)), rest);
  }

  predicate StorablePeers(ps: seq<Peer>) {
    forall i :: 0 <= i < |ps| ==> Storable(ps[i].name)
  }

  function EncodePeers(ps: seq<Peer>): seq<byte>
    requires StorablePeers(ps)
  {
    if ps == [] then [] else EncodePeer(ps[0]) + EncodePeers(ps[1..])
  }

  function DecodePeers(n: nat, b: seq<byte>): Parse<seq<Peer>> {
    if n == 0 then Got([], b)
    else
      var (p, b1) :- DecodePeer(b);
      var (ps, b2) :- DecodePeers(n - 1, b1);
      Got([p] + ps, b2)
  }

  lemma {:induction false} PeersRoundTrip(ps: seq<Peer>, rest: seq<byte>)
    requires StorablePeers(ps)
    ensures DecodePeers(|ps|, EncodePeers(ps) + rest) == Got(ps, rest)
  {
    hide EncodePeer, DecodePeer;
    if ps == [] {
      assert EncodePeers(ps) + rest == rest;
    } else {
      assert EncodePeers(ps) + rest == EncodePeer(ps[0]) + (EncodePeers(ps[1..]) + rest);
      PeerRoundTrip(ps[0], EncodePeers(ps[1..]) + rest);
      PeersRoundTrip(ps[1..], rest);
      assert ps == [ps[0]] + ps[1..];
    }
  }

  lemma {:induction false} PeersExact(n: nat, b: seq<byte>)
    requires DecodePeers(n, b).Got?
    ensures var ps := DecodePeers(n, b).v;
      |ps| == n && StorablePeers(ps) && b == EncodePeers(ps) + DecodePeers(n, b).rest
  {
    hide EncodePeer, DecodePeer;
    if n > 0 {
      PeerExact(b);
      var b1 := DecodePeer(b).rest;
      PeersExact(n - 1, b1);
      var ps := DecodePeers(n, b).v;
      assert ps[1..] == DecodePeers(n - 1, b1).v;
    }
  }

  // ---- the state ---------------------------------------------------------------

  predicate Encodable(s: State) {
    |s.peers| <= MAX_PEERS && Storable(s.name) && StorablePeers(s.peers)
  }

  function BoolByte(v: bool): byte {
    if v then 1 else 0
  }

  function Flags(s: State): seq<byte> {
    [U8(s.colorId), s.brightness, BoolByte(s.sosMuted)]
  }

  function EncodeTail(s: State): seq<byte>
    requires Encodable(s)
  {
    [|s.peers|] + EncodePeers(s.peers)
  }

  function Encode(s: State): seq<byte>
    requires Encodable(s)
  {
    [STATE_VERSION] + (PutName(s.name) + (Flags(s) + (LE32(s.bootCount) + (LE64(s.sleepMs)
    + (LE32(s.learnedMaxVolts) + EncodeTail(s))))))
  }

  lemma {:induction false} PeersLength(ps: seq<Peer>)
    requires StorablePeers(ps)
    ensures |EncodePeers(ps)| <= 56 * |ps|
    decreases |ps|
  {
    if ps != [] {
      assert |EncodePeer(ps[0])| <= 56 by { hide LE32, LE64; }
      PeersLength(ps[1..]);
    }
  }

  /** Every encoding fits a record, and starts with a byte that is not erased flash. */
  lemma EncodingIsShort(s: State)
    requires Encodable(s)
    ensures 0 < |Encode(s)| <= 1024 && Encode(s)[0] == 1
  {
    PeersLength(s.peers);
    hide LE32, LE64, EncodePeers;
  }

  /** What a record holds: 16 peers at most, and names of 32 bytes at most, all of them text. */
  lemma EncodableExactly(s: State)
    ensures Encodable(s) <==>
            && |s.peers| <= 16 && |s.name| <= 32 && Valid(s.name)
            && forall i :: 0 <= i < |s.peers| ==> |s.peers[i].name| <= 32 && Valid(s.peers[i].name)
  {
  }

  lemma PartsOf(a: seq<byte>, b: seq<byte>, c: seq<byte>)
    ensures var s := a + (b + c); s[..|a|] == a && s[|a|..|a| + |b|] == b && s[|a| + |b|..] == c
  {
    assert a + (b + c) == (a + b) + c;
    assert (a + b)[|a|..] == b;
  }

  /** Where each field of a record lies; the peers follow their number. */
  lemma RecordLayout(s: State)
    requires Encodable(s)
    ensures var e := Encode(s); var n := |s.name|;
      && |e| >= 22 + n && e[0] == 1 && e[1] == n && e[2..2 + n] == s.name
      && e[2 + n] == U8(s.colorId) && e[3 + n] == s.brightness && e[4 + n] == (if s.sosMuted then 1 else 0)
      && e[5 + n..9 + n] == LE32(s.bootCount) && e[9 + n..17 + n] == LE64(s.sleepMs)
      && e[17 + n..21 + n] == LE32(s.learnedMaxVolts) && e[21 + n] == |s.peers| && e[22 + n..] == EncodePeers(s.peers)
  {
    hide Encode, EncodePeers, LE32, LE64;
    var flags := [U8(s.colorId), s.brightness, if s.sosMuted then 1 else 0];
    var start, end := [1, |s.name|] + s.name, [|s.peers|] + EncodePeers(s.peers);
    RecordParts(s, flags);
    LaidOut(start, flags, LE32(s.bootCount), LE64(s.sleepMs), LE32(s.learnedMaxVolts), end, Encode(s));
    InParts(Encode(s), start, flags, end);
  }

  lemma RecordParts(s: State, flags: seq<byte>)
    requires Encodable(s) && flags == [U8(s.colorId), s.brightness, if s.sosMuted then 1 else 0]
    ensures StorablePeers(s.peers)
    ensures Encode(s) == ([1, |s.name|] + s.name)
                         + (flags + (LE32(s.bootCount) + (LE64(s.sleepMs) + (LE32(s.learnedMaxVolts) + ([|s.peers|] + EncodePeers(s.peers))))))
  {
    var rest := flags + (LE32(s.bootCount) + (LE64(s.sleepMs) + (LE32(s.learnedMaxVolts) + ([|s.peers|] + EncodePeers(s.peers)))));
    assert Encode(s) == [1] + (([|s.name|] + s.name) + rest);
    hide Encode, EncodePeers, LE32, LE64;
    assert [1] + (([|s.name|] + s.name) + rest) == ([1, |s.name|] + s.name) + rest;
  }

  /** The single bytes of a record's start, flags and end. */
  lemma InParts(e: seq<byte>, start: seq<byte>, flags: seq<byte>, end: seq<byte>)
    requires |start| >= 2 && |flags| == 3 && |end| >= 1 && |e| == |start| + 19 + |end|
    requires e[..|start|] == start && e[|start|..|start| + 3] == flags && e[|start| + 19..] == end
    ensures e[0] == start[0] && e[1] == start[1] && e[2..|start|] == start[2..]
    ensures e[|start|] == flags[0] && e[|start| + 1] == flags[1] && e[|start| + 2] == flags[2]
    ensures e[|start| + 19] == end[0] && e[|start| + 20..] == end[1..]
  {
    assert e[2..|start|] == e[..|start|][2..];
    assert e[|start| + 20..] == e[|start| + 19..][1..];
    assert e[|start|..|start| + 3][1] == e[|start| + 1] && e[|start|..|start| + 3][2] == e[|start| + 2];
  }

  lemma LaidOut(a: seq<byte>, b: seq<byte>, c: seq<byte>, d: seq<byte>, x: seq<byte>, y: seq<byte>, e: seq<byte>)
    requires e == a + (b + (c + (d + (x + y))))
    ensures var i := |a|; var j := i + |b|; var k := j + |c|; var l := k + |d|; var m := l + |x|;
      |e| == m + |y| && e[..i] == a && e[i..j] == b && e[j..k] == c && e[k..l] == d && e[l..m] == x && e[m..] == y
  {
    PartsOf(a, b, c + (d + (x + y)));
    PartsOf(a + b, c, d + (x + y));
    PartsOf(a + b + c, d, x + y);
    PartsOf(a + b + c + d, x, y);
    assert e == (a + b) + (c + (d + (x + y))) == (a + b + c) + (d + (x + y)) == (a + b + c + d) + (x + y);
  }

  lemma EncodeRegroups(s: State, rest: seq<byte>)
    requires Encodable(s)
    ensures Encode(s) + rest == [STATE_VERSION] + (PutName(s.name) + (Flags(s) + (LE32(s.bootCount)
            + (LE64(s.sleepMs) + (LE32(s.learnedMaxVolts) + ([|s.peers|] + (EncodePeers(s.peers) + rest)))))))
  {
    hide EncodePeers, LE32, LE64, PutName, Flags;
    var body := PutName(s.name) + (Flags(s) + (LE32(s.bootCount) + (LE64(s.sleepMs) + (LE32(s.learnedMaxVolts) + EncodeTail(s)))));
    assert ([STATE_VERSION] + body) + rest == [STATE_VERSION] + (body + rest);
    Regroup(PutName(s.name), Flags(s), LE32(s.bootCount), LE64(s.sleepMs), LE32(s.learnedMaxVolts), EncodeTail(s), rest);
    assert EncodeTail(s) + rest == [|s.peers|] + (EncodePeers(s.peers) + rest);
  }

  /** A state off the front of b; what is left must be nothing, which Decode checks. */
  function DecodePrefix(b: seq<byte>): Parse<State> {
    var (version, b1) :- TakeByte(b);
    if version != STATE_VERSION then Fail
    else
      var (name, b2) :- TakeName(b1);
      var (flags, b3) :- TakeN(b2, 3);
      if flags[2] > 1 then Fail
      else
        var (boots, b4) :- TakeU32(b3);
        var (sleep, b5) :- TakeU64(b4);
        var (volts, b6) :- TakeU32(b5);
        var (n, b7) :- TakeByte(b6);
        if n > MAX_PEERS then Fail
        else
          var (peers, b8) :- DecodePeers(n, b7);
          Got(State(name, I8(flags[0]), flags[1], flags[2] == 1, boots, sleep, volts, peers), b8)
  }

  function Decode(b: seq<byte>): Option<State> {
    match DecodePrefix(b)
    case Got(s, rest) => if rest == [] then Some(s) else None
    case Fail => None
  }

  lemma PrefixRoundTrip(s: State, rest: seq<byte>)
    requires Encodable(s)
    ensures DecodePrefix(Encode(s) + rest) == Got(s, rest)
  {
    hide EncodePeers, DecodePeers, LE32, LE64, TakeU32, TakeU64, TakeName, PutName;
    var r8 := EncodePeers(s.peers) + rest;
    var r7 := [|s.peers|] + r8;
    var r6 := LE32(s.learnedMaxVolts) + r7;
    var r5 := LE64(s.sleepMs) + r6;
    var r4 := LE32(s.bootCount) + r5;
    var r3 := Flags(s) + r4;
    var r2 := PutName(s.name) + r3;
    EncodeRegroups(s, rest);
    assert ([STATE_VERSION] + r2)[1..] == r2;
    TakeNamePut(s.name, r3);
    TakeNPut(Flags(s), r4);
    TakeU32Put(s.bootCount, r5);
    TakeU64Put(s.sleepMs, r6);
    TakeU32Put(s.learnedMaxVolts, r7);
    assert r7[1..] == r8;
    PeersRoundTrip(s.peers, rest);
  }

  lemma PrefixExact(b: seq<byte>)
    requires DecodePrefix(b).Got?
    ensures Encodable(DecodePrefix(b).v) && b == Encode(DecodePrefix(b).v) + DecodePrefix(b).rest
  {
    hide EncodePeers, DecodePeers, LE32, LE64, TakeU32, TakeU64, TakeName, PutName;
    var b1 := b[1..];
    var b2 := TakeName(b1).rest;
    var b3 := TakeN(b2, 3).rest;
    var b4 := TakeU32(b3).rest;
    var b5 := TakeU64(b4).rest;
    var b6 := TakeU32(b5).rest;
    var b7 := b6[1..];
    var s, rest := DecodePrefix(b).v, DecodePrefix(b).rest;
    TakeNameExact(b1);
    TakeU32Exact(b3);
    TakeU64Exact(b4);
    TakeU32Exact(b5);
    PeersExact(b6[0], b7);
    assert b2 == Flags(s) + b3;
    assert b6 == [|s.peers|] + b7;
    assert b == [STATE_VERSION] + b1;
    EncodeRegroups(s, rest);
  }

  /** The codec is a bijection between the states it encodes and the bytes it decodes. */
  lemma CodecIsBijection(s: State, b: seq<byte>)
    ensures Encodable(s) && b == Encode(s) <==> Decode(b) == Some(s)
  {
    if Encodable(s) {
      PrefixRoundTrip(s, []);
      assert Encode(s) + [] == Encode(s);
    }
    if Decode(b).Some? {
      PrefixExact(b);
    }
  }

  /** No encoding is a proper prefix of anything that decodes. */
  lemma NothingExtendsAnEncoding(a: seq<byte>, b: seq<byte>)
    requires Decode(a).Some? && Decode(b).Some? && a <= b
    ensures a == b
  {
    var s := Decode(a).value;
    CodecIsBijection(s, a);
    assert b == Encode(s) + b[|a|..];
    PrefixRoundTrip(s, b[|a|..]);
  }

  // ---- the settings key -----------------------------------------------------------

  function PlainPeer(p: Peer): Peer {
    p.(lat := 0, lon := 0, lastSeen := 0)
  }

  function Plain(s: State): State {
    s.(sleepMs := 0, learnedMaxVolts := 0, peers := seq(|s.peers|, i requires 0 <= i < |s.peers| => PlainPeer(s.peers[i])))
  }

  /** What a save is compared by: the encoding with everything reset that nobody chose. */
  function SettingsKey(s: State): Option<seq<byte>> {
    var plain := Plain(s);
    if Encodable(plain) then Some(Encode(plain)) else None
  }

  /** Two states a person could not tell apart by what was chosen. */
  predicate SameChoices(a: State, b: State) {
    && a.name == b.name && a.colorId == b.colorId && a.brightness == b.brightness
    && a.sosMuted == b.sosMuted && a.bootCount == b.bootCount && |a.peers| == |b.peers|
    && forall i :: 0 <= i < |a.peers| ==>
         && a.peers[i].mac == b.peers[i].mac && a.peers[i].name == b.peers[i].name
         && a.peers[i].colorId == b.peers[i].colorId
  }

  lemma PlainPeersAgree(a: State, b: State)
    ensures Plain(a) == Plain(b) <==> SameChoices(a, b)
  {
    var pa, pb := Plain(a).peers, Plain(b).peers;
    if SameChoices(a, b) {
      assert pa == pb;
    }
    if pa == pb {
      forall i | 0 <= i < |a.peers|
        ensures PlainPeer(a.peers[i]) == PlainPeer(b.peers[i])
      {
        assert pa[i] == pb[i];
      }
    }
  }

  /** Keys agree exactly when the states differ in nothing but sleep, learned voltage and what peers reported. */
  lemma KeyTellsChoices(a: State, b: State)
    ensures SettingsKey(a).Some? <==> Encodable(a)
    ensures Encodable(a) && Encodable(b) ==> (SettingsKey(a) == SettingsKey(b) <==> SameChoices(a, b))
  {
    assert forall i :: 0 <= i < |a.peers| ==> Plain(a).peers[i].name == a.peers[i].name;
    PlainPeersAgree(a, b);
    if SettingsKey(a).Some? && SettingsKey(b).Some? {
      CodecIsBijection(Plain(a), Encode(Plain(a)));
      CodecIsBijection(Plain(b), Encode(Plain(b)));
    }
  }

  // ---- reading with a cursor ---------------------------------------------------------

  /** A cursor over bytes; each method either takes a whole field or fails. */
  class Reader {
    const b: seq<byte>
    var i: nat

    constructor (b: seq<byte>)
      ensures this.b == b && i == 0
    {
      this.b, i := b, 0;
    }

    function Rest(): seq<byte>
      reads this
      requires i <= |b|
    {
      b[i..]
    }

    method NextBytes(n: nat) returns (r: Option<seq<byte>>)
      requires i <= |b|
      modifies this
      ensures i <= |b|
      ensures match TakeN(old(Rest()), n)
              case Fail => r == None && i == old(i)
              case Got(v, rest) => r == Some(v) && Rest() == rest
    {
      if |b| - i < n {
        return None;
      }
      assert b[i..][..n] == b[i..i + n] && b[i..][n..] == b[i + n..];
      r := Some(b[i..i + n]);
      i := i + n;
    }

    method NextByte() returns (r: Option<byte>)
      requires i <= |b|
      modifies this
      ensures i <= |b|
      ensures match TakeByte(old(Rest()))
              case Fail => r == None && i == old(i)
              case Got(v, rest) => r == Some(v) && Rest() == rest
    {
      var v := NextBytes(1);
      if v.None? {
        return None;
      }
      assert v.value[0] == old(Rest())[0];
      r := Some(v.value[0]);
    }

    method NextU32() returns (r: Option<u32>)
      requires i <= |b|
      modifies this
      ensures i <= |b|
      ensures match TakeU32(old(Rest()))
              case Fail => r == None && i == old(i)
              case Got(v, rest) => r == Some(v) && Rest() == rest
    {
      var v := NextBytes(4);
      if v.None? {
        return None;
      }
      assert forall k :: 0 <= k < 4 ==> v.value[k] == old(Rest())[k];
      r := Some(Get32(v.value[0], v.value[1], v.value[2], v.value[3]));
    }

    method NextU64() returns (r: Option<u64>)
      requires i <= |b|
      modifies this
      ensures i <= |b|
      ensures match TakeU64(old(Rest()))
              case Fail => r == None && i == old(i)
              case Got(v, rest) => r == Some(v) && Rest() == rest
    {
      var v := NextBytes(8);
      if v.None? {
        return None;
      }
      var w := v.value;
      assert forall k :: 0 <= k < 8 ==> w[k] == old(Rest())[k];
      r := Some(Get64(Get32(w[0], w[1], w[2], w[3]), Get32(w[4], w[5], w[6], w[7])));
    }

    method NextName() returns (r: Option<seq<byte>>)
      requires i <= |b|
      modifies this
      ensures i <= |b|
      ensures match TakeName(old(Rest()))
              case Fail => r == None
              case Got(v, rest) => r == Some(v) && Rest() == rest
    {
      var n := NextByte();
      if n.None? || n.value > MAX_NAME {
        return None;
      }
      var name := NextBytes(n.value);
      if name.None? || !Valid(name.value) {
        return None;
      }
      r := name;
    }

    method NextPeer() returns (r: Option<Peer>)
      requires i <= |b|
      modifies this
      ensures i <= |b|
      ensures match DecodePeer(old(Rest()))
              case Fail => r == None
              case Got(v, rest) => r == Some(v) && Rest() == rest
    {
      var mac := NextBytes(6);
      if mac.None? {
        return None;
      }
      var name := NextName();
      if name.None? {
        return None;
      }
      var color := NextByte();
      var lat := NextU32();
      var lon := NextU32();
      var seen := NextU64();
      if color.None? || lat.None? || lon.None? || seen.None? {
        return None;
      }
      r := Some(Peer(mac.value, name.value, I8(color.value), lat.value, lon.value, I64(seen.value)));
    }
  }

  /** The loop over the peers, from wherever the cursor stands. */
  method ReadPeers(rd: Reader, n: nat) returns (r: Option<seq<Peer>>)
    requires rd.i <= |rd.b|
    modifies rd
    ensures rd.i <= |rd.b|
    ensures match DecodePeers(n, old(rd.Rest()))
            case Fail => r == None
            case Got(ps, rest) => r == Some(ps) && rd.Rest() == rest
  {
    hide DecodePeer;
    ghost var all := DecodePeers(n, rd.Rest());
    var peers: seq<Peer> := [];
    assert all.Got? ==> [] + all.v == all.v;
    for k := 0 to n
      invariant rd.i <= |rd.b|
      invariant var tail := DecodePeers(n - k, rd.Rest());
        (tail.Fail? <==> all.Fail?) && (tail.Got? ==> all == Got(peers + tail.v, tail.rest))
    {
      ghost var b := rd.Rest();
      var p := rd.NextPeer();
      if p.None? {
        return None;
      }
      ghost var tail := DecodePeers(n - k - 1, rd.Rest());
      if tail.Got? {
        assert peers + ([p.value] + tail.v) == (peers + [p.value]) + tail.v;
      }
      peers := peers + [p.value];
    }
    assert peers + [] == peers;
    r := Some(peers);
  }

  /** The decoder as a loop over a cursor; it accepts what Decode accepts. */
  method Unmarshal(b: seq<byte>) returns (r: Option<State>)
    ensures r == Decode(b)
  {
    hide DecodePeers, TakeU32, TakeU64, TakeName;
    var rd := new Reader(b);
    assert rd.Rest() == b;
    var version := rd.NextByte();
    if version.None? || version.value != STATE_VERSION {
      return None;
    }
    var name := rd.NextName();
    if name.None? {
      return None;
    }
    var flags := rd.NextBytes(3);
    if flags.None? || flags.value[2] > 1 {
      return None;
    }
    var boots := rd.NextU32();
    if boots.None? {
      return None;
    }
    var sleep := rd.NextU64();
    if sleep.None? {
      return None;
    }
    var volts := rd.NextU32();
    if volts.None? {
      return None;
    }
    var n := rd.NextByte();
    if n.None? || n.value > MAX_PEERS {
      return None;
    }
    var peers := ReadPeers(rd, n.value);
    if peers.None? {
      return None;
    }
    if |rd.b| - rd.i != 0 {
      return None;
    }
    r := Some(State(name.value, I8(flags.value[0]), flags.value[1], flags.value[2] == 1,
                    boots.value, sleep.value, volts.value, peers.value));
  }

  method MarshalPeers(ps: seq<Peer>) returns (b: seq<byte>)
    requires StorablePeers(ps)
    ensures b == EncodePeers(ps)
  {
    hide EncodePeer;
    b := [];
    for k := 0 to |ps|
      invariant StorablePeers(ps[k..])
      invariant b + EncodePeers(ps[k..]) == EncodePeers(ps)
    {
      assert ps[k..][1..] == ps[k + 1..] && ps[k..][0] == ps[k];
      assert b + (EncodePeer(ps[k]) + EncodePeers(ps[k + 1..])) == (b + EncodePeer(ps[k])) + EncodePeers(ps[k + 1..]);
      b := b + EncodePeer(ps[k]);
    }
    assert ps[|ps|..] == [] && b + [] == b;
  }

  /** The encoder: None for a state that does not fit a record. */
  method Marshal(s: State) returns (r: Option<seq<byte>>)
    ensures r == if Encodable(s) then Some(Encode(s)) else None
  {
    if |s.peers| > MAX_PEERS || !Storable(s.name) {
      return None;
    }
    for k := 0 to |s.peers|
      invariant forall i :: 0 <= i < k ==> Storable(s.peers[i].name)
    {
      if !Storable(s.peers[k].name) {
        return None;
      }
    }
    hide EncodePeers, LE32, LE64, PutName, Flags;
    var peers := MarshalPeers(s.peers);
    var tail := LE32(s.learnedMaxVolts) + ([|s.peers|] + peers);
    r := Some([STATE_VERSION] + (PutName(s.name) + (Flags(s) + (LE32(s.bootCount) + (LE64(s.sleepMs) + tail)))));
  }
}
