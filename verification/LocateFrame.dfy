/**
 The 45-byte locate frame of the mesh: its layout, and a relay's patch of it in
 place. Coordinates stay the 32 bits they travel as.
 */
module LocateFrame {
  import opened Bytes

  const FRAME_LEN := 45

  datatype Locate = Locate(
    origin: MAC, lat: u32, lon: u32, posAccuracy: i8, sos: bool, uid: u16, replyRequested: bool,
    minRSSI: i8, maxRSSI: i8, minDist: i16, maxDist: i16, hops: byte, maxHops: byte, expiry: i32,
    lastHopLat: u32, lastHopLon: u32, relayMinDist: i16)

  function Flag(b: bool): byte {
    if b then 1 else 0
  }

  function U16(x: i16): u16 {
    if x < 0 then x + 0x1_0000 else x
  }

  function I16(x: u16): i16 {
    if x < 0x8000 then x else x - 0x1_0000
  }

  function U32(x: i32): u32 {
    if x < 0 then x + 0x1_0000_0000 else x
  }

  function I32(x: u32): i32 {
    if x < 0x8000_0000 then x else x - 0x1_0000_0000
  }

  /** Who sent it, and where from. */
  function Head(l: Locate): (b: seq<byte>)
    ensures |b| == 18
  {
    var o := l.origin;
    var lat, lon := LE32(l.lat), LE32(l.lon);
    [0xa7, 0x74, 2, 0, o[0], o[1], o[2], o[3], o[4], o[5],
     lat[0], lat[1], lat[2], lat[3], lon[0], lon[1], lon[2], lon[3]]
  }

  /** Whom it concerns, and how far it goes. */
  function Middle(l: Locate): (b: seq<byte>)
    ensures |b| == 13
  {
    var uid, near, far := LE16(l.uid), LE16(U16(l.minDist)), LE16(U16(l.maxDist));
    [U8(l.posAccuracy), Flag(l.sos), uid[0], uid[1], Flag(l.replyRequested), U8(l.minRSSI), U8(l.maxRSSI),
     near[0], near[1], far[0], far[1], l.hops, l.maxHops]
  }

  /** Until when, and where it was last. */
  function Tail(l: Locate): (b: seq<byte>)
    ensures |b| == 14
  {
    var exp, lat, lon := LE32(U32(l.expiry)), LE32(l.lastHopLat), LE32(l.lastHopLon);
    var gap := LE16(U16(l.relayMinDist));
    [exp[0], exp[1], exp[2], exp[3], lat[0], lat[1], lat[2], lat[3], lon[0], lon[1], lon[2], lon[3], gap[0], gap[1]]
  }

  function Encode(l: Locate): (b: seq<byte>)
    ensures |b| == FRAME_LEN
  {
    Head(l) + Middle(l) + Tail(l)
  }

  /** The header alone says a frame is a locate frame. */
  predicate IsLocate(b: seq<byte>) {
    |b| >= 4 && b[0] == 0xa7 && b[1] == 0x74 && b[2] == 2 && b[3] == 0
  }

  function Word(b: seq<byte>, k: nat): u32
    requires k + 4 <= |b|
  {
    Get32(b[k], b[k + 1], b[k + 2], b[k + 3])
  }

  function Half(b: seq<byte>, k: nat): u16
    requires k + 2 <= |b|
  {
    Get16(b[k], b[k + 1])
  }

  /** A longer frame is read by its first 45 bytes; a shorter one is refused. */
  function Parse(b: seq<byte>): (r: Option<Locate>)
    ensures r.Some? <==> IsLocate(b) && |b| >= FRAME_LEN
  {
    if !IsLocate(b) || |b| < FRAME_LEN then None
    else Some(Locate(
      [b[4], b[5], b[6], b[7], b[8], b[9]], Word(b, 10), Word(b, 14), I8(b[18]), b[19] != 0, Half(b, 20), b[22] != 0,
      I8(b[23]), I8(b[24]), I16(Half(b, 25)), I16(Half(b, 27)), b[29], b[30], I32(Word(b, 31)),
      Word(b, 35), Word(b, 39), I16(Half(b, 43))))
  }

  /** What an encoder writes: each flag byte is 0 or 1. */
  predicate Canonical(b: seq<byte>)
    requires |b| >= FRAME_LEN
  {
    b[19] <= 1 && b[22] <= 1
  }

  /** Where each third of an encoding lies. */
  lemma Thirds(l: Locate)
    ensures var b := Encode(l);
      && (forall k :: 0 <= k < 18 ==> b[k] == Head(l)[k])
      && (forall k :: 18 <= k < 31 ==> b[k] == Middle(l)[k - 18])
      && (forall k :: 31 <= k < 45 ==> b[k] == Tail(l)[k - 31])
  {
    hide Head, Middle, Tail;
  }

  /** Where each field of a frame lies. */
  lemma FrameLayout(l: Locate)
    ensures var b := Encode(l);
      && b[0..4] == [0xa7, 0x74, 2, 0] && b[4..10] == l.origin && b[10..14] == LE32(l.lat) && b[14..18] == LE32(l.lon)
      && b[18] == U8(l.posAccuracy) && b[19] == (if l.sos then 1 else 0) && b[20..22] == LE16(l.uid)
      && b[22] == (if l.replyRequested then 1 else 0) && b[23] == U8(l.minRSSI) && b[24] == U8(l.maxRSSI)
      && b[25..27] == LE16(U16(l.minDist)) && b[27..29] == LE16(U16(l.maxDist)) && b[29] == l.hops && b[30] == l.maxHops
      && b[31..35] == LE32(U32(l.expiry)) && b[35..39] == LE32(l.lastHopLat) && b[39..43] == LE32(l.lastHopLon)
      && b[43..45] == LE16(U16(l.relayMinDist))
  {
    hide LE32, LE16, U8, U16, U32, Encode, Head, Middle, Tail;
    Thirds(l);
    HeadLayout(l, Encode(l));
    MiddleLayout(l, Encode(l));
    TailLayout(l, Encode(l));
  }

  lemma HeadLayout(l: Locate, b: seq<byte>)
    requires |b| == FRAME_LEN && forall k :: 0 <= k < 18 ==> b[k] == Head(l)[k]
    ensures b[0..4] == [0xa7, 0x74, 2, 0] && b[4..10] == l.origin && b[10..14] == LE32(l.lat) && b[14..18] == LE32(l.lon)
  {
    hide LE32;
  }

  lemma MiddleLayout(l: Locate, b: seq<byte>)
    requires |b| == FRAME_LEN && forall k :: 18 <= k < 31 ==> b[k] == Middle(l)[k - 18]
    ensures b[18] == U8(l.posAccuracy) && b[19] == (if l.sos then 1 else 0) && b[20..22] == LE16(l.uid)
    ensures b[22] == (if l.replyRequested then 1 else 0) && b[23] == U8(l.minRSSI) && b[24] == U8(l.maxRSSI)
    ensures b[25..27] == LE16(U16(l.minDist)) && b[27..29] == LE16(U16(l.maxDist)) && b[29] == l.hops && b[30] == l.maxHops
  {
    hide LE16, U8, U16;
  }

  lemma TailLayout(l: Locate, b: seq<byte>)
    requires |b| == FRAME_LEN && forall k :: 31 <= k < 45 ==> b[k] == Tail(l)[k - 31]
    ensures b[31..35] == LE32(U32(l.expiry)) && b[35..39] == LE32(l.lastHopLat) && b[39..43] == LE32(l.lastHopLon)
    ensures b[43..45] == LE16(U16(l.relayMinDist))
  {
    hide LE32, LE16, U32, U16;
  }

  lemma HeadParses(l: Locate, b: seq<byte>)
    requires |b| == FRAME_LEN && forall k :: 0 <= k < 18 ==> b[k] == Head(l)[k]
    ensures IsLocate(b) && [b[4], b[5], b[6], b[7], b[8], b[9]] == l.origin
    ensures Word(b, 10) == l.lat && Word(b, 14) == l.lon
  {
    Get32OfLE32(l.lat);
    Get32OfLE32(l.lon);
    hide LE32, Get32;
  }

  lemma MiddleParses(l: Locate, b: seq<byte>)
    requires |b| == FRAME_LEN && forall k :: 18 <= k < 31 ==> b[k] == Middle(l)[k - 18]
    ensures I8(b[18]) == l.posAccuracy && (b[19] != 0) == l.sos && Half(b, 20) == l.uid
    ensures (b[22] != 0) == l.replyRequested && I8(b[23]) == l.minRSSI && I8(b[24]) == l.maxRSSI
    ensures I16(Half(b, 25)) == l.minDist && I16(Half(b, 27)) == l.maxDist && b[29] == l.hops && b[30] == l.maxHops
  {
  }

  lemma TailParses(l: Locate, b: seq<byte>)
    requires |b| == FRAME_LEN && forall k :: 31 <= k < 45 ==> b[k] == Tail(l)[k - 31]
    ensures I32(Word(b, 31)) == l.expiry && Word(b, 35) == l.lastHopLat && Word(b, 39) == l.lastHopLon
    ensures I16(Half(b, 43)) == l.relayMinDist
  {
    Get32OfLE32(U32(l.expiry));
    Get32OfLE32(l.lastHopLat);
    Get32OfLE32(l.lastHopLon);
    hide LE32, Get32;
  }

  lemma ParseEncode(l: Locate)
    ensures Parse(Encode(l)) == Some(l)
  {
    var b := Encode(l);
    Thirds(l);
    HeadParses(l, b);
    MiddleParses(l, b);
    TailParses(l, b);
    hide Encode, Head, Middle, Tail, Half, Word, LE32, Get32;
  }

  lemma HeadEncodes(l: Locate, b: seq<byte>)
    requires |b| >= FRAME_LEN && IsLocate(b) && l.origin == [b[4], b[5], b[6], b[7], b[8], b[9]]
    requires l.lat == Word(b, 10) && l.lon == Word(b, 14)
    ensures forall k :: 0 <= k < 18 ==> Head(l)[k] == b[k]
  {
    LE32OfGet32(b[10], b[11], b[12], b[13]);
    LE32OfGet32(b[14], b[15], b[16], b[17]);
    hide LE32, Get32;
  }

  lemma SameBits32(x: u32)
    ensures U32(I32(x)) == x
  {
  }

  lemma SameBits16(b0: byte, b1: byte)
    ensures LE16(U16(I16(Get16(b0, b1)))) == [b0, b1]
  {
  }

  lemma SameBits8(b: byte)
    ensures U8(I8(b)) == b
  {
  }

  lemma MiddleEncodes(l: Locate, b: seq<byte>)
    requires |b| >= FRAME_LEN && I8(b[18]) == l.posAccuracy && (b[19] != 0) == l.sos && Half(b, 20) == l.uid
    requires (b[22] != 0) == l.replyRequested && I8(b[23]) == l.minRSSI && I8(b[24]) == l.maxRSSI
    requires I16(Half(b, 25)) == l.minDist && I16(Half(b, 27)) == l.maxDist && b[29] == l.hops && b[30] == l.maxHops
    ensures forall k :: 18 <= k < 31 && k != 19 && k != 22 ==> Middle(l)[k - 18] == b[k]
    ensures Middle(l)[1] == b[19] <==> b[19] <= 1
    ensures Middle(l)[4] == b[22] <==> b[22] <= 1
  {
    SameBits8(b[18]);
    SameBits8(b[23]);
    SameBits8(b[24]);
    SameBits16(b[25], b[26]);
    SameBits16(b[27], b[28]);
    assert LE16(Half(b, 20)) == [b[20], b[21]];
    hide LE16, Get16, U16, I16, U8, I8;
  }

  lemma TailEncodes(l: Locate, b: seq<byte>)
    requires |b| >= FRAME_LEN && I32(Word(b, 31)) == l.expiry && Word(b, 35) == l.lastHopLat
    requires Word(b, 39) == l.lastHopLon && I16(Half(b, 43)) == l.relayMinDist
    ensures forall k :: 31 <= k < 45 ==> Tail(l)[k - 31] == b[k]
  {
    LE32OfGet32(b[31], b[32], b[33], b[34]);
    LE32OfGet32(b[35], b[36], b[37], b[38]);
    LE32OfGet32(b[39], b[40], b[41], b[42]);
    SameBits32(Word(b, 31));
    SameBits16(b[43], b[44]);
    hide LE32, Get32, LE16, Get16, U32, I32, U16, I16;
  }

  /** The frame re-encoded is the frame's own 45 bytes exactly when its flag bytes are 0 or 1. */
  lemma EncodeParse(b: seq<byte>)
    requires Parse(b).Some?
    ensures Encode(Parse(b).value) == b[..FRAME_LEN] <==> Canonical(b)
  {
    var l := Parse(b).value;
    var e := Encode(l);
    Thirds(l);
    HeadEncodes(l, b);
    MiddleEncodes(l, b);
    TailEncodes(l, b);
    hide Parse, Encode, Head, Middle, Tail;
    assert e[19] == Middle(l)[1] && e[22] == Middle(l)[4];
    if Canonical(b) {
      assert e == b[..FRAME_LEN];
    } else {
      assert e[19] != b[..FRAME_LEN][19] || e[22] != b[..FRAME_LEN][22];
    }
  }

  /** What a relay changes: the last hop's coordinates become its own, and the hop byte goes up by one, modulo 256. */
  function Patch(b: seq<byte>, lat: u32, lon: u32): (r: seq<byte>)
    requires |b| >= FRAME_LEN
    ensures |r| == |b|
    ensures forall k :: 0 <= k < |b| && k != 29 && !(35 <= k < 43) ==> r[k] == b[k]
    ensures r[29] == (if b[29] == 0xff then 0 else b[29] + 1)
    ensures r[35..39] == LE32(lat) && r[39..43] == LE32(lon)
  {
    var p := LE32(lat);
    var q := LE32(lon);
    var moved := b[..35] + p + q + b[43..];
    moved[29 := if b[29] == 0xff then 0 else b[29] + 1]
  }

  /** The decoded frame a relay sends on. */
  function Relayed(l: Locate, lat: u32, lon: u32): Locate
    requires l.hops < 0xff
  {
    l.(hops := l.hops + 1, lastHopLat := lat, lastHopLon := lon)
  }

  lemma WordAt(b: seq<byte>, k: nat, x: u32)
    requires k + 4 <= |b| && b[k..k + 4] == LE32(x)
    ensures Word(b, k) == x
  {
    Get32OfLE32(x);
    var w := b[k..k + 4];
    assert Word(b, k) == Get32(w[0], w[1], w[2], w[3]);
  }

  /** The fields a patch does not touch. */
  lemma SameFields(b: seq<byte>, r: seq<byte>)
    requires |r| == |b| >= FRAME_LEN && forall k :: 0 <= k < |b| && k != 29 && !(35 <= k < 43) ==> r[k] == b[k]
    ensures IsLocate(r) <==> IsLocate(b)
    ensures [r[4], r[5], r[6], r[7], r[8], r[9]] == [b[4], b[5], b[6], b[7], b[8], b[9]]
    ensures Word(r, 10) == Word(b, 10) && Word(r, 14) == Word(b, 14) && Word(r, 31) == Word(b, 31)
    ensures Half(r, 20) == Half(b, 20) && Half(r, 25) == Half(b, 25) && Half(r, 27) == Half(b, 27) && Half(r, 43) == Half(b, 43)
    ensures r[18] == b[18] && r[19] == b[19] && r[22] == b[22] && r[23] == b[23] && r[24] == b[24] && r[30] == b[30]
  {
    hide Get32, Get16;
  }

  /** The patched bytes decode to the frame they were, but for the hop count and the last hop's coordinates. */
  lemma PatchDecodes(b: seq<byte>, lat: u32, lon: u32)
    requires Parse(b).Some? && Parse(b).value.hops < 0xff
    ensures Parse(Patch(b, lat, lon)) == Some(Relayed(Parse(b).value, lat, lon))
  {
    var r := Patch(b, lat, lon);
    WordAt(r, 35, lat);
    WordAt(r, 39, lon);
    SameFields(b, r);
    hide Patch, Word, Half, IsLocate, LE32;
  }

  /** Patching in place is decoding, adding the hop and re-encoding: on a frame an encoder wrote, and on no other. */
  lemma PatchIsReencoding(b: seq<byte>, lat: u32, lon: u32)
    requires Parse(b).Some? && Parse(b).value.hops < 0xff
    ensures Patch(b, lat, lon) == Encode(Relayed(Parse(b).value, lat, lon)) + b[FRAME_LEN..] <==> Canonical(b)
  {
    var r := Patch(b, lat, lon);
    PatchDecodes(b, lat, lon);
    EncodeParse(r);
    var e := Encode(Relayed(Parse(b).value, lat, lon));
    hide Patch, Encode;
    assert r[FRAME_LEN..] == b[FRAME_LEN..];
    assert r == r[..FRAME_LEN] + r[FRAME_LEN..];
    assert (e + b[FRAME_LEN..])[..FRAME_LEN] == e;
  }
}
