/** UTF-8 as the settings store needs it (RFC 3629, section 4), and the names it makes storable. */
module Utf8 {
  import opened Bytes

  const MAX_NAME: nat := 32

  predicate Tail(b: byte) {
    0x80 <= b <= 0xbf
  }

  /** How many bytes a sequence starting with b has; 0 when none starts with it. */
  function Width(b: byte): (n: nat)
    ensures n <= 4 && (n == 1 <==> b < 0x80) && (n > 0 ==> !Tail(b))
  {
    if b < 0x80 then 1
    else if b < 0xc2 then 0
    else if b < 0xe0 then 2
    else if b < 0xf0 then 3
    else if b < 0xf5 then 4
    else 0
  }

  /** Which second bytes b allows: neither overlong forms, nor surrogates, nor past U+10FFFF. */
  predicate Second(b: byte, c: byte) {
    Tail(c) &&
    (b == 0xe0 ==> 0xa0 <= c) && (b == 0xed ==> c <= 0x9f) &&
    (b == 0xf0 ==> 0x90 <= c) && (b == 0xf4 ==> c <= 0x8f)
  }

  /** The size of the well-formed sequence s starts with, or 0. */
  function RuneSize(s: seq<byte>): (n: nat)
    requires s != []
    ensures n <= 4 && n <= |s|
  {
    var w := Width(s[0]);
    if w <= 1 then w
    else if |s| >= w && Second(s[0], s[1]) && forall i :: 2 <= i < w ==> Tail(s[i]) then w
    else 0
  }

  predicate Valid(s: seq<byte>)
    decreases |s|
  {
    s == [] || (RuneSize(s) > 0 && Valid(s[RuneSize(s)..]))
  }

  predicate Storable(name: seq<byte>) {
    |name| <= MAX_NAME && Valid(name)
  }

  // ---- text is a sequence of characters --------------------------------------

  predicate IsScalar(c: int) {
    0 <= c < 0xd800 || 0xe000 <= c <= 0x10ffff
  }

  /** The code points that are characters: all up to U+10FFFF but the surrogates. */
  type Scalar = c: int | 0 <= c < 0xd800 || 0xe000 <= c <= 0x10ffff

  /** RFC 3629, section 3. */
  function EncodeScalar(c: Scalar): (b: seq<byte>)
    ensures 1 <= |b| <= 4
  {
    if c < 0x80 then [c]
    else if c < 0x800 then [0xc0 + c / 0x40, 0x80 + c % 0x40]
    else if c < 0x1_0000 then [0xe0 + c / 0x1000, 0x80 + c / 0x40 % 0x40, 0x80 + c % 0x40]
    else [0xf0 + c / 0x4_0000, 0x80 + c / 0x1000 % 0x40, 0x80 + c / 0x40 % 0x40, 0x80 + c % 0x40]
  }

  /** The six bits a continuation byte carries. */
  function Six(b: int): int {
    b - 0x80
  }

  /** The character the first sequence of s stands for. */
  function ScalarOf(s: seq<byte>): int
    requires s != [] && RuneSize(s) > 0
  {
    var n, first: int := RuneSize(s), s[0];
    if n == 1 then first
    else if n == 2 then (first - 0xc0) * 0x40 + Six(s[1])
    else if n == 3 then (first - 0xe0) * 0x1000 + Six(s[1]) * 0x40 + Six(s[2])
    else (first - 0xf0) * 0x4_0000 + Six(s[1]) * 0x1000 + Six(s[2]) * 0x40 + Six(s[3])
  }

  /** Every character's encoding is one sequence. */
  lemma ScalarIsRune(c: Scalar)
    ensures RuneSize(EncodeScalar(c)) == |EncodeScalar(c)|
  {
    var b := EncodeScalar(c);
    assert forall i :: 1 <= i < |b| ==> Tail(b[i]);
    if |b| == 3 {
      assert b[0] == 0xe0 ==> c < 0x1000;
      assert b[0] == 0xed ==> 0xd000 <= c < 0xd800;
    }
  }

  /** Digits in base 64 are what division and remainder give back. */
  lemma Digits(q: int, r: int)
    requires 0 <= r < 0x40
    ensures (q * 0x40 + r) / 0x40 == q && (q * 0x40 + r) % 0x40 == r
  {
  }

  /** Every sequence is a character's encoding: no overlong forms, no surrogates, nothing past the last character. */
  lemma RuneIsScalar(s: seq<byte>)
    requires s != [] && RuneSize(s) > 0
    ensures var c := ScalarOf(s); IsScalar(c) && EncodeScalar(c) == s[..RuneSize(s)]
  {
    var n, first: int := RuneSize(s), s[0];
    var c := ScalarOf(s);
    if n == 2 {
      Digits(first - 0xc0, Six(s[1]));
    } else if n == 3 {
      var high := (first - 0xe0) * 0x40 + Six(s[1]);
      Digits(first - 0xe0, Six(s[1]));
      Digits(high, Six(s[2]));
      assert c / 0x1000 == high / 0x40;
    } else if n == 4 {
      var top := (first - 0xf0) * 0x40 + Six(s[1]);
      var high := top * 0x40 + Six(s[2]);
      Digits(first - 0xf0, Six(s[1]));
      Digits(top, Six(s[2]));
      Digits(high, Six(s[3]));
      assert c / 0x1000 == top && c / 0x4_0000 == first - 0xf0;
    }
  }

  function EncodeText(cs: seq<Scalar>): seq<byte> {
    if cs == [] then [] else EncodeScalar(cs[0]) + EncodeText(cs[1..])
  }

  function TextOf(s: seq<byte>): seq<Scalar>
    requires Valid(s)
    decreases |s|
  {
    if s == [] then []
    else
      RuneIsScalar(s);
      [ScalarOf(s)] + TextOf(s[RuneSize(s)..])
  }

  /** Bytes are text exactly when they are the encoding of some characters. */
  lemma TextIsScalars(s: seq<byte>)
    ensures Valid(s) <==> exists cs: seq<Scalar> :: EncodeText(cs) == s
  {
    if Valid(s) {
      TextEncodes(s);
    }
    forall cs: seq<Scalar> | EncodeText(cs) == s
      ensures Valid(s)
    {
      EncodedIsText(cs);
    }
  }

  lemma {:induction false} TextEncodes(s: seq<byte>)
    requires Valid(s)
    ensures EncodeText(TextOf(s)) == s
    decreases |s|
  {
    if s != [] {
      RuneIsScalar(s);
      hide RuneSize, EncodeScalar, ScalarOf;
      TextEncodes(s[RuneSize(s)..]);
      TextSplits(s);
    }
  }

  lemma TextSplits(s: seq<byte>)
    requires s != [] && Valid(s)
    ensures RuneSize(s) > 0 && Valid(s[RuneSize(s)..]) && s == s[..RuneSize(s)] + s[RuneSize(s)..]
    ensures EncodeText(TextOf(s)) == EncodeScalar(TextOf(s)[0]) + EncodeText(TextOf(s[RuneSize(s)..]))
  {
    hide RuneSize, EncodeScalar, ScalarOf;
    RuneIsScalar(s);
    assert TextOf(s)[1..] == TextOf(s[RuneSize(s)..]);
  }

  lemma {:induction false} EncodedIsText(cs: seq<Scalar>)
    ensures Valid(EncodeText(cs))
  {
    if cs != [] {
      ScalarIsRune(cs[0]);
      EncodedIsText(cs[1..]);
      RuneThen(EncodeScalar(cs[0]), EncodeText(cs[1..]));
    }
  }

  /** What is text in s, and nothing else: every byte that starts no sequence is dropped. */
  function ToValid(s: seq<byte>): (r: seq<byte>)
    ensures Valid(r)
    decreases |s|
  {
    if s == [] then []
    else if RuneSize(s) > 0 then
      var rest := ToValid(s[RuneSize(s)..]);
      RuneThen(s[..RuneSize(s)], rest);
      s[..RuneSize(s)] + rest
    else ToValid(s[1..])
  }

  /** A sequence stays the first one whatever follows it. */
  lemma RuneThen(a: seq<byte>, b: seq<byte>)
    requires a != [] && RuneSize(a) > 0
    ensures RuneSize(a + b) == RuneSize(a)
    ensures RuneSize(a) == |a| && Valid(b) ==> Valid(a + b)
  {
    if RuneSize(a) == |a| {
      assert (a + b)[|a|..] == b;
    }
  }

  lemma RuneOfPrefix(s: seq<byte>)
    requires s != [] && RuneSize(s) > 0
    ensures RuneSize(s[..RuneSize(s)]) == RuneSize(s)
  {
  }

  lemma {:induction false} ToValidKeepsText(s: seq<byte>)
    ensures ToValid(s) == s <==> Valid(s)
    decreases |s|
  {
    if s != [] && Valid(s) {
      ToValidKeepsText(s[RuneSize(s)..]);
      assert s == s[..RuneSize(s)] + s[RuneSize(s)..];
    }
  }

  // ---- the last sequence -----------------------------------------------------

  /** Where the last sequence of a text starts. */
  function LastStart(s: seq<byte>): (k: nat)
    requires s != [] && Valid(s)
    ensures k < |s|
    decreases |s|
  {
    var n := RuneSize(s);
    if n == |s| then 0 else n + LastStart(s[n..])
  }

  lemma Slices(s: seq<byte>, n: nat, k: nat)
    requires n <= k <= |s|
    ensures s[..n] + s[n..][..k - n] == s[..k] && s[n..][k - n..] == s[k..]
  {
  }

  lemma {:induction false} LastStartSplits(s: seq<byte>)
    requires s != [] && Valid(s)
    ensures var k := LastStart(s); Valid(s[..k]) && RuneSize(s[k..]) == |s| - k
    decreases |s|
  {
    var n, k := RuneSize(s), LastStart(s);
    if n == |s| {
      assert s[0..] == s;
    } else {
      LastStartSplits(s[n..]);
      RuneOfPrefix(s);
      RuneThen(s[..n], s[n..][..k - n]);
      Slices(s, n, k);
    }
  }

  /** Inside one sequence only its first byte is not a continuation. */
  lemma RuneShape(s: seq<byte>)
    requires s != [] && RuneSize(s) > 0
    ensures !Tail(s[0]) && forall i :: 1 <= i < RuneSize(s) ==> Tail(s[i])
  {
  }

  /** A text cut inside its last sequence is no text: shorter prefixes end before it. */
  lemma {:induction false} PrefixEndsBeforeLast(q: seq<byte>, s: seq<byte>)
    requires Valid(q) && Valid(s) && q < s
    ensures |q| <= LastStart(s)
    decreases |s|
  {
    if q != [] {
      var n := RuneSize(q);
      assert s == q + s[|q|..];
      RuneThen(q, s[|q|..]);
      if n < |s| {
        PrefixEndsBeforeLast(q[n..], s[n..]);
      }
    }
  }

  /** The size of the last sequence of s, found by stepping back over continuation bytes. */
  method LastRuneSize(s: seq<byte>) returns (size: nat)
    requires s != []
    ensures 1 <= size <= |s|
    ensures Valid(s) ==> size == |s| - LastStart(s)
  {
    var end := |s|;
    var start: int := end - 1;
    if s[start] < 0x80 {
      if Valid(s) {
        LastRuneShape(s);
      }
      return 1;
    }
    var lim := Max(end - 4, 0);
    start := start - 1;
    while start >= lim && Tail(s[start])
      invariant lim - 1 <= start < end - 1
      invariant forall i :: start < i < end - 1 ==> Tail(s[i])
    {
      start := start - 1;
    }
    if Valid(s) {
      LastRuneShape(s);
      LastStartSplits(s);
      ghost var k := LastStart(s);
      assert start == k;
    }
    if start < 0 {
      start := 0;
    }
    var n := RuneSize(s[start..]);
    if n == 0 || start + n != end {
      return 1;
    }
    size := n;
  }

  /** A sequence that fills s: only its first byte is no continuation, and it is ASCII when alone. */
  lemma WholeRune(s: seq<byte>)
    requires s != [] && RuneSize(s) == |s|
    ensures !Tail(s[0]) && |s| <= 4 && (|s| == 1 <==> s[|s| - 1] < 0x80)
    ensures forall i :: 0 < i < |s| ==> Tail(s[i])
  {
    RuneShape(s);
    if |s| > 1 {
      assert Tail(s[|s| - 1]);
    }
  }

  lemma EndsInRune(s: seq<byte>, k: nat)
    requires k < |s| && RuneSize(s[k..]) == |s| - k
    ensures !Tail(s[k]) && (forall i :: k < i < |s| ==> Tail(s[i]))
    ensures (k == |s| - 1 <==> s[|s| - 1] < 0x80) && |s| - 4 <= k
  {
    var r := s[k..];
    WholeRune(r);
    assert r[0] == s[k] && r[|r| - 1] == s[|s| - 1];
    assert forall i :: k < i < |s| ==> s[i] == r[i - k];
  }

  /** The last sequence is one byte exactly when the last byte is ASCII; the bytes behind its first continue it. */
  lemma LastRuneShape(s: seq<byte>)
    requires s != [] && Valid(s)
    ensures var k := LastStart(s);
      && !Tail(s[k]) && (forall i :: k < i < |s| ==> Tail(s[i]))
      && (k == |s| - 1 <==> s[|s| - 1] < 0x80) && |s| - 4 <= k
  {
    LastStartSplits(s);
    EndsInRune(s, LastStart(s));
  }

  // ---- names --------------------------------------------------------------------

  /** The longest text of at most MAX_NAME bytes that t starts with. */
  function Shortened(t: seq<byte>): (r: seq<byte>)
    requires Valid(t)
    ensures r <= t && Storable(r)
    decreases |t|
  {
    if |t| <= MAX_NAME then t
    else
      LastStartSplits(t);
      Shortened(t[..LastStart(t)])
  }

  /** Nothing storable that t starts with is longer. */
  lemma {:induction false} ShortenedIsLongest(t: seq<byte>, q: seq<byte>)
    requires Valid(t) && Storable(q) && q <= t
    ensures |q| <= |Shortened(t)|
    decreases |t|
  {
    if |t| > MAX_NAME {
      PrefixEndsBeforeLast(q, t);
      LastStartSplits(t);
      ShortenedIsLongest(t[..LastStart(t)], q);
    }
  }

  function Sanitized(s: seq<byte>): (r: seq<byte>)
    ensures Storable(r)
  {
    Shortened(ToValid(s))
  }

  method SanitizeName(s: seq<byte>) returns (r: seq<byte>)
    ensures r == Sanitized(s)
  {
    r := ToValid(s);
    while |r| > MAX_NAME
      invariant Valid(r) && Shortened(r) == Sanitized(s)
      decreases |r|
    {
      var size := LastRuneSize(r);
      LastStartSplits(r);
      r := r[..|r| - size];
    }
  }

  /** A name the store can hold is left alone, and nothing else is. */
  lemma SanitizeIsIdentityOnStorable(s: seq<byte>)
    ensures Sanitized(s) == s <==> Storable(s)
    ensures Sanitized(Sanitized(s)) == Sanitized(s)
  {
    ToValidKeepsText(s);
    ToValidKeepsText(Sanitized(s));
  }
}
