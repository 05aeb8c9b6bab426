/** What the text of a sentence means: checksums, fields and numbers, each against an independent reading. */
module NmeaText {
  import opened Bytes
  import opened Nmea

  // ---- checksums -----------------------------------------------------------------

  function HexOf(n: nat): byte
    requires n < 16
  {
    if n < 10 then '0' as int + n else 'A' as int + (n - 10)
  }

  /** A sentence as a receiver sends it: the body, a star, and the checksum in two digits. */
  function Seal(body: seq<byte>): seq<byte> {
    body + ['*' as int, HexOf(XorAll(body) / 16), HexOf(XorAll(body) % 16)]
  }

  lemma HexReads(n: nat)
    requires n < 16
    ensures HexDigit(HexOf(n)) == Some(n) && HexOf(n) != STAR
  {
  }

  lemma StarBeforeDigits(body: seq<byte>, hi: byte, lo: byte)
    requires hi != STAR && lo != STAR
    ensures LastIndex(body + [STAR, hi, lo], STAR) == |body|
  {
    var s := body + [STAR, hi, lo];
    assert s[|body|] == STAR && s[|body| + 1] == hi && s[|body| + 2] == lo;
  }

  /** Whatever a receiver seals is taken. */
  lemma SealVerifies(body: seq<byte>)
    ensures Verify(Seal(body)) == Some(body)
  {
    var x := XorAll(body);
    HexReads(x / 16);
    HexReads(x % 16);
    StarBeforeDigits(body, HexOf(x / 16), HexOf(x % 16));
    var s := Seal(body);
    assert s[..|body|] == body && s[|body| + 1] == HexOf(x / 16) && s[|body| + 2] == HexOf(x % 16);
    hide XorAll, LastIndex;
  }

  /** Nothing else is: a sentence that is taken ends in a star and its body's checksum, in either case of letters. */
  lemma VerifiedIsSealed(s: seq<byte>)
    requires Verify(s).Some?
    ensures var body := Verify(s).value;
      && |s| == |body| + 3 && s[..|body|] == body && s[|body|] == STAR
      && HexDigit(s[|body| + 1]) == Some(XorAll(body) / 16) && HexDigit(s[|body| + 2]) == Some(XorAll(body) % 16)
  {
    hide XorAll;
  }

  /** Small letters will do too. */
  lemma SmallHexReads(n: nat)
    requires 10 <= n < 16
    ensures HexDigit('a' as int + (n - 10)) == Some(n)
  {
  }

  lemma XorByte(x: byte, a: byte, b: byte)
    ensures Xor(x, a) == Xor(x, b) ==> a == b
    ensures Xor(a, x) == Xor(b, x) ==> a == b
    ensures Xor(0, a) == a
  {
    EightBits();
    XorBothWays(a, x, 8);
    XorBothWays(b, x, 8);
    hide XorBits;
    if Xor(x, a) == Xor(x, b) {
      XorTells(x, a, b, 8);
    }
  }

  /** The checksum of nothing is 0, and that of one byte is the byte. */
  lemma XorOfOne(b: byte)
    ensures XorAll([]) == 0 && XorAll([b]) == b
  {
    XorByte(0, b, b);
    assert [b][..0] == [];
  }

  /** Of two bodies that differ in one byte, one has another checksum: no single wrong byte goes unnoticed. */
  lemma {:induction false} ChecksumCatchesOneByte(s: seq<byte>, t: seq<byte>, k: nat)
    requires |s| == |t| && k < |s| && s[k] != t[k]
    requires forall i :: 0 <= i < |s| && i != k ==> s[i] == t[i]
    ensures XorAll(s) != XorAll(t)
    decreases |s|
  {
    var n := |s| - 1;
    var front, other := s[..n], t[..n];
    assert XorAll(s) == Xor(XorAll(front), s[n]) && XorAll(t) == Xor(XorAll(other), t[n]);
    hide XorAll, Xor;
    if k == n {
      assert front == other;
      XorByte(XorAll(front), s[n], t[n]);
    } else {
      ChecksumCatchesOneByte(front, other, k);
      XorByte(s[n], XorAll(front), XorAll(other));
    }
  }

  // ---- fields -----------------------------------------------------------------------

  function Join(f: seq<seq<byte>>): seq<byte> {
    if f == [] then []
    else if |f| == 1 then f[0]
    else f[0] + [',' as int] + Join(f[1..])
  }

  lemma NoneBefore(s: seq<byte>)
    ensures COMMA !in s[..Index(s, COMMA)]
  {
    var i := Index(s, COMMA);
    hide Index;
    assert forall k :: 0 <= k < i ==> s[..i][k] == s[k];
  }

  lemma CutAt(s: seq<byte>, i: nat)
    requires i < |s| && s[i] == COMMA
    ensures s == s[..i] + [COMMA] + s[i + 1..]
  {
  }

  /** The fields are the body cut at its commas, and no field holds one. */
  lemma {:induction false} SplitIsCutAtCommas(s: seq<byte>)
    ensures Join(Split(s)) == s
    ensures forall k :: 0 <= k < |Split(s)| ==> COMMA !in Split(s)[k]
    decreases |s|
  {
    NoneBefore(s);
    var i := Index(s, COMMA);
    if i < |s| {
      var rest := s[i + 1..];
      SplitIsCutAtCommas(rest);
      CutAt(s, i);
      assert Split(s) == [s[..i]] + Split(rest);
      hide Split, Index;
      assert Split(s)[1..] == Split(rest);
      forall k | 0 <= k < |Split(s)|
        ensures COMMA !in Split(s)[k]
      {
        if k > 0 {
          assert Split(s)[k] == Split(rest)[k - 1];
        }
      }
    } else {
      assert Split(s) == [s];
      hide Split, Index;
      assert s[..i] == s;
    }
  }

  // ---- numbers -------------------------------------------------------------------------

  predicate AllDigits(s: seq<byte>) {
    forall i :: 0 <= i < |s| ==> IsDigit(s[i])
  }

  function Power10(n: nat): (p: int)
    ensures p > 0
  {
    if n == 0 then 1 else 10 * Power10(n - 1)
  }

  /** The number a run of digits writes, by position. */
  function Value(s: seq<byte>): int
    requires AllDigits(s)
  {
    if s == [] then 0 else (s[0] - 0x30) * Power10(|s| - 1) + Value(s[1..])
  }

  predicate EndsDigits(rest: seq<byte>) {
    rest == [] || !IsDigit(rest[0])
  }

  lemma DigitTimes(d: int, p: int)
    requires 0 <= d <= 9 && p > 0
    ensures 0 <= d * p <= 9 * p
  {
  }

  lemma {:induction false} ValueBounds(s: seq<byte>)
    requires AllDigits(s)
    ensures 0 <= Value(s) < Power10(|s|)
    decreases |s|
  {
    if s != [] {
      ValueBounds(s[1..]);
      var d, p := s[0] - 0x30, Power10(|s| - 1);
      DigitTimes(d, p);
    }
  }

  lemma Shift(acc: int, d: int, p: int)
    ensures (acc * 10 + d) * p == acc * (10 * p) + d * p
  {
  }

  lemma PowerStep(n: nat)
    requires n > 0
    ensures Power10(n) == 10 * Power10(n - 1)
  {
  }

  lemma {:induction false} WholeIsValue(s: seq<byte>, rest: seq<byte>, acc: int)
    requires AllDigits(s) && EndsDigits(rest)
    ensures Whole(s + rest, acc) == acc * Power10(|s|) + Value(s)
    decreases |s|
  {
    if s == [] {
      assert s + rest == rest;
      assert Power10(0) == 1;
    } else {
      var d := s[0] - 0x30;
      hide Power10;
      assert Power10(|s|) == 10 * Power10(|s| - 1) by { PowerStep(|s|); }
      assert (s + rest)[1..] == s[1..] + rest && (s + rest)[0] == s[0];
      WholeIsValue(s[1..], rest, acc * 10 + d);
      var p := Power10(|s| - 1);
      Shift(acc, d, p);
    }
  }

  lemma {:induction false} FractionIsValue(s: seq<byte>)
    requires AllDigits(s)
    ensures Fraction(s) * Power10(|s|) as real == Value(s) as real
    decreases |s|
  {
    hide Fraction, Value, Power10, AllDigits;
    FractionUnfolds(s);
    if s != [] {
      FractionIsValue(s[1..]);
      FractionStep(s[0] - 0x30, Fraction(s), Fraction(s[1..]), Power10(|s|), Power10(|s| - 1), Value(s), Value(s[1..]));
    }
  }

  lemma FractionUnfolds(s: seq<byte>)
    requires AllDigits(s)
    ensures s == [] ==> Fraction(s) * Power10(|s|) as real == Value(s) as real
    ensures s != [] ==>
              && IsDigit(s[0]) && AllDigits(s[1..]) && Power10(|s|) == 10 * Power10(|s| - 1)
              && Fraction(s) == ((s[0] - 0x30) as real + Fraction(s[1..])) / 10.0
              && Value(s) == (s[0] - 0x30) * Power10(|s| - 1) + Value(s[1..])
  {
  }

  lemma FractionStep(d: int, f: real, g: real, p: int, q: int, v: int, w: int)
    requires g * q as real == w as real && f == (d as real + g) / 10.0 && p == 10 * q && v == d * q + w
    ensures f * p as real == v as real
  {
    var r := q as real;
    Tenth(f, d as real + g, r);
    Spread(d as real, g, r);
    assert (d * q) as real == d as real * r;
    assert p as real == 10.0 * r;
  }

  lemma Tenth(f: real, g: real, p: real)
    requires f == g / 10.0
    ensures f * (10.0 * p) == g * p
  {
    assert f * 10.0 == g;
    assert f * (10.0 * p) == (f * 10.0) * p;
  }

  lemma Spread(d: real, g: real, p: real)
    ensures (d + g) * p == d * p + g * p
  {
  }

  lemma {:induction false} DigitCounts(s: seq<byte>)
    requires AllDigits(s)
    ensures CountDigits(s) == |s| && CountPoints(s) == 0
    decreases |s|
  {
    if s != [] {
      DigitCounts(s[1..]);
    }
  }

  lemma {:induction false} CountsConcat(a: seq<byte>, b: seq<byte>)
    ensures CountDigits(a + b) == CountDigits(a) + CountDigits(b)
    ensures CountPoints(a + b) == CountPoints(a) + CountPoints(b)
    decreases |a|
  {
    if a == [] {
      assert a + b == b;
    } else {
      assert (a + b)[1..] == a[1..] + b;
      CountsConcat(a[1..], b);
    }
  }

  lemma {:induction false} IndexAfter(a: seq<byte>, b: byte, rest: seq<byte>)
    requires b !in a
    ensures Index(a + [b] + rest, b) == |a|
    decreases |a|
  {
    var s := a + [b] + rest;
    if a != [] {
      assert s[1..] == a[1..] + [b] + rest;
      assert a[0] in a && forall x :: x in a[1..] ==> x in a;
      IndexAfter(a[1..], b, rest);
    }
  }

  /** What a number with a fraction writes. */
  function Written(w: seq<byte>, f: seq<byte>): real
    requires AllDigits(w) && AllDigits(f)
  {
    Value(w) as real + Value(f) as real / Power10(|f|) as real
  }

  lemma QuotientOf(x: real, y: real, z: real)
    requires x * y == z && y > 0.0
    ensures x == z / y
  {
  }

  lemma DecimalShape(w: seq<byte>, f: seq<byte>)
    requires AllDigits(w) && AllDigits(f) && w != []
    ensures var s := w + [POINT] + f;
      !Signed(s) && DigitsAndPoints(s) && CountDigits(s) > 0 && CountPoints(s) == 1
  {
    var s := w + [POINT] + f;
    assert s[0] == w[0];
    assert forall i :: |w| < i < |s| ==> s[i] == f[i - |w| - 1];
    DigitCounts(w);
    DigitCounts(f);
    CountsConcat(w, [POINT]);
    CountsConcat(w + [POINT], f);
    assert CountDigits([POINT]) == 0 && CountPoints([POINT]) == 1 by { assert [POINT][1..] == []; }
    hide CountDigits, CountPoints;
  }

  lemma DecimalParts(w: seq<byte>, f: seq<byte>)
    requires AllDigits(w) && AllDigits(f)
    ensures var s := w + [POINT] + f; var dot := Index(s, POINT);
      dot == |w| && s[dot + 1..] == f && Whole(s, 0) == Value(w)
  {
    hide Whole, Index, Value, Power10, AllDigits, EndsDigits;
    NoPointIn(w, f);
    IndexAfter(w, POINT, f);
    WholeIsValue(w, [POINT] + f, 0);
    Nought(Power10(|w|));
    AfterPoint(w, f);
  }

  lemma Nought(p: int)
    ensures 0 * p == 0
  {
  }

  lemma NoPointIn(w: seq<byte>, f: seq<byte>)
    requires AllDigits(w)
    ensures POINT !in w && EndsDigits([POINT] + f) && w + [POINT] + f == w + ([POINT] + f)
  {
  }

  lemma AfterPoint(w: seq<byte>, f: seq<byte>)
    ensures (w + [POINT] + f)[|w| + 1..] == f
  {
  }

  lemma FractionReads(f: seq<byte>)
    requires AllDigits(f)
    ensures Fraction(f) == Value(f) as real / Power10(|f|) as real
  {
    FractionIsValue(f);
    var x, y, z := Fraction(f), Power10(|f|) as real, Value(f) as real;
    hide Fraction, Value, Power10;
    QuotientOf(x, y, z);
  }

  lemma WrittenIs(w: seq<byte>, f: seq<byte>)
    requires AllDigits(w) && AllDigits(f)
    ensures Written(w, f) == Value(w) as real + Fraction(f)
  {
    FractionReads(f);
  }

  /** A number is read as what its digits write. */
  lemma DecimalReads(w: seq<byte>, f: seq<byte>)
    requires AllDigits(w) && AllDigits(f) && w != []
    ensures Decimal(w + [POINT] + f) == Some(Written(w, f))
  {
    hide Fraction, Whole, CountDigits, CountPoints, Index, Value, Power10, DigitsAndPoints, Signed, AllDigits, Written;
    DecimalShape(w, f);
    DecimalParts(w, f);
    WrittenIs(w, f);
  }

  lemma WholeReads(w: seq<byte>)
    requires AllDigits(w) && w != []
    ensures Decimal(w) == Some(Value(w) as real)
  {
    DigitCounts(w);
    assert w + [] == w;
    WholeIsValue(w, [], 0);
    assert POINT !in w;
    hide Fraction, Whole, CountDigits, CountPoints;
  }

  predicate Decimals(s: seq<byte>) {
    forall i :: 0 <= i < |s| ==> '0' as int <= s[i] <= '9' as int || s[i] == '.' as int
  }

  predicate SomeDigit(s: seq<byte>) {
    exists i :: 0 <= i < |s| && '0' as int <= s[i] <= '9' as int
  }

  predicate TwoPoints(s: seq<byte>) {
    exists i, j :: 0 <= i < j < |s| && s[i] == s[j] == '.' as int
  }

  lemma {:induction false} CountsTell(s: seq<byte>)
    ensures CountDigits(s) > 0 <==> SomeDigit(s)
    ensures CountPoints(s) > 0 <==> '.' as int in s
    ensures CountPoints(s) > 1 <==> TwoPoints(s)
    decreases |s|
  {
    if s != [] {
      var t := s[1..];
      CountsTell(t);
      if SomeDigit(t) {
        var i :| 0 <= i < |t| && '0' as int <= t[i] <= '9' as int;
        assert s[i + 1] == t[i];
      }
      if SomeDigit(s) && !IsDigit(s[0]) {
        var i :| 0 <= i < |s| && '0' as int <= s[i] <= '9' as int;
        assert t[i - 1] == s[i];
      }
      PointsTell(s);
    }
  }

  lemma PointsTell(s: seq<byte>)
    requires s != []
    ensures '.' as int in s <==> s[0] == '.' as int || '.' as int in s[1..]
    ensures TwoPoints(s) <==> TwoPoints(s[1..]) || (s[0] == '.' as int && '.' as int in s[1..])
  {
    var t := s[1..];
    if TwoPoints(t) {
      var i, j :| 0 <= i < j < |t| && t[i] == t[j] == '.' as int;
      assert s[i + 1] == s[j + 1] == '.' as int;
    }
    if s[0] == '.' as int && '.' as int in t {
      var j :| 0 <= j < |t| && t[j] == '.' as int;
      assert s[0] == s[j + 1] == '.' as int;
    }
    if TwoPoints(s) {
      var i, j :| 0 <= i < j < |s| && s[i] == s[j] == '.' as int;
      assert t[j - 1] == '.' as int && (i > 0 ==> t[i - 1] == '.' as int);
    }
  }

  /** A field is a number exactly if, behind a sign if it has one, it is digits and at most one point, and at least one digit. */
  lemma NumbersAre(s: seq<byte>)
    ensures var signed := s != [] && (s[0] == '+' as int || s[0] == '-' as int); var body := if signed then s[1..] else s;
      Decimal(s).Some? <==> Decimals(body) && SomeDigit(body) && !TwoPoints(body)
  {
    var body := Unsigned(s);
    CountsTell(body);
    hide Whole, Fraction, Index, CountDigits, CountPoints;
  }

  /** A sign before a number says which it is, and one that stands alone is none. */
  lemma SignReads(w: seq<byte>, f: seq<byte>)
    requires AllDigits(w) && AllDigits(f) && w != []
    ensures Decimal([MINUS] + (w + [POINT] + f)) == Some(-Written(w, f))
    ensures Decimal([PLUS] + (w + [POINT] + f)) == Some(Written(w, f))
    ensures Decimal([]) == Decimal([MINUS]) == Decimal([PLUS]) == None
  {
    var s := w + [POINT] + f;
    DecimalReads(w, f);
    DecimalShape(w, f);
    assert ([MINUS] + s)[1..] == s && ([PLUS] + s)[1..] == s;
    assert [MINUS][1..] == [] && [PLUS][1..] == [];
    hide Fraction, Whole, Index, Written, AllDigits, DigitsAndPoints, CountPoints;
  }

  /** An integer field is read as what its digits write, with its sign, if that fits 64 bits; anything else as the default. */
  lemma IntegerReads(w: seq<byte>, def: int)
    requires AllDigits(w) && w != []
    ensures AtoiDefault(w, def) == if Value(w) <= 0x7fff_ffff_ffff_ffff then Value(w) else def
    ensures AtoiDefault([PLUS] + w, def) == AtoiDefault(w, def)
    ensures AtoiDefault([MINUS] + w, def) == if Value(w) <= 0x8000_0000_0000_0000 then -Value(w) else def
    ensures AtoiDefault([], def) == def
  {
    DigitCounts(w);
    ValueBounds(w);
    WholeIsValue(w, [], 0);
    Nought(Power10(|w|));
    assert w + [] == w;
    assert ([MINUS] + w)[1..] == w && ([PLUS] + w)[1..] == w;
    hide Whole, Value, Power10, CountDigits;
  }

  lemma WrittenBounds(w: seq<byte>, f: seq<byte>)
    requires AllDigits(w) && AllDigits(f)
    ensures Written(w, f) >= 0.0
  {
    ValueBounds(w);
    ValueBounds(f);
    NotNegative(Value(f) as real, Power10(|f|) as real);
  }

  lemma NotNegative(x: real, y: real)
    requires x >= 0.0 && y > 0.0
    ensures x / y >= 0.0
  {
  }

  // ---- positions ------------------------------------------------------------------------------

  /** Degrees, two digits of minutes and their fraction, as a receiver writes a coordinate. */
  function Coordinate(deg: seq<byte>, min: seq<byte>, frac: seq<byte>): seq<byte> {
    deg + min + ['.' as int] + frac
  }

  /** A coordinate is read as its degrees plus a sixtieth of its minutes, negated in the hemisphere that is. */
  lemma CoordinateReads(deg: seq<byte>, min: seq<byte>, frac: seq<byte>, positive: byte, negative: byte, limit: real)
    requires AllDigits(deg) && AllDigits(min) && AllDigits(frac) && deg != [] && |min| == 2
    requires Written(min, frac) < 60.0 && positive != negative
    requires Value(deg) as real + Written(min, frac) / 60.0 <= limit
    ensures var d := Value(deg) as real + Written(min, frac) / 60.0; var s := Coordinate(deg, min, frac);
      && Degrees(s, [positive], positive, negative, limit) == Some(d)
      && Degrees(s, [negative], positive, negative, limit) == Some(-d)
  {
    hide Decimal, Value, Written, Index, AllDigits, Coordinate, Power10;
    CoordinateParts(deg, min, frac);
    WholeReads(deg);
    DecimalReads(min, frac);
    ValueBounds(deg);
    WrittenBounds(min, frac);
  }

  /** It is taken exactly if its minutes are below sixty, it is within the limit, and the hemisphere is one of the two. */
  lemma CoordinateTakenExactly(deg: seq<byte>, min: seq<byte>, frac: seq<byte>, hemisphere: seq<byte>, positive: byte, negative: byte, limit: real)
    requires AllDigits(deg) && AllDigits(min) && AllDigits(frac) && deg != [] && |min| == 2 && limit >= 0.0
    ensures Degrees(Coordinate(deg, min, frac), hemisphere, positive, negative, limit).Some? <==>
            && Written(min, frac) < 60.0 && Value(deg) as real + Written(min, frac) / 60.0 <= limit
            && hemisphere in {[positive], [negative]}
  {
    hide Decimal, Value, Written, Index, AllDigits, Coordinate, Power10;
    CoordinateParts(deg, min, frac);
    WholeReads(deg);
    DecimalReads(min, frac);
    ValueBounds(deg);
    WrittenBounds(min, frac);
  }

  lemma CoordinateParts(deg: seq<byte>, min: seq<byte>, frac: seq<byte>)
    requires AllDigits(deg) && AllDigits(min) && deg != [] && |min| == 2
    ensures var s := Coordinate(deg, min, frac); var dot := Index(s, POINT);
      && s != [] && dot == |deg| + 2 >= 3 && min != []
      && s[..dot - 2] == deg && s[dot - 2..] == min + [POINT] + frac
  {
    assert POINT !in deg + min;
    IndexAfter(deg + min, POINT, frac);
    hide Index, AllDigits;
    var s := Coordinate(deg, min, frac);
    assert s == (deg + min) + [POINT] + frac;
    assert s[..|deg|] == deg && s[|deg|..] == min + [POINT] + frac;
  }

  // ---- fields put together and cut apart again ---------------------------------------------------

  predicate NoCommas(f: seq<seq<byte>>) {
    forall k :: 0 <= k < |f| ==> COMMA !in f[k]
  }

  lemma {:induction false} IndexOfNone(a: seq<byte>, b: byte)
    requires b !in a
    ensures Index(a, b) == |a|
    decreases |a|
  {
    if a != [] {
      assert a[0] in a && forall x :: x in a[1..] ==> x in a;
      IndexOfNone(a[1..], b);
    }
  }

  /** Fields without commas come back as they were put together. */
  lemma {:induction false} SplitOfJoin(f: seq<seq<byte>>)
    requires f != [] && NoCommas(f)
    ensures Split(Join(f)) == f
    decreases |f|
  {
    if |f| == 1 {
      IndexOfNone(f[0], COMMA);
      assert f == [f[0]];
    } else {
      hide Join, Index, Split;
      SplitOfJoin(f[1..]);
      JoinStep(f);
      SplitStep(f[0], Join(f[1..]));
      assert f == [f[0]] + f[1..];
    }
  }

  lemma SplitStep(a: seq<byte>, rest: seq<byte>)
    requires COMMA !in a
    ensures Split(a + [COMMA] + rest) == [a] + Split(rest)
  {
    IndexAfter(a, COMMA, rest);
    var s := a + [COMMA] + rest;
    hide Index;
    assert s[..|a|] == a && s[|a| + 1..] == rest;
  }

  lemma JoinStep(f: seq<seq<byte>>)
    requires |f| > 1
    ensures Join(f) == f[0] + [COMMA] + Join(f[1..])
  {
  }

  /** A sealed sentence is its fields, and is told apart by what follows the talker. */
  lemma SealedIs(f: seq<seq<byte>>)
    requires f != [] && NoCommas(f) && |f[0]| == 5
    ensures f[0][2..] == [0x52, 0x4d, 0x43] ==> Classify(Seal(Join(f))) == RMC(f)
    ensures f[0][2..] == [0x47, 0x47, 0x41] ==> Classify(Seal(Join(f))) == GGA(f)
    ensures f[0][2..] !in {[0x52, 0x4d, 0x43], [0x47, 0x47, 0x41]} ==> Classify(Seal(Join(f))) == Other
  {
    SealVerifies(Join(f));
    SplitOfJoin(f);
    hide Seal, Join, Verify, Split;
  }

  // ---- dates and figures ---------------------------------------------------------------------------

  function Two(n: nat): (s: seq<byte>)
    requires n < 100
    ensures |s| == 2
  {
    ['0' as int + n / 10, '0' as int + n % 10]
  }

  lemma TwoReads(n: nat)
    requires n < 100
    ensures TwoDigits(Two(n)) == Some(n)
  {
  }

  predicate LeapYear(y: int) {
    y % 4 == 0 && (y % 100 != 0 || y % 400 == 0)
  }

  /** A day of the Gregorian calendar. */
  predicate RealDate(y: int, m: int, d: int) {
    && 1 <= m <= 12 && 1 <= d <= 31
    && (m in {4, 6, 9, 11} ==> d <= 30)
    && (m == 2 ==> d <= if LeapYear(y) then 29 else 28)
  }

  lemma SixDigits(a: nat, b: nat, c: nat, more: seq<byte>)
    requires a < 100 && b < 100 && c < 100
    ensures var s := Two(a) + Two(b) + Two(c) + more;
      |s| >= 6 && s[0..2] == Two(a) && s[2..4] == Two(b) && s[4..6] == Two(c)
  {
  }

  /** A date and a time of day are read as what they write, and refused exactly when there is none such. */
  lemma UtcReads(d: nat, mo: nat, y: nat, h: nat, mi: nat, s: nat, more: seq<byte>)
    requires d < 100 && mo < 100 && y < 100 && h < 100 && mi < 100 && s < 100
    ensures Utc(Two(d) + Two(mo) + Two(y), Two(h) + Two(mi) + Two(s) + more) ==
            if RealDate(2000 + y, mo, d) && h < 24 && mi < 60 && s < 60
            then Some(DateTime(2000 + y, mo, d, h, mi, s)) else None
  {
    SixDigits(d, mo, y, []);
    SixDigits(h, mi, s, more);
    assert Two(d) + Two(mo) + Two(y) + [] == Two(d) + Two(mo) + Two(y);
    TwoReads(d);
    TwoReads(mo);
    TwoReads(y);
    TwoReads(h);
    TwoReads(mi);
    TwoReads(s);
    hide Two, TwoDigits;
  }

  /** A speed in knots is given in whole km/h, to the nearest, and no more than 127; one below zero, or none, as 0. */
  lemma SpeedReads(f: seq<byte>)
    ensures var v := Speed(f); var knots := Decimal(f);
      && (knots == None || knots.value < 0.0 ==> v == 0)
      && (knots.Some? && knots.value >= 0.0 ==>
            if knots.value * 1.852 >= 126.5 then v == 127
            else v as real - 0.5 <= knots.value * 1.852 < v as real + 0.5)
  {
    hide Decimal;
  }

  /** A course is given in whole degrees, to the nearest, north being 0 and not 360; one off the circle, or none, as -1. */
  lemma CourseReads(f: seq<byte>)
    ensures var v := Course(f); var course := Decimal(f);
      && (v == -1 <==> course == None || course.value < 0.0 || course.value >= 360.0)
      && (v > 0 ==> v as real - 0.5 <= course.value < v as real + 0.5)
      && (v == 0 ==> course.value < 0.5 || course.value >= 359.5)
  {
    hide Decimal;
  }

  /** A GGA's figures: satellites up to 127, an accuracy of two and a half metres per unit of HDOP, and the altitude in metres. */
  lemma GgaReads(f: seq<seq<byte>>)
    requires |f| >= 10 && |f[0]| >= 2
    ensures GgaOf(f).Some?
    ensures var g := GgaOf(f).value; var quality, hdop, alt := Decimal(f[6]), Decimal(f[8]), Decimal(f[9]);
      && (g.noFix <==> !(quality.Some? && quality.value >= 1.0))
      && g.sats == (var n := AtoiDefault(f[7], 0); if n < 0 then 0 else if n > 127 then 127 else n)
      && (g.accuracy == -1 <==> hdop == None || hdop.value <= 0.0 || hdop.value >= 99.0)
      && (g.accuracy >= 0 && hdop.value * 2.5 < 127.5 ==> g.accuracy as real - 0.5 <= hdop.value * 2.5 < g.accuracy as real + 0.5)
      && (g.accuracy >= 0 && hdop.value * 2.5 >= 127.5 ==> g.accuracy == 127)
      && (alt == None ==> g.altitude == -500)
      && (alt.Some? && 0.0 <= alt.value <= 32767.0 ==> g.altitude as real <= alt.value < g.altitude as real + 1.0)
      && (alt.Some? && -500.0 <= alt.value <= 0.0 ==> g.altitude as real - 1.0 < alt.value <= g.altitude as real)
      && (alt.Some? && alt.value > 32767.0 ==> g.altitude == 32767) && (alt.Some? && alt.value < -500.0 ==> g.altitude == -500)
  {
    hide Decimal, AtoiDefault;
  }

  /** A GGA without a solution leaves the figures of the last one with a solution; one with a solution replaces them. */
  lemma GgaReplacesFigures(r: Reader, f: seq<seq<byte>>)
    requires GgaOf(f).Some?
    ensures var r' := OnGga(r, f); var g := GgaOf(f).value;
      && r'.sentences == r.sentences + 1 == r'.ggaAt && r'.ggaNoFix == g.noFix && r'.talker == g.talker
      && (if g.noFix then r'.sats == r.sats && r'.accuracy == r.accuracy && r'.altitude == r.altitude
          else r'.sats == g.sats && r'.accuracy == g.accuracy && r'.altitude == g.altitude)
  {
    hide GgaOf;
  }

  // ---- a sentence, from its text to the fix ---------------------------------------------------------------

  /** Whether a GGA is remembered and at most four good sentences old when the next is in. */
  predicate Recent(r: Reader) {
    r.ggaAt > 0 && r.sentences + 1 - r.ggaAt <= 4
  }

  /**
   An RMC yields a fix exactly when it has its fields, says its data is valid, no recent
   GGA says there is none, and both coordinates can be read. The fix is then at that
   position, with that speed, course and time.
   */
  lemma RmcYieldsFix(r: Reader, f: seq<seq<byte>>)
    ensures var fix := OnRmc(r, f).1;
      && (fix.Some? <==> |f| >= 10 && f[2] == ['A' as int] && !(r.ggaNoFix && Recent(r))
                         && Degrees(f[3], f[4], 'N' as int, 'S' as int, 90.0).Some?
                         && Degrees(f[5], f[6], 'E' as int, 'W' as int, 180.0).Some?)
      && (fix.Some? ==>
            && Degrees(f[3], f[4], 'N' as int, 'S' as int, 90.0) == Some(fix.value.lat)
            && Degrees(f[5], f[6], 'E' as int, 'W' as int, 180.0) == Some(fix.value.lon)
            && fix.value.speedKPH == Speed(f[7]) && fix.value.courseDeg == Course(f[8])
            && fix.value.time == Utc(f[9], f[1]))
      && OnRmc(r, f).0 == (if |f| >= 10 && (f[2] != ['A' as int] || (r.ggaNoFix && Recent(r)) || fix.Some?)
                           then r.(sentences := r.sentences + 1) else r.(bad := r.bad + 1))
  {
    hide Degrees, Speed, Course, Utc;
  }

  /** What a receiver says in an RMC. */
  datatype Report = Report(
    talker: seq<byte>, h: nat, mi: nat, s: nat, more: seq<byte>,
    latDeg: seq<byte>, latMin: seq<byte>, latFrac: seq<byte>, north: bool,
    lonDeg: seq<byte>, lonMin: seq<byte>, lonFrac: seq<byte>, east: bool,
    knots: seq<byte>, course: seq<byte>, d: nat, mo: nat, y: nat)

  function Angle(deg: seq<byte>, min: seq<byte>, frac: seq<byte>): real
    requires AllDigits(deg) && AllDigits(min) && AllDigits(frac)
  {
    Value(deg) as real + Written(min, frac) / 60.0
  }

  predicate Coordinates(deg: seq<byte>, min: seq<byte>, frac: seq<byte>, limit: real) {
    && AllDigits(deg) && AllDigits(min) && AllDigits(frac) && deg != [] && |min| == 2
    && Written(min, frac) < 60.0 && Angle(deg, min, frac) <= limit
  }

  predicate Sendable(x: Report) {
    && |x.talker| == 2 && COMMA !in x.talker && COMMA !in x.more && COMMA !in x.knots && COMMA !in x.course
    && x.h < 24 && x.mi < 60 && x.s < 60 && x.y < 100 && RealDate(2000 + x.y, x.mo, x.d)
    && Coordinates(x.latDeg, x.latMin, x.latFrac, 90.0) && Coordinates(x.lonDeg, x.lonMin, x.lonFrac, 180.0)
  }

  function Fields(x: Report): seq<seq<byte>>
    requires Sendable(x)
  {
    [x.talker + ['R' as int, 'M' as int, 'C' as int], Two(x.h) + Two(x.mi) + Two(x.s) + x.more, ['A' as int],
     Coordinate(x.latDeg, x.latMin, x.latFrac), [if x.north then 'N' as int else 'S' as int],
     Coordinate(x.lonDeg, x.lonMin, x.lonFrac), [if x.east then 'E' as int else 'W' as int],
     x.knots, x.course, Two(x.d) + Two(x.mo) + Two(x.y)]
  }

  lemma FieldsHaveNoCommas(x: Report)
    requires Sendable(x)
    ensures NoCommas(Fields(x)) && |Fields(x)| == 10 && |Fields(x)[0]| == 5
    ensures Fields(x)[0][2..] == [0x52, 0x4d, 0x43]
  {
    assert COMMA !in Coordinate(x.latDeg, x.latMin, x.latFrac) && COMMA !in Coordinate(x.lonDeg, x.lonMin, x.lonFrac);
    hide Coordinate, Written, Value, RealDate;
  }

  lemma AngleReads(deg: seq<byte>, min: seq<byte>, frac: seq<byte>, up: bool, positive: byte, negative: byte, limit: real)
    requires Coordinates(deg, min, frac, limit) && positive != negative
    ensures Degrees(Coordinate(deg, min, frac), [if up then positive else negative], positive, negative, limit) ==
            Some(if up then Angle(deg, min, frac) else -Angle(deg, min, frac))
  {
    hide Degrees, Written, Value, Coordinate, AllDigits;
    CoordinateReads(deg, min, frac, positive, negative, limit);
  }

  lemma PositionReads(x: Report)
    requires Sendable(x)
    ensures var lat, lon := Angle(x.latDeg, x.latMin, x.latFrac), Angle(x.lonDeg, x.lonMin, x.lonFrac);
      && Degrees(Fields(x)[3], Fields(x)[4], 'N' as int, 'S' as int, 90.0) == Some(if x.north then lat else -lat)
      && Degrees(Fields(x)[5], Fields(x)[6], 'E' as int, 'W' as int, 180.0) == Some(if x.east then lon else -lon)
  {
    hide Degrees, Angle, RealDate, Coordinate, Two, Coordinates;
    AngleReads(x.latDeg, x.latMin, x.latFrac, x.north, 'N' as int, 'S' as int, 90.0);
    AngleReads(x.lonDeg, x.lonMin, x.lonFrac, x.east, 'E' as int, 'W' as int, 180.0);
  }

  /**
   What a receiver sends is what is read: an RMC with a valid position comes out of its
   sealed text as a fix with that position, date and time, unless a recent GGA denies it.
   */
  lemma ReportIsRead(r: Reader, x: Report)
    requires Sendable(x) && !(r.ggaNoFix && Recent(r))
    ensures var (r', fix) := OnSentence(r, Seal(Join(Fields(x))));
      var lat, lon := Angle(x.latDeg, x.latMin, x.latFrac), Angle(x.lonDeg, x.lonMin, x.lonFrac);
      && r' == r.(sentences := r.sentences + 1) && fix.Some?
      && fix.value.lat == (if x.north then lat else -lat) && fix.value.lon == (if x.east then lon else -lon)
      && fix.value.time == Some(DateTime(2000 + x.y, x.mo, x.d, x.h, x.mi, x.s))
      && fix.value.speedKPH == Speed(x.knots) && fix.value.courseDeg == Course(x.course)
  {
    hide Seal, Join, Degrees, Utc, Speed, Course, Angle, OnRmc, Classify;
    var f := Fields(x);
    FieldsHaveNoCommas(x);
    SealedIs(f);
    RmcYieldsFix(r, f);
    PositionReads(x);
    UtcReads(x.d, x.mo, x.y, x.h, x.mi, x.s, x.more);
    assert f[9] == Two(x.d) + Two(x.mo) + Two(x.y) && f[1] == Two(x.h) + Two(x.mi) + Two(x.s) + x.more;
    assert f[7] == x.knots && f[8] == x.course && f[2] == ['A' as int];
    hide Fields, Sendable;
  }
}
