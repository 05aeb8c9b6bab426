/**
 The NMEA 0183 reader: bytes in, position fixes out. Numbers are exact here where
 the source rounds to floating point.
 */
module Nmea {
  import opened Bytes

  const MAX_SENTENCE := 164
  const GGA_STALE_AFTER := 4
  const MAX_INT := 0x7fff_ffff_ffff_ffff

  const DOLLAR: byte := 0x24
  const CR: byte := 0x0d
  const LF: byte := 0x0a
  const STAR: byte := 0x2a
  const COMMA: byte := 0x2c
  const POINT: byte := 0x2e
  const PLUS: byte := 0x2b
  const MINUS: byte := 0x2d

  datatype DateTime = DateTime(year: int, month: int, day: int, hour: int, minute: int, second: int)

  datatype Fix = Fix(
    lat: real, lon: real, accuracyM: int, altitudeM: int, speedKPH: int, satCount: int, courseDeg: int,
    time: Option<DateTime>)

  /** What the latest well-formed GGA said of the solution. */
  datatype Gga = Gga(noFix: bool, sats: int, accuracy: int, altitude: int, talker: seq<byte>)

  datatype Reader = Reader(
    line: seq<byte>, dropped: bool, started: bool,
    sats: int, accuracy: int, altitude: int, ggaAt: nat, ggaNoFix: bool,
    sentences: nat, others: nat, bad: nat, talker: seq<byte>)

  const NEW := Reader([], false, false, 0, 0, 0, 0, false, 0, 0, 0, [])

  // ---- numbers off the wire ----------------------------------------------------------

  predicate IsDigit(b: byte) {
    0x30 <= b <= 0x39
  }

  function CountDigits(s: seq<byte>): nat {
    if s == [] then 0 else (if IsDigit(s[0]) then 1 else 0) + CountDigits(s[1..])
  }

  function CountPoints(s: seq<byte>): nat {
    if s == [] then 0 else (if s[0] == POINT then 1 else 0) + CountPoints(s[1..])
  }

  predicate DigitsAndPoints(s: seq<byte>) {
    forall i :: 0 <= i < |s| ==> IsDigit(s[i]) || s[i] == POINT
  }

  predicate Signed(s: seq<byte>) {
    s != [] && (s[0] == PLUS || s[0] == MINUS)
  }

  function Unsigned(s: seq<byte>): seq<byte> {
    if Signed(s) then s[1..] else s
  }

  function Whole(s: seq<byte>, acc: int): int {
    if s == [] || !IsDigit(s[0]) then acc else Whole(s[1..], acc * 10 + (s[0] - 0x30))
  }

  function Fraction(s: seq<byte>): real {
    if s == [] || !IsDigit(s[0]) then 0.0 else ((s[0] - 0x30) as real + Fraction(s[1..])) / 10.0
  }

  function Index(s: seq<byte>, b: byte): (i: nat)
    ensures i <= |s| && (i < |s| ==> s[i] == b) && forall k :: 0 <= k < i ==> s[k] != b
  {
    if s == [] || s[0] == b then 0 else 1 + Index(s[1..], b)
  }

  /** The number a field writes, if it is digits with or without a sign and a point. */
  function Decimal(s: seq<byte>): Option<real> {
    var body := Unsigned(s);
    if !DigitsAndPoints(body) || CountDigits(body) == 0 || CountPoints(body) > 1 then None
    else
      var dot := Index(body, POINT);
      var v := Whole(body, 0) as real + (if dot < |body| then Fraction(body[dot + 1..]) else 0.0);
      Some(if Signed(s) && s[0] == MINUS then -v else v)
  }

  function AtoiDefault(s: seq<byte>, def: int): int {
    var body := Unsigned(s);
    if body == [] || CountDigits(body) != |body| then def
    else
      var v := if Signed(s) && s[0] == MINUS then -Whole(body, 0) else Whole(body, 0);
      if -MAX_INT - 1 <= v <= MAX_INT then v else def
  }

  function ClampInt(v: int, lo: int, hi: int): int {
    Min(Max(v, lo), hi)
  }

  function ClampReal(v: real, lo: real, hi: real): real {
    if v < lo then lo else if v > hi then hi else v
  }

  /** A conversion to an integer drops the fraction. */
  function Truncate(x: real): int {
    if x >= 0.0 then x.Floor else -(-x).Floor
  }

  // ---- a sentence's parts --------------------------------------------------------------

  function HexDigit(b: byte): Option<nat> {
    if IsDigit(b) then Some(b - 0x30)
    else if 0x41 <= b <= 0x46 then Some(b - 0x37)
    else if 0x61 <= b <= 0x66 then Some(b - 0x57)
    else None
  }

  function LastIndex(s: seq<byte>, b: byte): (i: int)
    ensures -1 <= i < |s| && (i >= 0 ==> s[i] == b) && forall k :: i < k < |s| ==> s[k] != b
  {
    if s == [] then -1
    else if s[|s| - 1] == b then |s| - 1
    else LastIndex(s[..|s| - 1], b)
  }

  function XorAll(s: seq<byte>): byte {
    if s == [] then 0 else Xor(XorAll(s[..|s| - 1]), s[|s| - 1])
  }

  /** The sentence before its checksum: a star, two hexadecimal digits of the exclusive-or of what precedes it, and the end. */
  function Verify(s: seq<byte>): Option<seq<byte>> {
    var star := LastIndex(s, STAR);
    if star < 0 || star + 3 != |s| then None
    else
      var hi, lo := HexDigit(s[star + 1]), HexDigit(s[star + 2]);
      if hi == None || lo == None || XorAll(s[..star]) != 16 * hi.value + lo.value then None
      else Some(s[..star])
  }

  function Split(s: seq<byte>): (f: seq<seq<byte>>)
    ensures |f| >= 1
    decreases |s|
  {
    var i := Index(s, COMMA);
    if i == |s| then [s] else [s[..i]] + Split(s[i + 1..])
  }

  /** A signed angle out of ddmm.mmm text and a hemisphere letter, if it is within the limit. */
  function Degrees(value: seq<byte>, hemisphere: seq<byte>, positive: byte, negative: byte, limit: real): (r: Option<real>)
    ensures r.Some? ==> -limit <= r.value <= limit
  {
    var dot := Index(value, POINT);
    if value == [] || hemisphere == [] || dot < 3 then None
    else
      var deg, min := Decimal(value[..dot - 2]), Decimal(value[dot - 2..]);
      if deg == None || deg.value < 0.0 || min == None || min.value < 0.0 || min.value >= 60.0 then None
      else
        var d := deg.value + min.value / 60.0;
        if hemisphere != [positive] && hemisphere != [negative] then None
        else
          var signed := if hemisphere == [positive] then d else -d;
          if signed < -limit || signed > limit then None else Some(signed)
  }

  function Latitude(value: seq<byte>, hemisphere: seq<byte>): Option<real> {
    Degrees(value, hemisphere, 0x4e, 0x53, 90.0)
  }

  function Longitude(value: seq<byte>, hemisphere: seq<byte>): Option<real> {
    Degrees(value, hemisphere, 0x45, 0x57, 180.0)
  }

  function HdopAccuracy(hdop: real): int {
    if hdop <= 0.0 || hdop >= 99.0 then -1 else ClampInt(Truncate(hdop * 2.5 + 0.5), 0, 127)
  }

  function TwoDigits(s: seq<byte>): Option<int> {
    if |s| != 2 || !IsDigit(s[0]) || !IsDigit(s[1]) then None else Some((s[0] - 0x30) * 10 + (s[1] - 0x30))
  }

  function DaysIn(year: int, month: int): int {
    if month == 2 then (if year % 4 == 0 then 29 else 28)
    else if month in {4, 6, 9, 11} then 30
    else 31
  }

  /** The date and time of day, in the years 2000 to 2099, if they are ones. */
  function Utc(date: seq<byte>, clock: seq<byte>): (t: Option<DateTime>)
    ensures t.Some? ==> 2000 <= t.value.year <= 2099 && 1 <= t.value.month <= 12
                        && 1 <= t.value.day <= DaysIn(t.value.year, t.value.month)
                        && 0 <= t.value.hour <= 23 && 0 <= t.value.minute <= 59 && 0 <= t.value.second <= 59
  {
    if |date| != 6 || |clock| < 6 then None
    else
      var d, mo, y := TwoDigits(date[0..2]), TwoDigits(date[2..4]), TwoDigits(date[4..6]);
      var h, mi, s := TwoDigits(clock[0..2]), TwoDigits(clock[2..4]), TwoDigits(clock[4..6]);
      if d == None || mo == None || y == None || h == None || mi == None || s == None then None
      else if mo.value < 1 || mo.value > 12 || d.value < 1 || d.value > 31
              || h.value > 23 || mi.value > 59 || s.value > 59 then None
      else if d.value > DaysIn(2000 + y.value, mo.value) then None
      else Some(DateTime(2000 + y.value, mo.value, d.value, h.value, mi.value, s.value))
  }

  // ---- sentences ----------------------------------------------------------------------------

  /** The two sentences that are read, a sentence that is not, and a line that is none. */
  datatype Sentence = GGA(f: seq<seq<byte>>) | RMC(f: seq<seq<byte>>) | Other | Broken

  function Classify(s: seq<byte>): Sentence {
    match Verify(s)
    case None => Broken
    case Some(body) =>
      var f := Split(body);
      if |f[0]| < 5 then Broken
      else if f[0][2..] == [0x47, 0x47, 0x41] then GGA(f)
      else if f[0][2..] == [0x52, 0x4d, 0x43] then RMC(f)
      else Other
  }

  /** What a GGA says, if it holds its fields; a quality below 1, or none, is no solution. */
  function GgaOf(f: seq<seq<byte>>): Option<Gga> {
    if |f| < 10 || |f[0]| < 2 then None
    else
      var quality := Decimal(f[6]);
      var hdop, alt := Decimal(f[8]), Decimal(f[9]);
      Some(Gga(
        quality == None || quality.value < 1.0,
        ClampInt(AtoiDefault(f[7], 0), 0, 127),
        HdopAccuracy(if hdop.Some? then hdop.value else -1.0),
        if alt.Some? then Truncate(ClampReal(alt.value, -500.0, 32767.0)) else -500,
        f[0][..2]))
  }

  function Speed(f: seq<byte>): int {
    var knots := Decimal(f);
    if knots.Some? && knots.value >= 0.0 then Truncate(ClampReal(knots.value * 1.852 + 0.5, 0.0, 127.0)) else 0
  }

  function Course(f: seq<byte>): int {
    var course := Decimal(f);
    if course.Some? && 0.0 <= course.value < 360.0 then
      var c := Truncate(course.value + 0.5);
      if c == 360 then 0 else c
    else -1
  }

  function OnGga(r: Reader, f: seq<seq<byte>>): Reader {
    match GgaOf(f)
    case None => r.(bad := r.bad + 1)
    case Some(g) => Remembering(r, g).(sentences := r.sentences + 1, talker := g.talker)
  }

  /** The reader with a GGA in mind: a solution's figures stay when a later one has none. */
  function Remembering(r: Reader, g: Gga): Reader {
    var r1 := r.(ggaAt := r.sentences + 1, ggaNoFix := g.noFix);
    if g.noFix then r1 else r1.(sats := g.sats, accuracy := g.accuracy, altitude := g.altitude)
  }

  /** The last GGA is recent enough to go with what comes now. */
  predicate GgaCurrent(r: Reader) {
    r.ggaAt != 0 && r.sentences + 1 - r.ggaAt <= GGA_STALE_AFTER
  }

  function OnRmc(r: Reader, f: seq<seq<byte>>): (Reader, Option<Fix>) {
    var good := r.(sentences := r.sentences + 1);
    if |f| < 10 then (r.(bad := r.bad + 1), None)
    else if f[2] != [0x41] then (good, None)
    else if r.ggaNoFix && GgaCurrent(r) then (good, None)
    else
      var lat, lon := Latitude(f[3], f[4]), Longitude(f[5], f[6]);
      if lat == None || lon == None then (r.(bad := r.bad + 1), None)
      else if GgaCurrent(r) then
        (good, Some(Fix(lat.value, lon.value, r.accuracy, r.altitude, Speed(f[7]), r.sats, Course(f[8]), Utc(f[9], f[1]))))
      else
        (good, Some(Fix(lat.value, lon.value, -1, -500, Speed(f[7]), 0, Course(f[8]), Utc(f[9], f[1]))))
  }

  /** What stands between a dollar and a line ending, handled. */
  function OnSentence(r: Reader, s: seq<byte>): (Reader, Option<Fix>) {
    match Classify(s)
    case GGA(f) => (OnGga(r, f), None)
    case RMC(f) => OnRmc(r, f)
    case Other => (r.(others := r.others + 1), None)
    case Broken => (r.(bad := r.bad + 1), None)
  }

  // ---- the byte stream ---------------------------------------------------------------------------

  function Feed(r: Reader, b: byte): (Reader, Option<Fix>) {
    if b == DOLLAR then (r.(line := [], dropped := false, started := true), None)
    else if b == CR || b == LF then
      var r1 := r.(line := [], dropped := false, started := false);
      if !r.started || r.dropped || r.line == [] then (r1, None) else OnSentence(r1, r.line)
    else if |r.line| == MAX_SENTENCE then (r.(dropped := true), None)
    else (r.(line := r.line + [b]), None)
  }

  /** A block of bytes; of the fixes in it, the last. */
  function FeedAll(r: Reader, p: seq<byte>): (Reader, Option<Fix>) {
    if p == [] then (r, None)
    else
      var (r1, last) := FeedAll(r, p[..|p| - 1]);
      var (r2, fix) := Feed(r1, p[|p| - 1]);
      (r2, if fix.Some? then fix else last)
  }

  /** However a stream is split into blocks, the reader ends where it would have, and the last fix is the last block's that has one. */
  lemma {:induction false} SplitAnywhere(r: Reader, p: seq<byte>, q: seq<byte>)
    ensures var (r1, a) := FeedAll(r, p); var (r2, b) := FeedAll(r1, q);
      FeedAll(r, p + q) == (r2, if b.Some? then b else a)
    decreases |q|
  {
    hide Feed;
    if q == [] {
      assert p + q == p;
    } else {
      var last := |q| - 1;
      assert (p + q)[..|p + q| - 1] == p + q[..last];
      SplitAnywhere(r, p, q[..last]);
    }
  }

  // ---- which lines a stream completes ------------------------------------------------------------------

  predicate Special(b: byte) {
    b == '$' as int || b == '\r' as int || b == '\n' as int
  }

  /** What follows the last dollar or line ending. */
  function TailOf(p: seq<byte>): (t: seq<byte>)
    ensures |t| <= |p|
  {
    if p == [] || Special(p[|p| - 1]) then [] else TailOf(p[..|p| - 1]) + [p[|p| - 1]]
  }

  /** The byte before that tail is a dollar. */
  predicate Opened(p: seq<byte>) {
    p != [] && (if Special(p[|p| - 1]) then p[|p| - 1] == '$' as int else Opened(p[..|p| - 1]))
  }

  /** The sentences of a stream: between a dollar and the line ending next after it, with no other dollar between, neither empty nor overlong. */
  function Sentences(p: seq<byte>): seq<seq<byte>> {
    if p == [] then []
    else
      var front, b := p[..|p| - 1], p[|p| - 1];
      if (b == '\r' as int || b == '\n' as int) && Opened(front) && 0 < |TailOf(front)| <= 164
      then Sentences(front) + [TailOf(front)] else Sentences(front)
  }

  /** The reader's counters and GGA memory, apart from the line it is in. */
  function Between(r: Reader): Reader {
    r.(line := [], dropped := false, started := false)
  }

  function Handle(r: Reader, lines: seq<seq<byte>>): (Reader, Option<Fix>) {
    if lines == [] then (r, None)
    else
      var (r1, last) := Handle(r, lines[..|lines| - 1]);
      var (r2, fix) := OnSentence(r1, lines[|lines| - 1]);
      (r2, if fix.Some? then fix else last)
  }

  predicate AtLineOf(r: Reader, p: seq<byte>) {
    && (r.started <==> Opened(p))
    && (r.started ==> (r.dropped <==> |TailOf(p)| > MAX_SENTENCE))
    && (r.started && !r.dropped ==> r.line == TailOf(p))
    && (r.dropped ==> |r.line| == MAX_SENTENCE)
  }

  lemma OnSentenceBetween(r: Reader, s: seq<byte>)
    ensures OnSentence(r, s).0 == OnSentence(Between(r), s).0.(line := r.line, dropped := r.dropped, started := r.started)
    ensures OnSentence(r, s).1 == OnSentence(Between(r), s).1
  {
    hide Classify, OnGga, OnRmc;
    match Classify(s)
    case GGA(f) => GgaBetween(r, f);
    case RMC(f) => RmcBetween(r, f);
    case _ =>
  }

  lemma GgaBetween(r: Reader, f: seq<seq<byte>>)
    ensures OnGga(r, f) == OnGga(Between(r), f).(line := r.line, dropped := r.dropped, started := r.started)
  {
    hide GgaOf;
  }

  lemma RmcBetween(r: Reader, f: seq<seq<byte>>)
    ensures OnRmc(r, f).0 == OnRmc(Between(r), f).0.(line := r.line, dropped := r.dropped, started := r.started)
    ensures OnRmc(r, f).1 == OnRmc(Between(r), f).1
  {
    hide Latitude, Longitude, Speed, Course, Utc;
  }

  lemma TailStep(p: seq<byte>, b: byte)
    ensures TailOf(p + [b]) == if Special(b) then [] else TailOf(p) + [b]
    ensures Opened(p + [b]) == if Special(b) then b == DOLLAR else Opened(p)
  {
    var q := p + [b];
    assert q[..|q| - 1] == p;
  }

  lemma FeedAtLine(r: Reader, p: seq<byte>, b: byte)
    requires AtLineOf(r, p)
    ensures AtLineOf(Feed(r, b).0, p + [b])
  {
    TailStep(p, b);
    hide OnSentence, TailOf, Opened;
    if b == CR || b == LF {
      OnSentenceBetween(r.(line := [], dropped := false, started := false), r.line);
    }
  }

  lemma SentencesStep(p: seq<byte>, b: byte)
    ensures Sentences(p + [b]) ==
            if (b == CR || b == LF) && Opened(p) && 0 < |TailOf(p)| <= MAX_SENTENCE then Sentences(p) + [TailOf(p)] else Sentences(p)
  {
    var q := p + [b];
    assert q[..|q| - 1] == p && q[|q| - 1] == b;
    hide TailOf, Opened;
  }

  /** One more byte, seen from the sentences it completes. */
  lemma FeedCompletes(r: Reader, p: seq<byte>, b: byte)
    requires AtLineOf(r, p)
    ensures var q := p + [b]; var (r', fix) := Feed(r, b);
      if |Sentences(q)| > |Sentences(p)| then
        Sentences(q) == Sentences(p) + [TailOf(p)]
        && Between(r') == OnSentence(Between(r), TailOf(p)).0 && fix == OnSentence(Between(r), TailOf(p)).1
      else Sentences(q) == Sentences(p) && Between(r') == Between(r) && fix == None
  {
    SentencesStep(p, b);
    hide OnSentence, TailOf, Opened, Sentences;
    if b == CR || b == LF {
      OnSentenceBetween(r.(line := [], dropped := false, started := false), r.line);
    }
  }

  /**
   The reader refines the list of sentences: after any bytes it is where handling the
   stream's sentences one by one leaves it, with the same last fix. So each complete
   sentence that did not overrun is handled exactly once, and nothing else is.
   */
  lemma {:induction false} StreamIsItsSentences(p: seq<byte>)
    ensures var (r, fix) := FeedAll(NEW, p);
      AtLineOf(r, p) && (Between(r), fix) == Handle(NEW, Sentences(p))
    decreases |p|
  {
    if p != [] {
      var front, b := p[..|p| - 1], p[|p| - 1];
      assert p == front + [b];
      StreamIsItsSentences(front);
      var r := FeedAll(NEW, front).0;
      FeedAtLine(r, front, b);
      FeedCompletes(r, front, b);
      hide Feed, OnSentence, AtLineOf, TailOf, Sentences, Between;
      if |Sentences(p)| > |Sentences(front)| {
        HandleOneMore(Sentences(front), TailOf(front));
      }
    }
  }

  lemma HandleOneMore(lines: seq<seq<byte>>, s: seq<byte>)
    ensures var (r1, last) := Handle(NEW, lines); var (r2, fix) := OnSentence(r1, s);
      Handle(NEW, lines + [s]) == (r2, if fix.Some? then fix else last)
  {
    assert (lines + [s])[..|lines|] == lines;
  }

  // ---- counting ------------------------------------------------------------------------------------

  /** A sentence is counted exactly once: as good, as another's, or as bad. */
  lemma CountedOnce(r: Reader, s: seq<byte>)
    ensures var r' := OnSentence(r, s).0;
      && r'.sentences + r'.others + r'.bad == r.sentences + r.others + r.bad + 1
      && r'.sentences >= r.sentences && r'.others >= r.others && r'.bad >= r.bad
      && (OnSentence(r, s).1.Some? ==> r'.sentences == r.sentences + 1)
  {
    hide Classify, GgaOf, Latitude, Longitude, Speed, Course, Utc;
  }

  lemma {:induction false} CountsLines(lines: seq<seq<byte>>)
    ensures var r := Handle(NEW, lines).0; r.sentences + r.others + r.bad == |lines|
    decreases |lines|
  {
    if lines != [] {
      CountsLines(lines[..|lines| - 1]);
      CountedOnce(Handle(NEW, lines[..|lines| - 1]).0, lines[|lines| - 1]);
      hide OnSentence;
    }
  }

  /** For every stream: good, other and bad together are its complete sentences. */
  lemma EverySentenceIsCounted(p: seq<byte>)
    ensures var r := FeedAll(NEW, p).0; r.sentences + r.others + r.bad == |Sentences(p)|
  {
    StreamIsItsSentences(p);
    CountsLines(Sentences(p));
    hide Sentences, Handle, FeedAll;
  }

  // ---- where a fix's figures come from ------------------------------------------------------------------

  /** The GGA a line is, if it is a well-formed one. */
  function WellFormedGga(s: seq<byte>): Option<Gga> {
    match Classify(s)
    case GGA(f) => GgaOf(f)
    case _ => None
  }

  /** The last well-formed GGA among the lines, or -1. */
  function LatestGga(lines: seq<seq<byte>>): (g: int)
    ensures -1 <= g < |lines|
    ensures g >= 0 ==> WellFormedGga(lines[g]).Some?
  {
    hide WellFormedGga;
    if lines == [] then -1
    else if WellFormedGga(lines[|lines| - 1]).Some? then |lines| - 1
    else LatestGga(lines[..|lines| - 1])
  }

  /** No line behind it is one. */
  lemma {:induction false} LatestIsLast(lines: seq<seq<byte>>)
    ensures forall k :: LatestGga(lines) < k < |lines| ==> WellFormedGga(lines[k]) == None
    decreases |lines|
  {
    hide WellFormedGga;
    if lines != [] && WellFormedGga(lines[|lines| - 1]) == None {
      var front := lines[..|lines| - 1];
      LatestIsLast(front);
      assert forall k :: 0 <= k < |front| ==> front[k] == lines[k];
    }
  }

  /** Good sentences among the first n lines. */
  function Good(lines: seq<seq<byte>>, n: nat): nat
    requires n <= |lines|
  {
    Handle(NEW, lines[..n]).0.sentences
  }

  /** The reader remembers the last well-formed GGA, when it came, and the figures of the last with a solution. */
  predicate Remembers(r: Reader, lines: seq<seq<byte>>) {
    var g := LatestGga(lines);
    && (g < 0 ==> r.ggaAt == 0)
    && (g >= 0 ==>
          var x := WellFormedGga(lines[g]).value;
          && r.ggaAt == Good(lines, g + 1) >= 1 && r.ggaAt <= r.sentences && r.ggaNoFix == x.noFix
          && (!x.noFix ==> r.sats == x.sats && r.accuracy == x.accuracy && r.altitude == x.altitude))
  }

  /** A line that is no well-formed GGA leaves what is remembered of them alone. */
  lemma OthersLeaveGga(r: Reader, s: seq<byte>)
    requires WellFormedGga(s) == None
    ensures var r' := OnSentence(r, s).0;
      && r'.ggaAt == r.ggaAt && r'.ggaNoFix == r.ggaNoFix && r'.sats == r.sats
      && r'.accuracy == r.accuracy && r'.altitude == r.altitude && r'.sentences >= r.sentences
  {
    hide GgaOf, Latitude, Longitude, Speed, Course, Utc, Verify, Split;
  }

  lemma GgaIsKept(r: Reader, s: seq<byte>)
    requires WellFormedGga(s).Some?
    ensures var r' := OnSentence(r, s).0; var x := WellFormedGga(s).value;
      && r'.ggaAt == r'.sentences == r.sentences + 1 && r'.ggaNoFix == x.noFix
      && (!x.noFix ==> r'.sats == x.sats && r'.accuracy == x.accuracy && r'.altitude == x.altitude)
  {
    hide GgaOf, Verify, Split, OnRmc;
  }

  lemma {:induction false} AlwaysRemembers(lines: seq<seq<byte>>)
    ensures Remembers(Handle(NEW, lines).0, lines)
    decreases |lines|
  {
    hide OnSentence, WellFormedGga;
    if lines != [] {
      var n := |lines| - 1;
      var front, s := lines[..n], lines[n];
      AlwaysRemembers(front);
      var r := Handle(NEW, front).0;
      assert lines[..n + 1] == lines;
      if WellFormedGga(s).Some? {
        GgaIsKept(r, s);
      } else {
        OthersLeaveGga(r, s);
        var g := LatestGga(front);
        if g >= 0 {
          assert lines[..g + 1] == front[..g + 1];
        }
      }
    }
  }

  /** How old the last well-formed GGA is when one more good sentence has come. */
  function Age(lines: seq<seq<byte>>): int
    requires LatestGga(lines) >= 0
  {
    Good(lines, |lines|) + 1 - Good(lines, LatestGga(lines) + 1)
  }

  /**
   A fix comes with the figures of the last well-formed GGA, which had a solution and
   is at most four good sentences old, or with the defaults; and no fix comes while
   the last one, if that recent, said it had none. Its position is on the globe.
   */
  lemma FixIsExplained(lines: seq<seq<byte>>, s: seq<byte>)
    requires OnSentence(Handle(NEW, lines).0, s).1.Some?
    ensures var fix := OnSentence(Handle(NEW, lines).0, s).1.value; var g := LatestGga(lines);
      && -90.0 <= fix.lat <= 90.0 && -180.0 <= fix.lon <= 180.0
      && (if g >= 0 && Age(lines) <= GGA_STALE_AFTER then
            var x := WellFormedGga(lines[g]).value;
            !x.noFix && fix.satCount == x.sats && fix.accuracyM == x.accuracy && fix.altitudeM == x.altitude
          else fix.satCount == 0 && fix.accuracyM == -1 && fix.altitudeM == -500)
  {
    AlwaysRemembers(lines);
    assert lines[..|lines|] == lines;
    FixOfReader(Handle(NEW, lines).0, s);
    hide Handle, OnSentence, WellFormedGga, LatestGga;
  }

  lemma FixOfReader(r: Reader, s: seq<byte>)
    requires OnSentence(r, s).1.Some?
    ensures var fix := OnSentence(r, s).1.value;
      && -90.0 <= fix.lat <= 90.0 && -180.0 <= fix.lon <= 180.0
      && !(r.ggaNoFix && GgaCurrent(r))
      && (if GgaCurrent(r) then fix.satCount == r.sats && fix.accuracyM == r.accuracy && fix.altitudeM == r.altitude
          else fix.satCount == 0 && fix.accuracyM == -1 && fix.altitudeM == -500)
  {
    hide Classify, GgaOf, Speed, Course, Utc;
  }

  /**
   The same of every fix out of a byte stream: with the sentences completed before it,
   whatever the bytes were and however they came.
   */
  lemma StreamFixIsExplained(p: seq<byte>, b: byte)
    requires Feed(FeedAll(NEW, p).0, b).1.Some?
    ensures var fix := Feed(FeedAll(NEW, p).0, b).1.value; var lines := Sentences(p); var g := LatestGga(lines);
      && Sentences(p + [b]) == lines + [TailOf(p)]
      && -90.0 <= fix.lat <= 90.0 && -180.0 <= fix.lon <= 180.0
      && (if g >= 0 && Age(lines) <= GGA_STALE_AFTER then
            var x := WellFormedGga(lines[g]).value;
            !x.noFix && fix.satCount == x.sats && fix.accuracyM == x.accuracy && fix.altitudeM == x.altitude
          else fix.satCount == 0 && fix.accuracyM == -1 && fix.altitudeM == -500)
  {
    StreamIsItsSentences(p);
    FeedCompletes(FeedAll(NEW, p).0, p, b);
    hide Feed, FeedAll, Sentences, TailOf, Handle, OnSentence, WellFormedGga, AtLineOf, Between, LatestGga, Age;
    FixIsExplained(Sentences(p), TailOf(p));
  }

  /** The other figures of a fix stay inside the bytes they are sent in. */
  lemma FixFits(r: Reader, s: seq<byte>)
    requires OnSentence(r, s).1.Some?
    ensures var fix := OnSentence(r, s).1.value; 0 <= fix.speedKPH <= 127 && -1 <= fix.courseDeg <= 359
  {
    hide Classify, GgaOf, Utc, Latitude, Longitude, Decimal;
  }

  lemma GgaFits(f: seq<seq<byte>>)
    requires GgaOf(f).Some?
    ensures var x := GgaOf(f).value; 0 <= x.sats <= 127 && -1 <= x.accuracy <= 127 && -500 <= x.altitude <= 32767
  {
    hide Decimal, AtoiDefault;
  }
}
