/**
 The battery gauge: a percentage out of a cell voltage, by a table of breakpoints
 and a rescale against the highest voltage the battery has been charged to. Voltages
 are reals; the arithmetic on millivolts is integer, as in the source.
 */
module BatteryGauge {
  import opened Bytes

  /** Millivolts and the raw level there. */
  datatype Point = Point(mv: int, raw: int)

  const TOP: seq<Point> := [
    Point(4120, 605), Point(4100, 590), Point(4080, 580), Point(4070, 570),
    Point(4050, 560), Point(4030, 550), Point(4020, 540), Point(4010, 530),
    Point(4000, 520), Point(3990, 510), Point(3980, 500), Point(3970, 490)]

  const HIGH: seq<Point> := [
    Point(3960, 480), Point(3950, 470), Point(3940, 455), Point(3930, 440),
    Point(3920, 430), Point(3910, 420), Point(3900, 410), Point(3890, 400),
    Point(3880, 390), Point(3870, 380), Point(3860, 370), Point(3850, 360)]

  const MIDDLE: seq<Point> := [
    Point(3840, 350), Point(3830, 340), Point(3820, 330), Point(3810, 320),
    Point(3800, 305), Point(3790, 290), Point(3780, 280), Point(3770, 270),
    Point(3760, 260), Point(3750, 250), Point(3740, 235), Point(3730, 220)]

  const LOW: seq<Point> := [
    Point(3720, 210), Point(3710, 200), Point(3700, 190), Point(3680, 180),
    Point(3670, 170), Point(3660, 160), Point(3640, 150), Point(3630, 140),
    Point(3610, 130), Point(3600, 120), Point(3590, 110), Point(3570, 100)]

  const FLAT: seq<Point> := [
    Point(3550, 90), Point(3540, 80), Point(3530, 70), Point(3510, 60),
    Point(3500, 50), Point(3470, 40), Point(3430, 30), Point(3360, 20),
    Point(3280, 10), Point(3190, 0)]

  /** The discharge curve, from full down to flat. */
  const CURVE: seq<Point> := TOP + HIGH + MIDDLE + LOW + FLAT

  const FULL_SCALE := 605
  const TOP_MV := 4120
  const FLAT_MV := 3190

  // ---- division towards negative infinity -------------------------------------------

  /** The quotient the language gives, which drops the fraction. */
  function Quo(a: int, b: int): int
    requires b != 0
  {
    if (a >= 0) == (b > 0) then Abs(a) / Abs(b) else -(Abs(a) / Abs(b))
  }

  function Rem(a: int, b: int): int
    requires b != 0
  {
    a - b * Quo(a, b)
  }

  function Abs(a: int): (r: int)
    ensures r >= 0
  {
    if a < 0 then -a else a
  }

  function FloorDiv(a: int, b: int): int
    requires b != 0
  {
    var q := Quo(a, b);
    if Rem(a, b) != 0 && ((a < 0) != (b < 0)) then q - 1 else q
  }

  lemma MultipleAway(y: int, k: int)
    requires y > 0
    ensures k > 0 ==> y * k >= y
    ensures k < 0 ==> y * k <= -y
    ensures k <= -2 ==> y * k <= -2 * y
  {
    if k <= -2 {
      assert y * k == -2 * y + y * (k + 2);
    }
  }

  /** For a positive divisor, rounding towards zero and then down by one where that lost something is the floor. */
  lemma FloorOfNegative(x: int, y: int)
    requires x >= 0 && y > 0
    ensures -x / y == if x % y == 0 then -(x / y) else -(x / y) - 1
  {
    var e, d := -x / y, x / y;
    assert y * (e + d) == y * e + y * d;
    assert -x == y * e + -x % y && x == y * d + x % y;
    MultipleAway(y, e + d);
    if e + d == 0 {
      assert y * (e + d) == 0;
    } else {
      assert y * (e + d) == -y;
    }
  }

  /** FloorDiv is the mathematical floor of the quotient, whatever the signs. */
  lemma FloorDivIsFloor(a: int, b: int)
    requires b != 0
    ensures FloorDiv(a, b) == if b > 0 then a / b else (-a) / (-b)
  {
    var x, y := Abs(a), Abs(b);
    FloorOfNegative(x, y);
    assert x == y * (x / y) + x % y;
    assert b * (x / y) == if b > 0 then y * (x / y) else -(y * (x / y));
    assert b * -(x / y) == -(b * (x / y));
  }

  lemma FloorBounds(a: int, b: int)
    requires b > 0
    ensures FloorDiv(a, b) * b <= a < FloorDiv(a, b) * b + b
  {
    FloorDivIsFloor(a, b);
  }

  // ---- interpolation along a table ----------------------------------------------------

  /** Voltage and level both fall strictly from row to row. */
  predicate Descends(t: seq<Point>) {
    forall i, j :: 0 <= i < j < |t| ==> t[i].mv > t[j].mv && t[i].raw > t[j].raw
  }

  predicate Steps(t: seq<Point>) {
    forall i :: 0 <= i < |t| - 1 ==> t[i].mv > t[i + 1].mv && t[i].raw > t[i + 1].raw
  }

  lemma {:induction false} StepsDescend(t: seq<Point>)
    requires Steps(t)
    ensures Descends(t)
  {
    if |t| > 1 {
      var rest := t[1..];
      assert forall i :: 0 <= i < |rest| ==> rest[i] == t[i + 1];
      StepsDescend(rest);
      forall j | 1 <= j < |t|
        ensures t[0].mv > t[j].mv && t[0].raw > t[j].raw
      {
        assert rest[0] == t[1] && rest[j - 1] == t[j];
      }
      forall i, j | 0 < i < j < |t|
        ensures t[i].mv > t[j].mv && t[i].raw > t[j].raw
      {
        assert rest[i - 1] == t[i] && rest[j - 1] == t[j];
      }
    }
  }

  lemma StepsJoin(a: seq<Point>, b: seq<Point>)
    requires a != [] && b != [] && Steps(a) && Steps(b)
    requires a[|a| - 1].mv > b[0].mv && a[|a| - 1].raw > b[0].raw
    ensures Steps(a + b)
  {
  }

  lemma TopSteps()
    ensures Steps(TOP) && |TOP| == 12 && TOP[0] == Point(4120, 605) && TOP[11] == Point(3970, 490)
  {
  }

  lemma HighSteps()
    ensures Steps(HIGH) && |HIGH| == 12 && HIGH[0] == Point(3960, 480) && HIGH[11] == Point(3850, 360)
  {
  }

  lemma MiddleSteps()
    ensures Steps(MIDDLE) && |MIDDLE| == 12 && MIDDLE[0] == Point(3840, 350) && MIDDLE[11] == Point(3730, 220)
  {
  }

  lemma LowSteps()
    ensures Steps(LOW) && |LOW| == 12 && LOW[0] == Point(3720, 210) && LOW[11] == Point(3570, 100)
  {
  }

  lemma FlatSteps()
    ensures Steps(FLAT) && |FLAT| == 10 && FLAT[0] == Point(3550, 90) && FLAT[9] == Point(3190, 0)
  {
  }

  lemma Joins(a: seq<Point>, b: seq<Point>)
    requires a != [] && b != [] && Steps(a) && Steps(b)
    requires a[|a| - 1].mv > b[0].mv && a[|a| - 1].raw > b[0].raw
    ensures Steps(a + b) && |a + b| == |a| + |b| && (a + b)[0] == a[0] && (a + b)[|a| + |b| - 1] == b[|b| - 1]
  {
    StepsJoin(a, b);
  }

  lemma CurveDescends()
    ensures Descends(CURVE) && |CURVE| == 58
    ensures CURVE[0] == Point(TOP_MV, FULL_SCALE) && CURVE[57] == Point(FLAT_MV, 0)
  {
    TopSteps();
    HighSteps();
    MiddleSteps();
    LowSteps();
    FlatSteps();
    hide TOP, HIGH, MIDDLE, LOW, FLAT, Steps;
    Joins(TOP, HIGH);
    Joins(TOP + HIGH, MIDDLE);
    Joins(TOP + HIGH + MIDDLE, LOW);
    Joins(TOP + HIGH + MIDDLE + LOW, FLAT);
    StepsDescend(CURVE);
  }

  /** The level between two rows: linear, rounded down. */
  function Between(hi: Point, lo: Point, mv: int): int
    requires hi.mv > lo.mv
  {
    lo.raw + FloorDiv((mv - lo.mv) * (hi.raw - lo.raw), hi.mv - lo.mv)
  }

  /** The level of a voltage on the table, at or above its last row and below its first. */
  function Level(t: seq<Point>, mv: int): int
    requires |t| >= 2 && Descends(t) && t[|t| - 1].mv <= mv
  {
    if mv >= t[1].mv then Between(t[0], t[1], mv) else Level(t[1..], mv)
  }

  /** A product of a part and a whole, against the whole twice over. */
  lemma PartOf(part: int, dx: int, dy: int)
    requires 0 <= part <= dx && dx > 0 && dy > 0
    ensures 0 <= part * dy <= dx * dy && (part < dx ==> part * dy < dx * dy)
  {
  }

  lemma FloorMonotone(a: int, b: int, d: int)
    requires d > 0 && a <= b
    ensures FloorDiv(a, d) <= FloorDiv(b, d)
  {
    FloorDivIsFloor(a, d);
    FloorDivIsFloor(b, d);
    QuotientMonotone(a, b, d);
  }

  lemma QuotientMonotone(a: int, b: int, d: int)
    requires d > 0 && a <= b
    ensures a / d <= b / d
  {
    var k := b / d - a / d;
    assert d * k == d * (b / d) - d * (a / d);
    MultipleAway(d, k);
  }

  lemma FloorOfMultiple(k: int, d: int)
    requires d > 0
    ensures FloorDiv(k * d, d) == k
  {
    FloorBounds(k * d, d);
    var f := FloorDiv(k * d, d);
    hide FloorDiv;
    assert d * (k - f) == k * d - f * d;
    MultipleAway(d, k - f);
  }

  /** Between two rows the level stays between theirs, meets the lower row, and does not fall as the voltage rises. */
  lemma BetweenBounds(hi: Point, lo: Point, mv: int)
    requires hi.mv > lo.mv && hi.raw > lo.raw && lo.mv <= mv <= hi.mv
    ensures lo.raw <= Between(hi, lo, mv) <= hi.raw
    ensures Between(hi, lo, lo.mv) == lo.raw && Between(hi, lo, hi.mv) == hi.raw
  {
    var dx, dy := hi.mv - lo.mv, hi.raw - lo.raw;
    PartOf(mv - lo.mv, dx, dy);
    FloorOfMultiple(0, dx);
    FloorOfMultiple(dy, dx);
    assert 0 * dx == 0 && dy * dx == dx * dy && (lo.mv - lo.mv) * dy == 0;
    FloorMonotone(0, (mv - lo.mv) * dy, dx);
    FloorMonotone((mv - lo.mv) * dy, dx * dy, dx);
  }

  lemma BetweenMonotone(hi: Point, lo: Point, a: int, b: int)
    requires hi.mv > lo.mv && hi.raw > lo.raw && lo.mv <= a <= b
    ensures Between(hi, lo, a) <= Between(hi, lo, b)
  {
    var dy := hi.raw - lo.raw;
    assert (b - lo.mv) * dy == (a - lo.mv) * dy + (b - a) * dy;
    PartOf(0, 1, dy);
    assert (b - a) * dy >= 0;
    FloorMonotone((a - lo.mv) * dy, (b - lo.mv) * dy, hi.mv - lo.mv);
  }

  lemma RestDescends(t: seq<Point>)
    requires |t| >= 2 && Descends(t)
    ensures Descends(t[1..]) && t[1..][|t| - 2] == t[|t| - 1] && t[1..][0] == t[1]
  {
  }

  /** For any descending table: the level is within the table's levels. */
  lemma {:induction false} LevelBounds(t: seq<Point>, mv: int)
    requires |t| >= 2 && Descends(t) && t[|t| - 1].mv <= mv <= t[0].mv
    ensures t[|t| - 1].raw <= Level(t, mv) <= t[0].raw
    decreases |t|
  {
    RestDescends(t);
    hide Between;
    if mv >= t[1].mv {
      BetweenBounds(t[0], t[1], mv);
    } else {
      LevelBounds(t[1..], mv);
    }
  }

  /** For any descending table: a higher voltage never reads as a lower level. */
  lemma {:induction false} LevelMonotone(t: seq<Point>, a: int, b: int)
    requires |t| >= 2 && Descends(t) && t[|t| - 1].mv <= a <= b <= t[0].mv
    ensures Level(t, a) <= Level(t, b)
    decreases |t|
  {
    RestDescends(t);
    hide Between;
    if a >= t[1].mv {
      BetweenMonotone(t[0], t[1], a, b);
    } else if b >= t[1].mv {
      LevelBounds(t[1..], a);
      BetweenBounds(t[0], t[1], b);
    } else {
      LevelMonotone(t[1..], a, b);
    }
  }

  /** For any descending table: every row reads its own level. */
  lemma {:induction false} LevelAtRow(t: seq<Point>, i: nat)
    requires |t| >= 2 && Descends(t) && i < |t|
    ensures Level(t, t[i].mv) == t[i].raw
    decreases |t|
  {
    RestDescends(t);
    if i <= 1 {
      BetweenBounds(t[0], t[1], t[i].mv);
    } else {
      assert t[1..][i - 1] == t[i];
      LevelAtRow(t[1..], i - 1);
    }
  }

  // ---- percentages ---------------------------------------------------------------------

  function PctOf(raw: int): int {
    (Quo(raw * 1000, FULL_SCALE) + 5) / 10
  }

  /** A level as a percentage of full scale, to the nearest, halves up. */
  lemma PctOfIsNearest(raw: int)
    requires 0 <= raw <= FULL_SCALE
    ensures 605 * (2 * PctOf(raw) - 1) <= 200 * raw < 605 * (2 * PctOf(raw) + 1)
    ensures 0 <= PctOf(raw) <= 100
  {
  }

  lemma PctOfMonotone(a: int, b: int)
    requires 0 <= a <= b
    ensures PctOf(a) <= PctOf(b)
  {
    QuotientMonotone(a * 1000, b * 1000, FULL_SCALE);
  }

  // ---- the gauge -------------------------------------------------------------------------

  /** A reading off a sensor, which need not be a number. */
  datatype Volts = NaN | PlusInf | MinusInf | Num(v: real)

  /** A learned maximum is used if a single cell could have shown it. */
  predicate Plausible(top: Volts) {
    top.Num? && 3.19 <= top.v <= 4.6
  }

  /** Millivolts to the nearest, halves away from zero. */
  function Rounded(v: real): int {
    if v >= 0.0 then (v * 1000.0 + 0.5).Floor else -(-v * 1000.0 + 0.5).Floor
  }

  /** The reading in millivolts, inside the table's range from zero to its top. */
  function Reading(v: Volts): int
    requires !v.NaN?
  {
    match v
    case PlusInf => TOP_MV
    case MinusInf => 0
    case Num(x) => Min(Max(Rounded(x), 0), TOP_MV)
  }

  /** The learned maximum in millivolts, if there is one to use. */
  function Learned(top: Volts): Option<int> {
    if top != Num(0.0) && Plausible(top) then Some((top.v * 1000.0 + 0.5).Floor) else None
  }

  predicate Rescales(max: Option<int>) {
    max.Some? && FLAT_MV < max.value < TOP_MV
  }

  /** The reading as the table sees it: stretched so that a lower learned maximum reads as the top. */
  function Scaled(mv: int, max: Option<int>): int {
    if Rescales(max) then FLAT_MV + FloorDiv((mv - FLAT_MV) * (TOP_MV - FLAT_MV), max.value - FLAT_MV) else mv
  }

  /** The percentage of a reading in millivolts. */
  function Gauge(mv: int, max: Option<int>): int {
    var s := Scaled(mv, max);
    if s >= TOP_MV then 100
    else if s < FLAT_MV then 0
    else
      CurveDescends();
      Min(PctOf(Level(CURVE, s)), 100)
  }

  function PctFor(v: Volts, top: Volts): int {
    if v == Num(0.0) || v.NaN? then 0 else Gauge(Reading(v), Learned(top))
  }

  lemma ScaledMonotone(a: int, b: int, max: Option<int>)
    requires a <= b
    ensures Scaled(a, max) <= Scaled(b, max)
  {
    if Rescales(max) {
      FloorMonotone((a - FLAT_MV) * 930, (b - FLAT_MV) * 930, max.value - FLAT_MV);
    }
  }

  lemma TableMonotone(s: int, s': int)
    requires FLAT_MV <= s <= s' < TOP_MV
    ensures Descends(CURVE) && 0 <= PctOf(Level(CURVE, s)) <= PctOf(Level(CURVE, s')) <= 100
  {
    CurveDescends();
    hide Descends, Level;
    LevelBounds(CURVE, s);
    LevelBounds(CURVE, s');
    LevelMonotone(CURVE, s, s');
    PctOfMonotone(Level(CURVE, s), Level(CURVE, s'));
    PctOfIsNearest(Level(CURVE, s));
    PctOfIsNearest(Level(CURVE, s'));
  }

  /** A gauge reads between 0 and 100, and does not fall when what the table sees rises. */
  lemma GaugeFollowsScaled(a: int, m: Option<int>, b: int, k: Option<int>)
    requires Scaled(a, m) <= Scaled(b, k) || Scaled(a, m) < FLAT_MV
    ensures 0 <= Gauge(a, m) <= Gauge(b, k) <= 100
  {
    hide Scaled, Level, PctOf;
    var s, s' := Scaled(a, m), Scaled(b, k);
    if FLAT_MV <= s < TOP_MV {
      TableMonotone(s, s);
      if s' < TOP_MV {
        TableMonotone(s, s');
      }
    } else if FLAT_MV <= s' < TOP_MV {
      TableMonotone(s', s');
    }
  }

  lemma RoundedMonotone(x: real, y: real)
    requires x <= y
    ensures Rounded(x) <= Rounded(y)
  {
  }

  lemma ReadingMonotone(v: Volts, w: Volts)
    requires AtMost(v, w)
    ensures 0 <= Reading(v) <= Reading(w) <= TOP_MV
  {
    if v.Num? && w.Num? {
      RoundedMonotone(v.v, w.v);
    }
  }

  /** v is no more than w, and both are numbers or infinite. */
  predicate AtMost(v: Volts, w: Volts) {
    !v.NaN? && !w.NaN? && (v.MinusInf? || w.PlusInf? || (v.Num? && w.Num? && v.v <= w.v))
  }

  /** Nothing below the flat end of the table reads above empty, whatever the rescale. */
  lemma BelowFlat(mv: int, max: Option<int>)
    requires mv < FLAT_MV
    ensures Scaled(mv, max) < FLAT_MV
  {
    if Rescales(max) {
      FloorBounds((mv - FLAT_MV) * 930, max.value - FLAT_MV);
      var q := FloorDiv((mv - FLAT_MV) * 930, max.value - FLAT_MV);
      MultipleAway(max.value - FLAT_MV, q);
      assert q * (max.value - FLAT_MV) == (max.value - FLAT_MV) * q;
    }
  }

  /** For every learned maximum, the percentage is between 0 and 100 and never falls as the voltage rises. */
  lemma HigherReadsHigher(v: Volts, w: Volts, top: Volts)
    requires AtMost(v, w)
    ensures 0 <= PctFor(v, top) <= PctFor(w, top) <= 100
  {
    ReadingMonotone(v, w);
    ScaledMonotone(Reading(v), Reading(w), Learned(top));
    GaugeFollowsScaled(Reading(v), Learned(top), Reading(w), Learned(top));
    hide Gauge, Scaled;
    if w == Num(0.0) {
      BelowFlat(Reading(v), Learned(top));
      NothingBelowFlat(Reading(v), Learned(top));
    }
  }

  lemma NothingBelowFlat(mv: int, max: Option<int>)
    requires mv < FLAT_MV
    ensures Gauge(mv, max) == 0
  {
    BelowFlat(mv, max);
    hide Scaled;
  }

  /**
   A battery at its own ceiling reads full exactly if the ceiling rounds to more than
   the flat end of the table; at or below that it reads empty.
   */
  lemma FullAtCeiling(top: real)
    ensures PctFor(Num(top), Num(top)) == if Rounded(top) > FLAT_MV then 100 else 0
  {
    var m := Rounded(top);
    if FLAT_MV < m < TOP_MV {
      CeilingReadsFull(m);
    } else if m == FLAT_MV {
      FlatReadsEmpty();
    } else if m < FLAT_MV {
      NothingBelowFlat(Max(m, 0), None);
    }
    hide Gauge;
  }

  /** The flat end itself is empty, and no maximum at or below it is one to rescale by. */
  lemma FlatReadsEmpty()
    ensures Gauge(FLAT_MV, None) == 0 && Gauge(FLAT_MV, Some(FLAT_MV)) == 0
  {
    CurveDescends();
    LevelAtRow(CURVE, 57);
    hide CURVE, Level;
  }

  // ---- a lower maximum ------------------------------------------------------------------------

  /** No reading falls when the learned maximum goes from m to k. */
  ghost predicate NoneFalls(m: Option<int>, k: Option<int>) {
    forall mv: int :: 0 <= mv <= TOP_MV ==> Gauge(mv, m) <= Gauge(mv, k)
  }

  lemma ProductMonotone(q: int, e: int, d: int)
    requires q >= 0 && e <= d
    ensures q * e <= q * d
  {
  }

  /** Divided by less, a quantity that is not negative comes to no less. */
  lemma SmallerDivisor(a: int, d: int, e: int)
    requires a >= 0 && 0 < e <= d
    ensures FloorDiv(a, d) <= FloorDiv(a, e)
  {
    FloorBounds(a, d);
    FloorOfMultiple(0, d);
    FloorMonotone(0, a, d);
    var q := FloorDiv(a, d);
    FloorOfMultiple(q, e);
    hide FloorDiv;
    assert 0 * d == 0;
    ProductMonotone(q, e, d);
    FloorMonotone(q * e, a, e);
  }

  /** Where the rescale is in force for the lower maximum, every reading is stretched at least as far. */
  lemma StretchedFurther(mv: int, m: Option<int>, k: int)
    requires FLAT_MV < k < TOP_MV && (m.Some? ==> k < m.value) && mv >= FLAT_MV
    ensures Scaled(mv, m) <= Scaled(mv, Some(k))
  {
    var a := (mv - FLAT_MV) * 930;
    if Rescales(m) {
      SmallerDivisor(a, m.value - FLAT_MV, k - FLAT_MV);
    } else {
      FloorOfMultiple(mv - FLAT_MV, 930);
      SmallerDivisor(a, 930, k - FLAT_MV);
    }
  }

  lemma LoweredInRange(m: Option<int>, k: int)
    requires FLAT_MV < k && (m.Some? ==> k < m.value)
    ensures NoneFalls(m, Some(k))
  {
    forall mv: int | 0 <= mv <= TOP_MV
      ensures Gauge(mv, m) <= Gauge(mv, Some(k))
    {
      if k >= TOP_MV {
        assert Scaled(mv, m) == mv == Scaled(mv, Some(k));
      } else if mv >= FLAT_MV {
        StretchedFurther(mv, m, k);
      } else {
        BelowFlat(mv, m);
      }
      hide Scaled, Gauge;
      GaugeFollowsScaled(mv, m, mv, Some(k));
    }
  }

  /** On the curve as written, 4116 mV reads full and 4115 mV does not. */
  lemma NearTheTop()
    ensures Gauge(4115, None) == 99 && Gauge(4116, None) == 100
  {
    CurveDescends();
    assert CURVE[0] == TOP[0] && CURVE[1] == TOP[1] == Point(4100, 590);
    assert Level(CURVE, 4115) == Between(CURVE[0], CURVE[1], 4115) == 601;
    assert Level(CURVE, 4116) == Between(CURVE[0], CURVE[1], 4116) == 602;
  }

  lemma GaugeOfScaled(a: int, m: Option<int>, b: int, k: Option<int>)
    requires Scaled(a, m) == Scaled(b, k)
    ensures Gauge(a, m) == Gauge(b, k)
  {
  }

  lemma CeilingReadsFull(m: int)
    requires FLAT_MV < m < TOP_MV
    ensures Gauge(m, Some(m)) == 100
  {
    FloorOfMultiple(930, m - FLAT_MV);
    assert (m - FLAT_MV) * 930 == 930 * (m - FLAT_MV);
  }

  lemma StretchNearTheTop(m: int)
    requires 4116 <= m <= 4118
    ensures Scaled(4115, Some(m)) >= 4116
  {
    FloorDivIsFloor(860_250, m - FLAT_MV);
    hide FloorDiv;
    assert 860_250 / 926 == 928 && 860_250 / 927 == 927 && 860_250 / 928 == 926;
    assert m - FLAT_MV == 926 || m - FLAT_MV == 927 || m - FLAT_MV == 928;
  }

  /** With the maximum at the flat end the table is read as written, and some reading that was stretched falls. */
  lemma LoweredToFlat(m: int)
    requires FLAT_MV < m <= 4118
    ensures !NoneFalls(Some(m), Some(FLAT_MV))
  {
    NearTheTop();
    if m <= 4115 {
      CeilingReadsFull(m);
      GaugeFollowsScaled(m, Some(FLAT_MV), 4115, None);
      hide Gauge, Scaled;
      assert Gauge(m, Some(FLAT_MV)) <= 99;
    } else {
      StretchNearTheTop(m);
      GaugeFollowsScaled(4116, None, 4115, Some(m));
      GaugeOfScaled(4115, Some(FLAT_MV), 4115, None);
      hide Gauge, Scaled;
      assert Gauge(4115, Some(m)) == 100 && Gauge(4115, Some(FLAT_MV)) == 99;
    }
  }

  /** A stretch of at most one millivolt in the last step shows nowhere. */
  lemma HardlyStretched(m: int, mv: int)
    requires 4119 <= m && 0 <= mv <= TOP_MV
    ensures Gauge(mv, Some(m)) <= Gauge(mv, Some(FLAT_MV))
  {
    if m >= TOP_MV || mv < FLAT_MV {
      BelowFlat(if mv < FLAT_MV then mv else 0, Some(m));
      GaugeFollowsScaled(mv, Some(m), mv, Some(FLAT_MV));
    } else {
      var a := mv - FLAT_MV;
      FloorDivIsFloor(a * 930, 929);
      assert a * 930 / 929 == a + a / 929;
      NearTheTop();
      if mv < 4119 {
        assert Scaled(mv, Some(m)) == mv;
      } else {
        GaugeFollowsScaled(4116, None, mv, Some(FLAT_MV));
        GaugeFollowsScaled(mv, Some(m), mv, Some(m));
      }
    }
  }

  /** On the table: a lower maximum lowers no reading exactly while it is above the flat end, or the old one stretched nothing that shows. */
  lemma LowerOnTable(m: int, k: int)
    requires FLAT_MV <= k < m
    ensures NoneFalls(Some(m), Some(k)) <==> k > FLAT_MV || m >= 4119
  {
    if k > FLAT_MV {
      LoweredInRange(Some(m), k);
    } else if m >= 4119 {
      forall mv: int | 0 <= mv <= TOP_MV
        ensures Gauge(mv, Some(m)) <= Gauge(mv, Some(k))
      {
        HardlyStretched(m, mv);
      }
    } else {
      LoweredToFlat(m);
    }
  }

  /** Any voltage as a learned maximum reads as its millivolts do, and all those at or below the flat end read alike. */
  lemma OnlyMillivoltsCount(v: Volts, top: real)
    requires !v.NaN?
    ensures PctFor(v, Num(top)) == Gauge(Reading(v), Some(Max(Rounded(top), FLAT_MV)))
  {
    var k := Some(Max(Rounded(top), FLAT_MV));
    assert Scaled(Reading(v), Learned(Num(top))) == Scaled(Reading(v), k);
    GaugeOfScaled(Reading(v), Learned(Num(top)), Reading(v), k);
    if v == Num(0.0) {
      NothingBelowFlat(0, k);
    }
    hide Gauge, Scaled;
  }

  /** Every number of millivolts on the table is a reading. */
  lemma EveryMillivoltIsRead(mv: int)
    requires 0 <= mv <= TOP_MV
    ensures Reading(Num(mv as real / 1000.0)) == mv
  {
  }

  /** So comparing all readings is comparing all millivolts. */
  lemma AllReadings(a: real, b: real)
    ensures (forall v :: PctFor(v, Num(a)) <= PctFor(v, Num(b)))
            <==> NoneFalls(Some(Max(Rounded(a), FLAT_MV)), Some(Max(Rounded(b), FLAT_MV)))
  {
    var m, k := Some(Max(Rounded(a), FLAT_MV)), Some(Max(Rounded(b), FLAT_MV));
    if forall v :: PctFor(v, Num(a)) <= PctFor(v, Num(b)) {
      forall mv: int | 0 <= mv <= TOP_MV
        ensures Gauge(mv, m) <= Gauge(mv, k)
      {
        var v := Num(mv as real / 1000.0);
        EveryMillivoltIsRead(mv);
        OnlyMillivoltsCount(v, a);
        OnlyMillivoltsCount(v, b);
        hide Gauge, PctFor, Reading, Rounded;
        assert PctFor(v, Num(a)) <= PctFor(v, Num(b));
      }
    }
    if NoneFalls(m, k) {
      forall v
        ensures PctFor(v, Num(a)) <= PctFor(v, Num(b))
      {
        if !v.NaN? {
          OnlyMillivoltsCount(v, a);
          OnlyMillivoltsCount(v, b);
          ReadingMonotone(v, v);
          hide Gauge, PctFor, Reading, Rounded;
        }
      }
    }
  }

  /**
   Lowering the learned maximum from a to b lowers no reading, exactly while b is above
   the flat end of the table, or a stretched nothing that shows: because it was at most
   a millivolt short of the table's top, or at or below the flat end itself.
   */
  lemma LowerMaximumReadsHigher(a: real, b: real)
    requires b <= a
    ensures (forall v :: PctFor(v, Num(a)) <= PctFor(v, Num(b)))
            <==> Rounded(b) > FLAT_MV || Rounded(a) >= 4119 || Rounded(a) <= FLAT_MV
  {
    RoundedMonotone(b, a);
    AllReadings(a, b);
    var m, k := Max(Rounded(a), FLAT_MV), Max(Rounded(b), FLAT_MV);
    hide Gauge, PctFor, Rounded;
    if k < m {
      LowerOnTable(m, k);
    }
  }

  /** Without a rescale, anything up to 4115 mV reads less than full. */
  lemma UnstretchedIsNotFull(v: real)
    requires 0.0 < v && Rounded(v) <= 4115
    ensures forall top: real :: Rounded(top) <= FLAT_MV ==> PctFor(Num(v), Num(top)) <= 99
  {
    forall top: real | Rounded(top) <= FLAT_MV
      ensures PctFor(Num(v), Num(top)) <= 99
    {
      OnlyMillivoltsCount(Num(v), top);
      NearTheTop();
      GaugeFollowsScaled(Reading(Num(v)), Some(FLAT_MV), 4115, None);
      hide Gauge;
    }
  }

  // ---- the same in 32-bit arithmetic -----------------------------------------------------------

  /** A signed 32-bit integer: every operation on one below is shown to stay inside it. */
  newtype int32 = x: int | -0x8000_0000 <= x < 0x8000_0000

  lemma QuotientFits(x: int, b: int)
    requires x >= 0 && b > 0
    ensures 0 <= x / b <= b * (x / b) <= x
  {
    assert x == b * (x / b) + x % b;
    var d := x / b;
    ProductMonotone(d, 1, b);
    assert d * b == b * d;
  }

  lemma QuoFits(a: int, b: int)
    requires b > 0
    ensures -Abs(a) <= b * Quo(a, b) <= Abs(a) && -Abs(a) <= Quo(a, b) <= Abs(a)
    ensures b * Quo(a, b) <= 0 || a >= 0
  {
    QuotientFits(Abs(a), b);
    var d := Abs(a) / b;
    assert b * -d == -(b * d);
  }

  function FloorDiv32(a: int32, b: int32): (r: int32)
    requires b > 0 && a > -0x8000_0000
    ensures r as int == FloorDiv(a as int, b as int)
  {
    QuoFits(a as int, b as int);
    var q := if a >= 0 then a / b else -(-a / b);
    assert q as int == Quo(a as int, b as int);
    if a - b * q != 0 && a < 0 then q - 1 else q
  }

  function PctOf32(raw: int32): (r: int32)
    requires 0 <= raw <= 605
    ensures r as int == PctOf(raw as int) && 0 <= r <= 100
  {
    (raw * 1000 / 605 + 5) / 10
  }

  /** The products of one interpolation stay small. */
  lemma BetweenFits(hi: Point, lo: Point, mv: int)
    requires lo.mv <= mv <= hi.mv && hi.mv - lo.mv <= 930 && 0 <= hi.raw - lo.raw <= 605
    ensures 0 <= (mv - lo.mv) * (hi.raw - lo.raw) <= 930 * 605
  {
    var a, b := mv - lo.mv, hi.raw - lo.raw;
    ProductMonotone(a, 0, b);
    ProductMonotone(a, b, 605);
  }

  /** Every row lies between the ends of the table. */
  lemma RowInRange(i: nat)
    requires i < 58
    ensures |CURVE| == 58 && FLAT_MV <= CURVE[i].mv <= TOP_MV && 0 <= CURVE[i].raw <= FULL_SCALE
  {
    CurveDescends();
    hide CURVE;
  }

  /** The table from row i on. */
  lemma FromRow(i: nat)
    requires i < 58
    ensures |CURVE| == 58 && Descends(CURVE[i..]) && CURVE[i..][0] == CURVE[i] && CURVE[i..][57 - i] == CURVE[57]
    ensures CURVE[57].mv == FLAT_MV
    ensures i < 57 ==> CURVE[i..][1] == CURVE[i + 1] && CURVE[i..][1..] == CURVE[i + 1..] && CURVE[i].mv > CURVE[i + 1].mv
                       && CURVE[i].raw > CURVE[i + 1].raw
  {
    CurveDescends();
    hide CURVE;
  }

  /** The level on the table from row i on, a row at a time. */
  function LevelFrom(i: nat, mv: int): int
    requires i < 57 && FLAT_MV <= mv
  {
    FromRow(i);
    Level(CURVE[i..], mv)
  }

  lemma LevelRow(i: nat, mv: int)
    requires i < 57 && FLAT_MV <= mv <= TOP_MV && |CURVE| == 58 && CURVE[i].mv > CURVE[i + 1].mv
    ensures mv >= CURVE[i + 1].mv ==> LevelFrom(i, mv) == Between(CURVE[i], CURVE[i + 1], mv)
    ensures mv < CURVE[i + 1].mv ==> i < 56 && LevelFrom(i, mv) == LevelFrom(i + 1, mv)
  {
    FromRow(i);
    hide CURVE, Between;
  }

  /** The loop over the table, from its top row down. */
  method Interpolate(curMv: int32) returns (pct: int32)
    requires FLAT_MV <= curMv as int < TOP_MV
    ensures pct as int == Min(PctOf(LevelFrom(0, curMv as int)), 100)
  {
    CurveDescends();
    hide CURVE, FloorDiv, PctOf, LevelFrom, Descends;
    pct := 0;
    var hiMv: int32, hiRaw: int32 := 4120, 605;
    var i := 1;
    while i < 58
      invariant 1 <= i <= 57 && |CURVE| == 58 && curMv as int < CURVE[i - 1].mv
      invariant hiMv as int == CURVE[i - 1].mv && hiRaw as int == CURVE[i - 1].raw
      invariant LevelFrom(0, curMv as int) == LevelFrom(i - 1, curMv as int)
    {
      FromRow(i - 1);
      RowInRange(i);
      RowInRange(i - 1);
      LevelRow(i - 1, curMv as int);
      var p := CURVE[i];
      var mv, raw := p.mv as int32, p.raw as int32;
      if curMv >= mv {
        BetweenFits(CURVE[i - 1], p, curMv as int);
        BetweenBounds(CURVE[i - 1], p, curMv as int);
        var level := raw + FloorDiv32((curMv - mv) * (hiRaw - raw), hiMv - mv);
        // the source caps this at 100, which it never passes
        pct := PctOf32(level);
        return;
      }
      hiMv, hiRaw := mv, raw;
      i := i + 1;
    }
    assert false;
  }

  /** The whole table is the table from its first row on. */
  lemma WholeTable(mv: int)
    requires FLAT_MV <= mv
    ensures Descends(CURVE) && |CURVE| == 58 && CURVE[57].mv == FLAT_MV && LevelFrom(0, mv) == Level(CURVE, mv)
  {
    CurveDescends();
    assert CURVE[0..] == CURVE;
  }

  /** The percentage of a reading, in 32-bit arithmetic throughout. */
  method BattPctFor(v: Volts, top: Volts) returns (pct: int32)
    ensures pct as int == PctFor(v, top)
  {
    if v == Num(0.0) || v.NaN? {
      return 0;
    }
    var curMv := Reading(v) as int32;
    if top != Num(0.0) && Plausible(top) {
      var maxMv := (top.v * 1000.0 + 0.5).Floor as int32;
      if 3190 < maxMv < 4120 {
        ScaleFits(curMv as int, maxMv as int);
        curMv := 3190 + FloorDiv32((curMv - 3190) * (4120 - 3190), maxMv - 3190);
      }
    }
    assert curMv as int == Scaled(Reading(v), Learned(top));
    if curMv >= 4120 {
      return 100;
    }
    if curMv < 3190 {
      return 0;
    }
    WholeTable(curMv as int);
    pct := Interpolate(curMv);
  }

  lemma ScaleFits(mv: int, max: int)
    requires 0 <= mv <= TOP_MV && FLAT_MV < max < TOP_MV
    ensures var a := (mv - FLAT_MV) * 930;
      -2_966_700 <= a <= 864_900 && -2_966_700 <= FloorDiv(a, max - FLAT_MV) <= 864_900
  {
    NoFurther((mv - FLAT_MV) * 930, max - FLAT_MV);
  }

  /** A floor quotient is no further from zero than the dividend. */
  lemma NoFurther(a: int, d: int)
    requires d >= 1
    ensures Min(a, 0) <= FloorDiv(a, d) <= Max(a, 0)
  {
    var lo, hi := Min(a, 0), Max(a, 0);
    FloorOfMultiple(lo, d);
    FloorOfMultiple(hi, d);
    hide FloorDiv;
    ProductMonotone(hi, 1, d);
    ProductMonotone(-lo, 1, d);
    assert -lo * d == -(lo * d);
    FloorMonotone(lo * d, a, d);
    FloorMonotone(a, hi * d, d);
  }
}
