/** The NMEA reader as it runs: a line buffer of fixed size, filled a byte at a time. */
module NmeaReader {
  import opened Bytes
  import opened Nmea

  class Stream {
    const line: array<byte>
    var n: nat
    var dropped: bool
    var started: bool
    var sats: int
    var accuracy: int
    var altitude: int
    var ggaAt: nat
    var ggaNoFix: bool
    var sentences: nat
    var others: nat
    var bad: nat
    var talker: seq<byte>

    ghost predicate Valid()
      reads this
    {
      line.Length == MAX_SENTENCE && n <= MAX_SENTENCE
    }

    /** The reader as a value. */
    ghost function At(): Reader
      reads this, line
      requires Valid()
    {
      Reader(line[..n], dropped, started, sats, accuracy, altitude, ggaAt, ggaNoFix, sentences, others, bad, talker)
    }

    constructor ()
      ensures Valid() && At() == NEW && fresh(line)
    {
      line := new byte[MAX_SENTENCE];
      n, dropped, started, sats, accuracy, altitude := 0, false, false, 0, 0, 0;
      ggaAt, ggaNoFix, sentences, others, bad, talker := 0, false, 0, 0, 0, [];
    }

    /** Keep a GGA's figures, or that it has none; false if it is too short to be one. */
    method TakeGga(f: seq<seq<byte>>) returns (good: bool)
      requires Valid() && |f| >= 1 && |f[0]| >= 2
      modifies this
      ensures Valid() && n == old(n)
      ensures good <==> GgaOf(f).Some?
      ensures At() == if good then Remembering(old(At()), GgaOf(f).value) else old(At()).(bad := old(bad) + 1)
    {
      hide Decimal, AtoiDefault, HdopAccuracy, Truncate, ClampInt, ClampReal;
      if |f| < 10 {
        bad := bad + 1;
        return false;
      }
      var quality := Decimal(f[6]);
      if quality == None || quality.value < 1.0 {
        ggaAt, ggaNoFix := sentences + 1, true;
        return true;
      }
      ggaAt, ggaNoFix := sentences + 1, false;
      sats := ClampInt(AtoiDefault(f[7], 0), 0, 127);
      var hdop := Decimal(f[8]);
      accuracy := HdopAccuracy(if hdop.Some? then hdop.value else -1.0);
      altitude := -500;
      var alt := Decimal(f[9]);
      if alt.Some? {
        altitude := Truncate(ClampReal(alt.value, -500.0, 32767.0));
      }
      good := true;
    }

    /** A fix if the RMC and the GGA before it allow one; good is false if the sentence is malformed. */
    method TakeRmc(f: seq<seq<byte>>) returns (fix: Option<Fix>, good: bool)
      requires Valid()
      modifies this`bad
      ensures Valid()
      ensures OnRmc(old(At()), f) == (if good then At().(sentences := sentences + 1) else At(), fix)
    {
      hide Latitude, Longitude, Speed, Course, Utc;
      if |f| < 10 {
        bad := bad + 1;
        return None, false;
      }
      if f[2] != [0x41] {
        return None, true;
      }
      if ggaNoFix && ggaAt != 0 && sentences + 1 - ggaAt <= GGA_STALE_AFTER {
        return None, true;
      }
      var lat, lon := Latitude(f[3], f[4]), Longitude(f[5], f[6]);
      if lat == None || lon == None {
        bad := bad + 1;
        return None, false;
      }
      var made := Fix(lat.value, lon.value, -1, -500, Speed(f[7]), 0, Course(f[8]), Utc(f[9], f[1]));
      if ggaAt != 0 && sentences + 1 - ggaAt <= GGA_STALE_AFTER {
        made := made.(accuracyM := accuracy, altitudeM := altitude, satCount := sats);
      }
      return Some(made), true;
    }

    method TakeSentence(s: seq<byte>) returns (fix: Option<Fix>)
      requires Valid()
      modifies this
      ensures Valid() && n == old(n)
      ensures (At(), fix) == OnSentence(old(At()), s)
    {
      hide Verify, Split, GgaOf, OnRmc;
      fix := None;
      var kind := Classify(s);
      match kind
      case Broken => bad := bad + 1;
      case Other => others := others + 1;
      case GGA(f) =>
        GgaHasTalker(s);
        var good := TakeGga(f);
        if good {
          talker := f[0][..2];
          sentences := sentences + 1;
          TalkerOfGga(f);
        }
      case RMC(f) =>
        var good: bool;
        fix, good := TakeRmc(f);
        if good {
          sentences := sentences + 1;
        }
    }

    /** One byte. */
    method FeedByte(b: byte) returns (fix: Option<Fix>)
      requires Valid()
      modifies this, line
      ensures Valid()
      ensures (At(), fix) == Feed(old(At()), b)
    {
      hide OnSentence;
      if b == DOLLAR {
        n, dropped, started := 0, false, true;
        return None;
      }
      if b == CR || b == LF {
        var s := line[..n];
        var wasStarted, wasDropped := started, dropped;
        n, dropped, started := 0, false, false;
        if !wasStarted || wasDropped || |s| == 0 {
          return None;
        }
        fix := TakeSentence(s);
        return;
      }
      if n == line.Length {
        dropped := true;
        return None;
      }
      line[n] := b;
      n := n + 1;
      assert line[..n] == old(line[..n]) + [b];
      return None;
    }

    /** A block of bytes; of the fixes in it, the last. */
    method FeedBlock(p: seq<byte>) returns (last: Option<Fix>)
      requires Valid()
      modifies this, line
      ensures Valid()
      ensures (At(), last) == FeedAll(old(At()), p)
    {
      hide Feed;
      last := None;
      var i := 0;
      while i < |p|
        invariant 0 <= i <= |p| && Valid()
        invariant (At(), last) == FeedAll(old(At()), p[..i])
      {
        assert p[..i + 1][..i] == p[..i];
        var fix := FeedByte(p[i]);
        if fix.Some? {
          last := fix;
        }
        i := i + 1;
      }
      assert p[..|p|] == p;
    }
  }

  lemma GgaHasTalker(s: seq<byte>)
    requires Classify(s).GGA?
    ensures var f := Classify(s).f; |f| >= 1 && |f[0]| >= 5
  {
  }

  lemma TalkerOfGga(f: seq<seq<byte>>)
    requires GgaOf(f).Some?
    ensures GgaOf(f).value.talker == f[0][..2]
  {
  }
}
