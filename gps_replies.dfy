/** GNSS replies of the SIM7600X: the `+CGPSINFO` position report (coordinates in the
    NMEA 0183 `ddmm.mmmm` convention), the satellites and HDOP fields of an NMEA 0183 GGA
    sentence, the `satellites` fallback and the `+CGPSSTATUS` fix kind. Python floats are
    modelled as exact reals. */
module GpsReplies {
  import opened Text
  import opened Scan

  /** The controller's position record; `fixType` is 0 (no fix), 2 (2D) or 3 (3D). */
  datatype GpsData = GpsData(latitude: real, longitude: real, altitude: real, speed: real, course: real,
                             timestamp: string, satellites: int, fixStatus: bool, hdop: real, fixType: int)

  /** `GPSData()` with every field at its default. */
  const NoPosition := GpsData(0.0, 0.0, 0.0, 0.0, 0.0, "", 0, false, 0.0, 0)

  /** `accuracy_meters`: about five metres per unit of HDOP; zero while HDOP is unknown. */
  function AccuracyMeters(g: GpsData): (m: real)
    ensures m >= 0.0
    ensures m > 0.0 <==> g.hdop > 0.0
    ensures g.hdop > 0.0 ==> m == 5.0 * g.hdop
  {
    if g.hdop > 0.0 then g.hdop * 5.0 else 0.0
  }

  /** A smaller dilution of precision never reports a larger error radius. */
  lemma AccuracyMonotone(g: GpsData, h: GpsData)
    requires g.hdop <= h.hdop
    ensures AccuracyMeters(g) <= AccuracyMeters(h)
  {
  }

  // ---------------------------------------------------------------- decimal numbers

  predicate DigitsOnly(s: string)
  {
    forall k :: 0 <= k < |s| ==> IsDigit(s[k])
  }

  function Pow10(n: nat): (p: nat)
    ensures p >= 1
  {
    if n == 0 then 1 else 10 * Pow10(n - 1)
  }

  /** A number as `\d+\.?\d*` matches it: whole digits, an optional point, fraction digits. */
  datatype Decimal = Decimal(whole: string, dot: bool, frac: string)

  predicate WellFormedDecimal(d: Decimal)
  {
    AllDigits(d.whole) && DigitsOnly(d.frac) && (!d.dot ==> d.frac == [])
  }

  function DecimalText(d: Decimal): string
  {
    d.whole + (if d.dot then "." else "") + d.frac
  }

  /** Python's `float()` of the text, without binary rounding. */
  function DecimalValue(d: Decimal): (v: real)
    requires WellFormedDecimal(d)
    ensures v >= DigitsValue(d.whole) as real
  {
    DigitsValue(d.whole) as real + DigitsValue(d.frac) as real / Pow10(|d.frac|) as real
  }

  /** The leading digit run of `s`, possibly empty, and what follows it. */
  function DigitSplit(s: string): (r: Parsed<string>)
    ensures DigitsOnly(r.value) && s == r.value + r.rest
    ensures r.rest == [] || !IsDigit(r.rest[0])
  {
    var n := DigitRun(s);
    DigitRunStops(s);
    assert s == s[..n] + s[n..];
    Parsed(s[..n], s[n..])
  }

  /** `\d+\.?\d*` at the front of `s`, taken as long as possible. */
  function DecimalAt(s: string): (r: Option<Parsed<Decimal>>)
    ensures r.Some? <==> s != [] && IsDigit(s[0])
    ensures r.Some? ==> WellFormedDecimal(r.value.value) && s == DecimalText(r.value.value) + r.value.rest
  {
    var w := DigitSplit(s);
    if w.value == [] then None
    else if w.rest != [] && w.rest[0] == '.' then
      var f := DigitSplit(w.rest[1..]);
      assert w.rest == "." + (f.value + f.rest);
      AppendAssoc(w.value, ".", f.value + f.rest);
      AppendAssoc(w.value + ".", f.value, f.rest);
      Some(Parsed(Decimal(w.value, true, f.value), f.rest))
    else
      assert s == w.value + "" + "" + w.rest;
      Some(Parsed(Decimal(w.value, false, ""), w.rest))
  }

  /** A rendered number reads back as itself when what follows cannot extend it. */
  lemma DecimalOfRendered(d: Decimal, tail: string)
    requires WellFormedDecimal(d)
    requires tail == [] || (!IsDigit(tail[0]) && tail[0] != '.')
    ensures DecimalAt(DecimalText(d) + tail) == Some(Parsed(d, tail))
  {
    var s := DecimalText(d) + tail;
    if d.dot {
      var r1 := d.frac + tail;
      assert s == d.whole + ("." + r1);
      DigitSplitOver(d.whole, "." + r1);
      assert ("." + r1)[1..] == r1;
      DigitSplitOver(d.frac, tail);
    } else {
      assert s == d.whole + tail;
      DigitSplitOver(d.whole, tail);
    }
  }

  /** Digits followed by a non-digit split into exactly those digits and the rest. */
  lemma DigitSplitOver(w: string, tail: string)
    requires DigitsOnly(w)
    requires tail == [] || !IsDigit(tail[0])
    ensures DigitSplit(w + tail) == Parsed(w, tail)
  {
    var s := w + tail;
    assert forall k :: 0 <= k < |w| ==> s[k] == w[k];
    assert |w| < |s| ==> s[|w|] == tail[0];
    DigitRunStops(s);
    assert DigitRun(s) == |w|;
    assert s[..|w|] == w && s[|w|..] == tail;
  }

  /** Python's `float(t)` for a text of digits and points; None where Python raises. */
  function FloatOf(t: string): Option<real>
    requires forall k :: 0 <= k < |t| ==> IsDigit(t[k]) || t[k] == '.'
  {
    if '.' in t then
      var i := IndexOf(t, '.');
      var w, f := t[..i], t[i + 1..];
      if '.' in f || (w == [] && f == []) then None
      else
        assert DigitsOnly(w) && DigitsOnly(f);
        Some(DigitsValue(w) as real + DigitsValue(f) as real / Pow10(|f|) as real)
    else if t == [] then None
    else
      Some(DigitsValue(t) as real)
  }

  /** Both readings of a number agree: `float()` of a matched numeral is its decimal value. */
  lemma FloatOfDecimal(d: Decimal)
    requires WellFormedDecimal(d)
    ensures forall k :: 0 <= k < |DecimalText(d)| ==> IsDigit(DecimalText(d)[k]) || DecimalText(d)[k] == '.'
    ensures FloatOf(DecimalText(d)) == Some(DecimalValue(d))
  {
    var t := DecimalText(d);
    if d.dot {
      assert t == d.whole + ['.'] + d.frac;
      assert '.' !in d.whole by {
        forall k | 0 <= k < |d.whole| ensures d.whole[k] != '.' {
          assert IsDigit(d.whole[k]);
        }
      }
      IndexOfAfter(d.whole, '.', d.frac);
      assert t[..|d.whole|] == d.whole;
      assert t[|d.whole| + 1..] == d.frac;
    } else {
      assert t == d.whole;
      assert '.' !in t by {
        forall k | 0 <= k < |t| ensures t[k] != '.' {
          assert IsDigit(t[k]);
        }
      }
    }
  }

  // ---------------------------------------------------------------- NMEA coordinates

  /** `int(v / 100)` for a non-negative `ddmm.mmmm` value: the whole degrees. */
  function NmeaDegrees(v: real): (deg: int)
    requires v >= 0.0
    ensures deg >= 0
    ensures deg as real * 100.0 <= v < deg as real * 100.0 + 100.0
  {
    (v / 100.0).Floor
  }

  /** `v - deg * 100`: the minutes part. */
  function NmeaMinutes(v: real): (m: real)
    requires v >= 0.0
    ensures 0.0 <= m < 100.0
  {
    v - NmeaDegrees(v) as real * 100.0
  }

  /** Degrees plus minutes over sixty. */
  function NmeaToDecimal(v: real): real
    requires v >= 0.0
  {
    NmeaDegrees(v) as real + NmeaMinutes(v) / 60.0
  }

  /** The split into degrees and minutes is the only one with minutes in [0, 100): a value
      written as `d * 100 + m` converts to `d + m / 60`. */
  lemma NmeaDecomposition(d: nat, m: real)
    requires 0.0 <= m < 100.0
    ensures NmeaDegrees(d as real * 100.0 + m) == d
    ensures NmeaMinutes(d as real * 100.0 + m) == m
    ensures NmeaToDecimal(d as real * 100.0 + m) == d as real + m / 60.0
  {
    var v := d as real * 100.0 + m;
    var e := NmeaDegrees(v);
    assert (e - d) as real * 100.0 <= m < 100.0;
    assert (d - e) as real * 100.0 < 100.0 - m;
  }

  /** Conversion never decreases past the whole degrees nor reaches the next block of 100
      minutes. */
  lemma NmeaDecimalBounds(v: real)
    requires v >= 0.0
    ensures NmeaDegrees(v) as real <= NmeaToDecimal(v) < NmeaDegrees(v) as real + 100.0 / 60.0
    ensures NmeaToDecimal(v) >= 0.0
  {
  }

  /** A hemisphere-signed coordinate: negated exactly for the negative hemisphere letter. */
  function Coordinate(v: real, dir: char, negative: char): (c: real)
    requires v >= 0.0
    ensures c == NmeaToDecimal(v) || c == -NmeaToDecimal(v)
    ensures c < 0.0 ==> dir == negative
    ensures c > 0.0 ==> dir != negative
  {
    NmeaDecimalBounds(v);
    if dir == negative then -NmeaToDecimal(v) else NmeaToDecimal(v)
  }

  // ---------------------------------------------------------------- +CGPSINFO

  /** One of the two hemisphere letters at the front of `s`. */
  function DirAt(s: string, a: char, b: char): (r: Option<Parsed<char>>)
    ensures r.Some? ==> (r.value.value == a || r.value.value == b) && s == [r.value.value] + r.value.rest
  {
    if s != [] && (s[0] == a || s[0] == b) then
      assert s == [s[0]] + s[1..];
      Some(Parsed(s[0], s[1..]))
    else None
  }

  datatype Coord = Coord(value: Decimal, dir: char)

  /** `(\d+\.?\d*),([NS])` (or `[EW]`). */
  function CoordAt(s: string, a: char, b: char): (r: Option<Parsed<Coord>>)
    ensures r.Some? ==> WellFormedDecimal(r.value.value.value) && (r.value.value.dir == a || r.value.value.dir == b)
  {
    var v :- DecimalAt(s);
    var t :- Lit(v.rest, ",");
    var d :- DirAt(t, a, b);
    Some(Parsed(Coord(v.value, d.value), d.rest))
  }

  function RenderCoordThen(c: Coord, tail: string): string
  {
    DecimalText(c.value) + ("," + ([c.dir] + tail))
  }

  lemma CoordOfRendered(c: Coord, a: char, b: char, tail: string)
    requires WellFormedDecimal(c.value) && (c.dir == a || c.dir == b)
    ensures CoordAt(RenderCoordThen(c, tail), a, b) == Some(Parsed(c, tail))
  {
    var u := [c.dir] + tail;
    DecimalOfRendered(c.value, "," + u);
    CommaLit(u);
    assert u[0] == c.dir && u[1..] == tail;
    assert DirAt(u, a, b) == Some(Parsed(c.dir, tail));
  }

  /** `(\d+)`: the text of a leading digit run. */
  function DigitsAt(s: string): (r: Option<Parsed<string>>)
    ensures r.Some? ==> AllDigits(r.value.value) && s == r.value.value + r.value.rest
  {
    var w := DigitSplit(s);
    if w.value == [] then None else Some(w)
  }

  lemma DigitsOfRendered(w: string, tail: string)
    requires AllDigits(w)
    requires tail == [] || !IsDigit(tail[0])
    ensures DigitsAt(w + tail) == Some(Parsed(w, tail))
  {
    DigitSplitOver(w, tail);
  }

  /** Date, UTC time, altitude, speed and course of a position report. */
  datatype Times = Times(date: string, time: Decimal, altitude: Decimal, speed: Decimal, course: Decimal)

  /** `(\d+),(\d+\.?\d*),(\d+\.?\d*),(\d+\.?\d*),(\d+\.?\d*)`. */
  function TimesAt(s: string): (r: Option<Parsed<Times>>)
    ensures r.Some? ==> WellFormedTimes(r.value.value)
  {
    var date :- DigitsAt(s);
    var a :- Lit(date.rest, ",");
    var time :- DecimalAt(a);
    var b :- Lit(time.rest, ",");
    var alt :- DecimalAt(b);
    var c :- Lit(alt.rest, ",");
    var speed :- DecimalAt(c);
    var d :- Lit(speed.rest, ",");
    var course :- DecimalAt(d);
    Some(Parsed(Times(date.value, time.value, alt.value, speed.value, course.value), course.rest))
  }

  predicate WellFormedTimes(t: Times)
  {
    AllDigits(t.date) && WellFormedDecimal(t.time) && WellFormedDecimal(t.altitude)
    && WellFormedDecimal(t.speed) && WellFormedDecimal(t.course)
  }

  function RenderTimesThen(t: Times, tail: string): string
  {
    t.date + ("," + (DecimalText(t.time) + ("," + (DecimalText(t.altitude) + ("," + (DecimalText(t.speed)
      + ("," + (DecimalText(t.course) + tail))))))))
  }

  lemma CommaLit(t: string)
    ensures Lit("," + t, ",") == Some(t)
  {
    assert ("," + t)[1..] == t;
  }

  lemma TimesOfRendered(t: Times, tail: string)
    requires WellFormedTimes(t)
    requires tail == [] || (!IsDigit(tail[0]) && tail[0] != '.')
    ensures TimesAt(RenderTimesThen(t, tail)) == Some(Parsed(t, tail))
  {
    var r4 := DecimalText(t.course) + tail;
    var r3 := DecimalText(t.speed) + ("," + r4);
    var r2 := DecimalText(t.altitude) + ("," + r3);
    var r1 := DecimalText(t.time) + ("," + r2);
    DigitsOfRendered(t.date, "," + r1);
    CommaLit(r1);
    DecimalOfRendered(t.time, "," + r2);
    CommaLit(r2);
    DecimalOfRendered(t.altitude, "," + r3);
    CommaLit(r3);
    DecimalOfRendered(t.speed, "," + r4);
    CommaLit(r4);
    DecimalOfRendered(t.course, tail);
  }

  /** A position report: latitude, longitude and the time fields. */
  datatype Fix = Fix(lat: Coord, lon: Coord, times: Times)

  /** `\+CGPSINFO:\s*` followed by the nine fields. */
  function CgpsinfoAt(s: string): (r: Option<Parsed<Fix>>)
    ensures r.Some? ==> WellFormedFix(r.value.value) && "+CGPSINFO:" <= s
  {
    var t :- Lit(s, "+CGPSINFO:");
    var lat :- CoordAt(Spaces(t), 'N', 'S');
    var a :- Lit(lat.rest, ",");
    var lon :- CoordAt(a, 'E', 'W');
    var b :- Lit(lon.rest, ",");
    var times :- TimesAt(b);
    Some(Parsed(Fix(lat.value, lon.value, times.value), times.rest))
  }

  predicate WellFormedFix(f: Fix)
  {
    WellFormedDecimal(f.lat.value) && (f.lat.dir == 'N' || f.lat.dir == 'S')
    && WellFormedDecimal(f.lon.value) && (f.lon.dir == 'E' || f.lon.dir == 'W')
    && WellFormedTimes(f.times)
  }

  /** The report as the module writes it, e.g.
      `+CGPSINFO: 3749.048467,N,12224.895475,W,100624,175032.0,10.1,0.0,0.0`. */
  function RenderCgpsinfo(f: Fix): string
  {
    "+CGPSINFO:" + (" " + RenderCoordThen(f.lat, "," + RenderCoordThen(f.lon, "," + RenderTimesThen(f.times, ""))))
  }

  lemma CgpsinfoRoundTrip(f: Fix)
    requires WellFormedFix(f)
    ensures Search(RenderCgpsinfo(f), CgpsinfoAt) == Some(Parsed(f, ""))
  {
    var s := RenderCgpsinfo(f);
    var r2 := RenderTimesThen(f.times, "");
    var r1 := RenderCoordThen(f.lon, "," + r2);
    var r0 := RenderCoordThen(f.lat, "," + r1);
    assert s[10..] == " " + r0;
    assert Lit(s, "+CGPSINFO:") == Some(" " + r0);
    assert r0[0] == DecimalText(f.lat.value)[0];
    SpacesOfRendered(" ", r0);
    CoordOfRendered(f.lat, 'N', 'S', "," + r1);
    CommaLit(r1);
    CoordOfRendered(f.lon, 'E', 'W', "," + r2);
    CommaLit(r2);
    TimesOfRendered(f.times, "");
    assert CgpsinfoAt(s) == Some(Parsed(f, ""));
    SearchAtStart(s, CgpsinfoAt);
  }

  /** The record a matched report produces: signed decimal coordinates, `"<date> <time>"`,
      a fix, and every other field at its default. */
  function PositionOf(f: Fix): GpsData
    requires WellFormedFix(f)
  {
    GpsData(Coordinate(DecimalValue(f.lat.value), f.lat.dir, 'S'),
            Coordinate(DecimalValue(f.lon.value), f.lon.dir, 'W'),
            DecimalValue(f.times.altitude), DecimalValue(f.times.speed), DecimalValue(f.times.course),
            f.times.date + " " + DecimalText(f.times.time), 0, true, 0.0, 0)
  }

  /** The record of a report: a fix, no satellites, HDOP or fix kind yet, the coordinates
      converted to degrees and negated exactly for the southern and western hemispheres,
      and the date and time joined by a space. */
  lemma PositionOfReport(f: Fix)
    requires WellFormedFix(f)
    ensures var g := PositionOf(f);
      g.fixStatus && g.satellites == 0 && g.hdop == 0.0 && g.fixType == 0
      && g.latitude == (if f.lat.dir == 'S' then -NmeaToDecimal(DecimalValue(f.lat.value))
                        else NmeaToDecimal(DecimalValue(f.lat.value)))
      && g.longitude == (if f.lon.dir == 'W' then -NmeaToDecimal(DecimalValue(f.lon.value))
                         else NmeaToDecimal(DecimalValue(f.lon.value)))
      && (g.latitude < 0.0 ==> f.lat.dir == 'S')
      && (g.longitude < 0.0 ==> f.lon.dir == 'W')
      && g.altitude == DecimalValue(f.times.altitude)
      && g.speed == DecimalValue(f.times.speed)
      && g.course == DecimalValue(f.times.course)
      && g.altitude >= 0.0 && g.speed >= 0.0 && g.course >= 0.0
      && g.timestamp == f.times.date + " " + DecimalText(f.times.time)
  {
  }

  /** What `get_gps_position` reads from the `AT+CGPSINFO` reply, before refinement: a
      report, the bare tag of a module without a fix, or nothing at all. */
  datatype PositionReply = Position(fix: Fix) | NoFix | NoReport

  function ClassifyCgpsinfo(reply: string): (r: PositionReply)
    ensures r.Position? ==> WellFormedFix(r.fix)
  {
    match Search(reply, CgpsinfoAt)
    case Some(p) => ReportHasTag(reply); Position(p.value)
    case None => if Contains(reply, "+CGPSINFO:") then NoFix else NoReport
  }

  /** A report is recognised exactly when the report pattern matches somewhere, and the
      reply says nothing about the position exactly when it lacks the tag. */
  lemma ClassifyCgpsinfoCases(reply: string)
    ensures ClassifyCgpsinfo(reply).Position? <==> Search(reply, CgpsinfoAt).Some?
    ensures ClassifyCgpsinfo(reply).NoReport? <==> !Contains(reply, "+CGPSINFO:")
  {
    if Search(reply, CgpsinfoAt).Some? {
      ReportHasTag(reply);
    }
  }

  /** A matched report is found where its tag is, so a reply without the tag has none. */
  lemma ReportHasTag(reply: string)
    requires Search(reply, CgpsinfoAt).Some?
    ensures WellFormedFix(Search(reply, CgpsinfoAt).value.value)
    ensures Contains(reply, "+CGPSINFO:")
  {
    var i := FindFrom(reply, CgpsinfoAt, 0).value;
    FindFromLeftmost(reply, CgpsinfoAt, 0);
    TagContained(reply, "+CGPSINFO:", i);
  }

  lemma TagContained(s: string, tag: string, i: nat)
    requires i <= |s| && tag <= s[i..]
    ensures Contains(s, tag)
  {
    assert s[i..i + |tag|] == tag;
    OccurrenceContained(s, tag, i);
  }

  // ---------------------------------------------------------------- GGA

  /** Length of the leading `[\d.]*` run. */
  function NumeralRun(s: string): (n: nat)
    ensures n <= |s|
  {
    if s != [] && (IsDigit(s[0]) || s[0] == '.') then 1 + NumeralRun(s[1..]) else 0
  }

  /** The run covers digits and points only, and stops at the first other character. */
  lemma {:induction false} NumeralRunStops(s: string)
    ensures forall k :: 0 <= k < NumeralRun(s) ==> IsDigit(s[k]) || s[k] == '.'
    ensures NumeralRun(s) == |s| || !(IsDigit(s[NumeralRun(s)]) || s[NumeralRun(s)] == '.')
  {
    if s != [] && (IsDigit(s[0]) || s[0] == '.') {
      NumeralRunStops(s[1..]);
      forall k | 0 <= k < NumeralRun(s) ensures IsDigit(s[k]) || s[k] == '.' {
        if k > 0 { assert s[k] == s[1..][k - 1]; }
      }
    }
  }

  /** `[\d.]*,`: a possibly empty run of digits and points, then a comma. */
  function NumeralField(s: string): (r: Option<Parsed<string>>)
    ensures r.Some? ==> forall k :: 0 <= k < |r.value.value| ==> IsDigit(r.value.value[k]) || r.value.value[k] == '.'
  {
    NumeralRunStops(s);
    var n := NumeralRun(s);
    var rest :- Lit(s[n..], ",");
    Some(Parsed(s[..n], rest))
  }

  /** `\$G[PN]GGA,[\d.]*,[\d.]*,[NS],[\d.]*,[EW],\d,`: a GPS or GNSS fix sentence up to
      the satellites field. */
  function GgaHeadAt(s: string): Option<string>
  {
    var t :- Lit(s, "$G");
    var u :- if t != [] && (t[0] == 'P' || t[0] == 'N') then Some(t[1..]) else None;
    var v :- Lit(u, "GGA,");
    GgaFixAt(v)
  }

  /** `[\d.]*,[\d.]*,[NS],` and the rest of the fix fields: time, latitude, hemisphere,
      then longitude, hemisphere and fix quality. */
  function GgaFixAt(v: string): Option<string>
  {
    var time :- NumeralField(v);
    var lat :- NumeralField(time.rest);
    var ns :- DirAt(lat.rest, 'N', 'S');
    var a :- Lit(ns.rest, ",");
    GgaLongitudeAt(a)
  }

  /** `[\d.]*,[EW],\d,`: longitude, hemisphere and fix quality. */
  function GgaLongitudeAt(a: string): Option<string>
  {
    var lon :- NumeralField(a);
    var ew :- DirAt(lon.rest, 'E', 'W');
    var b :- Lit(ew.rest, ",");
    var q :- if b != [] && IsDigit(b[0]) then Some(b[1..]) else None;
    Lit(q, ",")
  }

  /** The satellites count and the HDOP text of a GGA sentence. */
  datatype Gga = Gga(satellites: nat, hdop: string)

  predicate WellFormedGga(g: Gga)
  {
    forall k :: 0 <= k < |g.hdop| ==> IsDigit(g.hdop[k]) || g.hdop[k] == '.'
  }

  /** `(\d+),([\d.]*),` */
  function GgaFieldsAt(s: string): (r: Option<Gga>)
    ensures r.Some? ==> WellFormedGga(r.value)
  {
    var sats :- Number(s);
    var a :- Lit(sats.rest, ",");
    var hdop :- NumeralField(a);
    Some(Gga(sats.value, hdop.value))
  }

  function GgaAt(s: string): (r: Option<Gga>)
    ensures r.Some? ==> WellFormedGga(r.value)
  {
    var fields :- GgaHeadAt(s);
    GgaFieldsAt(fields)
  }

  /** HDOP as `float()` reads it, or 0.0 where `float()` raises. */
  function HdopOf(g: Gga): real
    requires WellFormedGga(g)
  {
    match FloatOf(g.hdop)
    case Some(x) => x
    case None => 0.0
  }

  lemma GgaFieldsOfRendered(sats: nat, hdop: Decimal, tail: string)
    requires WellFormedDecimal(hdop)
    ensures GgaFieldsAt(NatToString(sats) + ("," + (DecimalText(hdop) + ("," + tail))))
      == Some(Gga(sats, DecimalText(hdop)))
  {
    var h := DecimalText(hdop);
    var r := h + ("," + tail);
    NumberOfRendered(sats, "," + r);
    CommaLit(r);
    FloatOfDecimal(hdop);
    NumeralRunOver(h, "," + tail);
    CommaLit(tail);
  }

  /** The numeral run of digits and points followed by another character is exactly
      those digits and points. */
  lemma NumeralRunOver(h: string, tail: string)
    requires forall k :: 0 <= k < |h| ==> IsDigit(h[k]) || h[k] == '.'
    requires tail == [] || !(IsDigit(tail[0]) || tail[0] == '.')
    ensures NumeralRun(h + tail) == |h|
    ensures (h + tail)[..|h|] == h && (h + tail)[|h|..] == tail
  {
    var s := h + tail;
    assert forall k :: 0 <= k < |h| ==> s[k] == h[k];
    assert |h| < |s| ==> s[|h|] == tail[0];
    NumeralRunStops(s);
  }

  /** The satellites and HDOP of a sentence read back as written, and the HDOP text reads as
      its decimal value. */
  lemma GgaFieldsRoundTrip(sats: nat, hdop: Decimal, tail: string)
    requires WellFormedDecimal(hdop)
    ensures var g := GgaFieldsAt(NatToString(sats) + ("," + (DecimalText(hdop) + ("," + tail))));
      g.Some? && g.value.satellites == sats && HdopOf(g.value) == DecimalValue(hdop)
  {
    GgaFieldsOfRendered(sats, hdop, tail);
    FloatOfDecimal(hdop);
  }

  /** An empty HDOP field reads as zero, so no accuracy is reported. */
  lemma EmptyHdop(sats: nat)
    ensures HdopOf(Gga(sats, "")) == 0.0
  {
  }

  // ---------------------------------------------------------------- fallbacks

  /** `(\d+)\s*satellites` at the front of `s`. */
  function SatellitesAt(s: string): Option<nat>
  {
    var n :- Number(s);
    var t :- Lit(Spaces(n.rest), "satellites");
    Some(n.value)
  }

  /** The fallback count from the (lower-cased) text, if any. */
  function SatellitesMention(reply: string): Option<nat>
  {
    Search(Lower(reply), SatellitesAt)
  }

  lemma {:induction false} LowerAppend(a: string, b: string)
    ensures Lower(a + b) == Lower(a) + Lower(b)
  {
    if a == [] {
      assert a + b == b;
    } else {
      assert (a + b)[1..] == a[1..] + b;
      LowerAppend(a[1..], b);
      assert Lower(a + b) == [LowerChar(a[0])] + Lower(a[1..] + b);
    }
  }

  lemma LowerDigits(d: string)
    requires DigitsOnly(d)
    ensures Lower(d) == d
  {
  }

  /** A count followed by the word in any letter case is found, e.g. `12 Satellites`. */
  lemma SatellitesMentionRendered(n: nat, word: string)
    requires Lower(word) == "satellites"
    ensures SatellitesMention(NatToString(n) + (" " + word)) == Some(n)
  {
    var d := NatToString(n);
    LowerAppend(d, " " + word);
    LowerAppend(" ", word);
    LowerDigits(d);
    assert Lower(" ") == " ";
    var l := Lower(d + (" " + word));
    assert l == d + (" " + "satellites");
    NumberOfRendered(n, " " + "satellites");
    SpacesOfRendered(" ", "satellites");
    assert SatellitesAt(l) == Some(n);
    SearchAtStart(l, SatellitesAt);
  }

  /** `+CGPSSTATUS` fix kind: 3 for a 3D fix, 2 for 2D, 0 when not fixed or unknown, and
      nothing when the reply says none of these. */
  function FixTypeOf(reply: string): (r: Option<int>)
    ensures r == Some(3) <==> Contains(reply, "3D Fix")
    ensures r == Some(2) <==> !Contains(reply, "3D Fix") && Contains(reply, "2D Fix")
    ensures r.None? <==> (!Contains(reply, "3D Fix") && !Contains(reply, "2D Fix")
                          && !Contains(reply, "Location Not Fix") && !Contains(reply, "Location Unknown"))
    ensures r == Some(0) <==> (!Contains(reply, "3D Fix") && !Contains(reply, "2D Fix")
                               && (Contains(reply, "Location Not Fix") || Contains(reply, "Location Unknown")))
    ensures r.Some? ==> r.value == 0 || r.value == 2 || r.value == 3
  {
    if Contains(reply, "3D Fix") then Some(3)
    else if Contains(reply, "2D Fix") then Some(2)
    else if Contains(reply, "Location Not Fix") || Contains(reply, "Location Unknown") then Some(0)
    else None
  }

  /** `_update_gps_satellites` given its four replies: the status reply may set the fix
      kind; a GGA sentence in the position or sentence reply sets the satellites and HDOP;
      without one, a count in the configuration reply sets the satellites. */
  function RefineSatellites(g: GpsData, statusReply: string, configReply: string,
                            nmeaReply: string, sentenceReply: string): GpsData
  {
    var g1 := match FixTypeOf(statusReply)
      case Some(t) => g.(fixType := t)
      case None => g;
    match Search(nmeaReply + sentenceReply, GgaAt)
    case Some(gga) =>
      GgaWellFormed(nmeaReply + sentenceReply);
      g1.(satellites := gga.satellites, hdop := HdopOf(gga))
    case None =>
      match SatellitesMention(configReply)
      case Some(n) => g1.(satellites := n)
      case None => g1
  }

  /** The refinement touches only fix kind, satellites and HDOP: the fix kind comes from
      the status reply when it names one; a GGA sentence sets satellites and HDOP; without
      one, a satellite count in the configuration reply sets the satellites. */
  lemma RefineSatellitesFields(g: GpsData, statusReply: string, configReply: string, nmeaReply: string, sentenceReply: string)
    ensures var r := RefineSatellites(g, statusReply, configReply, nmeaReply, sentenceReply);
      r == g.(fixType := r.fixType, satellites := r.satellites, hdop := r.hdop)
      && r.fixType == (if FixTypeOf(statusReply).Some? then FixTypeOf(statusReply).value else g.fixType)
      && (Search(nmeaReply + sentenceReply, GgaAt).Some? ==>
        var gga := Search(nmeaReply + sentenceReply, GgaAt).value;
        WellFormedGga(gga) && r.satellites == gga.satellites && r.hdop == HdopOf(gga))
      && (Search(nmeaReply + sentenceReply, GgaAt).None? ==>
        r.hdop == g.hdop
        && r.satellites == (if SatellitesMention(configReply).Some? then SatellitesMention(configReply).value else g.satellites))
  {
    if Search(nmeaReply + sentenceReply, GgaAt).Some? {
      GgaWellFormed(nmeaReply + sentenceReply);
    }
  }

  lemma GgaWellFormed(s: string)
    requires Search(s, GgaAt).Some?
    ensures WellFormedGga(Search(s, GgaAt).value)
  {
    SearchLeftmost(s, GgaAt);
  }
}
