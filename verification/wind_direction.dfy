/** The wind-direction formatter: degrees to one of eight compass labels,
    each label owning the 45-degree sector centred on its bearing, with
    rounding to the nearest sector and wrap-around at 360 degrees. */
module WindDirection {
  import opened JsValues
  import opened Options

  const Directions: seq<string> := ["N", "NE", "E", "SE", "S", "SW", "W", "NW"]

  /** The placeholder shown for a direction that is not a number (an em dash). */
  const Unknown: string := "\U{2014}"

  /** Truncation toward zero. */
  function Trunc(x: real): (n: int)
    ensures x >= 0.0 ==> n as real <= x < n as real + 1.0
    ensures x < 0.0 ==> n as real - 1.0 < x <= n as real
  {
    if x >= 0.0 then x.Floor else -((-x).Floor)
  }

  /** `x % 360` on a finite number: `x` minus the truncated quotient times
      360, so the remainder takes the sign of the dividend. */
  function JsRem360(x: real): (r: real)
    ensures -360.0 < r < 360.0
    ensures x >= 0.0 ==> r >= 0.0
    ensures x < 0.0 ==> r <= 0.0
  {
    x - 360.0 * (Trunc(x / 360.0) as real)
  }

  /** `Math.round`: the nearest integer, halves rounding toward +infinity. */
  function JsRound(x: real): (n: int)
    ensures n as real - 0.5 <= x < n as real + 0.5
  {
    (x + 0.5).Floor
  }

  /** JavaScript's `%` on integers, truncating like `JsRem`. */
  function JsRemInt(a: int, m: int): (r: int)
    requires m > 0
    ensures a >= 0 ==> r == a % m
    ensures a < 0 ==> -m < r <= 0
  {
    if a >= 0 then a % m else -((-a) % m)
  }

  /** The bearing `d` brought into [0, 360) by whole turns: the reference
      against which the formatter's arithmetic is judged. */
  function Normalize(d: real): (n: real)
    ensures 0.0 <= n < 360.0
  {
    d - 360.0 * ((d / 360.0).Floor as real)
  }

  /** Compass point `i` (0 = N, 1 = NE, ..., 7 = NW) owns the bearings from
      22.5 degrees before its centre 45*i (inclusive) to 22.5 degrees after
      (exclusive), modulo whole turns. */
  ghost predicate InSector(d: real, i: int) {
    && 0 <= i < 8
    && var n := Normalize(d);
       if i == 0 then n < 22.5 || 337.5 <= n
       else 45.0 * i as real - 22.5 <= n < 45.0 * i as real + 22.5
  }

  /** The index expression `Math.round(((deg % 360) + 360) / 45) % 8`. */
  function SectorIndex(d: real): int {
    JsRemInt(JsRound((JsRem360(d) + 360.0) / 45.0), 8)
  }

  lemma FloorShift(x: real, k: int)
    ensures (x + k as real).Floor == x.Floor + k
  {
  }

  /** The index expression always names a compass point, and it names the
      one whose sector holds `d`. */
  lemma {:induction false} SectorIndexIsNearest(d: real)
    ensures 0 <= SectorIndex(d) < 8
    ensures InSector(d, SectorIndex(d))
  {
    var n := Normalize(d);
    var t := JsRem360(d) + 360.0;
    var j := (d / 360.0).Floor - Trunc(d / 360.0) + 1;
    assert t - n == 360.0 * j as real;
    assert j == 0 || j == 1;
    var p := JsRound(n / 45.0);
    assert 0 <= p <= 8;
    assert t / 45.0 + 0.5 == (n / 45.0 + 0.5) + (8 * j) as real;
    FloorShift(n / 45.0 + 0.5, 8 * j);
    assert JsRound(t / 45.0) == p + 8 * j;
    assert SectorIndex(d) == (p + 8 * j) % 8;
    assert 45.0 * p as real - 22.5 <= n < 45.0 * p as real + 22.5;
    if p == 8 {
      assert SectorIndex(d) == 0;
    } else {
      assert SectorIndex(d) == p;
    }
  }

  /** The eight sectors do not overlap: a bearing lies in at most one of
      them. That it lies in some sector is `SectorIndexIsNearest`. */
  lemma {:induction false} SectorsPartitionCircle(d: real, i: int, k: int)
    requires InSector(d, i) && InSector(d, k)
    ensures i == k
  {
  }

  /** `formatWindDir` exactly as the source writes it. `None` is the
      `undefined` that indexing `dirs` out of range yields; for an infinite
      bearing `deg % 360` is `NaN`, so the index is `NaN` as well. The
      placeholder comes exactly from the guard, `undefined` exactly from an
      infinity, and every finite bearing gets one of the eight labels. */
  function FormatWindDirAsWritten(deg: JsValue): (r: Option<string>)
    ensures r == Some(Unknown) <==> !deg.Num? || deg.n.NaN?
    ensures r.None? <==> deg.Num? && (deg.n.PosInfinity? || deg.n.NegInfinity?)
    ensures deg.Num? && deg.n.Finite? ==> r.Some? && r.value in Directions
  {
    if !deg.Num? || deg.n.NaN? then Some(Unknown)
    else match deg.n
      case Finite(d) =>
        SectorIndexIsNearest(d);
        var i := SectorIndex(d);
        if 0 <= i < |Directions| then Some(Directions[i]) else None
      case _ => None
  }

  /** The guard admits the two infinities, for which the source returns
      `undefined` rather than a label or the placeholder. */
  lemma InfiniteBearingHasNoLabel()
    ensures FormatWindDirAsWritten(Num(PosInfinity)) == None
    ensures FormatWindDirAsWritten(Num(NegInfinity)) == None
  {
  }

  /** `formatWindDir` with the guard extended to every non-finite number:
      a finite bearing gets the label of the sector holding it; anything
      else (a string, null, undefined, NaN, an infinity) gets the placeholder. */
  function FormatWindDir(deg: JsValue): (text: string)
    ensures text == Unknown <==> !(deg.Num? && deg.n.Finite?)
    ensures text == Unknown || text in Directions
    ensures deg.Num? && deg.n.Finite? ==>
              forall i :: InSector(deg.n.r, i) ==> text == Directions[i]
  {
    if deg.Num? && deg.n.Finite? then
      SectorIndexIsNearest(deg.n.r);
      Directions[SectorIndex(deg.n.r)]
    else Unknown
  }

  /** The corrected formatter differs from the source only on the infinities. */
  lemma AsWrittenAgreesOnFiniteInput(deg: JsValue)
    requires !(deg.Num? && (deg.n.PosInfinity? || deg.n.NegInfinity?))
    ensures FormatWindDirAsWritten(deg) == Some(FormatWindDir(deg))
  {
    if deg.Num? && deg.n.Finite? {
      SectorIndexIsNearest(deg.n.r);
    }
  }

  /** A whole turn does not change the label, in either direction. */
  lemma {:induction false} FullTurnKeepsLabel(d: real)
    ensures FormatWindDir(Num(Finite(d + 360.0))) == FormatWindDir(Num(Finite(d)))
    ensures FormatWindDir(Num(Finite(d - 360.0))) == FormatWindDir(Num(Finite(d)))
  {
    SectorIndexIsNearest(d);
    var i := SectorIndex(d);
    assert Normalize(d + 360.0) == Normalize(d) by {
      FloorShift(d / 360.0, 1);
      assert (d + 360.0) / 360.0 == d / 360.0 + 1.0;
    }
    assert Normalize(d - 360.0) == Normalize(d) by {
      FloorShift(d / 360.0, -1);
      assert (d - 360.0) / 360.0 == d / 360.0 + (-1) as real;
    }
    assert InSector(d + 360.0, i) && InSector(d - 360.0, i);
  }

  /** The cardinal points, the sector boundaries (a bearing exactly half-way
      rounds clockwise) and a negative bearing. */
  lemma CompassExamples()
    ensures FormatWindDir(Num(Finite(0.0))) == "N"
    ensures FormatWindDir(Num(Finite(360.0))) == "N"
    ensures FormatWindDir(Num(Finite(90.0))) == "E"
    ensures FormatWindDir(Num(Finite(22.5))) == "NE"
    ensures FormatWindDir(Num(Finite(337.5))) == "N"
    ensures FormatWindDir(Num(Finite(-45.0))) == "NW"
    ensures FormatWindDir(Num(Finite(200.0))) == "S"
  {
    assert InSector(0.0, 0);
    assert InSector(360.0, 0);
    assert InSector(90.0, 2);
    assert InSector(22.5, 1);
    assert InSector(337.5, 0);
    assert InSector(-45.0, 7);
    assert InSector(200.0, 4);
  }
}
