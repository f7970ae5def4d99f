/** A GPS coordinate as EXIF wants it (section 4.6.6 of Exif 2.2): degrees, minutes and seconds,
    each a rational. Arithmetic is exact; the source computes it in single precision.
 */
module Gps {

  const BAD_VALUE := -22

  /** rat_t */
  datatype Rat = Rat(num: int, denom: int)

  /** Degrees, minutes, and ten-thousandths of a second. */
  datatype Dms = Dms(deg: int, min: int, sec: int)

  predicate Proper(c: Dms) { c.deg >= 0 && 0 <= c.min < 60 && 0 <= c.sec < 600000 }

  /** The value of the three rationals, in degrees. */
  function RatValue(r: Rat): real
    requires r.denom != 0
  {
    r.num as real / r.denom as real
  }

  function Value(c: Dms): real {
    c.deg as real + c.min as real / 60.0 + c.sec as real / 36000000.0
  }

  function Abs(x: real): real { if x < 0.0 then -x else x }

  /** C's conversion to int: towards zero. */
  function TruncReal(x: real): int { if x >= 0.0 then x.Floor else -(-x).Floor }

  function Split(coord: real): Dms {
    var deg := Abs(coord);
    var min := (deg - TruncReal(deg) as real) * 60.0;
    var sec := (min - TruncReal(min) as real) * 60.0;
    Dms(TruncReal(deg), TruncReal(min), TruncReal(sec * 10000.0))
  }

  /** The one proper triple that reaches from below to within 1/36,000,000 degree. */
  predicate Approximates(c: Dms, coord: real) {
    Proper(c) && Value(c) <= Abs(coord) < Value(c) + 1.0 / 36000000.0
  }

  lemma TruncUnique(x: real, n: int)
    requires x >= 0.0 && n as real <= x < n as real + 1.0
    ensures TruncReal(x) == n
  {
  }

  /** The triple is proper and never more than the coordinate, by less than 1/36,000,000 degree. */
  lemma SplitApproximates(coord: real)
    ensures Approximates(Split(coord), coord)
  {
  }

  /** And it is the only such triple. */
  lemma SplitIff(c: Dms, coord: real)
    ensures c == Split(coord) <==> Approximates(c, coord)
  {
    SplitApproximates(coord);
    if Approximates(c, coord) {
      var deg := Abs(coord);
      TruncUnique(deg, c.deg);
      var min := (deg - c.deg as real) * 60.0;
      TruncUnique(min, c.min);
      var sec := (min - c.min as real) * 60.0;
      TruncUnique(sec * 10000.0, c.sec);
    }
  }

  /** A coordinate that was written in degrees, minutes and seconds comes back unchanged. */
  lemma SplitRoundTrip(c: Dms)
    requires Proper(c)
    ensures Split(Value(c)) == c && Split(-Value(c)) == c
  {
  }

  function Rats(c: Dms): seq<Rat> { [Rat(c.deg, 1), Rat(c.min, 1), Rat(c.sec, 10000)] }

  /** What the three rationals stand for is the value of the triple. */
  lemma RatsValue(c: Dms)
    ensures RatValue(Rats(c)[0]) + RatValue(Rats(c)[1]) / 60.0 + RatValue(Rats(c)[2]) / 3600.0 == Value(c)
  {
  }

  method GetRational(coord: array<Rat>, i: nat, num: int, denom: int)
    requires i < coord.Length
    modifies coord
    ensures coord[..] == old(coord[..])[i := Rat(num, denom)]
  {
    coord[i] := Rat(num, denom);
  }

  method ParseGPSCoordinate(degrees: real, coord: array?<Rat>) returns (rc: int)
    requires coord != null ==> coord.Length == 3
    modifies coord
    ensures coord == null ==> rc == BAD_VALUE
    ensures coord != null ==>
              rc == 0 &&
              exists c :: Approximates(c, degrees) && coord[..] == [Rat(c.deg, 1), Rat(c.min, 1), Rat(c.sec, 10000)]
  {
    if coord == null { return BAD_VALUE; }
    hide Approximates;
    var degF := degrees;
    if degF < 0.0 { degF := -degF; }
    var minF := (degF - TruncReal(degF) as real) * 60.0;
    var secF := (minF - TruncReal(minF) as real) * 60.0;
    GetRational(coord, 0, TruncReal(degF), 1);
    GetRational(coord, 1, TruncReal(minF), 1);
    GetRational(coord, 2, TruncReal(secF * 10000.0), 10000);
    SplitApproximates(degrees);
    assert coord[..] == Rats(Split(degrees));
    return 0;
  }
}
