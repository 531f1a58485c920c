/**
 * Version::Range: a half-open interval of versions, membership in it, and
 * the odometer-style enumeration of every version string inside it.
 */
module VersionRanges {
  import opened Outcomes
  import opened Versions

  /** `lower` is included, `upper` is excluded. */
  datatype Range = Range(lower: Version, upper: Version)

  /** Construction from two bound sources; the lower bound is converted first. */
  function MakeRange(lower: Source, upper: Source): (r: Result<Range, string>)
    ensures r.Success? <==> Make(lower).Success? && Make(upper).Success?
    ensures r.Success? ==> r.value == Range(Make(lower).value, Make(upper).value)
    ensures r.Failure? && Make(lower).Failure? ==> r.error == Make(lower).error
    ensures r.Failure? && Make(lower).Success? ==> r.error == Make(upper).error
  {
    match Make(lower)
    case Failure(e) => Failure(e)
    case Success(lo) =>
      match Make(upper)
      case Failure(e) => Failure(e)
      case Success(hi) => Success(Range(lo, hi))
  }

  /**
   * Membership (`include?`): at least the lower bound and below the upper
   * bound; equivalently, with all three padded with zeros to a common
   * length, lexicographically between the bounds.
   */
  predicate Includes(r: Range, v: Version)
    ensures var n := CommonDepth(r.lower.raw, v.raw, r.upper.raw);
      Includes(r, v) <==>
        LexCompare(Pad(r.lower.raw, n), Pad(v.raw, n)) <= 0 && LexCompare(Pad(v.raw, n), Pad(r.upper.raw, n)) < 0
  {
    var n := CommonDepth(r.lower.raw, v.raw, r.upper.raw);
    CompareAtDepth(r.lower, v, n);
    CompareAtDepth(v, r.upper, n);
    AtMost(r.lower, v) && Less(v, r.upper)
  }

  /** A length at which three component lists can all be compared. */
  function CommonDepth(a: seq<nat>, b: seq<nat>, c: seq<nat>): (n: nat)
    ensures |a| <= n && |b| <= n && |c| <= n
  {
    if |a| >= |b| && |a| >= |c| then |a| else if |b| >= |c| then |b| else |c|
  }

  /** `include?` on a string or version candidate, which is converted like any version. */
  function IncludesSource(r: Range, candidate: Source): (b: Result<bool, string>)
    ensures b.Success? <==> Make(candidate).Success?
    ensures b.Success? ==> (b.value <==> Includes(r, Make(candidate).value))
  {
    match Make(candidate)
    case Failure(e) => Failure(e)
    case Success(v) => Success(Includes(r, v))
  }

  /** Only a range whose lower bound is below its upper bound contains anything. */
  lemma IncludesNonEmpty(r: Range, v: Version)
    requires Includes(r, v)
    ensures Less(r.lower, r.upper)
  {
    CompareTransitive(r.lower, v, r.upper);
  }

  /** A range with equal bounds contains no version. */
  lemma EqualBoundsEmpty(r: Range, v: Version)
    requires Same(r.lower, r.upper)
    ensures !Includes(r, v)
  {
    if Includes(r, v) {
      IncludesNonEmpty(r, v);
    }
  }

  /** A sequence of zeros is at most any sequence of the same length. */
  lemma {:induction false} ZerosLeast(x: seq<nat>)
    ensures LexCompare(seq(|x|, _ => 0), x) <= 0
    decreases |x|
  {
    if |x| > 0 {
      var p := x[..|x| - 1];
      ZerosLeast(p);
      var z := seq(|x|, _ => 0);
      assert z[..|z| - 1] == seq(|p|, _ => 0);
    }
  }

  /** The version of the empty string is below or equal to every version. */
  lemma EmptyIsLeast(v: Version)
    ensures AtMost(Version([]), v)
  {
    var n := |v.raw|;
    CompareAtDepth(Version([]), v, n);
    assert Pad([], n) == seq(n, _ => 0);
    assert Pad(v.raw, n) == v.raw;
    ZerosLeast(v.raw);
  }

  // ---------------------------------------------------------------------
  // Enumeration (`to_a`)
  // ---------------------------------------------------------------------

  /** Every component is below `radix`. */
  predicate DigitsBelow(x: seq<nat>, radix: nat) {
    forall i :: 0 <= i < |x| ==> x[i] < radix
  }

  /**
   * One odometer step: the last component goes up by one; a component that
   * reaches 10 or more becomes 0 and carries one into the component on its
   * left. The flag reports a carry out of the first component.
   */
  function Increment(x: seq<nat>): (r: (seq<nat>, bool))
    ensures |r.0| == |x|
    ensures forall i :: 0 <= i < |x| ==> r.0[i] == x[i] || r.0[i] < 10
    ensures !r.1 ==> LexCompare(x, r.0) < 0
    ensures r.1 ==> forall i :: 0 <= i < |x| ==> r.0[i] == 0 && x[i] >= 9
  {
    if |x| == 0 then ([], true)
    else
      var prefix := x[..|x| - 1];
      var last := x[|x| - 1] + 1;
      if last < 10 then
        BumpLast(x);
        (prefix + [last], false)
      else
        var (p, carry) := Increment(prefix);
        CarryLast(x, p, carry);
        (p + [0], carry)
  }

  /** Raising the last component without a carry keeps the prefix and moves strictly up. */
  lemma BumpLast(x: seq<nat>)
    requires |x| > 0 && x[|x| - 1] + 1 < 10
    ensures var y := x[..|x| - 1] + [x[|x| - 1] + 1];
      (forall i :: 0 <= i < |x| ==> y[i] == x[i] || y[i] < 10) && LexCompare(x, y) < 0
  {
    var prefix := x[..|x| - 1];
    var y := prefix + [x[|x| - 1] + 1];
    assert LexCompare(x, y) < 0 by {
      assert x == prefix + [x[|x| - 1]];
      LexZeroIff(prefix, prefix);
      LexAppend(prefix, [x[|x| - 1]], prefix, [x[|x| - 1] + 1]);
    }
  }

  /** Turning the last component into 0 after the prefix stepped to `p`. */
  lemma CarryLast(x: seq<nat>, p: seq<nat>, carry: bool)
    requires |x| > 0 && x[|x| - 1] + 1 >= 10
    requires |p| == |x| - 1
    requires forall i :: 0 <= i < |p| ==> p[i] == x[i] || p[i] < 10
    requires !carry ==> LexCompare(x[..|x| - 1], p) < 0
    requires carry ==> forall i :: 0 <= i < |p| ==> p[i] == 0 && x[i] >= 9
    ensures forall i :: 0 <= i < |x| ==> (p + [0])[i] == x[i] || (p + [0])[i] < 10
    ensures !carry ==> LexCompare(x, p + [0]) < 0
    ensures carry ==> forall i :: 0 <= i < |x| ==> (p + [0])[i] == 0 && x[i] >= 9
  {
    var prefix, y := x[..|x| - 1], p + [0];
    assert forall i :: 0 <= i < |p| ==> y[i] == p[i] && x[i] == prefix[i];
    if !carry {
      assert LexCompare(x, y) < 0 by {
        assert x == prefix + [x[|x| - 1]];
        LexAppend(prefix, [x[|x| - 1]], p, [0]);
      }
    }
  }

  /** The value of `x` read as a numeral in base `radix`, most significant component first. */
  function Value(x: seq<nat>, radix: nat): nat {
    if |x| == 0 then 0 else Value(x[..|x| - 1], radix) * radix + x[|x| - 1]
  }

  function Power(b: nat, e: nat): nat {
    if e == 0 then 1 else b * Power(b, e - 1)
  }

  /** A numeral `v` followed by one more digit `l` stays below `p * radix` when `v` is below `p`. */
  lemma AppendDigitBound(v: nat, l: nat, p: nat, radix: nat)
    requires l < radix && v + 1 <= p
    ensures v * radix + l < p * radix
  {
    assert v * radix + radix == (v + 1) * radix;
    assert (v + 1) * radix <= p * radix;
  }

  lemma {:induction false} ValueBound(x: seq<nat>, radix: nat)
    requires DigitsBelow(x, radix)
    ensures Value(x, radix) < Power(radix, |x|)
    decreases |x|
  {
    if |x| > 0 {
      var p := x[..|x| - 1];
      ValueBound(p, radix);
      AppendDigitBound(Value(p, radix), x[|x| - 1], Power(radix, |p|), radix);
      assert Power(radix, |x|) == Power(radix, |p|) * radix;
    }
  }

  /** For numerals with the same number of digits, lexicographically smaller is numerically smaller. */
  lemma {:induction false} LexLessValue(x: seq<nat>, y: seq<nat>, radix: nat)
    requires |x| == |y| && DigitsBelow(x, radix) && DigitsBelow(y, radix)
    requires LexCompare(x, y) < 0
    ensures Value(x, radix) < Value(y, radix)
    decreases |x|
  {
    var px, py := x[..|x| - 1], y[..|y| - 1];
    if LexCompare(px, py) < 0 {
      LexLessValue(px, py, radix);
      AppendDigitBound(Value(px, radix), x[|x| - 1], Value(py, radix), radix);
      assert Value(py, radix) * radix <= Value(y, radix);
    } else {
      LexZeroIff(px, py);
    }
  }

  /** For numerals with the same number of digits, lexicographic order is numeric order, in both directions. */
  lemma LexOrderIsValueOrder(x: seq<nat>, y: seq<nat>, radix: nat)
    requires |x| == |y| && DigitsBelow(x, radix) && DigitsBelow(y, radix)
    ensures LexCompare(x, y) < 0 <==> Value(x, radix) < Value(y, radix)
  {
    if LexCompare(x, y) < 0 {
      LexLessValue(x, y, radix);
    } else {
      LexZeroIff(x, y);
      LexAntisymmetric(x, y);
      if LexCompare(y, x) < 0 {
        LexLessValue(y, x, radix);
      }
    }
  }

  /** `LexCompare(x, y) < 0` and `LexCompare(y, z) <= 0` give `LexCompare(x, z) < 0`. */
  lemma LexLessThenAtMost(x: seq<nat>, y: seq<nat>, z: seq<nat>)
    requires |x| == |y| == |z|
    requires LexCompare(x, y) < 0 && LexCompare(y, z) <= 0
    ensures LexCompare(x, z) < 0
  {
    LexTransitive(x, y, z);
    if LexCompare(x, z) == 0 {
      LexZeroIff(x, z);
      LexAntisymmetric(x, y);
    }
  }

  lemma ChainBelow(x: seq<nat>, y: seq<nat>, rest: seq<seq<nat>>)
    requires |x| == |y| && LexCompare(x, y) < 0
    requires forall j :: 0 <= j < |rest| ==> |rest[j]| == |y| && LexCompare(y, rest[j]) <= 0
    ensures forall j :: 0 <= j < |rest| ==> LexCompare(x, rest[j]) < 0
  {
    forall j | 0 <= j < |rest|
      ensures LexCompare(x, rest[j]) < 0
    {
      LexLessThenAtMost(x, y, rest[j]);
    }
  }

  /**
   * The readings of the odometer started at `current`, collected while they
   * are lexicographically below `upper`. `radix` bounds every component and
   * only serves the termination argument.
   */
  function Odometer(current: seq<nat>, upper: seq<nat>, radix: nat): (r: seq<seq<nat>>)
    requires |current| == |upper|
    requires 10 <= radix && DigitsBelow(current, radix)
    ensures forall i :: 0 <= i < |r| ==>
      |r[i]| == |current| && LexCompare(current, r[i]) <= 0 && LexCompare(r[i], upper) < 0
    ensures forall i, j :: 0 <= i < j < |r| ==> LexCompare(r[i], r[j]) < 0
    ensures |r| > 0 <==> LexCompare(current, upper) < 0
    ensures |r| > 0 ==> r[0] == current
    decreases Power(radix, |current|) - Value(current, radix)
  {
    LexZeroIff(current, current);
    if LexCompare(current, upper) >= 0 then []
    else
      var (next, carry) := Increment(current);
      if carry then
        // A carry out of the first component makes the reading one component
        // longer, starting with 1, and the bound one longer, starting with 0;
        // the reading is then past the bound and the enumeration stops.
        LexAppend([1], next, [0], upper);
        assert LexCompare([1] + next, [0] + upper) > 0;
        [current]
      else
        ValueBound(next, radix);
        LexLessValue(current, next, radix);
        var rest := Odometer(next, upper, radix);
        PrependReading(current, next, upper, rest);
        [current] + rest
  }

  /** Putting a reading below all later ones in front keeps the readings ordered and bounded. */
  lemma PrependReading(current: seq<nat>, next: seq<nat>, upper: seq<nat>, rest: seq<seq<nat>>)
    requires |current| == |next| == |upper|
    requires LexCompare(current, next) < 0 && LexCompare(current, upper) < 0
    requires forall i :: 0 <= i < |rest| ==>
      |rest[i]| == |next| && LexCompare(next, rest[i]) <= 0 && LexCompare(rest[i], upper) < 0
    requires forall i, j :: 0 <= i < j < |rest| ==> LexCompare(rest[i], rest[j]) < 0
    ensures forall i :: 0 <= i < |rest| + 1 ==> var t := ([current] + rest)[i];
      |t| == |current| && LexCompare(current, t) <= 0 && LexCompare(t, upper) < 0
    ensures forall i, j :: 0 <= i < j < |rest| + 1 ==> LexCompare(([current] + rest)[i], ([current] + rest)[j]) < 0
  {
    ChainBelow(current, next, rest);
    PrependBounded(current, upper, rest);
    PrependOrdered(current, rest);
  }

  /** Entry `i` of a sequence with `current` put in front. */
  lemma ConsAt(current: seq<nat>, rest: seq<seq<nat>>, i: nat)
    requires i < |rest| + 1
    ensures ([current] + rest)[i] == if i == 0 then current else rest[i - 1]
  {
  }

  lemma PrependBounded(current: seq<nat>, upper: seq<nat>, rest: seq<seq<nat>>)
    requires |current| == |upper| && LexCompare(current, upper) < 0
    requires forall i :: 0 <= i < |rest| ==>
      |rest[i]| == |current| && LexCompare(current, rest[i]) < 0 && LexCompare(rest[i], upper) < 0
    ensures forall i :: 0 <= i < |rest| + 1 ==> var t := ([current] + rest)[i];
      |t| == |current| && LexCompare(current, t) <= 0 && LexCompare(t, upper) < 0
  {
    LexZeroIff(current, current);
    forall i | 0 <= i < |rest| + 1
      ensures var t := ([current] + rest)[i];
        |t| == |current| && LexCompare(current, t) <= 0 && LexCompare(t, upper) < 0
    {
      ConsAt(current, rest, i);
    }
  }

  lemma PrependOrdered(current: seq<nat>, rest: seq<seq<nat>>)
    requires forall i :: 0 <= i < |rest| ==> |rest[i]| == |current| && LexCompare(current, rest[i]) < 0
    requires forall i, j :: 0 <= i < j < |rest| ==> LexCompare(rest[i], rest[j]) < 0
    ensures forall i, j :: 0 <= i < j < |rest| + 1 ==> LexCompare(([current] + rest)[i], ([current] + rest)[j]) < 0
  {
    forall i, j | 0 <= i < j < |rest| + 1
      ensures LexCompare(([current] + rest)[i], ([current] + rest)[j]) < 0
    {
      ConsAt(current, rest, i);
      ConsAt(current, rest, j);
    }
  }

  /** The enumeration depth: the longer of the two bounds as written. */
  function Depth(r: Range): nat {
    if |r.lower.raw| < |r.upper.raw| then |r.upper.raw| else |r.lower.raw|
  }

  function MaxOf(xs: seq<nat>): (m: nat)
    ensures forall i :: 0 <= i < |xs| ==> xs[i] <= m
  {
    if |xs| == 0 then 0
    else
      var m := MaxOf(xs[..|xs| - 1]);
      assert forall i :: 0 <= i < |xs| - 1 ==> xs[i] == xs[..|xs| - 1][i];
      if m < xs[|xs| - 1] then xs[|xs| - 1] else m
  }

  /** The component sequences `to_a` visits, at the enumeration depth. */
  function Readings(r: Range): seq<seq<nat>> {
    var d := Depth(r);
    var lo := Pad(r.lower.raw, d);
    var radix := if MaxOf(lo) < 10 then 10 else MaxOf(lo) + 1;
    Odometer(lo, Pad(r.upper.raw, d), radix)
  }

  /** Pad to its own length changes nothing. */
  lemma PadOwnLength(x: seq<nat>)
    ensures Pad(x, |x|) == x
  {
  }

  /** Comparing two readings of the same length compares the versions they stand for. */
  lemma CompareReadings(x: seq<nat>, y: seq<nat>)
    requires |x| == |y|
    ensures Compare(Version(x), Version(y)) == LexCompare(x, y)
  {
    CompareAtDepth(Version(x), Version(y), |x|);
    PadOwnLength(x);
    PadOwnLength(y);
  }

  /** The comparison depends on the canonical form of its operands only. */
  lemma CompareTrimmed(a: Version, b: Version)
    ensures Compare(Version(Trim(a.raw)), Version(Trim(b.raw))) == Compare(a, b)
  {
    TrimTrimmed(Trim(a.raw));
    TrimTrimmed(Trim(b.raw));
  }

  /** Each reading, rendered and parsed again, is a version inside the range. */
  lemma ReadingIncluded(r: Range, t: seq<nat>)
    requires |t| == Depth(r)
    requires LexCompare(Pad(r.lower.raw, Depth(r)), t) <= 0
    requires LexCompare(t, Pad(r.upper.raw, Depth(r))) < 0
    ensures Parse(ToString(Version(t))) == Success(Version(Trim(t)))
    ensures Includes(r, Version(Trim(t)))
  {
    ToStringParse(Version(t));
    var d := Depth(r);
    PadOwnLength(t);
    CompareAtDepth(r.lower, Version(t), d);
    CompareAtDepth(Version(t), r.upper, d);
    CompareTrimmed(r.lower, Version(t));
    CompareTrimmed(Version(t), r.upper);
    TrimTrimmed(Trim(r.lower.raw));
    TrimTrimmed(Trim(r.upper.raw));
  }

  /**
   * Enumeration (`to_a`): the canonical rendering of every reading, in
   * order. Every string is a valid version inside the range, and the
   * versions are strictly ascending.
   */
  function ToA(r: Range): (out: seq<string>)
    ensures |out| == |Readings(r)|
    ensures forall i :: 0 <= i < |out| ==> Parse(out[i]).Success? && Includes(r, Parse(out[i]).value)
    ensures forall i, j :: 0 <= i < j < |out| ==> Less(Parse(out[i]).value, Parse(out[j]).value)
  {
    var readings := Readings(r);
    var out := seq(|readings|, i requires 0 <= i < |readings| => ToString(Version(readings[i])));
    ToASound(r, readings, out);
    out
  }

  lemma ToASound(r: Range, readings: seq<seq<nat>>, out: seq<string>)
    requires readings == Readings(r)
    requires |out| == |readings|
    requires forall i :: 0 <= i < |out| ==> out[i] == ToString(Version(readings[i]))
    ensures forall i :: 0 <= i < |out| ==> Parse(out[i]).Success? && Includes(r, Parse(out[i]).value)
    ensures forall i, j :: 0 <= i < j < |out| ==> Less(Parse(out[i]).value, Parse(out[j]).value)
  {
    var d := Depth(r);
    var lo := Pad(r.lower.raw, d);
    forall i | 0 <= i < |out|
      ensures Parse(out[i]) == Success(Version(Trim(readings[i])))
      ensures Includes(r, Parse(out[i]).value)
    {
      LexTransitive(lo, lo, readings[i]);
      ReadingIncluded(r, readings[i]);
    }
    forall i, j | 0 <= i < j < |out|
      ensures Less(Parse(out[i]).value, Parse(out[j]).value)
    {
      CompareReadings(readings[i], readings[j]);
      CompareTrimmed(Version(readings[i]), Version(readings[j]));
    }
  }

  /** `to_a` is empty exactly when the lower bound is not below the upper bound. */
  lemma ToAEmptyIff(r: Range)
    ensures ToA(r) == [] <==> !Less(r.lower, r.upper)
  {
    var d := Depth(r);
    CompareAtDepth(r.lower, r.upper, d);
  }

  // ---------------------------------------------------------------------
  // Decimal bounds: the enumeration is counting
  // ---------------------------------------------------------------------

  /** The `d`-digit decimal numeral of `v`, most significant digit first. */
  function DigitsOf(v: nat, d: nat): (x: seq<nat>)
    ensures |x| == d && DigitsBelow(x, 10)
  {
    if d == 0 then [] else DigitsOf(v / 10, d - 1) + [v % 10]
  }

  /** Appending a decimal digit `l` to `v` and removing it again. */
  lemma DivModTen(v: nat, l: nat)
    requires l < 10
    ensures (v * 10 + l) / 10 == v && (v * 10 + l) % 10 == l
  {
  }

  /** A sequence of decimal digits is the numeral of its own value. */
  lemma {:induction false} DigitsOfValue(x: seq<nat>)
    requires DigitsBelow(x, 10)
    ensures DigitsOf(Value(x, 10), |x|) == x
    decreases |x|
  {
    if |x| > 0 {
      var p, last := x[..|x| - 1], x[|x| - 1];
      var v := Value(p, 10);
      DigitsOfValue(p);
      assert Value(x, 10) == v * 10 + last;
      DivModTen(v, last);
      assert DigitsOf(v * 10 + last, |x|) == DigitsOf(v, |p|) + [last];
      assert x == p + [last];
    }
  }

  /** On decimal digits an odometer step adds one, unless every digit is 9. */
  lemma {:induction false} IncrementDecimal(x: seq<nat>)
    requires DigitsBelow(x, 10) && Value(x, 10) + 1 < Power(10, |x|)
    ensures !Increment(x).1 && Value(Increment(x).0, 10) == Value(x, 10) + 1
    decreases |x|
  {
    var p := x[..|x| - 1];
    var last := x[|x| - 1];
    if last + 1 < 10 {
      assert (p + [last + 1])[..|p|] == p;
    } else {
      IncrementDecimal(p);
      var q := Increment(p).0;
      assert (q + [0])[..|q|] == q;
    }
  }

  /** How many numerals lie from `lower` (inclusive) to `upper` (exclusive). */
  function Count(lower: seq<nat>, upper: seq<nat>): nat {
    if Value(lower, 10) < Value(upper, 10) then Value(upper, 10) - Value(lower, 10) else 0
  }

  /** The numerals of `n` consecutive numbers from `start`. */
  function Numerals(start: nat, n: nat, d: nat): (r: seq<seq<nat>>)
    ensures |r| == n
    ensures forall i :: 0 <= i < n ==> r[i] == DigitsOf(start + i, d)
    decreases n
  {
    if n == 0 then []
    else
      var rest := Numerals(start + 1, n - 1, d);
      [DigitsOf(start, d)] + rest
  }

  /** One step of the odometer below the bound. */
  lemma OdometerStep(current: seq<nat>, upper: seq<nat>, radix: nat)
    requires |current| == |upper| && 10 <= radix && DigitsBelow(current, radix)
    requires LexCompare(current, upper) < 0 && !Increment(current).1
    ensures DigitsBelow(Increment(current).0, radix)
    ensures Odometer(current, upper, radix) == [current] + Odometer(Increment(current).0, upper, radix)
  {
  }

  /**
   * With decimal digits only, the odometer readings are the numerals of
   * consecutive numbers from the start value up to, excluding, the bound.
   */
  lemma {:induction false} OdometerDecimal(current: seq<nat>, upper: seq<nat>, radix: nat)
    requires |current| == |upper| && 10 <= radix
    requires DigitsBelow(current, 10) && DigitsBelow(upper, 10)
    ensures Odometer(current, upper, radix) == Numerals(Value(current, 10), Count(current, upper), |current|)
    decreases Count(current, upper)
  {
    var d := |current|;
    if LexCompare(current, upper) >= 0 {
      LexAntisymmetric(current, upper);
      LexZeroIff(upper, current);
      if LexCompare(upper, current) < 0 {
        LexLessValue(upper, current, 10);
      }
    } else {
      DecimalStep(current, upper);
      var next := Increment(current).0;
      OdometerStep(current, upper, radix);
      OdometerDecimal(next, upper, radix);
      CountedFrom(current, upper);
    }
  }

  /** Below the upper reading, an odometer step on decimal digits counts one up towards it. */
  lemma DecimalStep(current: seq<nat>, upper: seq<nat>)
    requires |current| == |upper|
    requires DigitsBelow(current, 10) && DigitsBelow(upper, 10)
    requires LexCompare(current, upper) < 0
    ensures !Increment(current).1 && DigitsBelow(Increment(current).0, 10)
    ensures Value(Increment(current).0, 10) == Value(current, 10) + 1
    ensures Count(Increment(current).0, upper) + 1 == Count(current, upper)
  {
    LexLessValue(current, upper, 10);
    ValueBound(upper, 10);
    IncrementDecimal(current);
    var next := Increment(current).0;
    assert forall i :: 0 <= i < |next| ==> next[i] == current[i] || next[i] < 10;
  }

  /** The counted numerals from a decimal reading below the bound start with that reading. */
  lemma CountedFrom(current: seq<nat>, upper: seq<nat>)
    requires DigitsBelow(current, 10) && Count(current, upper) > 0
    ensures Numerals(Value(current, 10), Count(current, upper), |current|)
      == [current] + Numerals(Value(current, 10) + 1, Count(current, upper) - 1, |current|)
  {
    DigitsOfValue(current);
  }

  /** The lower bound at the enumeration depth. */
  function LowerReading(r: Range): seq<nat> {
    Pad(r.lower.raw, Depth(r))
  }

  /** The upper bound at the enumeration depth. */
  function UpperReading(r: Range): seq<nat> {
    Pad(r.upper.raw, Depth(r))
  }

  /**
   * With bounds of decimal digits, `to_a` renders the numerals of all
   * numbers from the lower reading up to, excluding, the upper reading.
   */
  lemma ToADecimal(r: Range)
    requires DigitsBelow(r.lower.raw, 10) && DigitsBelow(r.upper.raw, 10)
    ensures var numerals := Numerals(Value(LowerReading(r), 10), Count(LowerReading(r), UpperReading(r)), Depth(r));
      ToA(r) == seq(|numerals|, i requires 0 <= i < |numerals| => ToString(Version(numerals[i])))
  {
    var lo, hi := LowerReading(r), UpperReading(r);
    var radix := if MaxOf(lo) < 10 then 10 else MaxOf(lo) + 1;
    OdometerDecimal(lo, hi, radix);
  }

  /** A reading of the enumeration depth inside the range lies between the bound readings. */
  lemma IncludedReading(r: Range, x: seq<nat>)
    requires |x| == Depth(r)
    requires Includes(r, Version(x))
    ensures LexCompare(LowerReading(r), x) <= 0 && LexCompare(x, UpperReading(r)) < 0
  {
    PadOwnLength(x);
    CompareAtDepth(r.lower, Version(x), Depth(r));
    CompareAtDepth(Version(x), r.upper, Depth(r));
  }

  /** Padding keeps every component a decimal digit. */
  lemma PadDigits(xs: seq<nat>, n: nat)
    requires DigitsBelow(xs, 10)
    ensures DigitsBelow(Pad(xs, n), 10)
  {
    var p := Pad(xs, n);
    forall i | 0 <= i < n
      ensures p[i] < 10
    {
      assert p[i] == At(xs, i);
    }
  }

  /** A numeral between two bounds has its value between theirs. */
  lemma ValueBetween(lo: seq<nat>, hi: seq<nat>, x: seq<nat>)
    requires |lo| == |hi| == |x|
    requires DigitsBelow(lo, 10) && DigitsBelow(hi, 10) && DigitsBelow(x, 10)
    requires LexCompare(lo, x) <= 0 && LexCompare(x, hi) < 0
    ensures Value(lo, 10) <= Value(x, 10) < Value(hi, 10)
  {
    LexZeroIff(lo, x);
    if LexCompare(lo, x) < 0 {
      LexLessValue(lo, x, 10);
    }
    LexLessValue(x, hi, 10);
  }

  /** Between ordered bounds the count is the difference of their values. */
  lemma CountValues(lo: seq<nat>, hi: seq<nat>)
    requires Value(lo, 10) <= Value(hi, 10)
    ensures Count(lo, hi) == Value(hi, 10) - Value(lo, 10)
  {
  }

  /** The numeral of any number counted from `start` is among the counted numerals. */
  lemma NumeralAmong(start: nat, n: nat, d: nat, v: nat, x: seq<nat>)
    requires start <= v < start + n && DigitsOf(v, d) == x
    ensures x in Numerals(start, n, d)
  {
    var k := v - start;
    assert Numerals(start, n, d)[k] == DigitsOf(start + k, d);
  }

  /** A numeral whose value lies between two bounds' values is among the counted numerals. */
  lemma NumeralIndex(lo: seq<nat>, hi: seq<nat>, x: seq<nat>)
    requires DigitsBelow(x, 10)
    requires Value(lo, 10) <= Value(x, 10) < Value(hi, 10)
    ensures x in Numerals(Value(lo, 10), Count(lo, hi), |x|)
  {
    CountValues(lo, hi);
    DigitsOfValue(x);
    NumeralAmong(Value(lo, 10), Count(lo, hi), |x|, Value(x, 10), x);
  }

  /**
   * With bounds of decimal digits, every decimal reading of the enumeration
   * depth that lies inside the range is enumerated.
   */
  lemma ToAComplete(r: Range, x: seq<nat>)
    requires DigitsBelow(r.lower.raw, 10) && DigitsBelow(r.upper.raw, 10)
    requires |x| == Depth(r) && DigitsBelow(x, 10)
    requires Includes(r, Version(x))
    ensures ToString(Version(x)) in ToA(r)
  {
    var lo, hi := LowerReading(r), UpperReading(r);
    IncludedReading(r, x);
    PadDigits(r.lower.raw, Depth(r));
    PadDigits(r.upper.raw, Depth(r));
    ValueBetween(lo, hi, x);
    NumeralIndex(lo, hi, x);
    ToADecimal(r);
    var numerals := Numerals(Value(lo, 10), Count(lo, hi), Depth(r));
    var out := ToA(r);
    assert out == seq(|numerals|, i requires 0 <= i < |numerals| => ToString(Version(numerals[i])));
    var i :| 0 <= i < |numerals| && numerals[i] == x;
    assert out[i] == ToString(Version(x));
  }
}
