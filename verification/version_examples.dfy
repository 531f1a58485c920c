/**
 * The documented behaviour of Version and Version::Range, example by
 * example, derived from the general definitions.
 */
module VersionExamples {
  import opened Outcomes
  import opened Text
  import opened Decimal
  import opened Versions
  import opened VersionRanges
  import opened VersionTexts

  /** A version whose canonical components are written `ns` renders as their join. */
  lemma RendersAs(v: Version, ns: seq<string>, s: string)
    requires |Trim(v.raw)| == |ns| > 0
    requires forall i :: 0 <= i < |ns| ==> ns[i] == NatToString(Trim(v.raw)[i])
    requires Join(ns, '.') == s
    ensures ToString(v) == s
  {
    FormatNumerals(Trim(v.raw), ns);
  }

  /** `a < b` once the components agree up to position `k` and `a` is smaller there. */
  lemma LessAt(a: Version, b: Version, k: nat)
    requires forall i: nat :: i < k ==> At(a.raw, i) == At(b.raw, i)
    requires At(a.raw, k) < At(b.raw, k)
    ensures Less(a, b)
  {
    CompareLessIff(a, b);
  }

  // ---------------------------------------------------------------------
  // Construction
  // ---------------------------------------------------------------------

  lemma BananaRejected()
    ensures Make(FromText("banana")) == Failure("Invalid version string 'banana'")
  {
    assert !DottedDigits("banana");
    BananaMessage();
  }

  lemma BananaMessage()
    ensures InvalidMessage("banana") == "Invalid version string 'banana'"
  {
    var prefix := "Invalid version string '";
    assert prefix + "banana" + "'" == "Invalid version string 'banana'";
  }

  lemma EmptyStringIsEmptyVersion()
    ensures Make(FromText("")) == Success(Version([]))
    ensures ToString(Version([])) == ""
  {
  }

  // ---------------------------------------------------------------------
  // Comparison
  // ---------------------------------------------------------------------

  lemma LowerOrEqual()
    ensures Parse("1.2.3") == Success(Version([1, 2, 3]))
    ensures Parse("1.3") == Success(Version([1, 3]))
    ensures Less(Version([1, 2, 3]), Version([1, 3]))
    ensures AtMost(Version([1, 2, 3]), Version([1, 3]))
    ensures AtMost(Version([1, 2, 3]), Make(FromVersion(Version([1, 2, 3]))).value)
  {
    Parses1Dot2Dot3();
    Parses1Dot3();
    LessAt(Version([1, 2, 3]), Version([1, 3]), 1);
  }

  lemma HigherOrEqual()
    ensures Parse("1.0.2.3") == Success(Version([1, 0, 2, 3]))
    ensures Parse("2.3") == Success(Version([2, 3]))
    ensures Greater(Version([2, 3]), Version([1, 0, 2, 3]))
    ensures AtLeast(Version([2, 3]), Version([1, 0, 2, 3]))
    ensures AtLeast(Version([1, 0, 2, 3]), Make(FromVersion(Version([1, 0, 2, 3]))).value)
  {
    Parses1Dot0Dot2Dot3();
    Parses2Dot3();
    LessAt(Version([1, 0, 2, 3]), Version([2, 3]), 0);
    CompareAntisymmetric(Version([1, 0, 2, 3]), Version([2, 3]));
    var copy := Make(FromVersion(Version([1, 0, 2, 3]))).value;
    CompareAntisymmetric(copy, Version([1, 0, 2, 3]));
  }

  lemma EqualToCopy()
    ensures Parse("0.1") == Success(Version([0, 1]))
    ensures Same(Version([0, 1]), Make(FromVersion(Version([0, 1]))).value)
  {
    Parses0Dot1();
    var copy := Make(FromVersion(Version([0, 1]))).value;
    CompareAntisymmetric(copy, Version([0, 1]));
  }

  lemma DifferentVersions()
    ensures Parse("1.0.4") == Success(Version([1, 0, 4]))
    ensures Parse("2.35") == Success(Version([2, 35]))
    ensures Differs(Version([1, 0, 4]), Version([2, 35]))
    ensures Compare(Version([1, 0, 4]), Version([2, 35])) == -1
  {
    Parses1Dot0Dot4();
    Parses2Dot35();
    LessAt(Version([1, 0, 4]), Version([2, 35]), 0);
  }

  lemma TrailingZerosIgnored()
    ensures Parse("1.2.3.0.0") == Success(Version([1, 2, 3, 0, 0]))
    ensures Same(Version([1, 2, 3]), Version([1, 2, 3, 0, 0]))
  {
    Parses1Dot2Dot3Dot0Dot0();
    ComponentsDropTrailingZeros();
    TrimTrimmed([1, 2, 3]);
  }

  lemma IntermediateZerosCount()
    ensures Parse("1.2.0.3") == Success(Version([1, 2, 0, 3]))
    ensures !Same(Version([1, 2, 0, 3]), Version([1, 2, 3]))
  {
    Parses1Dot2Dot0Dot3();
  }

  // ---------------------------------------------------------------------
  // Components
  // ---------------------------------------------------------------------

  lemma ComponentsInOrder()
    ensures Parse("1.2.3.40") == Success(Version([1, 2, 3, 40]))
    ensures Components(Version([1, 2, 3, 40]), None) == [1, 2, 3, 40]
  {
    Parses1Dot2Dot3Dot40();
  }

  lemma ComponentsDropTrailingZeros()
    ensures Components(Version([1, 2, 3, 0, 0]), None) == [1, 2, 3]
  {
    assert Trim([1, 2, 3, 0, 0]) == [1, 2, 3];
  }

  lemma ComponentsKeepInnerZeros()
    ensures Parse("0.1.0.2.3") == Success(Version([0, 1, 0, 2, 3]))
    ensures Components(Version([0, 1, 0, 2, 3]), None) == [0, 1, 0, 2, 3]
  {
    Parses0Dot1Dot0Dot2Dot3();
  }

  lemma ComponentsPadded()
    ensures Components(Version([1, 2, 3]), Some(6)) == [1, 2, 3, 0, 0, 0]
  {
    var r := Components(Version([1, 2, 3]), Some(6));
    assert r[3] == 0 && r[4] == 0 && r[5] == 0;
  }

  lemma ComponentsTruncated()
    ensures Parse("1.2.3.4.5.6") == Success(Version([1, 2, 3, 4, 5, 6]))
    ensures Components(Version([1, 2, 3, 4, 5, 6]), Some(3)) == [1, 2, 3]
  {
    Parses1Dot2Dot3Dot4Dot5Dot6();
  }

  // ---------------------------------------------------------------------
  // Rendering
  // ---------------------------------------------------------------------

  lemma RenderFromString()
    ensures Parse("4.78.1.2") == Success(Version([4, 78, 1, 2]))
    ensures ToString(Version([4, 78, 1, 2])) == "4.78.1.2"
    ensures ToString(Make(FromVersion(Version([4, 78, 1, 2]))).value) == "4.78.1.2"
  {
    Parses4Dot78Dot1Dot2();
  }

  lemma RenderDropsTrailingZeros()
    ensures Parse("1.2.3.0.0.0") == Success(Version([1, 2, 3, 0, 0, 0]))
    ensures ToString(Version([1, 2, 3, 0, 0, 0])) == "1.2.3"
  {
    Parses1Dot2Dot3Dot0Dot0Dot0();
    CanonicalRendering();
  }

  lemma CanonicalRendering()
    ensures ToString(Version([1, 2, 3, 0, 0, 0])) == "1.2.3"
  {
    var xs: seq<nat> := [1, 2, 3, 0, 0, 0];
    assert xs[..5] == [1, 2, 3, 0, 0];
    assert Trim(xs) == Trim([1, 2, 3, 0, 0]);
    assert Trim([1, 2, 3, 0, 0]) == [1, 2, 3];
    RendersAs(Version([1, 2, 3, 0, 0, 0]), ["1", "2", "3"], "1.2.3");
  }

  lemma RenderKeepsZerosInsideComponents()
    ensures Parse("1.20.3.50") == Success(Version([1, 20, 3, 50]))
    ensures ToString(Version([1, 20, 3, 50])) == "1.20.3.50"
  {
    Parses1Dot20Dot3Dot50();
  }

  lemma RenderKeepsIntermediateZeros()
    ensures Parse("1.2.3.0.0.0.6") == Success(Version([1, 2, 3, 0, 0, 0, 6]))
    ensures ToString(Version([1, 2, 3, 0, 0, 0, 6])) == "1.2.3.0.0.0.6"
  {
    Parses1Dot2Dot3Dot0Dot0Dot0Dot6();
  }
}
