/** The documented behaviour of Version::Range, example by example. */
module RangeExamples {
  import opened Outcomes
  import opened Versions
  import opened VersionRanges
  import opened Text
  import opened Decimal
  import opened VersionExamples
  import opened VersionTexts

  /**
   * With decimal bounds, `to_a` is the list `expected` once its entries
   * are the renderings of the consecutive numerals from the lower reading.
   */
  lemma ToAListed(r: Range, start: nat, n: nat, expected: seq<string>)
    requires DigitsBelow(r.lower.raw, 10) && DigitsBelow(r.upper.raw, 10)
    requires Value(LowerReading(r), 10) == start && Count(LowerReading(r), UpperReading(r)) == n
    requires |expected| == n
    requires forall k :: 0 <= k < n ==> ToString(Version(DigitsOf(start + k, Depth(r)))) == expected[k]
    ensures ToA(r) == expected
  {
    ToADecimal(r);
  }

  /** Three decimal digits, the last non-zero, render as all three. */
  lemma RenderThreeDigits(a: nat, b: nat, c: nat)
    requires a < 10 && b < 10 && 0 < c < 10
    ensures ToString(Version([a, b, c])) == [DigitChar(a), '.', DigitChar(b), '.', DigitChar(c)]
  {
    var ns := [[DigitChar(a)], [DigitChar(b)], [DigitChar(c)]];
    assert ns[1..][1..] == [[DigitChar(c)]];
    assert Join(ns[1..], '.') == [DigitChar(b)] + ['.'] + [DigitChar(c)];
    RendersAs(Version([a, b, c]), [[DigitChar(a)], [DigitChar(b)], [DigitChar(c)]],
      [DigitChar(a), '.', DigitChar(b), '.', DigitChar(c)]);
  }

  /** Three decimal digits ending in a zero after a non-zero render as the first two. */
  lemma RenderTwoDigits(a: nat, b: nat)
    requires a < 10 && 0 < b < 10
    ensures ToString(Version([a, b, 0])) == [DigitChar(a), '.', DigitChar(b)]
  {
    assert Trim([a, b, 0]) == [a, b];
    RendersAs(Version([a, b, 0]), [[DigitChar(a)], [DigitChar(b)]], [DigitChar(a), '.', DigitChar(b)]);
  }

  function Listed(): seq<string> {
    ["1.1", "1.1.1", "1.1.2", "1.1.3", "1.1.4", "1.1.5",
     "1.1.6", "1.1.7", "1.1.8", "1.1.9", "1.2", "1.2.1"]
  }

  /** The numerals of 110 to 119 at depth three. */
  lemma DigitsOfEleven(c: nat)
    requires c < 10
    ensures DigitsOf(110 + c, 3) == [1, 1, c]
  {
    assert (110 + c) / 10 == 11 && (110 + c) % 10 == c;
    assert DigitsOf(11, 2) == [1, 1];
  }

  /** The numerals of 120 to 129 at depth three. */
  lemma DigitsOfTwelve(c: nat)
    requires c < 10
    ensures DigitsOf(120 + c, 3) == [1, 2, c]
  {
    assert (120 + c) / 10 == 12 && (120 + c) % 10 == c;
    assert DigitsOf(12, 2) == [1, 2];
  }

  lemma ListedFirst(k: nat)
    requires k == 0
    ensures ToString(Version(DigitsOf(110 + k, 3))) == Listed()[k]
  {
    DigitsOfEleven(0);
    RenderTwoDigits(1, 1);
  }

  lemma ListedTenth(k: nat)
    requires k == 10
    ensures ToString(Version(DigitsOf(110 + k, 3))) == Listed()[k]
  {
    DigitsOfTwelve(0);
    RenderTwoDigits(1, 2);
  }

  lemma ListedLast(k: nat)
    requires k == 11
    ensures ToString(Version(DigitsOf(110 + k, 3))) == Listed()[k]
  {
    DigitsOfTwelve(1);
    RenderThreeDigits(1, 2, 1);
    assert [DigitChar(1), '.', DigitChar(2), '.', DigitChar(1)] == Listed()[11];
  }

  lemma ListedLow(k: nat)
    requires 1 <= k < 4
    ensures ToString(Version(DigitsOf(110 + k, 3))) == Listed()[k]
  {
    DigitsOfEleven(k);
    RenderThreeDigits(1, 1, k);
  }

  lemma ListedMiddle(k: nat)
    requires 4 <= k < 7
    ensures ToString(Version(DigitsOf(110 + k, 3))) == Listed()[k]
  {
    DigitsOfEleven(k);
    RenderThreeDigits(1, 1, k);
  }

  lemma ListedHigh(k: nat)
    requires 7 <= k < 10
    ensures ToString(Version(DigitsOf(110 + k, 3))) == Listed()[k]
  {
    DigitsOfEleven(k);
    RenderThreeDigits(1, 1, k);
  }

  lemma ListedAll()
    ensures forall k :: 0 <= k < 12 ==> ToString(Version(DigitsOf(110 + k, 3))) == Listed()[k]
  {
    forall k | 0 <= k < 12
      ensures ToString(Version(DigitsOf(110 + k, 3))) == Listed()[k]
    {
      if k == 0 {
        ListedFirst(k);
      } else if k == 10 {
        ListedTenth(k);
      } else if k == 11 {
        ListedLast(k);
      } else if k < 4 {
        ListedLow(k);
      } else if k < 7 {
        ListedMiddle(k);
      } else {
        ListedHigh(k);
      }
    }
  }

  lemma ToAFromLowerToUpper()
    ensures ToA(Range(Version([1, 1, 0]), Version([1, 2, 2]))) ==
      ["1.1", "1.1.1", "1.1.2", "1.1.3", "1.1.4", "1.1.5",
       "1.1.6", "1.1.7", "1.1.8", "1.1.9", "1.2", "1.2.1"]
  {
    var r := Range(Version([1, 1, 0]), Version([1, 2, 2]));
    PadOwnLength([1, 1, 0]);
    PadOwnLength([1, 2, 2]);
    ValueOf3(1, 1, 0);
    ValueOf3(1, 2, 2);
    ListedAll();
    ToAListed(r, 110, 12, Listed());
  }

  /** The decimal value of three digits. */
  lemma ValueOf3(a: nat, b: nat, c: nat)
    ensures Value([a, b, c], 10) == a * 100 + b * 10 + c
  {
    var x := [a, b, c];
    assert x[..2] == [a, b];
    assert [a, b][..1] == [a];
    assert [a][..0] == [];
    assert Value([a], 10) == a;
    assert Value([a, b], 10) == a * 10 + b;
  }

  lemma ToAEqualBounds()
    ensures Parse("1.1") == Success(Version([1, 1]))
    ensures ToA(Range(Version([1, 1]), Version([1, 1]))) == []
  {
    Parses1Dot1();
    ToAEmptyIff(Range(Version([1, 1]), Version([1, 1])));
  }

  lemma ToAIncludesLowerExcludesUpper()
    ensures ToA(Range(Version([0, 1, 1]), Version([0, 1, 2]))) == ["0.1.1"]
  {
    var r := Range(Version([0, 1, 1]), Version([0, 1, 2]));
    PadOwnLength([0, 1, 1]);
    PadOwnLength([0, 1, 2]);
    ValueOf3(0, 1, 1);
    ValueOf3(0, 1, 2);
    assert DigitsOf(11, 3) == [0, 1, 1];
    RenderThreeDigits(0, 1, 1);
    ToAListed(r, 11, 1, ["0.1.1"]);
  }

  lemma ToACarriesIntoMiddle()
    ensures ToA(Range(Version([0, 1, 9]), Version([0, 2]))) == ["0.1.9"]
  {
    var r := Range(Version([0, 1, 9]), Version([0, 2]));
    PadOwnLength([0, 1, 9]);
    assert Pad([0, 2], 3) == [0, 2, 0];
    ValueOf3(0, 1, 9);
    ValueOf3(0, 2, 0);
    assert DigitsOf(19, 3) == [0, 1, 9];
    RenderThreeDigits(0, 1, 9);
    ToAListed(r, 19, 1, ["0.1.9"]);
  }

  lemma ToACarriesIntoFirst()
    ensures ToA(Range(Version([0, 9, 9]), Version([1]))) == ["0.9.9"]
  {
    var r := Range(Version([0, 9, 9]), Version([1]));
    PadOwnLength([0, 9, 9]);
    assert Pad([1], 3) == [1, 0, 0];
    ValueOf3(0, 9, 9);
    ValueOf3(1, 0, 0);
    assert DigitsOf(99, 3) == [0, 9, 9];
    RenderThreeDigits(0, 9, 9);
    ToAListed(r, 99, 1, ["0.9.9"]);
  }

  lemma ToAFromLowerToUpperBounds()
    ensures Parse("1.1.0") == Success(Version([1, 1, 0]))
    ensures Parse("1.2.2") == Success(Version([1, 2, 2]))
  {
    Parses1Dot1Dot0();
    Parses1Dot2Dot2();
  }

  /** `Version::Range.new('1.1.0', '1.2.2').to_a`, starting from the strings. */
  lemma ToAFromStrings()
    ensures MakeRange(FromText("1.1.0"), FromText("1.2.2")).Success?
    ensures ToA(MakeRange(FromText("1.1.0"), FromText("1.2.2")).value) ==
      ["1.1", "1.1.1", "1.1.2", "1.1.3", "1.1.4", "1.1.5",
       "1.1.6", "1.1.7", "1.1.8", "1.1.9", "1.2", "1.2.1"]
  {
    ToAFromLowerToUpperBounds();
    assert MakeRange(FromText("1.1.0"), FromText("1.2.2")) == Success(Range(Version([1, 1, 0]), Version([1, 2, 2])));
    ToAFromLowerToUpper();
  }

  lemma ToAIncludesLowerExcludesUpperBounds()
    ensures Parse("0.1.1") == Success(Version([0, 1, 1]))
    ensures Parse("0.1.2") == Success(Version([0, 1, 2]))
  {
    Parses0Dot1Dot1();
    Parses0Dot1Dot2();
  }

  lemma ToACarriesIntoMiddleBounds()
    ensures Parse("0.1.9") == Success(Version([0, 1, 9]))
    ensures Parse("0.2") == Success(Version([0, 2]))
  {
    Parses0Dot1Dot9();
    Parses0Dot2();
  }

  lemma ToACarriesIntoFirstBounds()
    ensures Parse("0.9.9") == Success(Version([0, 9, 9]))
    ensures Parse("1") == Success(Version([1]))
  {
    Parses0Dot9Dot9();
    Parses1();
  }

  // ---------------------------------------------------------------------
  // Membership
  // ---------------------------------------------------------------------

  lemma IncludeWithStringsBounds()
    ensures Parse("1.2.30") == Success(Version([1, 2, 30]))
    ensures Parse("1.30.6") == Success(Version([1, 30, 6]))
  {
    Parses1Dot2Dot30();
    Parses1Dot30Dot6();
  }

  lemma IncludeWithStrings()
    ensures Parse("1.3") == Success(Version([1, 3]))
    ensures Includes(Range(Version([1, 2, 30]), Version([1, 30, 6])), Version([1, 3]))
  {
    Parses1Dot3();
    Between(Version([1, 2, 30]), Version([1, 3]), Version([1, 30, 6]));
  }

  /** `1.2.30 <= 1.3 < 1.30.6`, decided at the second component. */
  lemma Between(lo: Version, v: Version, hi: Version)
    requires lo == Version([1, 2, 30]) && v == Version([1, 3]) && hi == Version([1, 30, 6])
    ensures Less(lo, v) && Less(v, hi)
  {
    LessAt(lo, v, 1);
    LessAt(v, hi, 1);
  }

  /** A copy of a version without trailing zeros is the same value. */
  lemma CopyOfTrimmed(v: Version)
    requires IsTrimmed(v.raw)
    ensures Make(FromVersion(v)) == Success(v)
  {
    ToStringParse(v);
    TrimTrimmed(v.raw);
  }

  lemma IncludeWithVersions()
    ensures MakeRange(FromVersion(Version([1, 2, 3])), FromVersion(Version([1, 3, 6]))) ==
      Success(Range(Version([1, 2, 3]), Version([1, 3, 6])))
    ensures IncludesSource(Range(Version([1, 2, 3]), Version([1, 3, 6])), FromVersion(Make(FromVersion(Version([1, 3]))).value)) ==
      Success(true)
  {
    CopyOfTrimmed(Version([1, 2, 3]));
    CopyOfTrimmed(Version([1, 3, 6]));
    CopyOfTrimmed(Version([1, 3]));
    LessAt(Version([1, 2, 3]), Version([1, 3]), 1);
    LessAt(Version([1, 3]), Version([1, 3, 6]), 2);
  }

  lemma IncludeEqualBounds()
    ensures Parse("1.2.3") == Success(Version([1, 2, 3]))
    ensures !Includes(Range(Version([1, 2, 3]), Version([1, 2, 3])), Version([1, 2, 3]))
  {
    Parses1Dot2Dot3();
    EqualBoundsEmpty(Range(Version([1, 2, 3]), Version([1, 2, 3])), Version([1, 2, 3]));
  }

  lemma IncludeFromEmptyLower()
    ensures Parse("") == Success(Version([]))
    ensures Parse("9.19.9") == Success(Version([9, 19, 9]))
    ensures Parse("0.5") == Success(Version([0, 5]))
    ensures Includes(Range(Version([]), Version([9, 19, 9])), Version([0, 5]))
  {
    Parses9Dot19Dot9();
    Parses0Dot5();
    EmptyIsLeast(Version([0, 5]));
    LessAt(Version([0, 5]), Version([9, 19, 9]), 0);
  }

  lemma ExcludeAboveUpper()
    ensures Parse("1.2.3") == Success(Version([1, 2, 3]))
    ensures Parse("9.9.9") == Success(Version([9, 9, 9]))
    ensures !Includes(Range(Version([]), Version([1, 2, 3])), Version([9, 9, 9]))
  {
    Parses1Dot2Dot3();
    Parses9Dot9Dot9();
    Above(Version([1, 2, 3]), Version([9, 9, 9]));
  }

  /** `9.9.9` is not below `1.2.3`. */
  lemma Above(hi: Version, v: Version)
    requires hi == Version([1, 2, 3]) && v == Version([9, 9, 9])
    ensures !Less(v, hi)
  {
    LessAt(hi, v, 0);
    CompareAntisymmetric(hi, v);
  }

  lemma IncludeLowerBound()
    ensures Parse("0.1") == Success(Version([0, 1]))
    ensures Parse("9.9.9") == Success(Version([9, 9, 9]))
    ensures Includes(Range(Version([0, 1]), Version([9, 9, 9])), Version([0, 1]))
  {
    Parses0Dot1();
    Parses9Dot9Dot9();
    LessAt(Version([0, 1]), Version([9, 9, 9]), 0);
  }

  lemma ExcludeUpperBound()
    ensures Parse("9.9.9") == Success(Version([9, 9, 9]))
    ensures !Includes(Range(Version([]), Version([9, 9, 9])), Version([9, 9, 9]))
  {
    Parses9Dot9Dot9();
  }
}
