/**
 * The version strings of the documented examples, each with the
 * components it parses to. `Written…` lemmas say how a component list is
 * written (longer lists are put together from shorter ones with
 * `FormatAppend`); `Parses…` lemmas add what the string parses to.
 */
module VersionTexts {
  import opened Outcomes
  import opened Text
  import opened Decimal
  import opened Versions

  /** `s` is the '.'-join of the numerals `ns` of `xs`, so `xs` is written `s`. */
  lemma Written(xs: seq<nat>, ns: seq<string>, s: string)
    requires |xs| == |ns| > 0
    requires forall i :: 0 <= i < |xs| ==> ns[i] == NatToString(xs[i])
    requires Join(ns, '.') == s
    ensures Format(xs) == s
  {
    FormatNumerals(xs, ns);
  }

  /** `xs + ys` is written as the texts of `xs` and `ys` with a '.' between. */
  lemma Joined(xs: seq<nat>, ys: seq<nat>, zs: seq<nat>, s: string, t: string, u: string)
    requires |xs| > 0
    requires |ys| > 0
    requires Format(xs) == s
    requires Format(ys) == t
    requires xs + ys == zs
    requires s + "." + t == u
    ensures Format(zs) == u
  {
    FormatAppend(xs, ys);
  }

  /** Whatever `xs` is written as parses back to `xs`. */
  lemma Reads(xs: seq<nat>, s: string)
    requires Format(xs) == s
    ensures Parse(s) == Success(Version(xs))
  {
    ParseFormat(xs);
  }

  lemma Written1Dot2Dot3()
    ensures Format([1, 2, 3]) == "1.2.3"
  {
    Written([1, 2, 3], ["1", "2", "3"], "1.2.3");
  }

  lemma Written1Dot3()
    ensures Format([1, 3]) == "1.3"
  {
    Written([1, 3], ["1", "3"], "1.3");
  }

  lemma Written1Dot0Dot2()
    ensures Format([1, 0, 2]) == "1.0.2"
  {
    Written([1, 0, 2], ["1", "0", "2"], "1.0.2");
  }

  lemma Written3()
    ensures Format([3]) == "3"
  {
    Written([3], ["3"], "3");
  }

  lemma Written1Dot0Dot2Dot3()
    ensures Format([1, 0, 2, 3]) == "1.0.2.3"
  {
    Written1Dot0Dot2();
    Written3();
    Joined([1, 0, 2], [3], [1, 0, 2, 3], "1.0.2", "3", "1.0.2.3");
  }

  lemma Written2Dot3()
    ensures Format([2, 3]) == "2.3"
  {
    Written([2, 3], ["2", "3"], "2.3");
  }

  lemma Written0Dot1()
    ensures Format([0, 1]) == "0.1"
  {
    Written([0, 1], ["0", "1"], "0.1");
  }

  lemma Written1Dot0Dot4()
    ensures Format([1, 0, 4]) == "1.0.4"
  {
    Written([1, 0, 4], ["1", "0", "4"], "1.0.4");
  }

  lemma Written2Dot35()
    ensures Format([2, 35]) == "2.35"
  {
    Written([2, 35], ["2", "35"], "2.35");
  }

  lemma Written0Dot0()
    ensures Format([0, 0]) == "0.0"
  {
    Written([0, 0], ["0", "0"], "0.0");
  }

  lemma Written1Dot2Dot3Dot0Dot0()
    ensures Format([1, 2, 3, 0, 0]) == "1.2.3.0.0"
  {
    Written1Dot2Dot3();
    Written0Dot0();
    Joined([1, 2, 3], [0, 0], [1, 2, 3, 0, 0], "1.2.3", "0.0", "1.2.3.0.0");
  }

  lemma Written1Dot2Dot0()
    ensures Format([1, 2, 0]) == "1.2.0"
  {
    Written([1, 2, 0], ["1", "2", "0"], "1.2.0");
  }

  lemma Written1Dot2Dot0Dot3()
    ensures Format([1, 2, 0, 3]) == "1.2.0.3"
  {
    Written1Dot2Dot0();
    Written3();
    Joined([1, 2, 0], [3], [1, 2, 0, 3], "1.2.0", "3", "1.2.0.3");
  }

  lemma Written40()
    ensures Format([40]) == "40"
  {
    Written([40], ["40"], "40");
  }

  lemma Written1Dot2Dot3Dot40()
    ensures Format([1, 2, 3, 40]) == "1.2.3.40"
  {
    Written1Dot2Dot3();
    Written40();
    Joined([1, 2, 3], [40], [1, 2, 3, 40], "1.2.3", "40", "1.2.3.40");
  }

  lemma Written0Dot1Dot0()
    ensures Format([0, 1, 0]) == "0.1.0"
  {
    Written([0, 1, 0], ["0", "1", "0"], "0.1.0");
  }

  lemma Written0Dot1Dot0Dot2Dot3()
    ensures Format([0, 1, 0, 2, 3]) == "0.1.0.2.3"
  {
    Written0Dot1Dot0();
    Written2Dot3();
    Joined([0, 1, 0], [2, 3], [0, 1, 0, 2, 3], "0.1.0", "2.3", "0.1.0.2.3");
  }

  lemma Written4Dot5Dot6()
    ensures Format([4, 5, 6]) == "4.5.6"
  {
    Written([4, 5, 6], ["4", "5", "6"], "4.5.6");
  }

  lemma Written1Dot2Dot3Dot4Dot5Dot6()
    ensures Format([1, 2, 3, 4, 5, 6]) == "1.2.3.4.5.6"
  {
    Written1Dot2Dot3();
    Written4Dot5Dot6();
    Joined([1, 2, 3], [4, 5, 6], [1, 2, 3, 4, 5, 6], "1.2.3", "4.5.6", "1.2.3.4.5.6");
  }

  lemma Written4Dot78Dot1()
    ensures Format([4, 78, 1]) == "4.78.1"
  {
    Written([4, 78, 1], ["4", "78", "1"], "4.78.1");
  }

  lemma Written2()
    ensures Format([2]) == "2"
  {
    Written([2], ["2"], "2");
  }

  lemma Written4Dot78Dot1Dot2()
    ensures Format([4, 78, 1, 2]) == "4.78.1.2"
  {
    Written4Dot78Dot1();
    Written2();
    Joined([4, 78, 1], [2], [4, 78, 1, 2], "4.78.1", "2", "4.78.1.2");
  }

  lemma Written0Dot0Dot0()
    ensures Format([0, 0, 0]) == "0.0.0"
  {
    Written([0, 0, 0], ["0", "0", "0"], "0.0.0");
  }

  lemma Written1Dot2Dot3Dot0Dot0Dot0()
    ensures Format([1, 2, 3, 0, 0, 0]) == "1.2.3.0.0.0"
  {
    Written1Dot2Dot3();
    Written0Dot0Dot0();
    Joined([1, 2, 3], [0, 0, 0], [1, 2, 3, 0, 0, 0], "1.2.3", "0.0.0", "1.2.3.0.0.0");
  }

  lemma Written1Dot20Dot3()
    ensures Format([1, 20, 3]) == "1.20.3"
  {
    Written([1, 20, 3], ["1", "20", "3"], "1.20.3");
  }

  lemma Written50()
    ensures Format([50]) == "50"
  {
    Written([50], ["50"], "50");
  }

  lemma Written1Dot20Dot3Dot50()
    ensures Format([1, 20, 3, 50]) == "1.20.3.50"
  {
    Written1Dot20Dot3();
    Written50();
    Joined([1, 20, 3], [50], [1, 20, 3, 50], "1.20.3", "50", "1.20.3.50");
  }

  lemma Written6()
    ensures Format([6]) == "6"
  {
    Written([6], ["6"], "6");
  }

  lemma Written0Dot0Dot0Dot6()
    ensures Format([0, 0, 0, 6]) == "0.0.0.6"
  {
    Written0Dot0Dot0();
    Written6();
    Joined([0, 0, 0], [6], [0, 0, 0, 6], "0.0.0", "6", "0.0.0.6");
  }

  lemma Written1Dot2Dot3Dot0Dot0Dot0Dot6()
    ensures Format([1, 2, 3, 0, 0, 0, 6]) == "1.2.3.0.0.0.6"
  {
    Written1Dot2Dot3();
    Written0Dot0Dot0Dot6();
    Joined([1, 2, 3], [0, 0, 0, 6], [1, 2, 3, 0, 0, 0, 6], "1.2.3", "0.0.0.6", "1.2.3.0.0.0.6");
  }

  lemma Written1Dot1()
    ensures Format([1, 1]) == "1.1"
  {
    Written([1, 1], ["1", "1"], "1.1");
  }

  lemma Written1Dot1Dot0()
    ensures Format([1, 1, 0]) == "1.1.0"
  {
    Written([1, 1, 0], ["1", "1", "0"], "1.1.0");
  }

  lemma Written1Dot2Dot2()
    ensures Format([1, 2, 2]) == "1.2.2"
  {
    Written([1, 2, 2], ["1", "2", "2"], "1.2.2");
  }

  lemma Written0Dot1Dot1()
    ensures Format([0, 1, 1]) == "0.1.1"
  {
    Written([0, 1, 1], ["0", "1", "1"], "0.1.1");
  }

  lemma Written0Dot1Dot2()
    ensures Format([0, 1, 2]) == "0.1.2"
  {
    Written([0, 1, 2], ["0", "1", "2"], "0.1.2");
  }

  lemma Written0Dot1Dot9()
    ensures Format([0, 1, 9]) == "0.1.9"
  {
    Written([0, 1, 9], ["0", "1", "9"], "0.1.9");
  }

  lemma Written0Dot2()
    ensures Format([0, 2]) == "0.2"
  {
    Written([0, 2], ["0", "2"], "0.2");
  }

  lemma Written0Dot9Dot9()
    ensures Format([0, 9, 9]) == "0.9.9"
  {
    Written([0, 9, 9], ["0", "9", "9"], "0.9.9");
  }

  lemma Written1()
    ensures Format([1]) == "1"
  {
    Written([1], ["1"], "1");
  }

  lemma Written1Dot2Dot30()
    ensures Format([1, 2, 30]) == "1.2.30"
  {
    Written([1, 2, 30], ["1", "2", "30"], "1.2.30");
  }

  lemma Written1Dot30Dot6()
    ensures Format([1, 30, 6]) == "1.30.6"
  {
    Written([1, 30, 6], ["1", "30", "6"], "1.30.6");
  }

  lemma Written9Dot19Dot9()
    ensures Format([9, 19, 9]) == "9.19.9"
  {
    Written([9, 19, 9], ["9", "19", "9"], "9.19.9");
  }

  lemma Written0Dot5()
    ensures Format([0, 5]) == "0.5"
  {
    Written([0, 5], ["0", "5"], "0.5");
  }

  lemma Written9Dot9Dot9()
    ensures Format([9, 9, 9]) == "9.9.9"
  {
    Written([9, 9, 9], ["9", "9", "9"], "9.9.9");
  }

  lemma Written1Dot3Dot6()
    ensures Format([1, 3, 6]) == "1.3.6"
  {
    Written([1, 3, 6], ["1", "3", "6"], "1.3.6");
  }

  lemma Parses1Dot2Dot3()
    ensures Format([1, 2, 3]) == "1.2.3"
    ensures Parse("1.2.3") == Success(Version([1, 2, 3]))
  {
    Written1Dot2Dot3();
    Reads([1, 2, 3], "1.2.3");
  }

  lemma Parses1Dot3()
    ensures Format([1, 3]) == "1.3"
    ensures Parse("1.3") == Success(Version([1, 3]))
  {
    Written1Dot3();
    Reads([1, 3], "1.3");
  }

  lemma Parses1Dot0Dot2Dot3()
    ensures Format([1, 0, 2, 3]) == "1.0.2.3"
    ensures Parse("1.0.2.3") == Success(Version([1, 0, 2, 3]))
  {
    Written1Dot0Dot2Dot3();
    Reads([1, 0, 2, 3], "1.0.2.3");
  }

  lemma Parses2Dot3()
    ensures Format([2, 3]) == "2.3"
    ensures Parse("2.3") == Success(Version([2, 3]))
  {
    Written2Dot3();
    Reads([2, 3], "2.3");
  }

  lemma Parses0Dot1()
    ensures Format([0, 1]) == "0.1"
    ensures Parse("0.1") == Success(Version([0, 1]))
  {
    Written0Dot1();
    Reads([0, 1], "0.1");
  }

  lemma Parses1Dot0Dot4()
    ensures Format([1, 0, 4]) == "1.0.4"
    ensures Parse("1.0.4") == Success(Version([1, 0, 4]))
  {
    Written1Dot0Dot4();
    Reads([1, 0, 4], "1.0.4");
  }

  lemma Parses2Dot35()
    ensures Format([2, 35]) == "2.35"
    ensures Parse("2.35") == Success(Version([2, 35]))
  {
    Written2Dot35();
    Reads([2, 35], "2.35");
  }

  lemma Parses1Dot2Dot3Dot0Dot0()
    ensures Format([1, 2, 3, 0, 0]) == "1.2.3.0.0"
    ensures Parse("1.2.3.0.0") == Success(Version([1, 2, 3, 0, 0]))
  {
    Written1Dot2Dot3Dot0Dot0();
    Reads([1, 2, 3, 0, 0], "1.2.3.0.0");
  }

  lemma Parses1Dot2Dot0Dot3()
    ensures Format([1, 2, 0, 3]) == "1.2.0.3"
    ensures Parse("1.2.0.3") == Success(Version([1, 2, 0, 3]))
  {
    Written1Dot2Dot0Dot3();
    Reads([1, 2, 0, 3], "1.2.0.3");
  }

  lemma Parses1Dot2Dot3Dot40()
    ensures Format([1, 2, 3, 40]) == "1.2.3.40"
    ensures Parse("1.2.3.40") == Success(Version([1, 2, 3, 40]))
  {
    Written1Dot2Dot3Dot40();
    Reads([1, 2, 3, 40], "1.2.3.40");
  }

  lemma Parses0Dot1Dot0Dot2Dot3()
    ensures Format([0, 1, 0, 2, 3]) == "0.1.0.2.3"
    ensures Parse("0.1.0.2.3") == Success(Version([0, 1, 0, 2, 3]))
  {
    Written0Dot1Dot0Dot2Dot3();
    Reads([0, 1, 0, 2, 3], "0.1.0.2.3");
  }

  lemma Parses1Dot2Dot3Dot4Dot5Dot6()
    ensures Format([1, 2, 3, 4, 5, 6]) == "1.2.3.4.5.6"
    ensures Parse("1.2.3.4.5.6") == Success(Version([1, 2, 3, 4, 5, 6]))
  {
    Written1Dot2Dot3Dot4Dot5Dot6();
    Reads([1, 2, 3, 4, 5, 6], "1.2.3.4.5.6");
  }

  lemma Parses4Dot78Dot1Dot2()
    ensures Format([4, 78, 1, 2]) == "4.78.1.2"
    ensures Parse("4.78.1.2") == Success(Version([4, 78, 1, 2]))
  {
    Written4Dot78Dot1Dot2();
    Reads([4, 78, 1, 2], "4.78.1.2");
  }

  lemma Parses1Dot2Dot3Dot0Dot0Dot0()
    ensures Format([1, 2, 3, 0, 0, 0]) == "1.2.3.0.0.0"
    ensures Parse("1.2.3.0.0.0") == Success(Version([1, 2, 3, 0, 0, 0]))
  {
    Written1Dot2Dot3Dot0Dot0Dot0();
    Reads([1, 2, 3, 0, 0, 0], "1.2.3.0.0.0");
  }

  lemma Parses1Dot20Dot3Dot50()
    ensures Format([1, 20, 3, 50]) == "1.20.3.50"
    ensures Parse("1.20.3.50") == Success(Version([1, 20, 3, 50]))
  {
    Written1Dot20Dot3Dot50();
    Reads([1, 20, 3, 50], "1.20.3.50");
  }

  lemma Parses1Dot2Dot3Dot0Dot0Dot0Dot6()
    ensures Format([1, 2, 3, 0, 0, 0, 6]) == "1.2.3.0.0.0.6"
    ensures Parse("1.2.3.0.0.0.6") == Success(Version([1, 2, 3, 0, 0, 0, 6]))
  {
    Written1Dot2Dot3Dot0Dot0Dot0Dot6();
    Reads([1, 2, 3, 0, 0, 0, 6], "1.2.3.0.0.0.6");
  }

  lemma Parses1Dot1()
    ensures Format([1, 1]) == "1.1"
    ensures Parse("1.1") == Success(Version([1, 1]))
  {
    Written1Dot1();
    Reads([1, 1], "1.1");
  }

  lemma Parses1Dot1Dot0()
    ensures Format([1, 1, 0]) == "1.1.0"
    ensures Parse("1.1.0") == Success(Version([1, 1, 0]))
  {
    Written1Dot1Dot0();
    Reads([1, 1, 0], "1.1.0");
  }

  lemma Parses1Dot2Dot2()
    ensures Format([1, 2, 2]) == "1.2.2"
    ensures Parse("1.2.2") == Success(Version([1, 2, 2]))
  {
    Written1Dot2Dot2();
    Reads([1, 2, 2], "1.2.2");
  }

  lemma Parses0Dot1Dot1()
    ensures Format([0, 1, 1]) == "0.1.1"
    ensures Parse("0.1.1") == Success(Version([0, 1, 1]))
  {
    Written0Dot1Dot1();
    Reads([0, 1, 1], "0.1.1");
  }

  lemma Parses0Dot1Dot2()
    ensures Format([0, 1, 2]) == "0.1.2"
    ensures Parse("0.1.2") == Success(Version([0, 1, 2]))
  {
    Written0Dot1Dot2();
    Reads([0, 1, 2], "0.1.2");
  }

  lemma Parses0Dot1Dot9()
    ensures Format([0, 1, 9]) == "0.1.9"
    ensures Parse("0.1.9") == Success(Version([0, 1, 9]))
  {
    Written0Dot1Dot9();
    Reads([0, 1, 9], "0.1.9");
  }

  lemma Parses0Dot2()
    ensures Format([0, 2]) == "0.2"
    ensures Parse("0.2") == Success(Version([0, 2]))
  {
    Written0Dot2();
    Reads([0, 2], "0.2");
  }

  lemma Parses0Dot9Dot9()
    ensures Format([0, 9, 9]) == "0.9.9"
    ensures Parse("0.9.9") == Success(Version([0, 9, 9]))
  {
    Written0Dot9Dot9();
    Reads([0, 9, 9], "0.9.9");
  }

  lemma Parses1()
    ensures Format([1]) == "1"
    ensures Parse("1") == Success(Version([1]))
  {
    Written1();
    Reads([1], "1");
  }

  lemma Parses1Dot2Dot30()
    ensures Format([1, 2, 30]) == "1.2.30"
    ensures Parse("1.2.30") == Success(Version([1, 2, 30]))
  {
    Written1Dot2Dot30();
    Reads([1, 2, 30], "1.2.30");
  }

  lemma Parses1Dot30Dot6()
    ensures Format([1, 30, 6]) == "1.30.6"
    ensures Parse("1.30.6") == Success(Version([1, 30, 6]))
  {
    Written1Dot30Dot6();
    Reads([1, 30, 6], "1.30.6");
  }

  lemma Parses9Dot19Dot9()
    ensures Format([9, 19, 9]) == "9.19.9"
    ensures Parse("9.19.9") == Success(Version([9, 19, 9]))
  {
    Written9Dot19Dot9();
    Reads([9, 19, 9], "9.19.9");
  }

  lemma Parses0Dot5()
    ensures Format([0, 5]) == "0.5"
    ensures Parse("0.5") == Success(Version([0, 5]))
  {
    Written0Dot5();
    Reads([0, 5], "0.5");
  }

  lemma Parses9Dot9Dot9()
    ensures Format([9, 9, 9]) == "9.9.9"
    ensures Parse("9.9.9") == Success(Version([9, 9, 9]))
  {
    Written9Dot9Dot9();
    Reads([9, 9, 9], "9.9.9");
  }

  lemma Parses1Dot3Dot6()
    ensures Format([1, 3, 6]) == "1.3.6"
    ensures Parse("1.3.6") == Success(Version([1, 3, 6]))
  {
    Written1Dot3Dot6();
    Reads([1, 3, 6], "1.3.6");
  }
}
