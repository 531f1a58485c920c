/**
 * The Version value type: dotted decimal version strings, the canonical
 * form without trailing zero components, rendering, and the total order
 * derived from one three-way comparison.
 */
module Versions {
  import opened Outcomes
  import opened Text
  import opened Decimal

  /** A parsed version; `raw` holds the components as written, trailing zeros included. */
  datatype Version = Version(raw: seq<nat>)

  /** What a version is constructed from: a string, or another version (a copy). */
  datatype Source = FromText(text: string) | FromVersion(version: Version)

  /** The message of the error raised for a string outside the version grammar. */
  function InvalidMessage(s: string): string {
    "Invalid version string '" + s + "'"
  }

  /** One component of a version string: a non-empty run of decimal digits. */
  predicate IsComponent(t: string) {
    |t| > 0 && IsDigits(t)
  }

  /** Every token is a component. */
  predicate AllComponents(tokens: seq<string>) {
    forall i :: 0 <= i < |tokens| ==> IsComponent(tokens[i])
  }

  /**
   * Digits with single dots between them, read character by character: a
   * digit first, then either the end, or a dot and another such run, or
   * more of the same run.
   */
  predicate DottedDigits(s: string) {
    |s| > 0 && IsDigit(s[0]) &&
    (|s| == 1 || (if s[1] == '.' then DottedDigits(s[2..]) else DottedDigits(s[1..])))
  }

  /** The version grammar: the empty string, or digits ('.' digits)*. */
  predicate IsVersionString(s: string) {
    s == "" || DottedDigits(s)
  }

  /** Cutting a non-empty string at its dots gives only components exactly when it follows the grammar. */
  lemma {:induction false} TokensFollowGrammar(s: string)
    requires s != ""
    ensures AllComponents(Split(s, '.')) <==> DottedDigits(s)
    decreases |s|
  {
    var tokens := Split(s, '.');
    if s[0] == '.' {
      assert tokens[0] == "";
    } else if !IsDigit(s[0]) {
      SplitFirstStartsWith(s, '.');
      IsDigitsIff(tokens[0]);
      assert !IsComponent(tokens[0]);
    } else if |s| == 1 {
      var rest := Split(s[1..], '.');
      assert rest == [""];
      assert [s[0]] + rest[0] == [s[0]];
      assert tokens == [[s[0]]];
      IsDigitsIff([s[0]]);
    } else if s[1] == '.' {
      var after := Split(s[2..], '.');
      SplitDigitDot(s);
      IsDigitsIff([s[0]]);
      if |s| == 2 {
        assert after == [""];
        assert !IsComponent(tokens[1]);
      } else {
        TokensFollowGrammar(s[2..]);
        assert AllComponents(tokens) <==> AllComponents(after) by {
          assert forall i :: 0 <= i < |after| ==> tokens[i + 1] == after[i];
        }
      }
    } else {
      var rest := Split(s[1..], '.');
      SplitRunOn(s);
      TokensFollowGrammar(s[1..]);
      assert AllComponents(tokens) <==> AllComponents(rest) by {
        assert forall i :: 1 <= i < |rest| ==> tokens[i] == rest[i];
      }
    }
  }

  /** The first field of a split of a string that does not start with the separator begins with its first character. */
  lemma SplitFirstStartsWith(s: string, sep: char)
    requires |s| > 0 && s[0] != sep
    ensures |Split(s, sep)[0]| > 0 && Split(s, sep)[0][0] == s[0]
  {
    assert Split(s, sep)[0] == [s[0]] + Split(s[1..], sep)[0];
  }

  /** A digit followed by a dot is a field of its own. */
  lemma SplitDigitDot(s: string)
    requires |s| >= 2 && s[0] != '.' && s[1] == '.'
    ensures Split(s, '.') == [[s[0]]] + Split(s[2..], '.')
  {
    var rest := Split(s[1..], '.');
    assert s[1..][1..] == s[2..];
    assert rest == [""] + Split(s[2..], '.');
    assert rest[0] == "" && rest[1..] == Split(s[2..], '.');
    assert [s[0]] + rest[0] == [s[0]];
  }

  /** A character other than a dot joins the first field after it. */
  lemma SplitRunOn(s: string)
    requires |s| >= 2 && IsDigit(s[0]) && s[1] != '.'
    ensures var rest := Split(s[1..], '.');
      Split(s, '.') == [[s[0]] + rest[0]] + rest[1..] &&
      (IsComponent([s[0]] + rest[0]) <==> IsComponent(rest[0]))
  {
    SplitFirstStartsWith(s[1..], '.');
    ComponentCons(s[0], Split(s[1..], '.')[0]);
  }

  /** A digit in front of a non-empty string makes a component exactly when the string is one. */
  lemma ComponentCons(c: char, t: string)
    requires IsDigit(c) && |t| > 0
    ensures IsComponent([c] + t) <==> IsComponent(t)
  {
    var head := [c] + t;
    IsDigitsIff(head);
    IsDigitsIff(t);
    assert forall i :: 0 <= i < |t| ==> head[i + 1] == t[i];
  }


  /**
   * Construction from a string: the grammar is checked first, then every
   * dot-separated token is read as a decimal number.
   */
  function Parse(s: string): (r: Result<Version, string>)
    ensures r.Success? <==> IsVersionString(s)
    ensures r.Failure? ==> r.error == InvalidMessage(s)
  {
    if s == "" then Success(Version([]))
    else
      var tokens := Split(s, '.');
      TokensFollowGrammar(s);
      if AllComponents(tokens) then
        Success(Version(seq(|tokens|, i requires 0 <= i < |tokens| => ParseNat(tokens[i]))))
      else
        Failure(InvalidMessage(s))
  }

  /** Components written as decimal numerals and joined with '.'; no components give "". */
  function Format(xs: seq<nat>): string {
    if |xs| == 0 then ""
    else Join(seq(|xs|, i requires 0 <= i < |xs| => NatToString(xs[i])), '.')
  }

  /** Parsing what `Format` writes gives back exactly the components written. */
  lemma ParseFormat(xs: seq<nat>)
    ensures Parse(Format(xs)) == Success(Version(xs))
  {
    if |xs| > 0 {
      var numerals := seq(|xs|, i requires 0 <= i < |xs| => NatToString(xs[i]));
      forall i | 0 <= i < |numerals|
        ensures '.' !in numerals[i] && IsComponent(numerals[i])
        ensures ParseNat(numerals[i]) == xs[i]
      {
        IsDigitsIff(numerals[i]);
        ParseNatToString(xs[i]);
      }
      SplitJoin(numerals, '.');
      assert Format(xs) != "" by {
        assert Split("", '.') == [""];
      }
      var values := seq(|numerals|, i requires 0 <= i < |numerals| => ParseNat(numerals[i]));
      assert values == xs;
    }
  }

  /** Only the empty component list is written as the empty string. */
  lemma FormatEmpty(xs: seq<nat>)
    ensures Format(xs) == "" <==> xs == []
  {
    if |xs| > 0 {
      var numerals := seq(|xs|, i requires 0 <= i < |xs| => NatToString(xs[i]));
      JoinStartsWithFirst(numerals, '.');
    }
  }

  /** `Format` writes the numerals `ns` of the components, joined with '.'. */
  lemma FormatNumerals(xs: seq<nat>, ns: seq<string>)
    requires |xs| == |ns| > 0
    requires forall i :: 0 <= i < |xs| ==> ns[i] == NatToString(xs[i])
    ensures Format(xs) == Join(ns, '.')
  {
    assert ns == seq(|xs|, i requires 0 <= i < |xs| => NatToString(xs[i]));
  }

  /** Writing two non-empty component lists one after the other puts a single '.' between them. */
  lemma FormatAppend(xs: seq<nat>, ys: seq<nat>)
    requires |xs| > 0 && |ys| > 0
    ensures Format(xs + ys) == Format(xs) + "." + Format(ys)
  {
    var nx := seq(|xs|, i requires 0 <= i < |xs| => NatToString(xs[i]));
    var ny := seq(|ys|, i requires 0 <= i < |ys| => NatToString(ys[i]));
    var zs := xs + ys;
    assert seq(|zs|, i requires 0 <= i < |zs| => NatToString(zs[i])) == nx + ny;
    JoinAppend(nx, ny, '.');
  }

  /** The zero-extended view of a component sequence: missing positions read as 0. */
  function At(xs: seq<nat>, i: nat): nat {
    if i < |xs| then xs[i] else 0
  }

  /** No trailing zero component. */
  predicate IsTrimmed(xs: seq<nat>) {
    |xs| == 0 || xs[|xs| - 1] != 0
  }

  /** The canonical form: trailing zero components removed, everything else kept in order. */
  function Trim(xs: seq<nat>): (r: seq<nat>)
    ensures r <= xs && IsTrimmed(r)
    ensures forall i :: |r| <= i < |xs| ==> xs[i] == 0
  {
    if |xs| > 0 && xs[|xs| - 1] == 0 then Trim(xs[..|xs| - 1]) else xs
  }

  /** Exactly `n` components: the first `n` of `xs`, right-padded with zeros when `xs` is shorter. */
  function Pad(xs: seq<nat>, n: nat): (r: seq<nat>)
    ensures |r| == n
    ensures forall i :: 0 <= i < n ==> r[i] == At(xs, i)
  {
    if n <= |xs| then xs[..n] else xs + seq(n - |xs|, _ => 0)
  }

  /** Trimming does not change the zero-extended view. */
  lemma AtTrim(xs: seq<nat>, i: nat)
    ensures At(Trim(xs), i) == At(xs, i)
  {
    var r := Trim(xs);
    if i < |r| {
      assert r[i] == xs[..|r|][i];
    }
  }

  /** Trimming a canonical sequence leaves it as it is. */
  lemma TrimTrimmed(xs: seq<nat>)
    requires IsTrimmed(xs)
    ensures Trim(xs) == xs
  {
  }

  /** Two canonical sequences with the same zero-padding are equal. */
  lemma PadTrimmedInjective(x: seq<nat>, y: seq<nat>, n: nat)
    requires IsTrimmed(x) && IsTrimmed(y)
    requires |x| <= n && |y| <= n
    ensures Pad(x, n) == Pad(y, n) <==> x == y
  {
    if Pad(x, n) == Pad(y, n) {
      assert forall i :: 0 <= i < n ==> At(x, i) == Pad(x, n)[i] == Pad(y, n)[i] == At(y, i);
      assert |y| > 0 ==> At(y, |y| - 1) != 0;
      assert |x| > 0 ==> At(x, |x| - 1) != 0;
      assert |x| == |y|;
      assert forall i :: 0 <= i < |x| ==> x[i] == At(x, i) == At(y, i) == y[i];
    }
  }

  /**
   * Lexicographic three-way comparison of equally long sequences; the
   * comparison of the prefixes decides before the last position does.
   */
  function LexCompare(x: seq<nat>, y: seq<nat>): (r: int)
    requires |x| == |y|
    ensures -1 <= r <= 1
  {
    if |x| == 0 then 0
    else
      var c := LexCompare(x[..|x| - 1], y[..|y| - 1]);
      if c != 0 then c
      else if x[|x| - 1] < y[|y| - 1] then -1
      else if x[|x| - 1] > y[|y| - 1] then 1
      else 0
  }

  /** The comparison is zero exactly on equal sequences. */
  lemma {:induction false} LexZeroIff(x: seq<nat>, y: seq<nat>)
    requires |x| == |y|
    ensures LexCompare(x, y) == 0 <==> x == y
    decreases |x|
  {
    if |x| > 0 {
      LexZeroIff(x[..|x| - 1], y[..|y| - 1]);
      assert x == x[..|x| - 1] + [x[|x| - 1]] && y == y[..|y| - 1] + [y[|y| - 1]];
    }
  }

  lemma {:induction false} LexAntisymmetric(x: seq<nat>, y: seq<nat>)
    requires |x| == |y|
    ensures LexCompare(x, y) == -LexCompare(y, x)
    decreases |x|
  {
    if |x| > 0 {
      LexAntisymmetric(x[..|x| - 1], y[..|y| - 1]);
    }
  }

  lemma {:induction false} LexTransitive(x: seq<nat>, y: seq<nat>, z: seq<nat>)
    requires |x| == |y| == |z|
    requires LexCompare(x, y) <= 0 && LexCompare(y, z) <= 0
    ensures LexCompare(x, z) <= 0
    decreases |x|
  {
    if |x| > 0 {
      var px, py, pz := x[..|x| - 1], y[..|y| - 1], z[..|z| - 1];
      assert LexCompare(px, py) <= 0 && LexCompare(py, pz) <= 0;
      LexTransitive(px, py, pz);
      if LexCompare(px, pz) == 0 {
        LexZeroIff(px, pz);
        LexAntisymmetric(py, pz);
        LexZeroIff(px, py);
      }
    }
  }

  /** Comparing two concatenations: the first parts decide unless they are equal. */
  lemma {:induction false} LexAppend(x: seq<nat>, u: seq<nat>, y: seq<nat>, v: seq<nat>)
    requires |x| == |y| && |u| == |v|
    ensures LexCompare(x + u, y + v)
      == if LexCompare(x, y) != 0 then LexCompare(x, y) else LexCompare(u, v)
    decreases |u|
  {
    if |u| == 0 {
      assert x + u == x && y + v == y;
    } else {
      var pu, pv := u[..|u| - 1], v[..|v| - 1];
      LexAppend(x, pu, y, pv);
      assert (x + u)[..|x + u| - 1] == x + pu;
      assert (y + v)[..|y + v| - 1] == y + pv;
      if LexCompare(x, y) == 0 {
        LexZeroIff(x, y);
        assert x + pu == y + pu;
      }
    }
  }

  /** Some position is smaller on the left and every earlier position is equal. */
  ghost predicate FirstDifferenceBelow(x: seq<nat>, y: seq<nat>)
    requires |x| == |y|
  {
    exists k :: 0 <= k < |x| && (forall i :: 0 <= i < k ==> x[i] == y[i]) && x[k] < y[k]
  }

  lemma {:induction false} LexLessFirstDifference(x: seq<nat>, y: seq<nat>)
    requires |x| == |y|
    requires LexCompare(x, y) < 0
    ensures FirstDifferenceBelow(x, y)
    decreases |x|
  {
    var px, py := x[..|x| - 1], y[..|y| - 1];
    if LexCompare(px, py) < 0 {
      LexLessFirstDifference(px, py);
      var k :| 0 <= k < |px| && (forall i :: 0 <= i < k ==> px[i] == py[i]) && px[k] < py[k];
      assert x[k] < y[k];
      assert forall i :: 0 <= i < k ==> x[i] == y[i];
    } else {
      LexZeroIff(px, py);
      var k := |x| - 1;
      assert forall i :: 0 <= i < k ==> x[i] == px[i] == py[i] == y[i];
    }
  }

  lemma {:induction false} FirstDifferenceLexLess(x: seq<nat>, y: seq<nat>)
    requires |x| == |y|
    requires FirstDifferenceBelow(x, y)
    ensures LexCompare(x, y) < 0
    decreases |x|
  {
    var k :| 0 <= k < |x| && (forall i :: 0 <= i < k ==> x[i] == y[i]) && x[k] < y[k];
    var px, py := x[..|x| - 1], y[..|y| - 1];
    if k < |x| - 1 {
      assert (forall i :: 0 <= i < k ==> px[i] == py[i]) && px[k] < py[k];
      FirstDifferenceLexLess(px, py);
    } else {
      assert px == py;
      LexZeroIff(px, py);
    }
  }

  /** The comparison is negative exactly when the first differing position is smaller on the left. */
  lemma LexLessIff(x: seq<nat>, y: seq<nat>)
    requires |x| == |y|
    ensures LexCompare(x, y) < 0 <==> FirstDifferenceBelow(x, y)
  {
    if LexCompare(x, y) < 0 {
      LexLessFirstDifference(x, y);
    }
    if FirstDifferenceBelow(x, y) {
      FirstDifferenceLexLess(x, y);
    }
  }

  /**
   * The three-way comparison (`<=>`): both canonical forms are padded with
   * zeros to a common length and compared lexicographically.
   */
  function Compare(a: Version, b: Version): (r: int)
    ensures -1 <= r <= 1
    ensures r == 0 <==> Trim(a.raw) == Trim(b.raw)
  {
    var x, y := Trim(a.raw), Trim(b.raw);
    var n := if |x| < |y| then |y| else |x|;
    PadTrimmedInjective(x, y, n);
    LexZeroIff(Pad(x, n), Pad(y, n));
    LexCompare(Pad(x, n), Pad(y, n))
  }

  predicate Less(a: Version, b: Version) { Compare(a, b) < 0 }
  predicate AtMost(a: Version, b: Version) { Compare(a, b) <= 0 }
  predicate Greater(a: Version, b: Version) { Compare(a, b) > 0 }
  predicate AtLeast(a: Version, b: Version) { Compare(a, b) >= 0 }
  predicate Same(a: Version, b: Version) { Compare(a, b) == 0 }
  predicate Differs(a: Version, b: Version) { Compare(a, b) != 0 }

  /** The comparison may be carried out on the raw components padded to any common depth. */
  lemma CompareAtDepth(a: Version, b: Version, n: nat)
    requires |a.raw| <= n && |b.raw| <= n
    ensures Compare(a, b) == LexCompare(Pad(a.raw, n), Pad(b.raw, n))
  {
    var x, y := Trim(a.raw), Trim(b.raw);
    var m := if |x| < |y| then |y| else |x|;
    var zeros := seq(n - m, _ => 0);
    forall i | 0 <= i < n
      ensures (Pad(x, m) + zeros)[i] == Pad(a.raw, n)[i]
      ensures (Pad(y, m) + zeros)[i] == Pad(b.raw, n)[i]
    {
      AtTrim(a.raw, i);
      AtTrim(b.raw, i);
    }
    assert Pad(x, m) + zeros == Pad(a.raw, n);
    assert Pad(y, m) + zeros == Pad(b.raw, n);
    LexAppend(Pad(x, m), zeros, Pad(y, m), zeros);
    LexZeroIff(zeros, zeros);
  }

  lemma CompareAntisymmetric(a: Version, b: Version)
    ensures Compare(a, b) == -Compare(b, a)
  {
    var n := if |a.raw| < |b.raw| then |b.raw| else |a.raw|;
    CompareAtDepth(a, b, n);
    CompareAtDepth(b, a, n);
    LexAntisymmetric(Pad(a.raw, n), Pad(b.raw, n));
  }

  lemma CompareTransitive(a: Version, b: Version, c: Version)
    requires AtMost(a, b) && AtMost(b, c)
    ensures AtMost(a, c)
    ensures Less(a, b) || Less(b, c) ==> Less(a, c)
  {
    var n := |a.raw|;
    if n < |b.raw| { n := |b.raw|; }
    if n < |c.raw| { n := |c.raw|; }
    CompareAtDepth(a, b, n);
    CompareAtDepth(b, c, n);
    CompareAtDepth(a, c, n);
    LexTransitive(Pad(a.raw, n), Pad(b.raw, n), Pad(c.raw, n));
    if Same(a, c) {
      CompareAntisymmetric(a, b);
      assert Compare(b, a) == Compare(b, c);
    }
  }

  /**
   * `a < b` exactly when, reading missing components as zeros, the first
   * position where the versions differ is smaller in `a`.
   */
  lemma CompareLessIff(a: Version, b: Version)
    ensures Less(a, b) <==>
      exists k: nat :: (forall i: nat :: i < k ==> At(a.raw, i) == At(b.raw, i)) && At(a.raw, k) < At(b.raw, k)
  {
    var n := if |a.raw| < |b.raw| then |b.raw| else |a.raw|;
    var x, y := Pad(a.raw, n), Pad(b.raw, n);
    CompareAtDepth(a, b, n);
    LexLessIff(x, y);
    if Less(a, b) {
      var k :| 0 <= k < |x| && (forall i :: 0 <= i < k ==> x[i] == y[i]) && x[k] < y[k];
      assert forall i: nat :: i < k ==> At(a.raw, i) == x[i] == y[i] == At(b.raw, i);
      assert At(a.raw, k) < At(b.raw, k);
    }
    if exists k: nat :: (forall i: nat :: i < k ==> At(a.raw, i) == At(b.raw, i)) && At(a.raw, k) < At(b.raw, k) {
      var k: nat :| (forall i: nat :: i < k ==> At(a.raw, i) == At(b.raw, i)) && At(a.raw, k) < At(b.raw, k);
      assert k < n;
      assert forall i :: 0 <= i < k ==> x[i] == At(a.raw, i) == At(b.raw, i) == y[i];
      assert x[k] < y[k];
    }
  }

  /** Exactly one of `<`, `==`, `>` holds, and the other operators agree with them. */
  lemma TotalOrder(a: Version, b: Version)
    ensures (Less(a, b) && !Same(a, b) && !Greater(a, b))
         || (!Less(a, b) && Same(a, b) && !Greater(a, b))
         || (!Less(a, b) && !Same(a, b) && Greater(a, b))
    ensures AtMost(a, b) <==> Less(a, b) || Same(a, b)
    ensures AtLeast(a, b) <==> Greater(a, b) || Same(a, b)
    ensures Differs(a, b) <==> !Same(a, b)
    ensures Less(a, b) <==> Greater(b, a)
  {
    CompareAntisymmetric(a, b);
  }

  /**
   * Canonical rendering (`to_s`): the trimmed components joined with '.';
   * only a version whose components are all zero renders as "".
   */
  function ToString(v: Version): (s: string)
    ensures s == "" <==> Trim(v.raw) == []
  {
    FormatEmpty(Trim(v.raw));
    Format(Trim(v.raw))
  }

  /** Rendering then parsing gives the canonical form of the version, which compares equal to it. */
  lemma ToStringParse(v: Version)
    ensures Parse(ToString(v)) == Success(Version(Trim(v.raw)))
    ensures Same(Version(Trim(v.raw)), v)
  {
    ParseFormat(Trim(v.raw));
    TrimTrimmed(Trim(v.raw));
  }

  /**
   * `components` without an argument gives the canonical components, which
   * keep the order of the parsed ones; `components(n)` pads the parsed
   * components with zeros up to `n` or keeps only the first `n`.
   */
  function Components(v: Version, n: Option<nat>): (r: seq<nat>)
    ensures n.None? ==> r <= v.raw && IsTrimmed(r) && Same(Version(r), v)
    ensures n.Some? ==> |r| == n.value
    ensures n.Some? && n.value <= |v.raw| ==> r == v.raw[..n.value]
    ensures n.Some? && |v.raw| <= n.value ==>
      r[..|v.raw|] == v.raw && forall i :: |v.raw| <= i < n.value ==> r[i] == 0
  {
    match n
    case None =>
      TrimTrimmed(Trim(v.raw));
      Trim(v.raw)
    case Some(k) => Pad(v.raw, k)
  }

  /** Two versions are equal exactly when their canonical components are. */
  lemma SameIffComponents(a: Version, b: Version)
    ensures Same(a, b) <==> Components(a, None) == Components(b, None)
  {
  }

  /** A version string as `to_s` writes it: numerals without leading zeros, no trailing zero component. */
  predicate IsCanonicalText(s: string) {
    var tokens := Split(s, '.');
    s == "" || ((forall i :: 0 <= i < |tokens| ==> IsNumeral(tokens[i])) && tokens[|tokens| - 1] != "0")
  }

  /** `to_s` writes only canonical strings: numerals without leading zeros and no trailing zero component. */
  lemma ToStringCanonical(v: Version)
    ensures IsCanonicalText(ToString(v))
  {
    var xs := Trim(v.raw);
    if |xs| > 0 {
      var numerals := seq(|xs|, i requires 0 <= i < |xs| => NatToString(xs[i]));
      forall i | 0 <= i < |numerals|
        ensures '.' !in numerals[i]
      {
        IsDigitsIff(numerals[i]);
      }
      SplitJoin(numerals, '.');
      var last := numerals[|xs| - 1];
      if last == "0" {
        ParseNatToString(xs[|xs| - 1]);
        assert ParseNat("0") == 0;
      }
    }
  }

  /** Parsing a canonical version string and rendering it gives back the same string. */
  lemma ParseToString(s: string)
    requires IsCanonicalText(s)
    ensures Parse(s).Success? && ToString(Parse(s).value) == s
  {
    if s != "" {
      var tokens := Split(s, '.');
      var xs := Parse(s).value.raw;
      var last := tokens[|tokens| - 1];
      if |last| > 1 {
        assert last[0] != '0';
      } else {
        assert last == [last[0]];
      }
      ParseNatPositive(last);
      TrimTrimmed(xs);
      var numerals := seq(|xs|, i requires 0 <= i < |xs| => NatToString(xs[i]));
      forall i | 0 <= i < |tokens|
        ensures numerals[i] == tokens[i]
      {
        NatToStringParse(tokens[i]);
      }
      assert numerals == tokens;
      JoinSplit(s, '.');
    }
  }

  /**
   * Construction (`Version.new`): a string is parsed; another version is
   * copied by parsing its canonical rendering.
   */
  function Make(source: Source): (r: Result<Version, string>)
    ensures source.FromText? ==> r == Parse(source.text)
    ensures source.FromText? ==> (r.Success? <==> IsVersionString(source.text))
    ensures source.FromText? && r.Failure? ==> r.error == InvalidMessage(source.text)
    ensures source.FromVersion? ==>
      r.Success? && ToString(r.value) == ToString(source.version) && Same(r.value, source.version)
  {
    match source
    case FromText(s) => Parse(s)
    case FromVersion(v) =>
      ToStringParse(v);
      TrimTrimmed(Trim(v.raw));
      Parse(ToString(v))
  }
}
