/** Character classes and splitting/joining of strings on a separator character. */
module Text {

  predicate IsDigit(c: char) {
    '0' <= c <= '9'
  }

  /** Every character is a decimal digit (the empty string qualifies). */
  predicate IsDigits(s: string) {
    |s| == 0 || (IsDigit(s[|s| - 1]) && IsDigits(s[..|s| - 1]))
  }

  lemma {:induction false} IsDigitsIff(s: string)
    ensures IsDigits(s) <==> forall i :: 0 <= i < |s| ==> IsDigit(s[i])
    decreases |s|
  {
    if |s| > 0 {
      IsDigitsIff(s[..|s| - 1]);
    }
  }

  /** Position of the first occurrence of `c` in `s`. */
  function IndexOf(s: string, c: char): (i: nat)
    requires c in s
    ensures i < |s| && s[i] == c && c !in s[..i]
  {
    if s[0] == c then 0 else 1 + IndexOf(s[1..], c)
  }

  /**
   * All fields of `s` between occurrences of `sep`, keeping empty fields
   * (also trailing ones); there is always at least one field.
   */
  function Split(s: string, sep: char): (r: seq<string>)
    ensures |r| > 0
    ensures forall i :: 0 <= i < |r| ==> sep !in r[i]
  {
    if |s| == 0 then [""]
    else
      var rest := Split(s[1..], sep);
      if s[0] == sep then [""] + rest else [[s[0]] + rest[0]] + rest[1..]
  }

  /** The fields of `parts`, separated by one `sep` each. */
  function Join(parts: seq<string>, sep: char): string
    requires |parts| > 0
  {
    if |parts| == 1 then parts[0] else parts[0] + [sep] + Join(parts[1..], sep)
  }

  /** A join begins with its first field. */
  lemma JoinStartsWithFirst(parts: seq<string>, sep: char)
    requires |parts| > 0
    ensures parts[0] <= Join(parts, sep)
  {
  }

  /** Joining the fields of a split gives back the original string. */
  lemma {:induction false} JoinSplit(s: string, sep: char)
    ensures Join(Split(s, sep), sep) == s
    decreases |s|
  {
    if |s| > 0 {
      var rest := Split(s[1..], sep);
      JoinSplit(s[1..], sep);
      if s[0] == sep {
        assert ([""] + rest)[1..] == rest;
        assert s == [sep] + s[1..];
      } else {
        var r := [[s[0]] + rest[0]] + rest[1..];
        if |rest| == 1 {
          assert s == [s[0]] + s[1..];
        } else {
          assert r[1..] == rest[1..];
          assert Join(rest, sep) == rest[0] + [sep] + Join(rest[1..], sep);
          assert s == [s[0]] + s[1..];
        }
      }
    }
  }

  /** Splitting `t + s` when `t` has no separator extends the first field of `s` by `t`. */
  lemma {:induction false} SplitPrefix(t: string, s: string, sep: char)
    requires sep !in t
    ensures Split(t + s, sep) == [t + Split(s, sep)[0]] + Split(s, sep)[1..]
    decreases |t|
  {
    if |t| == 0 {
      assert t + s == s;
      var r := Split(s, sep);
      assert t + r[0] == r[0];
      assert [r[0]] + r[1..] == r;
    } else {
      var tail := Split(s, sep);
      var rest := Split(t[1..] + s, sep);
      SplitPrefix(t[1..], s, sep);
      assert rest[0] == t[1..] + tail[0] && rest[1..] == tail[1..];
      assert (t + s)[0] == t[0] && t[0] != sep;
      assert (t + s)[1..] == t[1..] + s;
      assert Split(t + s, sep) == [[t[0]] + rest[0]] + rest[1..];
      assert [t[0]] + (t[1..] + tail[0]) == t + tail[0];
    }
  }

  /** Joining two non-empty lists of fields is joining each and putting one separator between. */
  lemma {:induction false} JoinAppend(a: seq<string>, b: seq<string>, sep: char)
    requires |a| > 0 && |b| > 0
    ensures Join(a + b, sep) == Join(a, sep) + [sep] + Join(b, sep)
    decreases |a|
  {
    assert (a + b)[0] == a[0];
    if |a| > 1 {
      assert (a + b)[1..] == a[1..] + b;
      JoinAppend(a[1..], b, sep);
    } else {
      assert (a + b)[1..] == b;
    }
  }

  /** Splitting a join of separator-free fields gives back the fields. */
  lemma {:induction false} SplitJoin(parts: seq<string>, sep: char)
    requires |parts| > 0
    requires forall i :: 0 <= i < |parts| ==> sep !in parts[i]
    ensures Split(Join(parts, sep), sep) == parts
    decreases |parts|
  {
    if |parts| == 1 {
      SplitPrefix(parts[0], "", sep);
      assert parts[0] + "" == parts[0];
    } else {
      var tail := Join(parts[1..], sep);
      SplitJoin(parts[1..], sep);
      assert parts[0] + [sep] + tail == parts[0] + ([sep] + tail);
      SplitPrefix(parts[0], [sep] + tail, sep);
      assert ([sep] + tail)[1..] == tail;
      var split := Split([sep] + tail, sep);
      assert split == [""] + parts[1..];
      assert parts[0] + split[0] == parts[0];
      assert split[1..] == parts[1..];
      assert parts == [parts[0]] + parts[1..];
    }
  }
}
