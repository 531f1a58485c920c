/**
 * `fetch_deep` and `reshape` on nested hashes and arrays: a dotted key
 * path is followed one segment at a time, a hash looking up the segment
 * as a string key and then as a symbol key, an array reading the segment
 * as an index; `reshape` builds a hash of the same keys as a shape whose
 * leaves are key paths.
 */
module DeepFetch {
  import opened Outcomes
  import opened Text
  import opened Decimal

  /** Hash keys: strings and symbols, the two kinds a lookup tries. */
  datatype Key = StrKey(name: string) | SymKey(name: string)

  datatype Value =
    | Nil
    | Bool(b: bool)
    | Int(i: int)
    | Str(s: string)
    | Hash(entries: seq<Entry>)
    | List(items: seq<Value>)

  datatype Entry = Entry(key: Key, value: Value)

  /** A method called on a receiver that does not have it. */
  datatype FetchError = NoMethodError

  /** Ruby truthiness: everything except `nil` and `false`. */
  predicate Truthy(v: Value) {
    !(v.Nil? || v == Bool(false))
  }

  // ---------------------------------------------------------------------
  // One segment
  // ---------------------------------------------------------------------

  /** `hash[key]`: the value of the entry with that key, `nil` when there is none. */
  function Lookup(entries: seq<Entry>, key: Key): (v: Value)
    ensures v == Nil || exists i :: 0 <= i < |entries| && entries[i].key == key && entries[i].value == v
    ensures (forall i :: 0 <= i < |entries| ==> entries[i].key != key) ==> v == Nil
    ensures forall i :: 0 <= i < |entries| && entries[i].key == key ==>
      (exists j :: 0 <= j < i && entries[j].key == key) || v == entries[i].value
  {
    if |entries| == 0 then Nil
    else if entries[0].key == key then entries[0].value
    else Lookup(entries[1..], key)
  }

  /**
   * `try_get_value`: no key gives `nil`; otherwise the string key's value
   * when it is truthy, else the symbol key's value.
   */
  function TryGetValue(entries: seq<Entry>, key: Option<string>): (v: Value)
    ensures key.None? ==> v == Nil
    ensures key.Some? && Truthy(Lookup(entries, StrKey(key.value))) ==> v == Lookup(entries, StrKey(key.value))
    ensures key.Some? && !Truthy(Lookup(entries, StrKey(key.value))) ==> v == Lookup(entries, SymKey(key.value))
  {
    match key
    case None => Nil
    case Some(k) =>
      var s := Lookup(entries, StrKey(k));
      if Truthy(s) then s else Lookup(entries, SymKey(k))
  }

  /**
   * `split('.', 2)`: the empty path has no segment at all; otherwise the
   * first segment, and the rest after the first '.', if there is a '.'.
   */
  function SplitPath(path: string): (r: (Option<string>, Option<string>))
    ensures path == "" <==> r.0.None?
    ensures r.0.Some? ==> '.' !in r.0.value
    ensures r.0.Some? && r.1.None? ==> r.0.value == path
    ensures r.0.Some? && r.1.Some? ==> path == r.0.value + "." + r.1.value
    ensures r.1.Some? ==> |r.1.value| < |path|
  {
    if path == "" then (None, None)
    else if '.' in path then
      var i := IndexOf(path, '.');
      assert path == path[..i] + "." + path[i + 1..];
      (Some(path[..i]), Some(path[i + 1..]))
    else (Some(path), None)
  }

  /** The characters Ruby's `to_i` skips before the number: space, \t, \n, \v, \f and \r. */
  predicate IsSpace(c: char) {
    c == ' ' || c == '\t' || c == '\n' || c == '\U{000B}' || c == '\U{000C}' || c == '\r'
  }

  /** `s` without its leading whitespace. */
  function SkipSpaces(s: string): (t: string)
    ensures |t| <= |s| && t == s[|s| - |t|..]
    ensures forall i :: 0 <= i < |s| - |t| ==> IsSpace(s[i])
    ensures t == "" || !IsSpace(t[0])
  {
    if |s| > 0 && IsSpace(s[0]) then SkipSpaces(s[1..]) else s
  }

  /**
   * The digits `to_i` reads at the front of `s`: a run of decimal digits in
   * which a single '_' may stand between two digits, underscores dropped.
   */
  function DigitRun(s: string): (d: string)
    ensures IsDigits(d) && |d| <= |s|
    ensures d != "" <==> |s| > 0 && IsDigit(s[0])
    decreases |s|
  {
    if |s| == 0 || !IsDigit(s[0]) then ""
    else
      var rest := DigitRun(if |s| >= 3 && s[1] == '_' && IsDigit(s[2]) then s[2..] else s[1..]);
      IsDigitsIff(rest);
      IsDigitsIff([s[0]] + rest);
      [s[0]] + rest
  }

  /** A string of digits is read whole. */
  lemma {:induction false} DigitRunOfDigits(s: string)
    requires IsDigits(s)
    ensures DigitRun(s) == s
    decreases |s|
  {
    IsDigitsIff(s);
    if |s| > 0 {
      IsDigitsIff(s[1..]);
      DigitRunOfDigits(s[1..]);
      assert s == [s[0]] + s[1..];
    }
  }

  /**
   * `to_i` on a segment: leading whitespace skipped, then an optional sign
   * and the digit run; no digits read as 0. `nil.to_i` is 0.
   */
  function ToI(key: Option<string>): (n: int)
    ensures key.None? ==> n == 0
    ensures key.Some? && (forall i :: 0 <= i < |key.value| ==> !IsDigit(key.value[i])) ==> n == 0
  {
    match key
    case None => 0
    case Some(s) => SignedRun(SkipSpaces(s))
  }

  /** The number at the front of `t`: an optional sign, then the digit run. */
  function SignedRun(t: string): (n: int)
    ensures (forall i :: 0 <= i < |t| ==> !IsDigit(t[i])) ==> n == 0
  {
    if |t| > 0 && t[0] == '-' then -(ParseNat(DigitRun(t[1..])) as int)
    else if |t| > 0 && t[0] == '+' then ParseNat(DigitRun(t[1..]))
    else ParseNat(DigitRun(t))
  }

  /**
   * `array[i]`: a non-negative index counts from the front and a negative
   * one from the end; an index outside the array gives `nil`.
   */
  function Element(items: seq<Value>, i: int): (v: Value)
    ensures v == Nil || v in items
    ensures 0 <= i < |items| ==> v == items[i]
    ensures -|items| <= i < 0 ==> v == items[|items| + i]
    ensures i >= |items| || i < -|items| ==> v == Nil
  {
    if 0 <= i < |items| then items[i]
    else if -|items| <= i < 0 then items[|items| + i]
    else Nil
  }

  /** The value the first segment of `path` selects in a hash or an array. */
  function Step(v: Value, key: Option<string>): (r: Value)
    requires v.Hash? || v.List?
    ensures r == Nil || (v.Hash? && exists i :: 0 <= i < |v.entries| && v.entries[i].value == r) || (v.List? && r in v.items)
    ensures v.Hash? && key.None? ==> r == Nil
    ensures v.List? && key.None? && |v.items| > 0 ==> r == v.items[0]
  {
    if v.Hash? then TryGetValue(v.entries, key) else Element(v.items, ToI(key))
  }

  // ---------------------------------------------------------------------
  // fetch_deep
  // ---------------------------------------------------------------------

  /**
   * `fetch_deep`: select the first segment; without a rest that is the
   * result; with a rest, a truthy value is asked for the rest and a falsy
   * one gives `nil`. Receivers other than hashes and arrays have no
   * `fetch_deep`.
   */
  function FetchDeep(v: Value, path: string): (r: Result<Value, FetchError>)
    ensures !(v.Hash? || v.List?) ==> r == Failure(NoMethodError)
    ensures (v.Hash? || v.List?) && '.' !in path ==>
      r == Success(Step(v, if path == "" then None else Some(path)))
    decreases |path|
  {
    if !(v.Hash? || v.List?) then Failure(NoMethodError)
    else
      var (key, nested) := SplitPath(path);
      var value := Step(v, key);
      if nested.None? then Success(value)
      else if Truthy(value) then FetchDeep(value, nested.value)
      else Success(Nil)
  }

  /** Continue a lookup that reached `r` with the further path `q`. */
  function Then(r: Result<Value, FetchError>, q: string): Result<Value, FetchError> {
    match r
    case Failure(e) => Failure(e)
    case Success(x) => if Truthy(x) then FetchDeep(x, q) else Success(Nil)
  }

  /** A path without '.' is one lookup: string key then symbol key in a hash, index in an array. */
  lemma FetchDeepSingleSegment(v: Value, key: string)
    requires key != "" && '.' !in key
    ensures v.Hash? ==> FetchDeep(v, key) == Success(TryGetValue(v.entries, Some(key)))
    ensures v.List? ==> FetchDeep(v, key) == Success(Element(v.items, ToI(Some(key))))
    ensures !(v.Hash? || v.List?) ==> FetchDeep(v, key).Failure?
  {
  }

  /** The empty path has no segment: a hash gives `nil`, an array its first element. */
  lemma FetchDeepEmptyPath(v: Value)
    ensures v.Hash? ==> FetchDeep(v, "") == Success(Nil)
    ensures v.List? ==> FetchDeep(v, "") == Success(Element(v.items, 0))
    ensures !(v.Hash? || v.List?) ==> FetchDeep(v, "").Failure?
  {
  }

  /** Whitespace in front of the number is skipped. */
  lemma {:induction false} SkipSpacesPrefix(ws: string, t: string)
    requires forall i :: 0 <= i < |ws| ==> IsSpace(ws[i])
    requires t == "" || !IsSpace(t[0])
    ensures SkipSpaces(ws + t) == t
    decreases |ws|
  {
    if |ws| > 0 {
      assert (ws + t)[1..] == ws[1..] + t;
      SkipSpacesPrefix(ws[1..], t);
    } else {
      assert ws + t == t;
    }
  }

  /** A string of digits reads as its value. */
  lemma UnsignedIndex(digits: string)
    requires IsDigits(digits)
    ensures ToI(Some(digits)) == ParseNat(digits)
  {
    IsDigitsIff(digits);
    assert SkipSpaces(digits) == digits;
    DigitRunOfDigits(digits);
    assert SignedRun(digits) == ParseNat(DigitRun(digits));
  }

  /** A sign followed by digits reads as their value, negated for '-'. */
  lemma SignedDigits(sign: char, digits: string)
    requires sign == '-' || sign == '+'
    requires IsDigits(digits)
    ensures SignedRun([sign] + digits) == if sign == '-' then -(ParseNat(digits) as int) else ParseNat(digits)
  {
    var t := [sign] + digits;
    assert t[0] == sign && t[1..] == digits;
    DigitRunOfDigits(digits);
  }

  /** A signed numeral after whitespace reads as its value, negated for '-'. */
  lemma SignedIndex(ws: string, sign: char, digits: string)
    requires forall i :: 0 <= i < |ws| ==> IsSpace(ws[i])
    requires sign == '-' || sign == '+'
    requires IsDigits(digits)
    ensures ToI(Some(ws + [sign] + digits)) == if sign == '-' then -(ParseNat(digits) as int) else ParseNat(digits)
  {
    var t := [sign] + digits;
    assert ws + [sign] + digits == ws + t;
    SkipSpacesPrefix(ws, t);
    SignedDigits(sign, digits);
  }

  /** A digit followed by anything but '_' starts the run. */
  lemma RunStep(c: char, rest: string)
    requires IsDigit(c) && |rest| > 0 && rest[0] != '_'
    ensures DigitRun([c] + rest) == [c] + DigitRun(rest)
  {
    assert ([c] + rest)[1..] == rest;
  }

  /** A digit, '_' and a digit: the run goes on after the '_'. */
  lemma RunSkip(c: char, y: string)
    requires IsDigit(c) && |y| > 0 && IsDigit(y[0])
    ensures DigitRun([c, '_'] + y) == [c] + DigitRun(y)
  {
    var s := [c, '_'] + y;
    assert s[1] == '_' && s[2] == y[0] && s[2..] == y;
  }

  /** Digits, one '_', digits: the run reads through the '_' and drops it. */
  lemma {:induction false} DigitRunUnderscore(x: string, y: string)
    requires |x| > 0 && |y| > 0 && IsDigits(x) && IsDigits(y)
    ensures DigitRun(x + "_" + y) == x + y
    decreases |x|
  {
    assert IsDigit(x[0]) by {
      IsDigitsIff(x);
    }
    if |x| == 1 {
      assert IsDigit(y[0]) by {
        IsDigitsIff(y);
      }
      assert x + "_" + y == [x[0], '_'] + y by {
        assert x == [x[0]];
      }
      RunSkip(x[0], y);
      DigitRunOfDigits(y);
      assert x + y == [x[0]] + y by {
        assert x == [x[0]];
      }
    } else {
      var tail := x[1..];
      assert IsDigits(tail) && IsDigit(tail[0]) by {
        IsDigitsIff(x);
        IsDigitsIff(tail);
      }
      var rest := tail + "_" + y;
      assert x + "_" + y == [x[0]] + rest by {
        assert x == [x[0]] + tail;
      }
      assert rest[0] == tail[0];
      RunStep(x[0], rest);
      DigitRunUnderscore(tail, y);
      assert x + y == [x[0]] + (tail + y) by {
        assert x == [x[0]] + tail;
      }
    }
  }

  /** A segment that starts with a digit has no whitespace or sign to skip. */
  lemma DigitStart(s: string)
    requires |s| > 0 && IsDigit(s[0])
    ensures ToI(Some(s)) == ParseNat(DigitRun(s))
  {
    assert SkipSpaces(s) == s by {
      assert !IsSpace(s[0]);
    }
  }

  /** A single '_' between two digit runs is read through: "1_0" is 10 and "12_345" is 12345. */
  lemma UnderscoreIndex(x: string, y: string)
    requires |x| > 0 && |y| > 0 && IsDigits(x) && IsDigits(y)
    ensures IsDigits(x + y) && ToI(Some(x + "_" + y)) == ToI(Some(x + y)) == ParseNat(x + y)
  {
    IsDigitsIff(x);
    IsDigitsIff(y);
    var s, t := x + "_" + y, x + y;
    assert forall i :: 0 <= i < |t| ==> IsDigit(t[i]) by {
      assert forall i :: 0 <= i < |x| ==> t[i] == x[i];
      assert forall i :: |x| <= i < |t| ==> t[i] == y[i - |x|];
    }
    IsDigitsIff(t);
    DigitRunUnderscore(x, y);
    DigitRunOfDigits(t);
    assert s[0] == x[0] && t[0] == x[0];
    DigitStart(s);
    DigitStart(t);
  }

  /** "-k" selects the k-th element from the end of the array. */
  lemma FromEnd(items: seq<Value>, k: nat)
    requires 0 < k <= |items|
    ensures FetchDeep(List(items), "-" + NatToString(k)) == Success(items[|items| - k])
  {
    var digits := NatToString(k);
    var key := "-" + digits;
    assert '.' !in key by {
      IsDigitsIff(digits);
      assert forall i :: 0 <= i < |digits| ==> key[i + 1] == digits[i];
    }
    assert ToI(Some(key)) == -(k as int) by {
      SignedIndex("", '-', digits);
      assert "" + ['-'] + digits == key;
      ParseNatToString(k);
    }
    assert FetchDeep(List(items), key) == Success(Step(List(items), Some(key)));
  }

  /**
   * `key.rest`: the rest is fetched from the value at `key` when that
   * value is truthy; otherwise the result is `nil`.
   */
  lemma FetchDeepStep(v: Value, key: string, rest: string)
    requires v.Hash? || v.List?
    requires '.' !in key
    ensures FetchDeep(v, key + "." + rest) == Then(Success(Step(v, Some(key))), rest)
  {
    var path := key + "." + rest;
    var i := IndexOf(path, '.');
    assert path[|key|] == '.';
    assert path[..|key|] == key;
    assert path[..i] == key && path[i + 1..] == rest;
  }

  /**
   * Following `p` and then `q` is following `p.q`, when the last segment
   * of `p` is not empty.
   */
  lemma {:induction false} FetchDeepConcat(v: Value, p: string, q: string)
    requires p != "" && p[|p| - 1] != '.'
    ensures FetchDeep(v, p + "." + q) == Then(FetchDeep(v, p), q)
    decreases |p|
  {
    if v.Hash? || v.List? {
      var (key, nested) := SplitPath(p);
      if nested.None? {
        FetchDeepStep(v, p, q);
      } else {
        var k, rest := key.value, nested.value;
        assert p + "." + q == k + "." + (rest + "." + q);
        FetchDeepStep(v, k, rest + "." + q);
        FetchDeepStep(v, k, rest);
        var x := Step(v, Some(k));
        if Truthy(x) {
          assert rest != "" && rest[|rest| - 1] == p[|p| - 1];
          FetchDeepConcat(x, rest, q);
        }
      }
    }
  }

  // ---------------------------------------------------------------------
  // reshape
  // ---------------------------------------------------------------------

  /** A shape: a key path, or a hash of shapes. */
  datatype Shape = Leaf(path: string) | Node(entries: seq<ShapeEntry>)

  datatype ShapeEntry = ShapeEntry(key: Key, shape: Shape)

  /** The value one shape entry takes: a nested shape recurses on the same hash, a path is fetched. */
  function ReshapeEntry(root: Value, s: Shape): (r: Result<Value, FetchError>)
    requires root.Hash?
    ensures s.Leaf? ==> r == FetchDeep(root, s.path)
    ensures s.Node? && r.Success? ==>
      r.value.Hash? && |r.value.entries| == |s.entries| &&
      forall i :: 0 <= i < |s.entries| ==> r.value.entries[i].key == s.entries[i].key
    decreases s, 1
  {
    match s
    case Leaf(path) => FetchDeep(root, path)
    case Node(_) =>
      match ReshapeHash(root, s)
      case Failure(e) => Failure(e)
      case Success(es) => Success(Hash(es))
  }

  /**
   * `Hash#reshape`: one entry per shape entry, with the same key, in the
   * same order. A path as the whole shape is not a hash and has no `map`.
   */
  function ReshapeHash(root: Value, shape: Shape): (r: Result<seq<Entry>, FetchError>)
    requires root.Hash?
    ensures shape.Leaf? ==> r.Failure?
    ensures r.Success? ==> shape.Node? && |r.value| == |shape.entries|
    ensures r.Success? ==> forall i :: 0 <= i < |r.value| ==>
      r.value[i].key == shape.entries[i].key &&
      ReshapeEntry(root, shape.entries[i].shape) == Success(r.value[i].value)
    ensures shape.Node? ==>
      (r.Success? <==> forall i :: 0 <= i < |shape.entries| ==> ReshapeEntry(root, shape.entries[i].shape).Success?)
    decreases shape, 0
  {
    match shape
    case Leaf(_) => Failure(NoMethodError)
    case Node(es) =>
      var results := seq(|es|, i requires 0 <= i < |es| => ReshapeEntry(root, es[i].shape));
      if forall i :: 0 <= i < |es| ==> results[i].Success? then
        Success(seq(|es|, i requires 0 <= i < |es| => Entry(es[i].key, results[i].value)))
      else
        Failure(NoMethodError)
  }

  /**
   * `reshape` on any receiver: a hash reshapes itself, an array reshapes
   * each element with the same shape, anything else has no `reshape`.
   */
  function Reshape(v: Value, shape: Shape): (r: Result<Value, FetchError>)
    ensures v.Hash? ==> r == (match ReshapeHash(v, shape) case Success(es) => Success(Hash(es)) case Failure(e) => Failure(e))
    ensures r.Success? && v.List? ==> r.value.List? && |r.value.items| == |v.items|
    ensures r.Success? && v.List? ==> forall i :: 0 <= i < |v.items| ==> Reshape(v.items[i], shape) == Success(r.value.items[i])
    ensures v.List? ==> (r.Success? <==> forall i :: 0 <= i < |v.items| ==> Reshape(v.items[i], shape).Success?)
    ensures !(v.Hash? || v.List?) ==> r.Failure?
    decreases v
  {
    match v
    case Hash(_) =>
      (match ReshapeHash(v, shape) case Success(es) => Success(Hash(es)) case Failure(e) => Failure(e))
    case List(items) =>
      var results := seq(|items|, i requires 0 <= i < |items| => Reshape(items[i], shape));
      if forall i :: 0 <= i < |items| ==> results[i].Success? then
        Success(List(seq(|items|, i requires 0 <= i < |items| => results[i].value)))
      else
        Failure(NoMethodError)
    case _ => Failure(NoMethodError)
  }

  /** What a falsy value reads as after the symbol-key fallback found nothing. */
  function Normal(x: Value): Value {
    if Truthy(x) then x else Nil
  }

  /**
   * Fetching a string key of a reshaped hash gives what the shape's path
   * fetched from the original, when the shape has that key once and no
   * symbol key of the same name (a falsy value then reads as `nil`).
   */
  lemma ReshapeThenFetch(root: Value, shape: Shape, k: nat, x: Value)
    requires root.Hash? && shape.Node?
    requires k < |shape.entries| && shape.entries[k].key.StrKey?
    requires forall j :: 0 <= j < |shape.entries| && j != k ==> shape.entries[j].key != shape.entries[k].key
    requires forall j :: 0 <= j < |shape.entries| ==> shape.entries[j].key != SymKey(shape.entries[k].key.name)
    requires shape.entries[k].shape.Leaf? && FetchDeep(root, shape.entries[k].shape.path) == Success(x)
    requires ReshapeHash(root, shape).Success?
    requires shape.entries[k].key.name != "" && '.' !in shape.entries[k].key.name
    ensures FetchDeep(Hash(ReshapeHash(root, shape).value), shape.entries[k].key.name) == Success(Normal(x))
  {
    var es := ReshapeHash(root, shape).value;
    var name := shape.entries[k].key.name;
    assert Lookup(es, StrKey(name)) == x by {
      assert es[k].value == x && es[k].key == StrKey(name);
      assert forall j :: 0 <= j < k ==> es[j].key != StrKey(name);
    }
    assert Lookup(es, SymKey(name)) == Nil by {
      assert forall j :: 0 <= j < |es| ==> es[j].key != SymKey(name);
    }
    FetchDeepSingleSegment(Hash(es), name);
  }
}
