/**
 * CommandParser: declarations of positional arguments, flag options and
 * options with a parameter, and the parse of a parameter list into the
 * block calls it triggers. A block call is recorded as an event naming the
 * declaration (by its position among the declarations of its kind) and
 * the value the block receives; the command runner handed to every block
 * is passed through unchanged and is not part of the events.
 */
module CommandParser {
  import opened Outcomes
  import opened Text

  datatype Argument = Argument(name: string)

  /** A flag option; its block receives `true` when the option is given. */
  datatype OptionDecl = OptionDecl(shortName: string, name: string, description: string)

  /** An option whose block receives the value written after its name. */
  datatype ParameterOptionDecl = ParameterOptionDecl(option: OptionDecl, parameter: string)

  /** The declarations, each kind in the order it was made. */
  datatype Parser = Parser(
    command: string,
    arguments: seq<Argument>,
    options: seq<OptionDecl>,
    parameterOptions: seq<ParameterOptionDecl>)

  /** One block call. */
  datatype Event =
    | ArgumentCalled(argument: nat, value: string)
    | FlagCalled(option: nat)
    | ParameterCalled(option: nat, value: string)

  /**
   * What a parse does: the block calls in order, and whether it stopped
   * with an error (a positional parameter with no argument declared for it).
   */
  datatype Trace = Trace(events: seq<Event>, crashed: bool)

  // ---------------------------------------------------------------------
  // Declarations
  // ---------------------------------------------------------------------

  function New(command: string): (p: Parser)
    ensures p.command == command
    ensures p.arguments == [] && p.options == [] && p.parameterOptions == []
  {
    Parser(command, [], [], [])
  }

  /** Declares the next positional argument; it receives the next positional parameter. */
  function AddArgument(p: Parser, name: string): (q: Parser)
    ensures |q.arguments| == |p.arguments| + 1 && q.arguments[|p.arguments|] == Argument(name)
    ensures q.arguments[..|p.arguments|] == p.arguments
    ensures q.command == p.command && q.options == p.options && q.parameterOptions == p.parameterOptions
  {
    p.(arguments := p.arguments + [Argument(name)])
  }

  function AddOption(p: Parser, shortName: string, name: string, description: string): (q: Parser)
    ensures |q.options| == |p.options| + 1 && q.options[|p.options|] == OptionDecl(shortName, name, description)
    ensures q.options[..|p.options|] == p.options
    ensures q.command == p.command && q.arguments == p.arguments && q.parameterOptions == p.parameterOptions
  {
    p.(options := p.options + [OptionDecl(shortName, name, description)])
  }

  function AddParameterOption(p: Parser, shortName: string, name: string, description: string, parameter: string): (q: Parser)
    ensures |q.parameterOptions| == |p.parameterOptions| + 1
    ensures q.parameterOptions[|p.parameterOptions|] == ParameterOptionDecl(OptionDecl(shortName, name, description), parameter)
    ensures q.parameterOptions[..|p.parameterOptions|] == p.parameterOptions
    ensures q.command == p.command && q.arguments == p.arguments && q.options == p.options
  {
    p.(parameterOptions := p.parameterOptions + [ParameterOptionDecl(OptionDecl(shortName, name, description), parameter)])
  }

  // ---------------------------------------------------------------------
  // Positional parameters and options
  // ---------------------------------------------------------------------

  /** A parameter starting with '-' is an option. */
  predicate IsOptionLike(p: string) {
    "-" <= p
  }

  /** The parameters not starting with '-', in order. */
  function Positionals(ps: seq<string>): (r: seq<string>)
    ensures |r| <= |ps|
    ensures forall i :: 0 <= i < |r| ==> !IsOptionLike(r[i])
  {
    if |ps| == 0 then []
    else (if IsOptionLike(ps[0]) then [] else [ps[0]]) + Positionals(ps[1..])
  }

  /** The parameters starting with '-', in order. */
  function Dashed(ps: seq<string>): (r: seq<string>)
    ensures |r| <= |ps|
    ensures forall i :: 0 <= i < |r| ==> IsOptionLike(r[i])
  {
    if |ps| == 0 then []
    else (if IsOptionLike(ps[0]) then [ps[0]] else []) + Dashed(ps[1..])
  }

  /** Array difference: every element of `ps` that does not occur in `removed`, in order. */
  function Difference(ps: seq<string>, removed: seq<string>): (r: seq<string>)
    ensures forall x :: x in r <==> x in ps && x !in removed
    ensures forall x :: multiset(r)[x] == if x in removed then 0 else multiset(ps)[x]
  {
    if |ps| == 0 then []
    else
      var rest := Difference(ps[1..], removed);
      assert forall x :: x in ps <==> x == ps[0] || x in ps[1..];
      assert ps == [ps[0]] + ps[1..];
      assert multiset(ps) == multiset{ps[0]} + multiset(ps[1..]);
      if ps[0] in removed then rest else [ps[0]] + rest
  }

  /** Array difference keeps the order of the list: it distributes over concatenation. */
  lemma {:induction false} DifferenceAppend(a: seq<string>, b: seq<string>, removed: seq<string>)
    ensures Difference(a + b, removed) == Difference(a, removed) + Difference(b, removed)
    decreases |a|
  {
    if |a| > 0 {
      assert (a + b)[0] == a[0];
      assert (a + b)[1..] == a[1..] + b;
      DifferenceAppend(a[1..], b, removed);
    } else {
      assert a + b == b;
    }
  }

  /**
   * The options of a parameter list: the parameters minus the positional
   * ones. These are exactly the parameters starting with '-', in order and
   * with repetitions.
   */
  function Options(ps: seq<string>): (r: seq<string>)
    ensures r == Dashed(ps)
  {
    PositionalsRemoved(ps);
    Difference(ps, Positionals(ps))
  }

  lemma {:induction false} PositionalMember(ps: seq<string>, x: string)
    requires x in ps && !IsOptionLike(x)
    ensures x in Positionals(ps)
    decreases |ps|
  {
    if ps[0] != x {
      assert x in ps[1..];
      PositionalMember(ps[1..], x);
    }
  }

  /** Removing a set that holds exactly the non-option parameters leaves the options. */
  lemma {:induction false} DifferenceDashed(ps: seq<string>, removed: seq<string>)
    requires forall x :: x in ps ==> (x in removed <==> !IsOptionLike(x))
    ensures Difference(ps, removed) == Dashed(ps)
    decreases |ps|
  {
    if |ps| > 0 {
      assert forall x :: x in ps[1..] ==> x in ps;
      DifferenceDashed(ps[1..], removed);
    }
  }

  /** Removing the positional parameters leaves the parameters starting with '-'. */
  lemma PositionalsRemoved(ps: seq<string>)
    ensures Difference(ps, Positionals(ps)) == Dashed(ps)
  {
    forall x | x in ps
      ensures x in Positionals(ps) <==> !IsOptionLike(x)
    {
      if !IsOptionLike(x) {
        PositionalMember(ps, x);
      }
    }
    DifferenceDashed(ps, Positionals(ps));
  }

  lemma {:induction false} PositionalsAppend(a: seq<string>, b: seq<string>)
    ensures Positionals(a + b) == Positionals(a) + Positionals(b)
    decreases |a|
  {
    if |a| > 0 {
      assert (a + b)[1..] == a[1..] + b;
      PositionalsAppend(a[1..], b);
    } else {
      assert a + b == b;
    }
  }

  lemma {:induction false} DashedAppend(a: seq<string>, b: seq<string>)
    ensures Dashed(a + b) == Dashed(a) + Dashed(b)
    decreases |a|
  {
    if |a| > 0 {
      assert (a + b)[1..] == a[1..] + b;
      DashedAppend(a[1..], b);
    } else {
      assert a + b == b;
    }
  }

  lemma {:induction false} PartitionDashed(ps: seq<string>)
    ensures multiset(Positionals(ps)) + multiset(Dashed(ps)) == multiset(ps)
    decreases |ps|
  {
    if |ps| > 0 {
      var head, tail := ps[0], ps[1..];
      PartitionDashed(tail);
      assert ps == [head] + tail;
      if IsOptionLike(head) {
        assert Dashed(ps) == [head] + Dashed(tail);
        assert Positionals(ps) == Positionals(tail);
      } else {
        assert Positionals(ps) == [head] + Positionals(tail);
        assert Dashed(ps) == Dashed(tail);
      }
    }
  }

  /** The positional parameters and the options together are the parameters, each exactly once. */
  lemma Partition(ps: seq<string>)
    ensures multiset(Positionals(ps)) + multiset(Options(ps)) == multiset(ps)
  {
    PartitionDashed(ps);
  }

  /**
   * Both parts keep the relative order of the parameters: splitting a
   * list at any point splits each part at the same point.
   */
  lemma PartitionKeepsOrder(a: seq<string>, b: seq<string>)
    ensures Positionals(a + b) == Positionals(a) + Positionals(b)
    ensures Options(a + b) == Options(a) + Options(b)
  {
    PositionalsAppend(a, b);
    DashedAppend(a, b);
  }

  // ---------------------------------------------------------------------
  // Option name and value
  // ---------------------------------------------------------------------

  /** Ruby's `split` drops trailing empty fields. */
  function DropTrailingEmpty(fields: seq<string>): (r: seq<string>)
    ensures r <= fields
    ensures |r| > 0 ==> r[|r| - 1] != ""
    ensures forall i :: |r| <= i < |fields| ==> fields[i] == ""
  {
    if |fields| > 0 && fields[|fields| - 1] == "" then DropTrailingEmpty(fields[..|fields| - 1]) else fields
  }

  /**
   * The name and the value of an option. After "--" the option is split
   * on '=' and the first two fields are the name and the value; otherwise
   * the name is the first two characters and the value is the rest. A
   * missing value is `None`.
   */
  function SplitNameAndValue(o: string): (r: (string, Option<string>))
    ensures "--" <= o ==> r.0 <= o && '=' !in r.0 && (|r.0| < |o| ==> o[|r.0|] == '=')
    ensures !("--" <= o) ==> r.0 <= o && |r.0| == (if |o| < 2 then |o| else 2)
    ensures !("--" <= o) ==> (r.1.Some? <==> |o| >= 2) && (r.1.Some? ==> r.0 + r.1.value == o)
  {
    if "--" <= o then
      var fields := DropTrailingEmpty(Split(o, '='));
      SplitFirstField(o, '=');
      var first := Split(o, '=')[0];
      assert first != "" by {
        assert o[0] == '-';
      }
      assert fields[0] == first;
      (first, if |fields| > 1 then Some(fields[1]) else None)
    else if |o| < 2 then
      (o, None)
    else
      assert o == o[..2] + o[2..];
      (o[..2], Some(o[2..]))
  }

  /** The first field of a split is the prefix up to the first separator. */
  lemma {:induction false} SplitFirstField(s: string, sep: char)
    ensures Split(s, sep)[0] <= s
    ensures |Split(s, sep)[0]| < |s| ==> s[|Split(s, sep)[0]|] == sep
    ensures |s| > 0 && s[0] != sep ==> Split(s, sep)[0] != ""
    decreases |s|
  {
    if |s| > 0 {
      SplitFirstField(s[1..], sep);
    }
  }

  /** The value as a string; a missing value reads as "". */
  function ValueText(v: Option<string>): string {
    match v
    case None => ""
    case Some(s) => s
  }

  /** `--name=value` splits into `--name` and `value`. */
  lemma SplitLongWithValue(name: string, value: string)
    requires "--" <= name && '=' !in name
    requires value != "" && '=' !in value
    ensures SplitNameAndValue(name + "=" + value) == (name, Some(value))
  {
    var o := name + "=" + value;
    assert "--" <= o by {
      assert o[..2] == name[..2];
    }
    assert o == Join([name, value], '=');
    SplitJoin([name, value], '=');
  }

  /** `--name` alone has no value. */
  lemma SplitLongFlag(name: string)
    requires "--" <= name && '=' !in name
    ensures SplitNameAndValue(name) == (name, None)
  {
    assert name == Join([name], '=');
    SplitJoin([name], '=');
  }

  /** `-xVALUE` splits into `-x` and `VALUE`; `-x` alone has the empty value. */
  lemma SplitShort(name: string, value: string)
    requires |name| == 2 && name[0] == '-' && name[1] != '-'
    ensures SplitNameAndValue(name + value) == (name, Some(value))
  {
    var o := name + value;
    assert o[..2] == name && o[2..] == value;
    assert !("--" <= o) by {
      assert o[1] == name[1];
    }
  }

  // ---------------------------------------------------------------------
  // Dispatch
  // ---------------------------------------------------------------------

  /** `name?`: the long form "--" + name or the short form "-" + short name. */
  predicate Matches(d: OptionDecl, name: string)
    ensures Matches(d, name) ==> IsOptionLike(name)
    ensures IsOptionLike(name) ==>
      (Matches(d, name) <==> name[1..] == d.shortName || name[1..] == "-" + d.name)
  {
    assert IsOptionLike(name) ==> name == "-" + name[1..];
    "--" + d.name == name || "-" + d.shortName == name
  }

  /** The position of the first declaration that answers to `name`. */
  function FirstMatch(decls: seq<OptionDecl>, name: string): (r: Option<nat>)
    ensures r.Some? ==> r.value < |decls| && Matches(decls[r.value], name)
    ensures r.Some? ==> forall j :: 0 <= j < r.value ==> !Matches(decls[j], name)
    ensures r.None? <==> forall j :: 0 <= j < |decls| ==> !Matches(decls[j], name)
  {
    if |decls| == 0 then None
    else if Matches(decls[0], name) then Some(0)
    else
      match FirstMatch(decls[1..], name)
      case None => None
      case Some(i) => Some(i + 1)
  }

  /** The option part of the parameter-option declarations. */
  function ParameterDecls(p: Parser): (r: seq<OptionDecl>)
    ensures |r| == |p.parameterOptions|
    ensures forall i :: 0 <= i < |r| ==> r[i] == p.parameterOptions[i].option
  {
    seq(|p.parameterOptions|, i requires 0 <= i < |p.parameterOptions| => p.parameterOptions[i].option)
  }

  /**
   * The block call one option triggers: with an empty value, the first
   * flag option with that name, called with `true`; otherwise the first
   * parameter option with that name, called with the value. No match, no call.
   */
  function OptionEvent(p: Parser, o: string): (r: Option<Event>)
    ensures var (name, value) := SplitNameAndValue(o);
      ValueText(value) == "" ==>
        ((r.Some? <==> exists i :: 0 <= i < |p.options| && Matches(p.options[i], name)) &&
         (r.Some? ==>
            r.value.FlagCalled? && r.value.option < |p.options| &&
            Matches(p.options[r.value.option], name) &&
            forall j :: 0 <= j < r.value.option ==> !Matches(p.options[j], name)))
    ensures var (name, value) := SplitNameAndValue(o);
      ValueText(value) != "" ==>
        ((r.Some? <==> exists i :: 0 <= i < |p.parameterOptions| && Matches(p.parameterOptions[i].option, name)) &&
         (r.Some? ==>
            r.value.ParameterCalled? && r.value.option < |p.parameterOptions| &&
            r.value.value == ValueText(value) &&
            Matches(p.parameterOptions[r.value.option].option, name) &&
            forall j :: 0 <= j < r.value.option ==> !Matches(p.parameterOptions[j].option, name)))
  {
    var (name, value) := SplitNameAndValue(o);
    if ValueText(value) == "" then
      match FirstMatch(p.options, name)
      case None => None
      case Some(i) => Some(FlagCalled(i))
    else
      match FirstMatch(ParameterDecls(p), name)
      case None => None
      case Some(i) => Some(ParameterCalled(i, ValueText(value)))
  }


  /** The block calls of the options, in order. */
  function OptionEvents(p: Parser, os: seq<string>): (r: seq<Event>)
    ensures |r| <= |os|
    ensures forall k :: 0 <= k < |r| ==> !r[k].ArgumentCalled?
  {
    if |os| == 0 then []
    else
      (match OptionEvent(p, os[0]) case None => [] case Some(e) => [e]) + OptionEvents(p, os[1..])
  }

  /** The i-th positional parameter goes to the i-th declared argument. */
  function ArgumentEvents(positionals: seq<string>): (r: seq<Event>)
    ensures |r| == |positionals|
    ensures forall i :: 0 <= i < |r| ==> r[i] == ArgumentCalled(i, positionals[i])
  {
    seq(|positionals|, i requires 0 <= i < |positionals| => ArgumentCalled(i, positionals[i]))
  }

  /**
   * `parse`: the argument blocks first, then the option blocks. A
   * positional parameter beyond the declared arguments stops the parse
   * with an error once the earlier argument blocks have run.
   */
  function Parse(p: Parser, ps: seq<string>): (r: Trace)
    ensures r.crashed <==> |Positionals(ps)| > |p.arguments|
    ensures var pos := Positionals(ps);
      var n := if r.crashed then |p.arguments| else |pos|;
      n <= |r.events| &&
      forall i :: 0 <= i < n ==> r.events[i] == ArgumentCalled(i, pos[i])
    ensures r.crashed ==> |r.events| == |p.arguments|
    ensures !r.crashed ==> r.events[|Positionals(ps)|..] == OptionEvents(p, Dashed(ps))
  {
    var pos := Positionals(ps);
    if |pos| > |p.arguments| then
      Trace(ArgumentEvents(pos[..|p.arguments|]), true)
    else
      var args := ArgumentEvents(pos);
      var events := args + OptionEvents(p, Options(ps));
      assert events[|pos|..] == OptionEvents(p, Options(ps));
      Trace(events, false)
  }

  // ---------------------------------------------------------------------
  // Properties of the parse
  // ---------------------------------------------------------------------

  lemma {:induction false} OptionEventsAppend(p: Parser, a: seq<string>, b: seq<string>)
    ensures OptionEvents(p, a + b) == OptionEvents(p, a) + OptionEvents(p, b)
    decreases |a|
  {
    if |a| > 0 {
      var head := match OptionEvent(p, a[0]) case None => [] case Some(e) => [e];
      assert (a + b)[0] == a[0];
      assert (a + b)[1..] == a[1..] + b;
      assert OptionEvents(p, a + b) == head + OptionEvents(p, a[1..] + b);
      assert OptionEvents(p, a) == head + OptionEvents(p, a[1..]);
      OptionEventsAppend(p, a[1..], b);
    } else {
      assert a + b == b;
    }
  }

  /** Every option triggers at most one block call. */
  lemma EventCount(p: Parser, ps: seq<string>)
    ensures |Parse(p, ps).events| <= |ps|
  {
    if !Parse(p, ps).crashed {
      Partition(ps);
      assert |multiset(Positionals(ps))| + |multiset(Options(ps))| == |multiset(ps)|;
    }
  }

  /** The parse depends only on the positional parameters and the calls the options trigger. */
  lemma ParseDeterminedBy(p: Parser, x: seq<string>, y: seq<string>)
    requires Positionals(x) == Positionals(y)
    requires OptionEvents(p, Dashed(x)) == OptionEvents(p, Dashed(y))
    ensures Parse(p, x) == Parse(p, y)
  {
  }

  lemma PositionalsWithout(a: seq<string>, o: string, b: seq<string>)
    requires IsOptionLike(o)
    ensures Positionals(a + [o] + b) == Positionals(a + b)
  {
    PositionalsAppend(a + [o], b);
    PositionalsAppend(a, [o]);
    PositionalsAppend(a, b);
    assert Positionals([o]) == [];
  }

  lemma DashedWith(a: seq<string>, o: string, b: seq<string>)
    requires IsOptionLike(o)
    ensures Dashed(a + [o] + b) == Dashed(a) + [o] + Dashed(b)
    ensures Dashed(a + b) == Dashed(a) + Dashed(b)
  {
    DashedAppend(a + [o], b);
    DashedAppend(a, [o]);
    DashedAppend(a, b);
    assert Dashed([o]) == [o];
  }

  /** An option that triggers no call adds nothing to the calls of a list of options. */
  lemma OptionEventsSkip(p: Parser, x: seq<string>, o: string, y: seq<string>)
    requires OptionEvent(p, o).None?
    ensures OptionEvents(p, x + [o] + y) == OptionEvents(p, x + y)
  {
    OptionEventsAppend(p, x + [o], y);
    OptionEventsAppend(p, x, [o]);
    OptionEventsAppend(p, x, y);
    NoCall(p, o);
  }

  lemma NoCall(p: Parser, o: string)
    requires OptionEvent(p, o).None?
    ensures OptionEvents(p, [o]) == []
  {
    assert [o][1..] == [];
  }

  /**
   * An option that answers to no declaration triggers nothing: the parse
   * with it is the parse without it.
   */
  lemma UnknownOptionIgnored(p: Parser, a: seq<string>, o: string, b: seq<string>)
    requires IsOptionLike(o)
    requires OptionEvent(p, o).None?
    ensures Parse(p, a + [o] + b) == Parse(p, a + b)
  {
    PositionalsWithout(a, o, b);
    DashedWith(a, o, b);
    OptionEventsSkip(p, Dashed(a), o, Dashed(b));
    ParseDeterminedBy(p, a + [o] + b, a + b);
  }

  /** `--name` or `-x` triggers the first flag option answering to it, called with `true`. */
  lemma FlagDispatch(p: Parser, o: string, i: nat)
    requires ("--" <= o && '=' !in o) || (|o| == 2 && o[0] == '-' && o[1] != '-')
    requires i < |p.options| && Matches(p.options[i], o)
    requires forall j :: 0 <= j < i ==> !Matches(p.options[j], o)
    ensures OptionEvent(p, o) == Some(FlagCalled(i))
  {
    if "--" <= o {
      SplitLongFlag(o);
    } else {
      SplitShort(o, "");
      assert o + "" == o;
    }
  }

  /**
   * `--name=value` or `-xvalue` with a non-empty value triggers the first
   * parameter option answering to the name, called with the value.
   */
  lemma ParameterDispatch(p: Parser, name: string, value: string, i: nat)
    requires ("--" <= name && '=' !in name && '=' !in value && value != "")
          || (|name| == 2 && name[0] == '-' && name[1] != '-' && value != "")
    requires i < |p.parameterOptions| && Matches(p.parameterOptions[i].option, name)
    requires forall j :: 0 <= j < i ==> !Matches(p.parameterOptions[j].option, name)
    ensures "--" <= name ==> OptionEvent(p, name + "=" + value) == Some(ParameterCalled(i, value))
    ensures !("--" <= name) ==> OptionEvent(p, name + value) == Some(ParameterCalled(i, value))
  {
    if "--" <= name {
      SplitLongWithValue(name, value);
    } else {
      SplitShort(name, value);
    }
  }
}
