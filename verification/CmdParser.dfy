/**
 The option and parser objects of opencl/intel/common/cmdparser.cpp and cmdparser.hpp, proved
 against the functions of CommandLine.
 */
module CmdParser {
  import opened CommandLine

  class CmdOption {
    const spec: Spec
    var parsed: bool
    var value: Value

    constructor (spec: Spec)
      ensures this.spec == spec && !parsed
    {
      this.spec := spec;
      parsed := false;
      value := Flag(spec.default);
    }

    method ParseValues(cur: nat, curArgValue: string, argc: nat) returns (o: Outcome)
      modifies `value
      ensures spec.kind.Switch? ==> o == Index(cur) && value == Flag(!spec.default)
      ensures spec.kind.Valued? && cur >= argc ==> o == Failed(ValueExpected(cur))
      ensures spec.kind.Valued? && cur < argc ==>
                o == if !spec.kind.converts(curArgValue) then Failed(NotInterpreted(cur))
                     else if spec.kind.allows(curArgValue) then Index(cur + 1) else Failed(IllegalValue(cur))
      ensures spec.kind.Valued? ==>
                value == if cur < argc && spec.kind.converts(curArgValue) then Text(curArgValue) else old(value)
    {
      if spec.kind.Switch? {
        value := Flag(!spec.default);
        return Index(cur);
      }
      if cur >= argc {
        return Failed(ValueExpected(cur));
      }
      if !spec.kind.converts(curArgValue) {
        return Failed(NotInterpreted(cur));
      }
      value := Text(curArgValue);
      if !spec.kind.allows(curArgValue) {
        return Failed(IllegalValue(cur));
      }
      return Index(cur + 1);
    }

    /** The option answers the token at cur; a recognized token marks it as parsed, in every case.
        A value that is not allowed stays behind; one that cannot be read leaves the old value. */
    method Parse(cur: nat, argv: seq<string>) returns (o: Outcome)
      modifies this
      ensures cur >= |argv| ==> o == Index(cur) && parsed == old(parsed) && value == old(value)
      ensures cur < |argv| ==> o == Answer(spec, old(parsed), argv, cur)
      ensures cur < |argv| ==> parsed == (old(parsed) || Recognizes(spec, argv[cur]))
      ensures cur < |argv| && o.Index? && o.index > cur ==> value == ValueAt(spec, argv, cur)
      ensures cur < |argv| && spec.kind.Switch? && !old(parsed) && Recognizes(spec, argv[cur]) ==>
                value == Flag(!spec.default)
      ensures cur < |argv| && o.Failed? && o.error.IllegalValue? ==> value == Text(ValueText(spec, argv, cur))
      ensures cur < |argv| && o.Failed? && !o.error.IllegalValue? ==> value == old(value)
      ensures cur < |argv| && (old(parsed) || !Recognizes(spec, argv[cur])) ==> value == old(value)
    {
      if cur >= |argv| {
        return Index(cur);
      }
      var curArgValue := argv[cur];
      if |curArgValue| <= 1 {
        return Index(cur);
      }
      if (spec.shortName != NO_NAME && curArgValue[0] == '-' && curArgValue[1] == spec.shortName)
         || curArgValue == "--" + spec.longName
      {
        if parsed {
          return Failed(Duplicate(cur));
        }
        parsed := true;
        if |curArgValue| == 2 || curArgValue == "--" + spec.longName {
          o := ParseValues(cur + 1, if cur + 1 == |argv| then "" else argv[cur + 1], |argv|);
        } else {
          o := ParseValues(cur, curArgValue[2..], |argv|);
        }
      } else {
        o := Index(cur);
      }
    }
  }

  class CmdParser {
    const argv: seq<string>
    var options: seq<CmdOption>

    constructor (argv: seq<string>)
      ensures this.argv == argv && options == []
    {
      this.argv := argv;
      options := [];
    }

    /** Every option registers itself once, when it is made. */
    method AddOption(option: CmdOption)
      requires option !in options && Distinct()
      modifies this
      ensures options == old(options) + [option] && Distinct()
    {
      options := options + [option];
    }

    ghost predicate Distinct()
      reads this
    {
      forall i, j :: 0 <= i < j < |options| ==> options[i] != options[j]
    }

    /** The options as values: what they are, and which are marked as parsed. */
    ghost predicate Shows(specs: seq<Spec>, flags: seq<bool>)
      reads this, options
    {
      && |specs| == |flags| == |options| && Distinct()
      && forall i :: 0 <= i < |options| ==> options[i].spec == specs[i] && options[i].parsed == flags[i]
    }

    /** The owner of a segment holds the value of the segment. */
    ghost predicate Holds(g: Segment)
      reads this, options
    {
      g.owner < |options| && g.start < |argv| && options[g.owner].parsed &&
      Takes(options[g.owner].spec, argv, g.start) > 0 &&
      g.end == g.start + Takes(options[g.owner].spec, argv, g.start) <= |argv| &&
      options[g.owner].value == ValueAt(options[g.owner].spec, argv, g.start)
    }

    ghost predicate AllHold(segments: seq<Segment>)
      reads this, options
    {
      forall j :: 0 <= j < |segments| ==> Holds(segments[j])
    }

    /** Asks one option. */
    method AskOption(i: nat, cur: nat, ghost specs: seq<Spec>, ghost marked: seq<bool>, ghost segments: seq<Segment>)
      returns (o: Outcome)
      requires i < |options| && cur < |argv| && Shows(specs, marked) && AllHold(segments)
      modifies options
      ensures o == Answer(specs[i], marked[i], argv, cur)
      ensures Shows(specs, marked[i := marked[i] || Recognizes(specs[i], argv[cur])])
      ensures o.Index? ==> AllHold(segments)
      ensures o.Index? && o.index > cur ==> Holds(Segment(cur, o.index, i))
    {
      o := options[i].Parse(cur, argv);
    }

    /** Asks the options in turn, up to the first that does not leave the token alone. */
    method ParseToken(cur: nat, ghost specs: seq<Spec>, ghost flags: seq<bool>, ghost segments: seq<Segment>)
      returns (o: Outcome, ghost k: nat)
      requires cur < |argv| && Shows(specs, flags) && AllHold(segments)
      modifies options
      ensures k == FirstStop(specs, flags, argv, cur, 0)
      ensures o == if k == |specs| then Index(cur) else Answer(specs[k], flags[k], argv, cur)
      ensures Shows(specs, Marks(specs, flags, argv, cur, if k == |specs| then k else k + 1))
      ensures o.Index? ==> AllHold(segments)
      ensures o.Index? && o.index > cur ==> k < |specs| && Holds(Segment(cur, o.index, k))
    {
      o, k := Index(cur), 0;
      var i := 0;
      MarksNone(specs, flags, argv, cur);
      while i < |options|
        invariant 0 <= i <= |options| && o == Index(cur)
        invariant Shows(specs, Marks(specs, flags, argv, cur, i)) && AllHold(segments)
        invariant forall n: nat :: n < i ==> Answer(specs[n], flags[n], argv, cur) == Index(cur)
      {
        MarksNext(specs, flags, argv, cur, i);
        k := i;
        o := AskOption(i, cur, specs, Marks(specs, flags, argv, cur, i), segments);
        if o != Index(cur) {
          FirstStopIs(specs, flags, argv, cur, 0, i);
          return;
        }
        i := i + 1;
      }
      k := i;
      FirstStopIs(specs, flags, argv, cur, 0, i);
    }

    /**
     The outcome and the marks are those of the run on values.  On success the tokens are
     split among the options, each at most once, and every owner holds its value.
     */
    method Parse(ghost specs: seq<Spec>, ghost flags: seq<bool>) returns (o: Outcome, ghost segments: seq<Segment>)
      requires Shows(specs, flags)
      modifies options
      ensures o == Run(specs, flags, argv, 1).0 && Shows(specs, Run(specs, flags, argv, 1).1)
      ensures o.Index? ==> Splits(specs, flags, argv, segments, 1, End(argv, 1)) && AllHold(segments)
    {
      var cur := 1;
      segments := [];
      ghost var marked := flags;
      LeftBegins(specs, flags, argv);
      while cur < |argv|
        invariant 1 <= cur && |marked| == |specs| && Left(specs, flags, argv, segments, marked, cur)
        invariant Shows(specs, marked) && AllHold(segments)
      {
        ghost var k;
        o, k := ParseToken(cur, specs, marked, segments);
        if o.Failed? {
          LeftStops(specs, flags, argv, segments, marked, cur, k);
          return;
        }
        if o.index == cur {
          LeftStops(specs, flags, argv, segments, marked, cur, k);
          o := Failed(Unrecognized(cur));
          return;
        }
        LeftStep(specs, flags, argv, segments, marked, cur, k, o.index);
        marked := Marks(specs, marked, argv, cur, k + 1);
        segments := segments + [Segment(cur, o.index, k)];
        cur := o.index;
      }
      o := Index(cur);
      LeftEnds(specs, flags, argv, segments, marked, cur);
    }
  }

  /** `prog -hx` with the one option -h: the switch is parsed, and the parser rejects the token. */
  method ParseStuckHelp() returns (o: Outcome, parsed: bool)
    ensures o == Failed(Unrecognized(1)) && parsed
  {
    var help := new CmdOption(HELP);
    var parser := new CmdParser(["prog", "-hx"]);
    parser.AddOption(help);
    assert parser.options[0] == help;
    StuckHelp();
    ghost var segments;
    o, segments := parser.Parse([HELP], [false]);
    parsed := help.parsed;
  }

  /** A parser with one option, on a command line that the option takes as a whole. */
  method ParseOne(spec: Spec, argv: seq<string>) returns (o: Outcome, value: Value)
    requires |argv| > 1 && Answer(spec, false, argv, 1) == Index(|argv|)
    ensures o == Index(|argv|)
    ensures Takes(spec, argv, 1) > 0 && 1 + Takes(spec, argv, 1) <= |argv| && value == ValueAt(spec, argv, 1)
  {
    var option := new CmdOption(spec);
    var parser := new CmdParser(argv);
    parser.AddOption(option);
    assert parser.options[0] == option;
    OneOption(spec, argv);
    ghost var segments;
    o, segments := parser.Parse([spec], [false]);
    OneSegment(spec, argv, segments);
    assert parser.Holds(segments[0]);
    value := option.value;
  }

  /** `prog -ofile`. */
  method ParseAttached() returns (o: Outcome, value: Value)
    ensures o == Index(2) && value == Text("file")
  {
    var argv := ["prog", "-ofile"];
    assert argv[1] == ['-', 'o'] + "file" && argv[1][1] != ("--" + "out")[1];
    AttachedValue(OUT, argv, 1, "file");
    o, value := ParseOne(OUT, argv);
  }

  /** `prog -o file`. */
  method ParseNext() returns (o: Outcome, value: Value)
    ensures o == Index(3) && value == Text("file")
  {
    NextValue(OUT, ["prog", "-o", "file"], 1);
    o, value := ParseOne(OUT, ["prog", "-o", "file"]);
  }

  /** `prog --out file`. */
  method ParseLong() returns (o: Outcome, value: Value)
    ensures o == Index(3) && value == Text("file")
  {
    NextValue(OUT, ["prog", "--out", "file"], 1);
    o, value := ParseOne(OUT, ["prog", "--out", "file"]);
  }
}
