/**
 What the command-line parser of opencl/intel/common/cmdparser.cpp and cmdparser.hpp does with
 a list of options and a list of tokens, as functions on values; the objects are in CmdParser.
 */
module CommandLine {

  const NO_NAME := '\0'

  datatype Value = Flag(on: bool) | Text(text: string)

  /** A switch takes no value.  For others converts says which texts are values, and allows
      which of their values are among the alternatives, if there are any. */
  datatype Kind = Switch | Valued(converts: string -> bool, allows: string -> bool)

  datatype Spec = Spec(shortName: char, longName: string, kind: Kind, default: bool)

  datatype Error =
    | Duplicate(at: nat)
    | ValueExpected(at: nat)
    | NotInterpreted(at: nat)
    | IllegalValue(at: nat)
    | Unrecognized(at: nat)

  datatype Outcome = Index(index: nat) | Failed(error: Error)

  // ---------------------------------------------------------------- one option and one token

  predicate IsLongName(spec: Spec, arg: string) { arg == "--" + spec.longName }

  predicate Recognizes(spec: Spec, arg: string) {
    && |arg| > 1
    && ((spec.shortName != NO_NAME && arg[0] == '-' && arg[1] == spec.shortName) || IsLongName(spec, arg))
  }

  /** The value, if any, is in the next token rather than in the rest of this one. */
  predicate IsSplit(spec: Spec, arg: string) { |arg| == 2 || IsLongName(spec, arg) }

  /** How many tokens the option takes from index cur on; none when it leaves the token to others. */
  function Takes(spec: Spec, argv: seq<string>, cur: nat): (n: nat)
    requires cur < |argv|
    ensures n <= 2
  {
    if !Recognizes(spec, argv[cur]) then 0
    else if spec.kind.Switch? then (if IsSplit(spec, argv[cur]) then 1 else 0)
    else if IsSplit(spec, argv[cur]) then 2
    else 1
  }

  /** The index of the token that holds the value. */
  function ValueIndex(spec: Spec, argv: seq<string>, cur: nat): nat
    requires cur < |argv|
  {
    if IsSplit(spec, argv[cur]) then cur + 1 else cur
  }

  /** The text of the value. */
  function ValueText(spec: Spec, argv: seq<string>, cur: nat): string
    requires cur < |argv| && Recognizes(spec, argv[cur]) && ValueIndex(spec, argv, cur) < |argv|
  {
    if IsSplit(spec, argv[cur]) then argv[cur + 1] else argv[cur][2..]
  }

  /** The value an option gets when it takes tokens. */
  function ValueAt(spec: Spec, argv: seq<string>, cur: nat): Value
    requires cur < |argv| && Takes(spec, argv, cur) > 0 && cur + Takes(spec, argv, cur) <= |argv|
  {
    if spec.kind.Switch? then Flag(!spec.default) else Text(ValueText(spec, argv, cur))
  }

  /** There is a value, and it is acceptable; switches need none. */
  predicate Acceptable(spec: Spec, argv: seq<string>, cur: nat)
    requires cur < |argv| && Recognizes(spec, argv[cur])
  {
    spec.kind.Valued? ==>
      && ValueIndex(spec, argv, cur) < |argv|
      && spec.kind.converts(ValueText(spec, argv, cur)) && spec.kind.allows(ValueText(spec, argv, cur))
  }

  /** Whether an option that is parsed or not answers with an error, and with which. */
  function Complaint(spec: Spec, parsed: bool, argv: seq<string>, cur: nat): (e: seq<Error>)
    requires cur < |argv| && Recognizes(spec, argv[cur])
    ensures |e| <= 1
    ensures e == [] <==> !parsed && Acceptable(spec, argv, cur)
  {
    if parsed then [Duplicate(cur)]
    else if Acceptable(spec, argv, cur) then []
    else if ValueIndex(spec, argv, cur) >= |argv| then [ValueExpected(cur + 1)]
    else if !spec.kind.converts(ValueText(spec, argv, cur)) then [NotInterpreted(ValueIndex(spec, argv, cur))]
    else [IllegalValue(ValueIndex(spec, argv, cur))]
  }

  /** The answer of an option to the token at cur. */
  function Answer(spec: Spec, parsed: bool, argv: seq<string>, cur: nat): (o: Outcome)
    requires cur < |argv|
    ensures o.Index? ==> o.index == cur + Takes(spec, argv, cur) <= |argv|
    ensures o.Failed? <==> Recognizes(spec, argv[cur]) && (parsed || !Acceptable(spec, argv, cur))
  {
    if !Recognizes(spec, argv[cur]) then Index(cur)
    else if Complaint(spec, parsed, argv, cur) != [] then Failed(Complaint(spec, parsed, argv, cur)[0])
    else Index(cur + Takes(spec, argv, cur))
  }

  /** Each error and its cause; no cause, no error. */
  lemma AnswerCauses(spec: Spec, parsed: bool, argv: seq<string>, cur: nat)
    requires cur < |argv| && Recognizes(spec, argv[cur])
    ensures var o, v := Answer(spec, parsed, argv, cur), ValueIndex(spec, argv, cur);
      && (o == Failed(Duplicate(cur)) <==> parsed)
      && (o == Failed(ValueExpected(cur + 1)) <==> !parsed && spec.kind.Valued? && IsSplit(spec, argv[cur]) && cur + 1 == |argv|)
      && (o == Failed(NotInterpreted(v)) <==>
          !parsed && spec.kind.Valued? && v < |argv| && !spec.kind.converts(ValueText(spec, argv, cur)))
      && (o == Failed(IllegalValue(v)) <==>
          !parsed && spec.kind.Valued? && v < |argv| && spec.kind.converts(ValueText(spec, argv, cur)) &&
          !spec.kind.allows(ValueText(spec, argv, cur)))
      && (o.Index? || o.error in {Duplicate(cur), ValueExpected(cur + 1), NotInterpreted(v), IllegalValue(v)})
  {
  }

  /** An option that becomes parsed without taking a token: a switch with text attached, asked
      for the first time, and nothing else. */
  lemma MarkedWithoutToken(spec: Spec, parsed: bool, argv: seq<string>, cur: nat)
    requires cur < |argv|
    ensures !parsed && Recognizes(spec, argv[cur]) && Answer(spec, parsed, argv, cur) == Index(cur)
            <==> !parsed && spec.kind.Switch? && Recognizes(spec, argv[cur]) && !IsSplit(spec, argv[cur])
  {
  }

  // ---------------------------------------------------------------- one option, in tokens

  /** A token is for an option when it begins with its short name or is its long name. */
  lemma RecognizesIff(spec: Spec, arg: string)
    ensures Recognizes(spec, arg) <==>
      || (spec.shortName != '\0' && |arg| >= 2 && arg[..2] == ['-', spec.shortName])
      || arg == "--" + spec.longName
  {
  }

  /** What becomes of a value v that the option finds in the token at `at`. */
  predicate Judged(spec: Spec, o: Outcome, v: string, at: nat)
    requires spec.kind.Valued?
  {
    o == if !spec.kind.converts(v) then Failed(NotInterpreted(at))
         else if !spec.kind.allows(v) then Failed(IllegalValue(at))
         else Index(at + 1)
  }

  /** Text behind a short name is the value, without the two characters of the name. */
  lemma AttachedValue(spec: Spec, argv: seq<string>, cur: nat, v: string)
    requires cur < |argv| && spec.kind.Valued? && spec.shortName != '\0' && v != ""
    requires argv[cur] == ['-', spec.shortName] + v && argv[cur] != "--" + spec.longName
    ensures Judged(spec, Answer(spec, false, argv, cur), v, cur)
    ensures Answer(spec, false, argv, cur).Index? ==> ValueAt(spec, argv, cur) == Text(v)
  {
    assert argv[cur][2..] == v;
  }

  /** A short name alone or a long name takes the next token as its value. */
  lemma NextValue(spec: Spec, argv: seq<string>, cur: nat)
    requires cur < |argv| && spec.kind.Valued?
    requires (spec.shortName != '\0' && argv[cur] == ['-', spec.shortName]) || argv[cur] == "--" + spec.longName
    ensures cur + 1 < |argv| ==> Judged(spec, Answer(spec, false, argv, cur), argv[cur + 1], cur + 1)
    ensures cur + 1 < |argv| && Answer(spec, false, argv, cur).Index? ==> ValueAt(spec, argv, cur) == Text(argv[cur + 1])
    ensures cur + 1 == |argv| ==> Answer(spec, false, argv, cur) == Failed(ValueExpected(cur + 1))
  {
  }

  /** A switch takes its short name alone or its long name, and gets the opposite of its default. */
  lemma SwitchToken(spec: Spec, argv: seq<string>, cur: nat)
    requires cur < |argv| && spec.kind.Switch?
    requires (spec.shortName != '\0' && argv[cur] == ['-', spec.shortName]) || argv[cur] == "--" + spec.longName
    ensures Answer(spec, false, argv, cur) == Index(cur + 1) && ValueAt(spec, argv, cur) == Flag(!spec.default)
  {
  }

  // ---------------------------------------------------------------- all options and one token

  /** The first option from i on that does not leave the token to the next; their number if all do. */
  function FirstStop(specs: seq<Spec>, flags: seq<bool>, argv: seq<string>, cur: nat, i: nat): (k: nat)
    requires |flags| == |specs| && cur < |argv| && i <= |specs|
    ensures i <= k <= |specs|
    ensures forall n :: i <= n < k ==> Answer(specs[n], flags[n], argv, cur) == Index(cur)
    ensures k < |specs| ==> Answer(specs[k], flags[k], argv, cur) != Index(cur)
    decreases |specs| - i
  {
    if i == |specs| || Answer(specs[i], flags[i], argv, cur) != Index(cur) then i
    else FirstStop(specs, flags, argv, cur, i + 1)
  }

  /** Which options are marked as parsed once the first n have been asked about the token. */
  function Marks(specs: seq<Spec>, flags: seq<bool>, argv: seq<string>, cur: nat, n: nat): (f: seq<bool>)
    requires |flags| == |specs| && cur < |argv|
    ensures |f| == |specs|
    ensures forall i :: 0 <= i < |specs| ==> f[i] == (flags[i] || (i < n && Recognizes(specs[i], argv[cur])))
  {
    seq(|specs|, i requires 0 <= i < |specs| => flags[i] || (i < n && Recognizes(specs[i], argv[cur])))
  }

  lemma MarksNext(specs: seq<Spec>, flags: seq<bool>, argv: seq<string>, cur: nat, i: nat)
    requires |flags| == |specs| && cur < |argv| && i < |specs|
    ensures var marked := Marks(specs, flags, argv, cur, i);
      marked[i] == flags[i] &&
      marked[i := marked[i] || Recognizes(specs[i], argv[cur])] == Marks(specs, flags, argv, cur, i + 1)
  {
  }

  lemma MarksNone(specs: seq<Spec>, flags: seq<bool>, argv: seq<string>, cur: nat)
    requires |flags| == |specs| && cur < |argv|
    ensures Marks(specs, flags, argv, cur, 0) == flags
  {
  }

  lemma {:induction false} FirstStopIs(specs: seq<Spec>, flags: seq<bool>, argv: seq<string>, cur: nat, j: nat, i: nat)
    requires |flags| == |specs| && cur < |argv| && j <= i <= |specs|
    requires forall n: nat :: j <= n < i ==> Answer(specs[n], flags[n], argv, cur) == Index(cur)
    requires i < |specs| ==> Answer(specs[i], flags[i], argv, cur) != Index(cur)
    ensures FirstStop(specs, flags, argv, cur, j) == i
    decreases i - j
  {
    if j < i {
      FirstStopIs(specs, flags, argv, cur, j + 1, i);
    }
  }

  // ---------------------------------------------------------------- the whole command line

  /** The answer from token cur on, and the marks in the end. */
  function Run(specs: seq<Spec>, flags: seq<bool>, argv: seq<string>, cur: nat): (r: (Outcome, seq<bool>))
    requires |flags| == |specs|
    ensures |r.1| == |specs|
    decreases |argv| - cur
  {
    if cur >= |argv| then (Index(cur), flags)
    else
      var k := FirstStop(specs, flags, argv, cur, 0);
      if k == |specs| then (Failed(Unrecognized(cur)), Marks(specs, flags, argv, cur, k))
      else
        var marked := Marks(specs, flags, argv, cur, k + 1);
        match Answer(specs[k], flags[k], argv, cur)
        case Failed(e) => (Failed(e), marked)
        case Index(next) => Run(specs, marked, argv, next)
  }

  /** Tokens start, ..., end - 1 go to option owner. */
  datatype Segment = Segment(start: nat, end: nat, owner: nat)

  /** The segments follow each other from token first to token end. */
  predicate Contiguous(segments: seq<Segment>, first: nat, end: nat) {
    && (segments == [] ==> end == first)
    && (segments != [] ==> segments[0].start == first && segments[|segments| - 1].end == end)
    && (forall j :: 0 < j < |segments| ==> segments[j].start == segments[j - 1].end)
  }

  /** The first option that takes the token at the start owns the segment, and gets its value. */
  predicate Owned(specs: seq<Spec>, argv: seq<string>, g: Segment) {
    && g.owner < |specs| && g.start < |argv|
    && (forall i :: 0 <= i < g.owner ==> Takes(specs[i], argv, g.start) == 0)
    && Takes(specs[g.owner], argv, g.start) > 0
    && g.end == g.start + Takes(specs[g.owner], argv, g.start) <= |argv|
    && Acceptable(specs[g.owner], argv, g.start)
  }

  /** Option i is asked about the start of the segment, and recognizes it. */
  predicate Asked(specs: seq<Spec>, argv: seq<string>, g: Segment, i: nat) {
    i <= g.owner && i < |specs| && g.start < |argv| && Recognizes(specs[i], argv[g.start])
  }

  ghost predicate AllOwned(specs: seq<Spec>, argv: seq<string>, segments: seq<Segment>) {
    forall j :: 0 <= j < |segments| ==> Owned(specs, argv, segments[j])
  }

  /** No option recognizes a token it is asked about when it is marked already. */
  ghost predicate Unmarked(specs: seq<Spec>, flags: seq<bool>, argv: seq<string>, segments: seq<Segment>)
    requires |flags| == |specs|
  {
    forall j, i: nat :: 0 <= j < |segments| && Asked(specs, argv, segments[j], i) ==> !flags[i]
  }

  /** No option recognizes two of the tokens it is asked about. */
  ghost predicate AskedOnce(specs: seq<Spec>, argv: seq<string>, segments: seq<Segment>) {
    forall j, k, i: nat :: 0 <= j < k < |segments| && Asked(specs, argv, segments[j], i) ==>
      !Asked(specs, argv, segments[k], i)
  }

  /** The segments split the tokens from first to end among the options. */
  ghost predicate Splits(specs: seq<Spec>, flags: seq<bool>, argv: seq<string>, segments: seq<Segment>, first: nat,
                         end: nat)
    requires |flags| == |specs|
  {
    && Contiguous(segments, first, end) && AllOwned(specs, argv, segments)
    && Unmarked(specs, flags, argv, segments) && AskedOnce(specs, argv, segments)
  }

  /** The segments that a run hands out. */
  function Segments(specs: seq<Spec>, flags: seq<bool>, argv: seq<string>, cur: nat): seq<Segment>
    requires |flags| == |specs|
    decreases |argv| - cur
  {
    if cur >= |argv| then []
    else
      var k := FirstStop(specs, flags, argv, cur, 0);
      if k == |specs| || Answer(specs[k], flags[k], argv, cur).Failed? then []
      else
        var next := Answer(specs[k], flags[k], argv, cur).index;
        [Segment(cur, next, k)] + Segments(specs, Marks(specs, flags, argv, cur, k + 1), argv, next)
  }

  /** A run continues behind each segment. */
  lemma RunStep(specs: seq<Spec>, flags: seq<bool>, argv: seq<string>, cur: nat, k: nat, next: nat)
    requires |flags| == |specs| && cur < |argv| && k == FirstStop(specs, flags, argv, cur, 0) && k < |specs|
    requires Answer(specs[k], flags[k], argv, cur) == Index(next)
    ensures var marked := Marks(specs, flags, argv, cur, k + 1);
      && Run(specs, flags, argv, cur) == Run(specs, marked, argv, next)
      && Segments(specs, flags, argv, cur) == [Segment(cur, next, k)] + Segments(specs, marked, argv, next)
  {
  }

  lemma RunEnds(specs: seq<Spec>, flags: seq<bool>, argv: seq<string>, cur: nat)
    requires |flags| == |specs| && cur >= |argv|
    ensures Run(specs, flags, argv, cur) == (Index(cur), flags) && Segments(specs, flags, argv, cur) == []
  {
  }

  /** A run stops at a token that nobody takes, or at an error. */
  lemma RunStops(specs: seq<Spec>, flags: seq<bool>, argv: seq<string>, cur: nat, k: nat)
    requires |flags| == |specs| && cur < |argv| && k == FirstStop(specs, flags, argv, cur, 0)
    requires k < |specs| ==> Answer(specs[k], flags[k], argv, cur).Failed?
    ensures Run(specs, flags, argv, cur) ==
            (if k == |specs| then Failed(Unrecognized(cur)) else Answer(specs[k], flags[k], argv, cur),
             Marks(specs, flags, argv, cur, if k == |specs| then k else k + 1))
  {
  }

  /** Where a successful run ends. */
  function End(argv: seq<string>, first: nat): nat { if first < |argv| then |argv| else first }

  /** Options that leave the token alone answer with its index. */
  lemma LeavesAlone(spec: Spec, parsed: bool, argv: seq<string>, cur: nat)
    requires cur < |argv|
    ensures Answer(spec, parsed, argv, cur) == Index(cur) <==>
            Takes(spec, argv, cur) == 0 && !(parsed && Recognizes(spec, argv[cur]))
  {
  }

  lemma SegmentIsNextStop(specs: seq<Spec>, flags: seq<bool>, argv: seq<string>, g: Segment)
    requires |flags| == |specs| && Owned(specs, argv, g) && Unmarked(specs, flags, argv, [g])
    ensures FirstStop(specs, flags, argv, g.start, 0) == g.owner
    ensures Answer(specs[g.owner], flags[g.owner], argv, g.start) == Index(g.end)
  {
    assert [g][0] == g && Asked(specs, argv, g, g.owner);
    forall n: nat | n < g.owner
      ensures Answer(specs[n], flags[n], argv, g.start) == Index(g.start)
    {
      LeavesAlone(specs[n], flags[n], argv, g.start);
      assert Recognizes(specs[n], argv[g.start]) ==> Asked(specs, argv, g, n);
    }
    FirstStopIs(specs, flags, argv, g.start, 0, g.owner);
  }

  /** An option that answers with an index and recognizes the token was not parsed before. */
  lemma AnsweredUnmarked(specs: seq<Spec>, flags: seq<bool>, argv: seq<string>, cur: nat, k: nat, i: nat)
    requires |flags| == |specs| && cur < |argv| && k == FirstStop(specs, flags, argv, cur, 0) && i <= k < |specs|
    requires Answer(specs[k], flags[k], argv, cur).Index? && Recognizes(specs[i], argv[cur])
    ensures !flags[i]
  {
    if i < k {
      LeavesAlone(specs[i], flags[i], argv, cur);
    }
  }

  lemma StopIsSegment(specs: seq<Spec>, flags: seq<bool>, argv: seq<string>, cur: nat, k: nat, next: nat)
    requires |flags| == |specs| && cur < |argv| && k == FirstStop(specs, flags, argv, cur, 0) && k < |specs|
    requires Answer(specs[k], flags[k], argv, cur) == Index(next)
    ensures Owned(specs, argv, Segment(cur, next, k)) && cur < next
    ensures Unmarked(specs, flags, argv, [Segment(cur, next, k)])
  {
    StopIsOwned(specs, flags, argv, cur, k, next);
    forall i: nat | Asked(specs, argv, Segment(cur, next, k), i)
      ensures !flags[i]
    {
      AnsweredUnmarked(specs, flags, argv, cur, k, i);
    }
  }

  lemma StopIsOwned(specs: seq<Spec>, flags: seq<bool>, argv: seq<string>, cur: nat, k: nat, next: nat)
    requires |flags| == |specs| && cur < |argv| && k == FirstStop(specs, flags, argv, cur, 0) && k < |specs|
    requires Answer(specs[k], flags[k], argv, cur) == Index(next)
    ensures Owned(specs, argv, Segment(cur, next, k)) && cur < next
  {
    forall n: nat | n < k
      ensures Takes(specs[n], argv, cur) == 0
    {
      LeavesAlone(specs[n], flags[n], argv, cur);
    }
    LeavesAlone(specs[k], flags[k], argv, cur);
  }

  /** Options marked by a first segment are those that it asks. */
  lemma UnmarkedCons(specs: seq<Spec>, flags: seq<bool>, argv: seq<string>, g: Segment, rest: seq<Segment>)
    requires |flags| == |specs| && g.start < |argv|
    ensures Unmarked(specs, flags, argv, [g] + rest) && (forall k :: 0 <= k < |rest| ==> AskDiffer(specs, argv, g, rest[k]))
            <==> Unmarked(specs, flags, argv, [g]) && Unmarked(specs, Marks(specs, flags, argv, g.start, g.owner + 1), argv, rest)
  {
    var all, marked := [g] + rest, Marks(specs, flags, argv, g.start, g.owner + 1);
    forall i: nat | i < |specs|
      ensures marked[i] <==> flags[i] || Asked(specs, argv, g, i)
    {
    }
    assert all[0] == g && forall k :: 0 <= k < |rest| ==> all[k + 1] == rest[k];
  }

  /** No option recognizes the start of both segments when asked about them. */
  ghost predicate AskDiffer(specs: seq<Spec>, argv: seq<string>, g: Segment, h: Segment) {
    forall i: nat :: Asked(specs, argv, g, i) ==> !Asked(specs, argv, h, i)
  }

  lemma AskedOnceCons(specs: seq<Spec>, argv: seq<string>, g: Segment, rest: seq<Segment>)
    ensures AskedOnce(specs, argv, [g] + rest)
            <==> AskedOnce(specs, argv, rest) && forall k :: 0 <= k < |rest| ==> AskDiffer(specs, argv, g, rest[k])
  {
    var all := [g] + rest;
    assert all[0] == g && forall k :: 0 <= k < |rest| ==> all[k + 1] == rest[k];
    if AskedOnce(specs, argv, all) {
      forall j, k, i: nat | 0 <= j < k < |rest| && Asked(specs, argv, rest[j], i)
        ensures !Asked(specs, argv, rest[k], i)
      {
        assert Asked(specs, argv, all[j + 1], i) && !Asked(specs, argv, all[k + 1], i);
      }
      forall k | 0 <= k < |rest|
        ensures AskDiffer(specs, argv, g, rest[k])
      {
        assert forall i: nat :: Asked(specs, argv, all[0], i) ==> !Asked(specs, argv, all[k + 1], i);
      }
    }
  }

  lemma AllOwnedCons(specs: seq<Spec>, argv: seq<string>, g: Segment, rest: seq<Segment>)
    ensures AllOwned(specs, argv, [g] + rest) <==> Owned(specs, argv, g) && AllOwned(specs, argv, rest)
  {
    var all := [g] + rest;
    assert all[0] == g && forall k :: 0 <= k < |rest| ==> all[k + 1] == rest[k];
  }

  lemma ContiguousCons(g: Segment, rest: seq<Segment>, end: nat)
    ensures Contiguous([g] + rest, g.start, end) <==> Contiguous(rest, g.end, end)
  {
    var all := [g] + rest;
    assert all[0] == g && forall k :: 0 <= k < |rest| ==> all[k + 1] == rest[k];
    if Contiguous(all, g.start, end) {
      assert rest != [] ==> all[1].start == all[0].end;
      forall j | 0 < j < |rest|
        ensures rest[j].start == rest[j - 1].end
      {
        assert all[j + 1].start == all[j].end;
      }
    }
  }

  /** A segment in front of segments that start where it ends. */
  lemma SplitsCons(specs: seq<Spec>, flags: seq<bool>, argv: seq<string>, g: Segment, rest: seq<Segment>, end: nat)
    requires |flags| == |specs|
    requires g.start < |argv|
    ensures Splits(specs, flags, argv, [g] + rest, g.start, end)
            <==> Owned(specs, argv, g) && Unmarked(specs, flags, argv, [g])
                 && Splits(specs, Marks(specs, flags, argv, g.start, g.owner + 1), argv, rest, g.end, end)
  {
    AllOwnedCons(specs, argv, g, rest);
    ContiguousCons(g, rest, end);
    AskedOnceCons(specs, argv, g, rest);
    UnmarkedCons(specs, flags, argv, g, rest);
  }

  lemma SplitsTail(specs: seq<Spec>, flags: seq<bool>, argv: seq<string>, segments: seq<Segment>, first: nat, end: nat)
    requires |flags| == |specs| && Splits(specs, flags, argv, segments, first, end) && segments != []
    ensures var g := segments[0];
      && Owned(specs, argv, g) && g.start == first && Unmarked(specs, flags, argv, [g])
      && Splits(specs, Marks(specs, flags, argv, first, g.owner + 1), argv, segments[1..], g.end, end)
  {
    assert segments == [segments[0]] + segments[1..];
    assert segments[0].start == first && Owned(specs, argv, segments[0]);
    SplitsCons(specs, flags, argv, segments[0], segments[1..], end);
  }

  /** What a run does after segments that split the tokens up to `at`. */
  lemma {:induction false} RunSkips(specs: seq<Spec>, flags: seq<bool>, argv: seq<string>, segments: seq<Segment>,
                                    first: nat, at: nat)
    returns (marked: seq<bool>)
    requires |flags| == |specs| && Splits(specs, flags, argv, segments, first, at)
    ensures |marked| == |specs| && Run(specs, flags, argv, first) == Run(specs, marked, argv, at)
    ensures forall i: nat :: i < |specs| ==> (marked[i] <==> Marked(specs, flags, argv, segments, i))
    decreases |segments|
  {
    if segments == [] {
      marked := flags;
    } else {
      SplitsTail(specs, flags, argv, segments, first, at);
      var g := segments[0];
      SegmentIsNextStop(specs, flags, argv, g);
      RunStep(specs, flags, argv, first, g.owner, g.end);
      marked := RunSkips(specs, Marks(specs, flags, argv, first, g.owner + 1), argv, segments[1..], g.end, at);
      AllMarkedCons(specs, flags, argv, segments);
    }
  }

  /** Marked from the start, or asked about a segment and recognizing it. */
  ghost predicate Marked(specs: seq<Spec>, flags: seq<bool>, argv: seq<string>, segments: seq<Segment>, i: nat)
    requires |flags| == |specs| && i < |specs|
  {
    flags[i] || exists j :: 0 <= j < |segments| && Asked(specs, argv, segments[j], i)
  }

  lemma MarkedCons(specs: seq<Spec>, flags: seq<bool>, argv: seq<string>, segments: seq<Segment>, i: nat)
    requires |flags| == |specs| && i < |specs| && segments != [] && segments[0].start < |argv|
    ensures var g := segments[0];
      Marked(specs, flags, argv, segments, i)
      <==> Marked(specs, Marks(specs, flags, argv, g.start, g.owner + 1), argv, segments[1..], i)
  {
    if exists j :: 0 <= j < |segments| && Asked(specs, argv, segments[j], i) {
      var j :| 0 <= j < |segments| && Asked(specs, argv, segments[j], i);
      assert j > 0 ==> segments[j] == segments[1..][j - 1];
    }
    if exists j :: 0 <= j < |segments[1..]| && Asked(specs, argv, segments[1..][j], i) {
      var j :| 0 <= j < |segments[1..]| && Asked(specs, argv, segments[1..][j], i);
      assert segments[1..][j] == segments[j + 1];
    }
    assert Asked(specs, argv, segments[0], i) <==> i < segments[0].owner + 1 && Recognizes(specs[i], argv[segments[0].start]);
  }

  lemma AllMarkedCons(specs: seq<Spec>, flags: seq<bool>, argv: seq<string>, segments: seq<Segment>)
    requires |flags| == |specs| && segments != [] && segments[0].start < |argv|
    ensures forall i: nat :: i < |specs| ==>
      (Marked(specs, flags, argv, segments, i)
       <==> Marked(specs, Marks(specs, flags, argv, segments[0].start, segments[0].owner + 1), argv, segments[1..], i))
  {
    forall i: nat | i < |specs|
      ensures Marked(specs, flags, argv, segments, i)
              <==> Marked(specs, Marks(specs, flags, argv, segments[0].start, segments[0].owner + 1), argv, segments[1..], i)
    {
      MarkedCons(specs, flags, argv, segments, i);
    }
  }

  /** A run that succeeds has split the tokens. */
  lemma {:induction false} SuccessSplits(specs: seq<Spec>, flags: seq<bool>, argv: seq<string>, first: nat)
    requires |flags| == |specs| && Run(specs, flags, argv, first).0.Index?
    ensures Splits(specs, flags, argv, Segments(specs, flags, argv, first), first, End(argv, first))
    ensures Run(specs, flags, argv, first).0 == Index(End(argv, first))
    decreases |argv| - first
  {
    if first < |argv| {
      var k := FirstStop(specs, flags, argv, first, 0);
      var next := Answer(specs[k], flags[k], argv, first).index;
      var g, marked := Segment(first, next, k), Marks(specs, flags, argv, first, k + 1);
      StopIsSegment(specs, flags, argv, first, k, next);
      SuccessSplits(specs, marked, argv, next);
      SplitsCons(specs, flags, argv, g, Segments(specs, marked, argv, next), |argv|);
    }
  }

  /** Parsing succeeds exactly when the tokens can be split among the options. */
  lemma SucceedsIffSplit(specs: seq<Spec>, flags: seq<bool>, argv: seq<string>, first: nat)
    requires |flags| == |specs|
    ensures Run(specs, flags, argv, first).0.Index?
            <==> exists segments :: Splits(specs, flags, argv, segments, first, End(argv, first))
  {
    if Run(specs, flags, argv, first).0.Index? {
      SuccessSplits(specs, flags, argv, first);
    }
    if exists segments :: Splits(specs, flags, argv, segments, first, End(argv, first)) {
      var segments :| Splits(specs, flags, argv, segments, first, End(argv, first));
      var marked := RunSkips(specs, flags, argv, segments, first, End(argv, first));
    }
  }

  /** Why a run fails: after segments up to `at`, option i answers the token there with e, or
      every option leaves it alone. */
  ghost predicate Explains(specs: seq<Spec>, flags: seq<bool>, argv: seq<string>, first: nat, e: Error,
                           segments: seq<Segment>, at: nat, i: nat)
    requires |flags| == |specs|
  {
    && at < |argv| && i <= |specs| && Splits(specs, flags, argv, segments, first, at)
    && (forall n: nat :: n < i ==> Passed(specs, flags, argv, segments, at, n))
    && (i == |specs| ==> e == Unrecognized(at))
    && (i < |specs| ==> Answer(specs[i], Marked(specs, flags, argv, segments, i), argv, at) == Failed(e))
  }

  /** Option n leaves the token alone. */
  ghost predicate Passed(specs: seq<Spec>, flags: seq<bool>, argv: seq<string>, segments: seq<Segment>, at: nat, n: nat)
    requires |flags| == |specs| && n < |specs| && at < |argv|
  {
    Answer(specs[n], Marked(specs, flags, argv, segments, n), argv, at) == Index(at)
  }

  /** A failure at the first token. */
  lemma FailsAtOnce(specs: seq<Spec>, flags: seq<bool>, argv: seq<string>, first: nat, e: Error)
    requires |flags| == |specs| && first < |argv| && Run(specs, flags, argv, first).0 == Failed(e)
    requires var k := FirstStop(specs, flags, argv, first, 0); k < |specs| ==> Answer(specs[k], flags[k], argv, first).Failed?
    ensures Explains(specs, flags, argv, first, e, [], first, FirstStop(specs, flags, argv, first, 0))
  {
    forall n: nat | n < |specs|
      ensures Marked(specs, flags, argv, [], n) == flags[n]
    {
    }
  }

  lemma ExplainsCons(specs: seq<Spec>, flags: seq<bool>, argv: seq<string>, g: Segment, e: Error,
                     rest: seq<Segment>, at: nat, i: nat)
    requires |flags| == |specs| && Owned(specs, argv, g) && Unmarked(specs, flags, argv, [g])
    requires Explains(specs, Marks(specs, flags, argv, g.start, g.owner + 1), argv, g.end, e, rest, at, i)
    ensures Explains(specs, flags, argv, g.start, e, [g] + rest, at, i)
  {
    var all, marked := [g] + rest, Marks(specs, flags, argv, g.start, g.owner + 1);
    SplitsCons(specs, flags, argv, g, rest, at);
    assert all[0] == g && all[1..] == rest;
    forall n: nat | n < |specs|
      ensures Marked(specs, flags, argv, all, n) == Marked(specs, marked, argv, rest, n)
    {
      MarkedCons(specs, flags, argv, all, n);
    }
    forall n: nat | n < i
      ensures Passed(specs, flags, argv, all, at, n)
    {
      assert Passed(specs, marked, argv, rest, at, n);
    }
  }

  lemma {:induction false} FailureExplained(specs: seq<Spec>, flags: seq<bool>, argv: seq<string>, first: nat, e: Error)
    returns (segments: seq<Segment>, at: nat, i: nat)
    requires |flags| == |specs| && Run(specs, flags, argv, first).0 == Failed(e)
    ensures Explains(specs, flags, argv, first, e, segments, at, i)
    decreases |argv| - first
  {
    var k := FirstStop(specs, flags, argv, first, 0);
    if k < |specs| && Answer(specs[k], flags[k], argv, first).Index? {
      var next := Answer(specs[k], flags[k], argv, first).index;
      StopIsSegment(specs, flags, argv, first, k, next);
      var rest;
      rest, at, i := FailureExplained(specs, Marks(specs, flags, argv, first, k + 1), argv, next, e);
      ExplainsCons(specs, flags, argv, Segment(first, next, k), e, rest, at, i);
      segments := [Segment(first, next, k)] + rest;
    } else {
      FailsAtOnce(specs, flags, argv, first, e);
      segments, at, i := [], first, k;
    }
  }

  /** The first option that does not pass decides. */
  lemma DecidesAt(specs: seq<Spec>, marked: seq<bool>, argv: seq<string>, at: nat, i: nat, e: Error)
    requires |marked| == |specs| && at < |argv| && i <= |specs|
    requires forall n: nat :: n < i ==> Answer(specs[n], marked[n], argv, at) == Index(at)
    requires i == |specs| ==> e == Unrecognized(at)
    requires i < |specs| ==> Answer(specs[i], marked[i], argv, at) == Failed(e)
    ensures Run(specs, marked, argv, at).0 == Failed(e)
  {
    FirstStopIs(specs, marked, argv, at, 0, i);
  }

  /** Parsing fails with an error exactly when some token and option explain it. */
  lemma FailsIffExplained(specs: seq<Spec>, flags: seq<bool>, argv: seq<string>, first: nat, e: Error)
    requires |flags| == |specs|
    ensures Run(specs, flags, argv, first).0 == Failed(e)
            <==> exists segments, at: nat, i: nat :: Explains(specs, flags, argv, first, e, segments, at, i)
  {
    if Run(specs, flags, argv, first).0 == Failed(e) {
      var segments, at, i := FailureExplained(specs, flags, argv, first, e);
    }
    if exists segments, at: nat, i: nat :: Explains(specs, flags, argv, first, e, segments, at, i) {
      var segments, at: nat, i: nat :| Explains(specs, flags, argv, first, e, segments, at, i);
      var marked := RunSkips(specs, flags, argv, segments, first, at);
      forall n: nat | n < i
        ensures Answer(specs[n], marked[n], argv, at) == Index(at)
      {
        assert Passed(specs, flags, argv, segments, at, n);
      }
      DecidesAt(specs, marked, argv, at, i, e);
    }
  }

  // ---------------------------------------------------------------- tokens and owners

  /** Every token before the end belongs to a segment. */
  lemma {:induction false} EveryTokenOwned(specs: seq<Spec>, argv: seq<string>, segments: seq<Segment>, first: nat,
                                           end: nat, t: nat)
    returns (j: nat)
    requires Contiguous(segments, first, end) && AllOwned(specs, argv, segments) && first <= t < end
    ensures j < |segments| && segments[j].start <= t < segments[j].end
  {
    j := |segments| - 1;
    if t < segments[j].start {
      j := EveryTokenOwned(specs, argv, segments[..j], first, segments[j].start, t);
    }
  }

  lemma {:induction false} LaterStartsAfter(specs: seq<Spec>, argv: seq<string>, segments: seq<Segment>, first: nat,
                                            end: nat,
                                            j: nat, k: nat)
    requires Contiguous(segments, first, end) && AllOwned(specs, argv, segments) && j < k < |segments|
    ensures segments[j].end <= segments[k].start
  {
    if j + 1 < k {
      LaterStartsAfter(specs, argv, segments, first, end, j, k - 1);
      assert Owned(specs, argv, segments[k - 1]);
    }
  }

  /** No token belongs to two segments. */
  lemma TokenOwnedOnce(specs: seq<Spec>, argv: seq<string>, segments: seq<Segment>, first: nat, end: nat, t: nat,
                       j: nat, k: nat)
    requires Contiguous(segments, first, end) && AllOwned(specs, argv, segments) && j < |segments| && k < |segments|
    requires segments[j].start <= t < segments[j].end && segments[k].start <= t < segments[k].end
    ensures j == k
  {
    if j < k {
      LaterStartsAfter(specs, argv, segments, first, end, j, k);
    } else if k < j {
      LaterStartsAfter(specs, argv, segments, first, end, k, j);
    }
  }

  /** No option owns two segments. */
  lemma OwnersDiffer(specs: seq<Spec>, flags: seq<bool>, argv: seq<string>, segments: seq<Segment>, first: nat,
                     end: nat,
                     j: nat, k: nat)
    requires |flags| == |specs| && Splits(specs, flags, argv, segments, first, end) && j < k < |segments|
    ensures segments[j].owner != segments[k].owner && !flags[segments[j].owner]
  {
    assert Owned(specs, argv, segments[j]) && Owned(specs, argv, segments[k]);
    assert Asked(specs, argv, segments[j], segments[j].owner) && Asked(specs, argv, segments[k], segments[k].owner);
  }

  // ---------------------------------------------------------------- a switch with text attached

  /** A token that no option takes ends the run: as a duplicate if an option that recognizes it
      is marked already, as unrecognized otherwise. */
  lemma NobodyTakes(specs: seq<Spec>, flags: seq<bool>, argv: seq<string>, cur: nat)
    requires |flags| == |specs| && cur < |argv| && forall i :: 0 <= i < |specs| ==> Takes(specs[i], argv, cur) == 0
    ensures Run(specs, flags, argv, cur).0 ==
            if exists i :: 0 <= i < |specs| && flags[i] && Recognizes(specs[i], argv[cur])
            then Failed(Duplicate(cur)) else Failed(Unrecognized(cur))
  {
    forall i: nat | i < |specs|
      ensures Answer(specs[i], flags[i], argv, cur) != Index(cur) <==> flags[i] && Recognizes(specs[i], argv[cur])
      ensures flags[i] && Recognizes(specs[i], argv[cur]) ==> Answer(specs[i], flags[i], argv, cur) == Failed(Duplicate(cur))
    {
      LeavesAlone(specs[i], flags[i], argv, cur);
    }
    var k := FirstStop(specs, flags, argv, cur, 0);
    if exists i :: 0 <= i < |specs| && flags[i] && Recognizes(specs[i], argv[cur]) {
      var i :| 0 <= i < |specs| && flags[i] && Recognizes(specs[i], argv[cur]);
    }
  }

  /** A switch with text attached that no other option takes fails the run, and the switch ends up marked. */
  lemma StuckSwitch(specs: seq<Spec>, flags: seq<bool>, argv: seq<string>, cur: nat, i: nat)
    requires |flags| == |specs| && cur < |argv| && i < |specs|
    requires specs[i].kind.Switch? && Recognizes(specs[i], argv[cur]) && !IsSplit(specs[i], argv[cur])
    requires forall n :: 0 <= n < |specs| ==> Takes(specs[n], argv, cur) == 0
    requires forall n :: 0 <= n < |specs| && Recognizes(specs[n], argv[cur]) ==> !flags[n]
    ensures Run(specs, flags, argv, cur).0 == Failed(Unrecognized(cur)) && Run(specs, flags, argv, cur).1[i]
  {
    NobodyTakes(specs, flags, argv, cur);
    forall n: nat | n < |specs|
      ensures Answer(specs[n], flags[n], argv, cur) == Index(cur)
    {
      LeavesAlone(specs[n], flags[n], argv, cur);
    }
    FirstStopIs(specs, flags, argv, cur, 0, |specs|);
  }

  const HELP := Spec('h', "help", Switch, false)

  /** The command line `prog -hx` with the one option -h. */
  lemma StuckHelp()
    ensures Run([HELP], [false], ["prog", "-hx"], 1) == (Failed(Unrecognized(1)), [true])
  {
    var argv := ["prog", "-hx"];
    assert argv[1][0] == '-' && argv[1][1] == 'h' && |argv[1]| == 3 && |"--help"| == 6;
    StuckSwitch([HELP], [false], argv, 1, 0);
    assert Run([HELP], [false], argv, 1).1 == [true];
  }

  /** With -h given as a switch of its own the same parser succeeds. */
  lemma PlainHelp()
    ensures Run([HELP], [false], ["prog", "-h"], 1) == (Index(2), [true])
  {
    var argv := ["prog", "-h"];
    assert argv[1][0] == '-' && argv[1][1] == 'h' && |argv[1]| == 2;
    assert FirstStop([HELP], [false], argv, 1, 0) == 0;
    assert Marks([HELP], [false], argv, 1, 1) == [true];
    assert Run([HELP], [true], argv, 2) == (Index(2), [true]);
  }

  /** An option with a text value. */
  const OUT := Spec('o', "out", Valued(_ => true, _ => true), false)

  /** One option that takes all tokens. */
  lemma OneOption(spec: Spec, argv: seq<string>)
    requires |argv| > 1 && Answer(spec, false, argv, 1) == Index(|argv|)
    ensures Run([spec], [false], argv, 1).0 == Index(|argv|)
    ensures Takes(spec, argv, 1) > 0 && 1 + Takes(spec, argv, 1) == |argv|
  {
    assert FirstStop([spec], [false], argv, 1, 0) == 0;
    assert Run([spec], Marks([spec], [false], argv, 1, 1), argv, |argv|).0 == Index(|argv|);
  }

  /** When one option takes all tokens, its segment is the only one. */
  lemma OneSegment(spec: Spec, argv: seq<string>, segments: seq<Segment>)
    requires |argv| > 1 && Answer(spec, false, argv, 1) == Index(|argv|)
    requires Splits([spec], [false], argv, segments, 1, End(argv, 1))
    ensures segments != [] && segments[0].start == 1 && segments[0].owner == 0
  {
    assert segments != [];
    assert Owned([spec], argv, segments[0]);
  }

  // ---------------------------------------------------------------- a run in progress

  /** What is left of a run from token 1: the segments so far, and the same outcome from cur on. */
  ghost predicate Left(specs: seq<Spec>, flags: seq<bool>, argv: seq<string>, segments: seq<Segment>,
                       marked: seq<bool>, cur: nat)
    requires |flags| == |marked| == |specs|
  {
    && Run(specs, marked, argv, cur) == Run(specs, flags, argv, 1)
    && segments + Segments(specs, marked, argv, cur) == Segments(specs, flags, argv, 1)
  }

  lemma LeftBegins(specs: seq<Spec>, flags: seq<bool>, argv: seq<string>)
    requires |flags| == |specs|
    ensures Left(specs, flags, argv, [], flags, 1)
  {
  }

  lemma LeftStep(specs: seq<Spec>, flags: seq<bool>, argv: seq<string>, segments: seq<Segment>, marked: seq<bool>,
                 cur: nat,
                 k: nat, next: nat)
    requires |flags| == |marked| == |specs| && Left(specs, flags, argv, segments, marked, cur)
    requires cur < |argv| && k == FirstStop(specs, marked, argv, cur, 0) && k < |specs|
    requires Answer(specs[k], marked[k], argv, cur) == Index(next)
    ensures Left(specs, flags, argv, segments + [Segment(cur, next, k)], Marks(specs, marked, argv, cur, k + 1), next)
  {
    RunStep(specs, marked, argv, cur, k, next);
    var rest := Segments(specs, Marks(specs, marked, argv, cur, k + 1), argv, next);
    assert segments + ([Segment(cur, next, k)] + rest) == (segments + [Segment(cur, next, k)]) + rest;
  }

  lemma LeftStops(specs: seq<Spec>, flags: seq<bool>, argv: seq<string>, segments: seq<Segment>, marked: seq<bool>,
                  cur: nat, k: nat)
    requires |flags| == |marked| == |specs| && Left(specs, flags, argv, segments, marked, cur)
    requires cur < |argv| && k == FirstStop(specs, marked, argv, cur, 0)
    requires k < |specs| ==> Answer(specs[k], marked[k], argv, cur).Failed?
    ensures Run(specs, flags, argv, 1) ==
            (if k == |specs| then Failed(Unrecognized(cur)) else Answer(specs[k], marked[k], argv, cur),
             Marks(specs, marked, argv, cur, if k == |specs| then k else k + 1))
  {
    RunStops(specs, marked, argv, cur, k);
  }

  lemma LeftEnds(specs: seq<Spec>, flags: seq<bool>, argv: seq<string>, segments: seq<Segment>, marked: seq<bool>,
                 cur: nat)
    requires |flags| == |marked| == |specs| && Left(specs, flags, argv, segments, marked, cur) && cur >= |argv|
    ensures Run(specs, flags, argv, 1) == (Index(cur), marked)
    ensures Splits(specs, flags, argv, segments, 1, End(argv, 1))
  {
    RunEnds(specs, marked, argv, cur);
    assert segments + [] == segments;
    SplitsOfSegments(specs, flags, argv, segments);
  }

  lemma SplitsOfSegments(specs: seq<Spec>, flags: seq<bool>, argv: seq<string>, segments: seq<Segment>)
    requires |flags| == |specs| && Run(specs, flags, argv, 1).0.Index? && segments == Segments(specs, flags, argv, 1)
    ensures Splits(specs, flags, argv, segments, 1, End(argv, 1))
  {
    SuccessSplits(specs, flags, argv, 1);
  }
}
