/** What `from` and `run` accept and what they return, stated against the
    layout of the input: optional layout, the keyword, a gap that starts with a
    space or tab, the argument, optional layout, and the remainder.  For each
    parser a pair of lemmas proves that it succeeds exactly on inputs of that
    shape, and then only with the argument and remainder the shape names. */
module DockerfileProperties {
  import opened Combinators
  import opened Dockerfile

  /** What separates a keyword from its argument: at least one space or tab
      first (`space1`), then any layout, line breaks included (`multispace0`). */
  predicate IsGap(g: Input) {
    |g| > 0 && IsSpace(g[0]) && AllMultispace(g)
  }

  /** How an image token may end: layout (`trail`), after which the remainder
      starts with something solid; with no layout the input must end there. */
  predicate ImageEnd(trail: Input, rest: Input) {
    AllMultispace(trail) && StartsSolid(rest) && (trail == [] ==> rest == [])
  }

  /** How a command may end: the input ends, or a line break opens the layout
      that is skipped before the remainder. */
  predicate CommandEnd(trail: Input, rest: Input) {
    ImageEnd(trail, rest) && (trail != [] ==> IsNewline(trail[0]))
  }

  // ---------------------------------------------------------------------------
  // Helpers about maximal runs

  /** A run stops no later than the first character that fails `p`. */
  lemma SpanStopsBy(s: Input, p: char -> bool, k: nat)
    requires k < |s| && !p(s[k])
    ensures Span(s, p) <= k
  {
  }

  /** Two ways of cutting one input into a maximal `p`-run and the rest agree. */
  lemma MaximalRunUnique(v: Input, r: Input, a: Input, b: Input, p: char -> bool)
    requires v + r == a + b
    requires forall i :: 0 <= i < |v| ==> p(v[i])
    requires r == [] || !p(r[0])
    requires forall i :: 0 <= i < |a| ==> p(a[i])
    requires b == [] || !p(b[0])
    ensures v == a && r == b
  {
    var s := v + r;
    forall i | 0 <= i < |v| ensures p(s[i]) { assert s[i] == v[i]; }
    if r != [] { assert s[|v|] == r[0]; }
    SpanUnique(s, p, |v|);
    forall i | 0 <= i < |a| ensures p(s[i]) { assert s[i] == a[i]; }
    if b != [] { assert s[|a|] == b[0]; }
    SpanUnique(s, p, |a|);
    assert v == s[..|v|] && a == s[..|a|];
  }

  // ---------------------------------------------------------------------------
  // The keyword part, shared by both instructions

  /** `tag(kw)` in front of `kw` succeeds and leaves what follows it. */
  lemma TagMatches(kw: Input, y: Input)
    ensures Tag(kw, kw + y) == Success(y, kw)
  {
    assert (kw + y)[..|kw|] == kw;
    assert (kw + y)[|kw|..] == y;
  }

  /** `space1` on a gap followed by a solid argument stops inside the gap, at a
      point from which `multispace0` reaches exactly the argument. */
  lemma Space1InGap(gap: Input, x: Input)
    requires IsGap(gap)
    requires x != [] && !IsMultispace(x[0])
    ensures Space1(gap + x).Success?
    ensures Multispace0(Space1(gap + x).rest).rest == x
  {
    var y := gap + x;
    assert y[|gap|] == x[0];
    SpanStopsBy(y, IsSpace, |gap|);
    var k := Span(y, IsSpace);
    assert Space1(y).rest == y[k..];
    assert y[k..] == gap[k..] + x;
    assert AllMultispace(gap[k..]) by {
      forall i | 0 <= i < |gap[k..]| ensures IsMultispace(gap[k..][i]) {
        assert gap[k..][i] == gap[k + i];
      }
    }
    Multispace0Splits(gap[k..], x);
  }

  /** `space_wrapped_instruction(inner)` read step by step: `inner` right
      after the leading layout, then `space1`. */
  lemma SpaceWrappedSteps<O>(inner: Parser<O>, s: Input)
    ensures SpaceWrappedInstruction(inner, s) ==
      var k := inner(Multispace0(s).rest);
      if k.Failure? then Failure else
      var sp := Space1(k.rest);
      if sp.Failure? then Failure else Success(sp.rest, k.value)
  {
  }

  /** `ws(inner)` read step by step: `inner` right after the leading layout,
      then the trailing layout. */
  lemma WsSteps<O>(inner: Parser<O>, s: Input)
    ensures Ws(inner, s) ==
      var a := inner(Multispace0(s).rest);
      if a.Failure? then Failure else Success(Multispace0(a.rest).rest, a.value)
  {
  }

  /** Layout in front of the input does not change what
      `space_wrapped_instruction` returns, whatever the inner parser. */
  lemma {:induction false} SpaceWrappedIgnoresLayout<O>(inner: Parser<O>, w: Input, x: Input)
    requires AllMultispace(w)
    ensures SpaceWrappedInstruction(inner, w + x) == SpaceWrappedInstruction(inner, x)
  {
    Multispace0Absorbs(w, x);
    SpaceWrappedSteps(inner, w + x);
    SpaceWrappedSteps(inner, x);
  }

  /** Layout in front of the input does not change what `ws` returns,
      whatever the inner parser. */
  lemma {:induction false} WsIgnoresLayout<O>(inner: Parser<O>, w: Input, x: Input)
    requires AllMultispace(w)
    ensures Ws(inner, w + x) == Ws(inner, x)
  {
    Multispace0Absorbs(w, x);
    WsSteps(inner, w + x);
    WsSteps(inner, x);
  }

  /** What follows `space1` when the keyword is followed by nothing but
      layout: more layout, so `multispace0` runs to the end of the input. */
  lemma LayoutAfterSpace1(w: Input)
    requires AllMultispace(w) && Space1(w).Success?
    ensures Multispace0(Space1(w).rest).rest == []
  {
    var sp := Space1(w);
    assert sp.rest == w[|sp.value|..];
    assert AllMultispace(sp.rest) by {
      forall i | 0 <= i < |sp.rest| ensures IsMultispace(sp.rest[i]) {
        assert sp.rest[i] == w[|sp.value| + i];
      }
    }
    Multispace0Splits(sp.rest, []);
    assert sp.rest + [] == sp.rest;
  }

  /** Regrouping a concatenation, kept apart so that the solver does it in a
      small context. */
  lemma Regroup(s: Input, a: Input, b: Input, c: Input, d: Input, e: Input)
    requires s == a + (b + (c + (d + e)))
    ensures s == a + b + (c + d) + e
  {
  }

  /** Regrouping a concatenation, kept apart like `Regroup`. */
  lemma RegroupTail(s: Input, p: Input, a: Input, b: Input, c: Input)
    requires s == p + (a + (b + c))
    ensures s == p + a + b + c
  {
  }

  /** Regrouping a concatenation, kept apart like `Regroup`. */
  lemma RegroupLine(a: Input, b: Input, c: Input, d: Input, e: Input, f: Input)
    ensures a + b + c + d + e + f == a + (b + (c + (d + (e + f))))
  {
  }

  /** `v` is the slice of `s` that begins at `start`, `rest` is a suffix of
      `s`, and `v` ends no later than `rest` begins. */
  predicate SliceAt(s: Input, start: nat, v: Input, rest: Input) {
    start + |v| + |rest| <= |s| && s[start..start + |v|] == v && s[|s| - |rest|..] == rest
  }

  /** Where the argument and the remainder of an instruction line sit in it. */
  lemma PiecesAt(s: Input, lead: Input, kw: Input, gap: Input, v: Input, trail: Input, rest: Input)
    returns (start: nat)
    requires s == lead + kw + gap + v + trail + rest
    ensures SliceAt(s, start, v, rest)
  {
    var before := lead + kw + gap;
    start := |before|;
    assert s == before + (v + trail + rest);
    assert s[|before|..] == v + trail + rest;
    assert (v + trail + rest)[..|v|] == v;
  }

  /** When the keyword and `space1` both match, the input is layout, the
      keyword, a gap, and what the argument parser is then run on. */
  lemma KeywordCuts(s: Input, kw: Input) returns (lead: Input, gap: Input)
    requires Tag(kw, Multispace0(s).rest).Success?
    requires Space1(Tag(kw, Multispace0(s).rest).rest).Success?
    ensures AllMultispace(lead) && IsGap(gap)
    ensures s == lead + kw + gap + Multispace0(Space1(Tag(kw, Multispace0(s).rest).rest).rest).rest
  {
    var m := Multispace0(s);
    var t := Tag(kw, m.rest);
    var sp := Space1(t.rest);
    var m2 := Multispace0(sp.rest);
    lead, gap := m.value, sp.value + m2.value;
    GapOf(sp.value, m2.value);
    Regroup(s, lead, kw, sp.value, m2.value, m2.rest);
  }

  /** A non-empty run of spaces and tabs followed by layout is a gap. */
  lemma GapOf(spaces: Input, w: Input)
    requires spaces != [] && forall i :: 0 <= i < |spaces| ==> IsSpace(spaces[i])
    requires AllMultispace(w)
    ensures IsGap(spaces + w)
  {
    var gap := spaces + w;
    forall i | 0 <= i < |gap|
      ensures IsMultispace(gap[i])
    {
      if i < |spaces| {
        assert gap[i] == spaces[i];
      } else {
        assert gap[i] == w[i - |spaces|];
      }
    }
  }

  /** `space_wrapped_instruction(tag(kw))` over layout, `kw`, a gap and a solid
      argument recognises `kw` and stops inside the gap, at a point from which
      `multispace0` reaches exactly the argument. */
  lemma KeywordThenGap(s: Input, lead: Input, kw: Input, gap: Input, x: Input)
    requires s == lead + (kw + (gap + x))
    requires AllMultispace(lead)
    requires kw != [] && !IsMultispace(kw[0])
    requires IsGap(gap)
    requires x != [] && !IsMultispace(x[0])
    ensures SpaceWrappedInstruction(TagOf(kw), s).Success?
    ensures Multispace0(SpaceWrappedInstruction(TagOf(kw), s).rest).rest == x
  {
    Multispace0Splits(lead, kw + (gap + x));
    TagMatches(kw, gap + x);
    Space1InGap(gap, x);
    SpaceWrappedSteps(TagOf(kw), s);
  }

  /** `ws(inner)` from a point where the leading layout ends at `x`, `inner`
      succeeds on `x`, and the trailing layout ends at `rest`. */
  lemma WsThrough<O>(inner: Parser<O>, s: Input, x: Input, tail: Input, value: O, rest: Input)
    requires Multispace0(s).rest == x
    requires inner(x) == Success(tail, value)
    requires Multispace0(tail).rest == rest
    ensures Ws(inner, s) == Success(rest, value)
  {
  }

  /** `from` succeeds once its keyword part and its `ws(is_not_space)` part do. */
  lemma FromThrough(s: Input, image: Input, rest: Input)
    requires SpaceWrappedInstruction(TagOf(FromKeyword), s).Success?
    requires Ws(IsNotSpace, SpaceWrappedInstruction(TagOf(FromKeyword), s).rest) == Success(rest, image)
    ensures ParseFrom(s) == Success(rest, From(image))
  {
  }

  /** `run` succeeds once its keyword part and its `ws(is_not_newline)` part do. */
  lemma RunThrough(s: Input, command: Input, rest: Input)
    requires SpaceWrappedInstruction(TagOf(RunKeyword), s).Success?
    requires Ws(IsNotNewline, SpaceWrappedInstruction(TagOf(RunKeyword), s).rest) == Success(rest, command)
    ensures ParseRun(s) == Success(rest, Run(command))
  {
  }

  // ---------------------------------------------------------------------------
  // FROM

  /** `from` read step by step over the leaf parsers. */
  lemma FromSteps(s: Input)
    ensures ParseFrom(s) ==
      var t := Tag(FromKeyword, Multispace0(s).rest);
      if t.Failure? then Failure else
      var sp := Space1(t.rest);
      if sp.Failure? then Failure else
      var q := IsNotSpace(Multispace0(sp.rest).rest);
      if q.Failure? then Failure else Success(Multispace0(q.rest).rest, From(q.value))
  {
    SpaceWrappedSteps(TagOf(FromKeyword), s);
    var k := SpaceWrappedInstruction(TagOf(FromKeyword), s);
    if k.Success? {
      WsSteps(IsNotSpace, k.rest);
    }
  }

  /** `is_not_space` over an image followed by layout or the end of input
      returns exactly that image. */
  lemma ImageToken(image: Input, tail: Input)
    requires IsImage(image)
    requires tail == [] || IsMultispace(tail[0])
    ensures IsNotSpace(image + tail) == Success(tail, image)
  {
    var q := IsNotSpace(image + tail);
    MaximalRunUnique(q.value, q.rest, image, tail, c => !IsMultispace(c));
  }

  /** Every input of the shape layout, `FROM`, gap, image, end of image,
      remainder is parsed by `from` into that image and that remainder. */
  lemma {:induction false} FromAccepts(lead: Input, gap: Input, image: Input, trail: Input, rest: Input)
    requires AllMultispace(lead) && IsGap(gap) && IsImage(image) && ImageEnd(trail, rest)
    ensures ParseFrom(lead + FromKeyword + gap + image + trail + rest) == Success(rest, From(image))
  {
    var s := lead + FromKeyword + gap + image + trail + rest;
    var tail := trail + rest;
    var x := image + tail;
    RegroupLine(lead, FromKeyword, gap, image, trail, rest);
    KeywordThenGap(s, lead, FromKeyword, gap, x);
    var keyword := SpaceWrappedInstruction(TagOf(FromKeyword), s);
    ImageToken(image, tail);
    Multispace0Splits(trail, rest);
    WsThrough(IsNotSpace, keyword.rest, x, tail, image, rest);
    FromThrough(s, image, rest);
  }

  /** Conversely, whenever `from` succeeds its input has that shape, with the
      returned image and remainder in their places. */
  lemma {:induction false} FromShape(s: Input) returns (lead: Input, gap: Input, trail: Input)
    requires ParseFrom(s).Success?
    ensures AllMultispace(lead) && IsGap(gap) && IsImage(ParseFrom(s).value.image)
    ensures ImageEnd(trail, ParseFrom(s).rest)
    ensures s == lead + FromKeyword + gap + ParseFrom(s).value.image + trail + ParseFrom(s).rest
  {
    FromSteps(s);
    var x;
    lead, gap := KeywordCuts(s, FromKeyword);
    x := Multispace0(Space1(Tag(FromKeyword, Multispace0(s).rest).rest).rest).rest;
    var q := IsNotSpace(x);
    var m3 := Multispace0(q.rest);
    trail := m3.value;
    RegroupTail(s, lead + FromKeyword + gap, q.value, trail, m3.rest);
  }

  /** The property `from` is tested against: `FROM `, one space and a
      whitespace-free image parse to that image with nothing left over. */
  lemma {:induction false} FromRoundTrip(image: Input)
    requires IsImage(image)
    ensures ParseFrom("FROM " + image) == Success([], From(image))
  {
    assert "FROM " + image == [] + FromKeyword + " " + image + [] + [];
    FromAccepts([], " ", image, [], []);
  }

  /** Printing a parsed `FROM` back as keyword, one space and image gives a
      line that parses to the same instruction. */
  lemma {:induction false} FromReprint(s: Input)
    requires ParseFrom(s).Success?
    ensures ParseFrom("FROM " + ParseFrom(s).value.image) == Success([], ParseFrom(s).value)
  {
    FromRoundTrip(ParseFrom(s).value.image);
  }

  /** The image returned by `from` is a slice of the input that lies before
      the remainder, and the remainder is a suffix of the input. */
  lemma {:induction false} FromSlice(s: Input) returns (start: nat)
    requires ParseFrom(s).Success?
    ensures SliceAt(s, start, ParseFrom(s).value.image, ParseFrom(s).rest)
  {
    var lead, gap, trail := FromShape(s);
    var image, rest := ParseFrom(s).value.image, ParseFrom(s).rest;
    start := PiecesAt(s, lead, FromKeyword, gap, image, trail, rest);
  }

  /** Layout before the keyword does not change what `from` returns. */
  lemma {:induction false} FromIgnoresLayout(w: Input, x: Input)
    requires AllMultispace(w)
    ensures ParseFrom(w + x) == ParseFrom(x)
  {
    Multispace0Absorbs(w, x);
    FromSteps(w + x);
    FromSteps(x);
  }

  /** Unless the first solid text is exactly the upper-case `FROM` followed by
      a space or tab, `from` fails. */
  lemma {:induction false} FromNeedsKeyword(lead: Input, x: Input)
    requires AllMultispace(lead) && StartsSolid(x)
    requires !(FromKeyword <= x && |FromKeyword| < |x| && IsSpace(x[|FromKeyword|]))
    ensures ParseFrom(lead + x) == Failure
  {
    Multispace0Splits(lead, x);
    FromSteps(lead + x);
    var t := Tag(FromKeyword, x);
    if t.Success? {
      assert t.rest == x[|FromKeyword|..];
    }
  }

  /** With only layout after the keyword, `from` fails: there is no image. */
  lemma {:induction false} FromNeedsArgument(lead: Input, w: Input)
    requires AllMultispace(lead) && AllMultispace(w)
    ensures ParseFrom(lead + FromKeyword + w) == Failure
  {
    var s := lead + (FromKeyword + w);
    assert lead + FromKeyword + w == s;
    Multispace0Splits(lead, FromKeyword + w);
    TagMatches(FromKeyword, w);
    FromSteps(s);
    if Space1(w).Success? {
      LayoutAfterSpace1(w);
    }
  }

  // ---------------------------------------------------------------------------
  // RUN

  /** `run` read step by step over the leaf parsers. */
  lemma RunSteps(s: Input)
    ensures ParseRun(s) ==
      var t := Tag(RunKeyword, Multispace0(s).rest);
      if t.Failure? then Failure else
      var sp := Space1(t.rest);
      if sp.Failure? then Failure else
      var q := IsNotNewline(Multispace0(sp.rest).rest);
      if q.Failure? then Failure else Success(Multispace0(q.rest).rest, Run(q.value))
  {
    SpaceWrappedSteps(TagOf(RunKeyword), s);
    var k := SpaceWrappedInstruction(TagOf(RunKeyword), s);
    if k.Success? {
      WsSteps(IsNotNewline, k.rest);
    }
  }

  /** `is_not_newline` over a command followed by a line break or the end of
      input returns exactly that command. */
  lemma CommandToken(command: Input, tail: Input)
    requires IsCommand(command)
    requires tail == [] || IsNewline(tail[0])
    ensures IsNotNewline(command + tail) == Success(tail, command)
  {
    var q := IsNotNewline(command + tail);
    MaximalRunUnique(q.value, q.rest, command, tail, c => !IsNewline(c));
  }

  /** Every input of the shape layout, `RUN`, gap, command, end of line,
      remainder is parsed by `run` into that command and that remainder. */
  lemma {:induction false} RunAccepts(lead: Input, gap: Input, command: Input, trail: Input, rest: Input)
    requires AllMultispace(lead) && IsGap(gap) && IsCommand(command) && CommandEnd(trail, rest)
    ensures ParseRun(lead + RunKeyword + gap + command + trail + rest) == Success(rest, Run(command))
  {
    var s := lead + RunKeyword + gap + command + trail + rest;
    var tail := trail + rest;
    var x := command + tail;
    RegroupLine(lead, RunKeyword, gap, command, trail, rest);
    KeywordThenGap(s, lead, RunKeyword, gap, x);
    var keyword := SpaceWrappedInstruction(TagOf(RunKeyword), s);
    CommandToken(command, tail);
    Multispace0Splits(trail, rest);
    WsThrough(IsNotNewline, keyword.rest, x, tail, command, rest);
    RunThrough(s, command, rest);
  }

  /** Conversely, whenever `run` succeeds its input has that shape, with the
      returned command and remainder in their places. */
  lemma {:induction false} RunShape(s: Input) returns (lead: Input, gap: Input, trail: Input)
    requires ParseRun(s).Success?
    ensures AllMultispace(lead) && IsGap(gap) && IsCommand(ParseRun(s).value.command)
    ensures CommandEnd(trail, ParseRun(s).rest)
    ensures s == lead + RunKeyword + gap + ParseRun(s).value.command + trail + ParseRun(s).rest
  {
    RunSteps(s);
    var x;
    lead, gap := KeywordCuts(s, RunKeyword);
    x := Multispace0(Space1(Tag(RunKeyword, Multispace0(s).rest).rest).rest).rest;
    var q := IsNotNewline(x);
    var m3 := Multispace0(q.rest);
    trail := m3.value;
    if trail != [] {
      assert q.rest[0] == trail[0];
    }
    RegroupTail(s, lead + RunKeyword + gap, q.value, trail, m3.rest);
  }

  /** `RUN `, one space and a command parse to that command with nothing left
      over, trailing spaces of the command included. */
  lemma {:induction false} RunRoundTrip(command: Input)
    requires IsCommand(command)
    ensures ParseRun("RUN " + command) == Success([], Run(command))
  {
    assert "RUN " + command == [] + RunKeyword + " " + command + [] + [];
    RunAccepts([], " ", command, [], []);
  }

  /** Printing a parsed `RUN` back as keyword, one space and command gives a
      line that parses to the same instruction. */
  lemma {:induction false} RunReprint(s: Input)
    requires ParseRun(s).Success?
    ensures ParseRun("RUN " + ParseRun(s).value.command) == Success([], ParseRun(s).value)
  {
    RunRoundTrip(ParseRun(s).value.command);
  }

  /** The command returned by `run` is a slice of the input that lies before
      the remainder, and the remainder is a suffix of the input. */
  lemma {:induction false} RunSlice(s: Input) returns (start: nat)
    requires ParseRun(s).Success?
    ensures SliceAt(s, start, ParseRun(s).value.command, ParseRun(s).rest)
  {
    var lead, gap, trail := RunShape(s);
    var command, rest := ParseRun(s).value.command, ParseRun(s).rest;
    start := PiecesAt(s, lead, RunKeyword, gap, command, trail, rest);
  }

  /** Layout before the keyword does not change what `run` returns. */
  lemma {:induction false} RunIgnoresLayout(w: Input, x: Input)
    requires AllMultispace(w)
    ensures ParseRun(w + x) == ParseRun(x)
  {
    Multispace0Absorbs(w, x);
    RunSteps(w + x);
    RunSteps(x);
  }

  /** Unless the first solid text is exactly the upper-case `RUN` followed by a
      space or tab, `run` fails. */
  lemma {:induction false} RunNeedsKeyword(lead: Input, x: Input)
    requires AllMultispace(lead) && StartsSolid(x)
    requires !(RunKeyword <= x && |RunKeyword| < |x| && IsSpace(x[|RunKeyword|]))
    ensures ParseRun(lead + x) == Failure
  {
    Multispace0Splits(lead, x);
    RunSteps(lead + x);
    var t := Tag(RunKeyword, x);
    if t.Success? {
      assert t.rest == x[|RunKeyword|..];
    }
  }

  /** With only layout after the keyword, `run` fails: there is no command. */
  lemma {:induction false} RunNeedsArgument(lead: Input, w: Input)
    requires AllMultispace(lead) && AllMultispace(w)
    ensures ParseRun(lead + RunKeyword + w) == Failure
  {
    var s := lead + (RunKeyword + w);
    assert lead + RunKeyword + w == s;
    Multispace0Splits(lead, RunKeyword + w);
    TagMatches(RunKeyword, w);
    RunSteps(s);
    if Space1(w).Success? {
      LayoutAfterSpace1(w);
    }
  }
}
