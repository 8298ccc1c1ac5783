/** The two Dockerfile instruction parsers of `src/lib.rs`: `from` recognises
    `FROM <image>` and `run` recognises `RUN <command>`.  Both skip layout,
    match their upper-case keyword exactly, demand at least one space or tab
    after it, then skip layout again around the argument. */
module Dockerfile {
  import opened Combinators

  /** A parsed `FROM` instruction: the image it names, a slice of the input. */
  datatype From = From(image: Input)

  /** A parsed `RUN` instruction: the command line, a slice of the input. */
  datatype Run = Run(command: Input)

  const FromKeyword: Input := "FROM"
  const RunKeyword: Input := "RUN"

  /** Line terminators, the characters a `RUN` command stops at. */
  predicate IsNewline(c: char) {
    c == '\r' || c == '\n'
  }

  /** What `from` can return as an image: one or more characters, none of them
      a space, tab, carriage return or line feed. */
  predicate IsImage(v: Input) {
    |v| > 0 && forall i :: 0 <= i < |v| ==> !IsMultispace(v[i])
  }

  /** What `run` can return as a command: one or more characters on a single
      line, the first of which is not layout.  Trailing spaces and tabs are
      allowed. */
  predicate IsCommand(v: Input) {
    |v| > 0 && !IsMultispace(v[0]) && forall i :: 0 <= i < |v| ==> !IsNewline(v[i])
  }

  /** `from`: a `FROM` keyword, then one whitespace-free image token; the
      layout after the token is consumed as well. */
  function ParseFrom(s: Input): (r: Parsed<From>)
    ensures r.Success? ==> IsImage(r.value.image)
    ensures r.Success? ==> StartsSolid(r.rest)
  {
    match SpaceWrappedInstruction(TagOf(FromKeyword), s)
    case Failure => Failure
    case Success(afterKeyword, _) =>
      match Ws(IsNotSpace, afterKeyword)
      case Failure => Failure
      case Success(rest, image) => Success(rest, From(image))
  }

  /** `run`: a `RUN` keyword, then the rest of the line as the command; the
      line break and any layout after it are consumed as well. */
  function ParseRun(s: Input): (r: Parsed<Run>)
    ensures r.Success? ==> IsCommand(r.value.command)
    ensures r.Success? ==> StartsSolid(r.rest)
  {
    match SpaceWrappedInstruction(TagOf(RunKeyword), s)
    case Failure => Failure
    case Success(afterKeyword, _) =>
      match Ws(IsNotNewline, afterKeyword)
      case Failure => Failure
      case Success(rest, command) => Success(rest, Run(command))
  }

  /** `space_wrapped_instruction(inner)`: layout, then `inner`, then at least
      one space or tab. */
  function SpaceWrappedInstruction<O>(inner: Parser<O>, s: Input): (r: Parsed<O>)
    ensures r.Success? <==>
      var k := inner(Multispace0(s).rest);
      k.Success? && k.rest != [] && IsSpace(k.rest[0])
    ensures r.Success? ==> r.value == inner(Multispace0(s).rest).value
    ensures r.Success? ==> exists sp :: sp != [] && (forall i :: 0 <= i < |sp| ==> IsSpace(sp[i]))
                                      && inner(Multispace0(s).rest).rest == sp + r.rest
    ensures r.Success? ==> r.rest == [] || !IsSpace(r.rest[0])
  {
    Delimited(Multispace0, inner, Space1, s)
  }

  /** `is_not_space`: a run of one or more characters that are not layout. */
  function IsNotSpace(s: Input): (r: Parsed<Input>)
    ensures r.Success? <==> s != [] && !IsMultispace(s[0])
    ensures r.Success? ==> IsImage(r.value) && r.value + r.rest == s
    ensures r.Success? ==> r.rest == [] || IsMultispace(r.rest[0])
  {
    IsNot(" \n\r\t", s)
  }

  /** `is_not_newline`: a run of one or more characters up to the end of the
      line. */
  function IsNotNewline(s: Input): (r: Parsed<Input>)
    ensures r.Success? <==> s != [] && !IsNewline(s[0])
    ensures r.Success? ==> r.value != [] && r.value + r.rest == s
    ensures r.Success? ==> forall i :: 0 <= i < |r.value| ==> !IsNewline(r.value[i])
    ensures r.Success? ==> r.rest == [] || IsNewline(r.rest[0])
  {
    IsNot("\r\n", s)
  }

  /** `ws(inner)`: layout, then `inner`, then layout. */
  function Ws<O>(inner: Parser<O>, s: Input): (r: Parsed<O>)
    ensures r.Success? <==> inner(Multispace0(s).rest).Success?
    ensures r.Success? ==> r.value == inner(Multispace0(s).rest).value
    ensures r.Success? ==> exists w :: AllMultispace(w) && inner(Multispace0(s).rest).rest == w + r.rest
    ensures r.Success? ==> StartsSolid(r.rest)
  {
    Delimited(Multispace0, inner, Multispace0, s)
  }
}
