/** The nom combinators the Dockerfile parser is assembled from, in their
    `complete` flavour over `&str`: `multispace0`, `space1`, `tag`, `is_not`
    and `delimited`.

    A parser takes the unconsumed input and either fails or returns the
    remainder together with the value it recognised.  nom hands back slices of
    the input rather than copies; here that shows up as contracts saying that
    the value and the remainder are pieces of the input (`value + rest == s`). */
module Combinators {

  type Input = seq<char>

  /** nom's `IResult`, without the error payload: `Failure` stands for every
      `Err(Error((input, kind)))` the complete parsers can return. */
  datatype Parsed<+T> = Failure | Success(rest: Input, value: T)

  type Parser<T> = Input -> Parsed<T>

  /** The characters `multispace0` skips: space, tab, carriage return, line feed. */
  predicate IsMultispace(c: char) {
    c == ' ' || c == '\t' || c == '\r' || c == '\n'
  }

  /** The characters `space1` accepts: space and tab. */
  predicate IsSpace(c: char) {
    c == ' ' || c == '\t'
  }

  /** `w` is layout: it holds nothing but `multispace0` characters. */
  predicate AllMultispace(w: Input) {
    forall i :: 0 <= i < |w| ==> IsMultispace(w[i])
  }

  /** `s` is exhausted or its next character is not layout. */
  predicate StartsSolid(s: Input) {
    s == [] || !IsMultispace(s[0])
  }

  /** The length of the longest prefix of `s` all of whose characters satisfy
      `p`: the split point of nom's `split_at_position` family. */
  function Span(s: Input, p: char -> bool): (n: nat)
    ensures n <= |s|
    ensures forall i :: 0 <= i < n ==> p(s[i])
    ensures n < |s| ==> !p(s[n])
  {
    if s == [] || !p(s[0]) then 0 else 1 + Span(s[1..], p)
  }

  /** The three properties of `Span` pin it down: there is only one maximal run. */
  lemma SpanUnique(s: Input, p: char -> bool, n: nat)
    requires n <= |s|
    requires forall i :: 0 <= i < n ==> p(s[i])
    requires n < |s| ==> !p(s[n])
    ensures Span(s, p) == n
  {
  }

  /** A run that `p` accepts in full, put in front of `x`, lengthens the span by
      exactly its own length. */
  lemma SpanAppend(w: Input, x: Input, p: char -> bool)
    requires forall i :: 0 <= i < |w| ==> p(w[i])
    ensures Span(w + x, p) == |w| + Span(x, p)
  {
    var n := Span(x, p);
    var s := w + x;
    forall i | 0 <= i < |w| + n
      ensures p(s[i])
    {
      if i < |w| {
        assert s[i] == w[i];
      } else {
        assert s[i] == x[i - |w|];
      }
    }
    if |w| + n < |s| {
      assert s[|w| + n] == x[n];
    }
    SpanUnique(s, p, |w| + n);
  }

  /** `multispace0`: skips the longest run of spaces, tabs, carriage returns
      and line feeds, possibly empty; it never fails. */
  function Multispace0(s: Input): (r: Parsed<Input>)
    ensures r.Success?
    ensures r.value + r.rest == s
    ensures AllMultispace(r.value)
    ensures StartsSolid(r.rest)
  {
    var n := Span(s, IsMultispace);
    assert s[..n] + s[n..] == s;
    Success(s[n..], s[..n])
  }

  /** `space1`: the longest run of spaces and tabs, which must not be empty. */
  function Space1(s: Input): (r: Parsed<Input>)
    ensures r.Success? <==> s != [] && IsSpace(s[0])
    ensures r.Success? ==> r.value != [] && r.value + r.rest == s
    ensures r.Success? ==> forall i :: 0 <= i < |r.value| ==> IsSpace(r.value[i])
    ensures r.Success? ==> r.rest == [] || !IsSpace(r.rest[0])
  {
    var n := Span(s, IsSpace);
    assert s[..n] + s[n..] == s;
    if n == 0 then Failure else Success(s[n..], s[..n])
  }

  /** `tag(t)`: an exact, case-sensitive match of `t` at the start of the input. */
  function Tag(t: Input, s: Input): (r: Parsed<Input>)
    ensures r.Success? <==> t <= s
    ensures r.Success? ==> r.value == t && t + r.rest == s
  {
    if |t| <= |s| && s[..|t|] == t then
      assert s[..|t|] + s[|t|..] == s;
      Success(s[|t|..], s[..|t|])
    else
      Failure
  }

  /** The parser value `tag(t)` builds, for combinators that take a parser. */
  function TagOf(t: Input): Parser<Input> {
    s => Tag(t, s)
  }

  /** `is_not(stop)`: the longest run of characters outside `stop`, which must
      not be empty. */
  function IsNot(stop: Input, s: Input): (r: Parsed<Input>)
    ensures r.Success? <==> s != [] && s[0] !in stop
    ensures r.Success? ==> r.value != [] && r.value + r.rest == s
    ensures r.Success? ==> forall i :: 0 <= i < |r.value| ==> r.value[i] !in stop
    ensures r.Success? ==> r.rest == [] || r.rest[0] in stop
  {
    var n := Span(s, c => c !in stop);
    assert s[..n] + s[n..] == s;
    if n == 0 then Failure else Success(s[n..], s[..n])
  }

  /** `delimited(first, second, third)`: runs the three parsers one after the
      other and keeps only the value of the middle one. */
  function Delimited<A, O, B>(first: Parser<A>, second: Parser<O>, third: Parser<B>, s: Input): Parsed<O> {
    match first(s)
    case Failure => Failure
    case Success(afterFirst, _) =>
      match second(afterFirst)
      case Failure => Failure
      case Success(afterSecond, value) =>
        match third(afterSecond)
        case Failure => Failure
        case Success(rest, _) => Success(rest, value)
  }

  /** Layout in front of the input only lengthens what `multispace0` skips:
      where it stops is unchanged. */
  lemma Multispace0Absorbs(w: Input, x: Input)
    requires AllMultispace(w)
    ensures Multispace0(w + x) == Success(Multispace0(x).rest, w + Multispace0(x).value)
  {
    SpanAppend(w, x, IsMultispace);
    var n := Span(x, IsMultispace);
    assert (w + x)[|w| + n..] == x[n..];
    assert (w + x)[..|w| + n] == w + x[..n];
  }

  /** `multispace0` over layout followed by something solid splits exactly there. */
  lemma Multispace0Splits(w: Input, x: Input)
    requires AllMultispace(w)
    requires StartsSolid(x)
    ensures Multispace0(w + x) == Success(x, w)
  {
    Multispace0Absorbs(w, x);
    SpanUnique(x, IsMultispace, 0);
  }
}
