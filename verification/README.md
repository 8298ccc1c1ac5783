# dockerfile-parser-rs in Dafny

A model of the instruction parsers of `dockerfile-parser-rs`, with proofs about them. The crate's
`src/lib.rs` builds two parsers out of nom combinators:

- `from` recognises `FROM <image>`;
- `run` recognises `RUN <command>`.

Each one skips leading layout, matches its upper-case keyword exactly and requires at least one
space or tab after it. It then takes its argument through `ws`, which skips the layout on both
sides. The image is a `FROM` argument read by `is_not_space`. The command is a `RUN` argument
read by `is_not_newline`.

Each parser returns the unconsumed input together with the instruction. A caller can therefore
read a whole file by calling the parsers again on the remainder.

The model has four modules:

- `Combinators` (`combinators.dfy`) models the nom parsers the crate uses, in their `complete`
  flavour over `&str`: `multispace0`, `space1`, `tag`, `is_not` and `delimited`.
  - A parser is a function from the unconsumed input (`seq<char>`) to `Parsed<T>`, which is either
    `Failure` or `Success(rest, value)`.
  - nom's zero-copy slices appear as contracts saying that the value and the remainder are
    consecutive pieces of the input.
- `Dockerfile` (`dockerfile.dfy`) models the crate's own items:
  - the `From` and `Run` records and the two keyword constants;
  - the functions `from`, `run`, `space_wrapped_instruction`, `is_not_space`, `is_not_newline` and `ws`.
- `DockerfileProperties` (`properties.dfy`) characterises `from` and `run` completely, with a pair
  of lemmas for each parser:
  - `Accepts`: every input laid out as *layout, keyword, gap, argument, end, remainder* parses to
    that argument and that remainder;
  - `Shape`: every successful parse comes from an input of that layout.

  The module then proves these properties:
  - the round trip the crate's property test checks;
  - that reprinting a parsed instruction gives the same instruction;
  - that the returned pieces are slices of the input;
  - that leading layout does not change the result;
  - exact, case-sensitive keyword matching;
  - failure when an instruction has no argument.
- `DockerfileScenarios` (`scenarios.dfy`) works through concrete inputs, such as a two-line buffer
  read by `from` and then by `run`.

### Behaviour worth noting

These follow from how `src/lib.rs` composes the nom parsers, and each one is proved:

- **Keyword case.** Keywords are matched by `tag("FROM")` and `tag("RUN")`, exactly and
  case-sensitively. There is no table of keywords. `from x` and `run x` fail
  (`LowerCaseKeyword`, `RunKeywordExact`).
- **The `FROM` argument is one token.** `is_not(" \n\r\t")` stops at the first layout character,
  and `ws` consumes the layout after the token.
- **Empty arguments fail.** `is_not` needs at least one character, so a keyword followed only by
  layout is rejected (`FromNeedsArgument`, `RunNeedsArgument`).
- **Argument on a later line.** The argument is wrapped in `ws`, so the layout after the keyword's
  first space or tab may include line breaks. The argument can therefore start on a later line
  than its keyword (`ImageOnNextLine`).
- **Trailing spaces in a command.** A `RUN` command keeps the spaces and tabs that end its line,
  because `is_not("\r\n")` stops only at a line break (`CommandKeepsTrailingSpaces`).

## Model

| member | source | states |
|---|---|---|
| Combinators.Multispace0 | src/lib.rs:57 | `multispace0` never fails; it splits the input into a layout prefix and a remainder that is empty or starts with a non-layout character |
| Combinators.Multispace0Absorbs | src/lib.rs:76 | extra layout in front of the input only lengthens what `multispace0` skips; the remainder is unchanged |
| Combinators.Multispace0Splits | src/lib.rs:76 | on layout followed by solid text, `multispace0` splits exactly at the solid text |
| Combinators.Space1 | src/lib.rs:57 | `space1` succeeds iff the input starts with a space or tab; its value is the maximal non-empty run of spaces and tabs, followed by the remainder |
| Combinators.Tag | src/lib.rs:40 | `tag(t)` succeeds iff `t` is a prefix of the input (case-sensitive); the value is `t` and the remainder is what follows it |
| Combinators.IsNot | src/lib.rs:62 | `is_not(stop)` succeeds iff the first character is outside `stop`; the value is the maximal non-empty run outside `stop`, and the remainder is empty or starts with a character of `stop` |
| Dockerfile.ParseFrom | src/lib.rs:39-43 | when `from` succeeds, the image is non-empty and free of layout, and the remainder starts with solid text or is empty |
| Dockerfile.ParseRun | src/lib.rs:45-49 | when `run` succeeds, the command is non-empty, starts with a non-layout character and holds no line break; the remainder starts with solid text or is empty |
| Dockerfile.SpaceWrappedInstruction | src/lib.rs:51-58 | succeeds iff the inner parser succeeds right after the leading layout and a space or tab follows it; it returns the inner value, and the remainder is what follows the maximal non-empty run of spaces and tabs after the inner parser |
| Dockerfile.IsNotSpace | src/lib.rs:60-63 | succeeds iff the input starts with a non-layout character; it returns the maximal layout-free token and stops at layout or the end |
| Dockerfile.IsNotNewline | src/lib.rs:65-68 | succeeds iff the input does not start with a line break; it returns the rest of the line and stops at `\r`, `\n` or the end |
| Dockerfile.Ws | src/lib.rs:70-77 | succeeds iff the inner parser succeeds right after the leading layout; it returns the inner value, and the remainder is what the inner parser left, minus all of its leading layout |
| DockerfileProperties.SpaceWrappedIgnoresLayout | src/lib.rs:51-58 | for any inner parser, layout in front of the input does not change the result of `space_wrapped_instruction` |
| DockerfileProperties.WsIgnoresLayout | src/lib.rs:70-77 | for any inner parser, layout in front of the input does not change the result of `ws` |
| DockerfileProperties.FromAccepts | src/lib.rs:39-43 | every input made of layout, `FROM`, a gap opening with a space or tab, a layout-free image, then layout and a remainder parses to exactly that image and that remainder |
| DockerfileProperties.FromShape | src/lib.rs:39-43 | conversely, whenever `from` succeeds, the input is layout, `FROM`, a gap, the returned image, layout and the returned remainder |
| DockerfileProperties.FromRoundTrip | src/lib.rs:99-111 | for every non-empty layout-free image, `"FROM " + image` parses to that image with nothing left over |
| DockerfileProperties.FromReprint | src/lib.rs:39-43 | printing a parsed `FROM` as keyword, one space and image gives a line that parses to the same instruction with no remainder |
| DockerfileProperties.FromSlice | src/lib.rs:39-43 | the returned image is a slice of the input that ends before the remainder, and the remainder is a suffix of the input |
| DockerfileProperties.FromIgnoresLayout | src/lib.rs:39-43 | layout before the keyword does not change what `from` returns |
| DockerfileProperties.FromNeedsKeyword | src/lib.rs:36-43 | unless the first solid text is exactly `FROM` followed by a space or tab, `from` fails |
| DockerfileProperties.FromNeedsArgument | src/lib.rs:39-43 | `FROM` followed by nothing but layout fails |
| DockerfileProperties.RunAccepts | src/lib.rs:45-49 | every input made of layout, `RUN`, a gap, a command line, then either the end or a line break with layout, and a remainder parses to exactly that command and that remainder |
| DockerfileProperties.RunShape | src/lib.rs:45-49 | conversely, whenever `run` succeeds, the input is layout, `RUN`, a gap, the returned command, the end or a line break opening layout, and the returned remainder |
| DockerfileProperties.RunRoundTrip | src/lib.rs:45-49 | for every single-line command that does not start with layout, `"RUN " + command` parses to that command with nothing left over, trailing spaces included |
| DockerfileProperties.RunReprint | src/lib.rs:45-49 | printing a parsed `RUN` as keyword, one space and command gives a line that parses to the same instruction with no remainder |
| DockerfileProperties.RunSlice | src/lib.rs:45-49 | the returned command is a slice of the input that ends before the remainder, and the remainder is a suffix of the input |
| DockerfileProperties.RunIgnoresLayout | src/lib.rs:45-49 | layout before the keyword does not change what `run` returns |
| DockerfileProperties.RunNeedsKeyword | src/lib.rs:36-49 | unless the first solid text is exactly `RUN` followed by a space or tab, `run` fails |
| DockerfileProperties.RunNeedsArgument | src/lib.rs:45-49 | `RUN` followed by nothing but layout fails |
| DockerfileScenarios.FromLeavesNextLine | src/lib.rs:39-43 | `from` on `FROM a\nRUN b\n` returns image `a` and leaves `RUN b\n` |
| DockerfileScenarios.RunConsumesLastLine | src/lib.rs:45-49 | `run` on `RUN b\n` returns command `b` and leaves nothing |
| DockerfileScenarios.FromThenRun | src/lib.rs:39-49 | two calls in sequence read a two-line buffer in order and leave nothing |
| DockerfileScenarios.RealisticImage | src/lib.rs:39-43 | `from` on `FROM ubuntu:test\n` followed by a shell line returns `ubuntu:test` and leaves the shell line |
| DockerfileScenarios.ShellCommand | src/lib.rs:45-49 | `run` keeps a command with embedded spaces and quotes verbatim up to the line break |
| DockerfileScenarios.ImageOnNextLine | src/lib.rs:39-43 | an image that starts on the line after `FROM ` is still returned |
| DockerfileScenarios.SurroundingLayout | src/lib.rs:39-43 | blank lines and spaces around `FROM x:y` change neither the image nor the empty remainder |
| DockerfileScenarios.CommandKeepsTrailingSpaces | src/lib.rs:45-49 | a `RUN` command keeps the spaces that end its line |
| DockerfileScenarios.LowerCaseKeyword | src/lib.rs:36-43 | `from x` fails: the keyword is case-sensitive |
| DockerfileScenarios.KeywordGluedToImage | src/lib.rs:39-43 | `FROMubuntu` fails: a space or tab must follow the keyword |
| DockerfileScenarios.LongerWord | src/lib.rs:39-43 | `FROMAGE x` fails: a longer word is not the keyword |
| DockerfileScenarios.RunKeywordExact | src/lib.rs:37-49 | `run x` fails |
| DockerfileScenarios.FromWithoutImage | src/lib.rs:39-43 | `FROM   \n` fails: there is no image |
| DockerfileScenarios.RunWithoutCommand | src/lib.rs:45-49 | `RUN` followed only by layout fails: there is no command |

## Left out

- Error payload: nom's `ErrorKind`, the failing input slice, and the `Incomplete` and `Failure`
  variants of `nom::Err` are all folded into `Failure`. The `complete` parsers the crate uses
  never return `Incomplete`, and it never builds `Failure`.
- `Dockerfile` and `Instruction` (src/lib.rs:6-12): these types have no operations in the crate,
  so they are not modelled.
- `From::new` and `Run::new` (src/lib.rs:20-22, 31-33) are the datatype constructors `From` and
  `Run`.
- Lifetimes and borrowing: slices are values here. That a result borrows from the input is stated
  instead by the `Slice` lemmas and by the `value + rest == s` contracts of the combinators.
- The property test's image-name regular expressions and generator (src/lib.rs:85-97) are not
  modelled. `FromRoundTrip` is proved for every non-empty layout-free image, and every string
  those expressions generate is one.
- Combinators.Delimited: it has no contract of its own. Its behaviour is stated through `Ws` and
  `SpaceWrappedInstruction`, and through the `Steps` lemmas that unfold them.
- Characters are Dafny `char`s. nom's `multispace0` and `space1` over `&str` test ASCII layout
  characters only, which is what `IsMultispace` and `IsSpace` encode. UTF-8 encoding is not
  modelled.
