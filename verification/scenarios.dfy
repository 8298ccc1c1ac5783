/** Concrete inputs, each an instance of the general lemmas: the behaviours a
    reader of `src/lib.rs` would check first. */
module DockerfileScenarios {
  import opened Combinators
  import opened Dockerfile
  import opened DockerfileProperties

  /** `from` on the first of two lines returns the image and leaves the next
      line for the following call. */
  lemma FromLeavesNextLine()
    ensures ParseFrom("FROM a\nRUN b\n") == Success("RUN b\n", From("a"))
  {
    assert "FROM a\nRUN b\n" == "" + FromKeyword + " " + "a" + "\n" + "RUN b\n";
    FromAccepts("", " ", "a", "\n", "RUN b\n");
  }

  /** `run` on that remainder returns the command and leaves nothing. */
  lemma RunConsumesLastLine()
    ensures ParseRun("RUN b\n") == Success("", Run("b"))
  {
    assert "RUN b\n" == "" + RunKeyword + " " + "b" + "\n" + "";
    RunAccepts("", " ", "b", "\n", "");
  }

  /** Both steps together: the instructions of a two-line buffer come out in
      order, and nothing is left. */
  lemma FromThenRun()
    ensures ParseFrom("FROM a\nRUN b\n").Success?
    ensures ParseFrom("FROM a\nRUN b\n").value == From("a")
    ensures ParseRun(ParseFrom("FROM a\nRUN b\n").rest) == Success("", Run("b"))
  {
    FromLeavesNextLine();
    RunConsumesLastLine();
  }

  /** Membership facts about a literal, turned into the per-character form
      `IsImage` uses. */
  lemma ImageByMembership(v: Input)
    requires v != [] && ' ' !in v && '\t' !in v && '\r' !in v && '\n' !in v
    ensures IsImage(v)
  {
    forall i | 0 <= i < |v| ensures !IsMultispace(v[i]) {
      assert v[i] in v;
    }
  }

  /** Membership facts about a literal, turned into the per-character form
      `IsCommand` uses. */
  lemma CommandByMembership(v: Input)
    requires v != [] && !IsMultispace(v[0]) && '\r' !in v && '\n' !in v
    ensures IsCommand(v)
  {
    forall i | 0 <= i < |v| ensures !IsNewline(v[i]) {
      assert v[i] in v;
    }
  }

  /** The second line of the buffer below: a shell command with spaces and
      quotes. */
  const ShellLine: Input := "RUN /bin/bash -c echo \"test\"\n"

  /** The buffer cut at its pieces. */
  lemma RealisticLines()
    ensures "FROM ubuntu:test\n" + ShellLine == "" + FromKeyword + " " + "ubuntu:test" + "\n" + ShellLine
  {
    assert "FROM ubuntu:test\n" == "" + FromKeyword + " " + "ubuntu:test" + "\n";
  }

  /** The shell line cut at its pieces. */
  lemma ShellLinePieces()
    ensures ShellLine == "" + RunKeyword + " " + "/bin/bash -c echo \"test\"" + "\n" + ""
  {
    assert ShellLine == RunKeyword + " " + "/bin/bash -c echo \"test\"" + "\n";
  }

  /** A realistic image followed by a shell command line. */
  lemma RealisticImage()
    ensures ParseFrom("FROM ubuntu:test\n" + ShellLine) == Success(ShellLine, From("ubuntu:test"))
  {
    ImageByMembership("ubuntu:test");
    RealisticLines();
    FromAccepts("", " ", "ubuntu:test", "\n", ShellLine);
  }

  /** A command with spaces and quotes is kept verbatim up to the line break. */
  lemma ShellCommand()
    ensures ParseRun(ShellLine) == Success("", Run("/bin/bash -c echo \"test\""))
  {
    CommandByMembership("/bin/bash -c echo \"test\"");
    ShellLinePieces();
    RunAccepts("", " ", "/bin/bash -c echo \"test\"", "\n", "");
  }

  /** Because the argument is wrapped in `ws`, the image may start on a later
      line than the keyword. */
  lemma ImageOnNextLine()
    ensures ParseFrom("FROM \n ubuntu") == Success("", From("ubuntu"))
  {
    assert "FROM \n ubuntu" == "" + FromKeyword + " \n " + "ubuntu" + "" + "";
    FromAccepts("", " \n ", "ubuntu", "", "");
  }

  /** Blank lines and spaces around an instruction change neither the image
      nor the remainder. */
  lemma SurroundingLayout()
    ensures ParseFrom("\n\n  FROM x:y  \n") == Success("", From("x:y"))
  {
    assert "\n\n  FROM x:y  \n" == "\n\n  " + FromKeyword + " " + "x:y" + "  \n" + "";
    FromAccepts("\n\n  ", " ", "x:y", "  \n", "");
  }

  /** A `RUN` command keeps the spaces that end its line. */
  lemma CommandKeepsTrailingSpaces()
    ensures ParseRun("RUN b  \nFROM a") == Success("FROM a", Run("b  "))
  {
    assert "RUN b  \nFROM a" == "" + RunKeyword + " " + "b  " + "\n" + "FROM a";
    RunAccepts("", " ", "b  ", "\n", "FROM a");
  }

  /** The keyword is case-sensitive. */
  lemma LowerCaseKeyword()
    ensures ParseFrom("from x") == Failure
  {
    FromNeedsKeyword("", "from x");
  }

  /** A keyword glued to its argument is not recognised. */
  lemma KeywordGluedToImage()
    ensures ParseFrom("FROMubuntu") == Failure
  {
    FromNeedsKeyword("", "FROMubuntu");
  }

  /** A longer word that starts with the keyword is not the keyword. */
  lemma LongerWord()
    ensures ParseFrom("FROMAGE x") == Failure
  {
    FromNeedsKeyword("", "FROMAGE x");
  }

  /** `RUN` is matched in the same exact way. */
  lemma RunKeywordExact()
    ensures ParseRun("run x") == Failure
  {
    RunNeedsKeyword("", "run x");
  }

  /** A keyword followed only by spaces and a line break has no image. */
  lemma FromWithoutImage()
    ensures ParseFrom("FROM   \n") == Failure
  {
    assert "FROM   \n" == "" + FromKeyword + "   \n";
    FromNeedsArgument("", "   \n");
  }

  /** A keyword followed only by layout has no command either. */
  lemma RunWithoutCommand()
    ensures ParseRun("  RUN \t\n\n") == Failure
  {
    assert "  RUN \t\n\n" == "  " + RunKeyword + " \t\n\n";
    RunNeedsArgument("  ", " \t\n\n");
  }
}
