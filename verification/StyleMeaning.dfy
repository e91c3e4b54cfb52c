/** What the style fixers keep and report, line by line, in terms of the text alone. */
module StyleMeaning {
  import opened TextLines
  import opened StyleFixers
  import opened StyleTheorems

  // ----- Trailing whitespace -----

  /** A line that ends in a newline, right after something that is no whitespace, or that is just a newline. */
  ghost predicate EndsClean(line: string) {
    line != "" && line[|line| - 1] == '\n' && (|line| == 1 || !IsSpace(line[|line| - 2]))
  }

  /** The beginning of `line`, without all whitespace at its end, and a newline. */
  ghost predicate IsCutAtEnd(line: string, cut: string) {
    && cut != "" && cut[|cut| - 1] == '\n'
    && var n := |cut| - 1;
    && n <= |line| && cut[..n] == line[..n] && AllSpace(line[n..])
    && (n == 0 || !IsSpace(line[n - 1]))
  }

  lemma TrimCuts(line: string)
    ensures IsCutAtEnd(line, TrimLine(line))
    ensures TrimLine(line) == line <==> EndsClean(line)
  {
    hide IsSpace;
    var r := RStrip(line);
    assert TrimLine(line)[..|r|] == r == line[..|r|];
    assert line == r + line[|r|..];
    if EndsClean(line) {
      NewlineIsSpace();
      assert line == line[..|line| - 1] + "\n";
      RStripUnique(line[..|line| - 1], "\n");
    }
  }

  lemma NewlineIsSpace()
    ensures IsSpace('\n') && AllSpace("\n")
  {
  }

  /** The fix keeps every line up to its last character that is no whitespace, indentation included. */
  lemma TrimmedFile(text: string)
    ensures |ReadLines(Trimmed(text))| == |ReadLines(text)|
    ensures forall i :: 0 <= i < |ReadLines(text)| ==> IsCutAtEnd(ReadLines(text)[i], ReadLines(Trimmed(text))[i])
  {
    hide TrimLine, IsCutAtEnd, ReadLines, WriteLines;
    ReadThenWrite(text);
    TrimmedLinesAreLines(ReadLines(text));
    WriteThenRead(Trim(ReadLines(text)));
    forall i | 0 <= i < |ReadLines(text)| ensures IsCutAtEnd(ReadLines(text)[i], ReadLines(Trimmed(text))[i]) {
      TrimCuts(ReadLines(text)[i]);
    }
  }

  /** The check reports a file exactly when some line has whitespace at its end, or no newline. */
  lemma TrailingReportedWhen(text: string)
    ensures HasTrailing(ReadLines(text)) <==>
            exists i :: 0 <= i < |ReadLines(text)| && !EndsClean(ReadLines(text)[i])
  {
    hide TrimLine, EndsClean, ReadLines;
    forall i | 0 <= i < |ReadLines(text)|
      ensures TrimLine(ReadLines(text)[i]) == ReadLines(text)[i] <==> EndsClean(ReadLines(text)[i])
    {
      TrimCuts(ReadLines(text)[i]);
    }
  }

  /** Blanks, tabs and line ends are whitespace, and no other printable ASCII character is. */
  lemma AsciiWhitespace()
    ensures IsSpace(' ') && IsSpace('\t') && IsSpace('\n') && IsSpace('\r')
    ensures forall c: char :: ' ' < c <= '~' ==> !IsSpace(c)
  {
  }

  // ----- Guards -----

  ghost predicate IsGuard(line: string) {
    Strip(line) == "// clang-format on" || Strip(line) == "// clang-format off"
  }

  /** Every "off" guard before line `n` is followed by an "on" guard before it. */
  ghost predicate OutsideGuards(lines: seq<string>, n: nat)
    requires n <= |lines|
  {
    forall i :: 0 <= i < n && Strip(lines[i]) == "// clang-format off" ==>
      exists j :: i < j < n && Strip(lines[j]) == "// clang-format on"
  }

  /** Whether a line is enabled depends on the last guard before it. */
  lemma {:induction false} EnabledWhen(lines: seq<string>, n: nat)
    requires n <= |lines|
    ensures EnabledAt(lines, n) <==> OutsideGuards(lines, n)
  {
    hide Strip;
    GuardsHaveNoTabs();
    if n > 0 {
      EnabledWhen(lines, n - 1);
      assert EnabledAt(lines, n) == EnabledAfter(lines[n - 1], EnabledAt(lines, n - 1));
      if OutsideGuards(lines, n - 1) {
        forall i | 0 <= i < n - 1 && Strip(lines[i]) == "// clang-format off"
          ensures exists j :: i < j < n && Strip(lines[j]) == "// clang-format on"
        {
          var j :| i < j < n - 1 && Strip(lines[j]) == "// clang-format on";
        }
      } else {
        var i :| 0 <= i < n - 1 && Strip(lines[i]) == "// clang-format off" &&
                 forall j :: i < j < n - 1 ==> Strip(lines[j]) != "// clang-format on";
        assert Strip(lines[n - 1]) != "// clang-format on" ==>
                 forall j :: i < j < n ==> Strip(lines[j]) != "// clang-format on";
      }
    }
  }

  /** A line is checked if it is a guard or stands outside of guards. */
  lemma CheckedWhen(lines: seq<string>, i: nat)
    requires i < |lines|
    ensures IsChecked(lines[i], EnabledAt(lines, i)) <==> IsGuard(lines[i]) || OutsideGuards(lines, i)
  {
    hide Strip, OutsideGuards, EnabledAt;
    EnabledWhen(lines, i);
  }

  /** The check reports a file exactly when a guard line, or a line outside of guards, holds a tab. */
  lemma TabsReportedWhen(lines: seq<string>)
    ensures HasTabs(lines) <==>
            exists i :: 0 <= i < |lines| && '\t' in lines[i] && (IsGuard(lines[i]) || OutsideGuards(lines, i))
  {
    hide IsChecked, IsGuard, OutsideGuards, EnabledAt;
    forall i | 0 <= i < |lines|
      ensures TabAt(lines, i) <==> '\t' in lines[i] && (IsGuard(lines[i]) || OutsideGuards(lines, i))
    {
      CheckedWhen(lines, i);
    }
  }

  /** The fix expands exactly these lines, to the same columns and the same text; all others it leaves alone. */
  lemma FixedFile(lines: seq<string>, i: nat)
    requires i < |lines|
    ensures |FixTabs(lines)| == |lines|
    ensures IsGuard(lines[i]) || OutsideGuards(lines, i) ==>
              && '\t' !in FixTabs(lines)[i]
              && ColumnAfter(FixTabs(lines)[i], 0) == ColumnAfter(lines[i], 0)
              && WithoutBlanks(FixTabs(lines)[i]) == WithoutBlanks(lines[i])
    ensures !(IsGuard(lines[i]) || OutsideGuards(lines, i)) ==> FixTabs(lines)[i] == lines[i]
  {
    hide IsChecked, IsGuard, OutsideGuards, EnabledAt, Expand, ColumnAfter, WithoutBlanks;
    CheckedWhen(lines, i);
    ExpandRemovesTabs(lines[i], 0);
    ExpandKeepsColumns(lines[i], 0);
    ExpandKeepsText(lines[i], 0);
  }
}
