/** What the two fixers reach: a clean file that they leave alone, guards notwithstanding. */
module StyleTheorems {
  import opened TextLines
  import opened StyleFixers

  // ----- Expanding tabs -----

  /** The column after `s`, when it starts at column `col`; a tab goes to the next tab stop. */
  function ColumnAfter(s: string, col: nat): nat {
    if s == "" then col
    else ColumnAfter(s[1..],
                     if s[0] == '\t' then col + (TAB_SIZE - col % TAB_SIZE)
                     else if s[0] == '\n' || s[0] == '\r' then 0
                     else col + 1)
  }

  lemma {:induction false} ExpandConcat(a: string, b: string, col: nat)
    ensures Expand(a + b, col) == Expand(a, col) + Expand(b, ColumnAfter(a, col))
  {
    if a == "" {
      assert a + b == b;
    } else {
      assert (a + b)[1..] == a[1..] + b;
      var next := if a[0] == '\t' then col + (TAB_SIZE - col % TAB_SIZE)
                  else if a[0] == '\n' || a[0] == '\r' then 0 else col + 1;
      ExpandConcat(a[1..], b, next);
    }
  }

  lemma {:induction false} ColumnOfSpaces(n: nat, rest: string, col: nat)
    ensures ColumnAfter(Spaces(n) + rest, col) == ColumnAfter(rest, col + n)
  {
    if n == 0 {
      assert Spaces(n) + rest == rest;
    } else {
      assert (Spaces(n) + rest)[1..] == Spaces(n - 1) + rest;
      ColumnOfSpaces(n - 1, rest, col + 1);
    }
  }

  /** Fixing tabs moves nothing: all text stays at its column. */
  lemma {:induction false} ExpandKeepsColumns(s: string, col: nat)
    ensures ColumnAfter(Expand(s, col), col) == ColumnAfter(s, col)
  {
    if s != "" {
      if s[0] == '\t' {
        var n := TAB_SIZE - col % TAB_SIZE;
        ColumnOfSpaces(n, Expand(s[1..], col + n), col);
        ExpandKeepsColumns(s[1..], col + n);
      } else {
        var next := if s[0] == '\n' || s[0] == '\r' then 0 else col + 1;
        assert ([s[0]] + Expand(s[1..], next))[1..] == Expand(s[1..], next);
        ExpandKeepsColumns(s[1..], next);
      }
    }
  }

  function WithoutBlanks(s: string): string {
    if s == "" then ""
    else (if s[0] == ' ' || s[0] == '\t' then "" else [s[0]]) + WithoutBlanks(s[1..])
  }

  lemma {:induction false} BlanksVanish(n: nat, rest: string)
    ensures WithoutBlanks(Spaces(n) + rest) == WithoutBlanks(rest)
  {
    if n == 0 {
      assert Spaces(n) + rest == rest;
    } else {
      assert (Spaces(n) + rest)[1..] == Spaces(n - 1) + rest;
      BlanksVanish(n - 1, rest);
    }
  }

  /** Fixing tabs loses and changes nothing but blanks. */
  lemma {:induction false} ExpandKeepsText(s: string, col: nat)
    ensures WithoutBlanks(Expand(s, col)) == WithoutBlanks(s)
  {
    if s != "" {
      if s[0] == '\t' {
        var n := TAB_SIZE - col % TAB_SIZE;
        BlanksVanish(n, Expand(s[1..], col + n));
        ExpandKeepsText(s[1..], col + n);
      } else {
        var next := if s[0] == '\n' || s[0] == '\r' then 0 else col + 1;
        assert ([s[0]] + Expand(s[1..], next))[1..] == Expand(s[1..], next);
        ExpandKeepsText(s[1..], next);
      }
    }
  }

  /** What one character expands to, and the column after it. */
  lemma ExpandStep(s: string, col: nat) returns (head: string, next: nat)
    requires s != ""
    ensures Expand(s, col) == head + Expand(s[1..], next)
    ensures if s[0] == '\t' then 0 < |head| <= TAB_SIZE && head == Spaces(|head|) else head == [s[0]]
  {
    if s[0] == '\t' {
      head, next := Spaces(TAB_SIZE - col % TAB_SIZE), col + (TAB_SIZE - col % TAB_SIZE);
    } else {
      head, next := [s[0]], if s[0] == '\n' || s[0] == '\r' then 0 else col + 1;
    }
  }

  lemma {:induction false} ExpandRemovesTabs(s: string, col: nat)
    ensures '\t' !in Expand(s, col) && |s| <= |Expand(s, col)|
    ensures '\t' !in s ==> Expand(s, col) == s
    ensures '\n' !in s ==> '\n' !in Expand(s, col)
  {
    if s != "" {
      var head, next := ExpandStep(s, col);
      ExpandRemovesTabs(s[1..], next);
      hide Expand;
      assert s == [s[0]] + s[1..];
      assert '\t' !in head && (s[0] != '\n' ==> '\n' !in head);
    }
  }

  lemma {:induction false} ExpandKeepsSpace(s: string, col: nat)
    requires AllSpace(s)
    ensures AllSpace(Expand(s, col))
  {
    if s != "" {
      if s[0] == '\t' {
        ExpandKeepsSpace(s[1..], col + (TAB_SIZE - col % TAB_SIZE));
      } else {
        ExpandKeepsSpace(s[1..], if s[0] == '\n' || s[0] == '\r' then 0 else col + 1);
      }
    }
  }

  /** Tabs around a line's text do not decide what it is stripped to; so a guard stays a guard. */
  lemma {:induction false} ExpandKeepsGuards(line: string)
    requires '\t' !in Strip(line)
    ensures Strip(Expand(line, 0)) == Strip(line)
  {
    hide Strip, Expand, IsSpace, ColumnAfter;
    var core := Strip(line);
    var a, b := StripParts(line);
    var col := ColumnAfter(a, 0);
    var col' := ColumnAfter(a + core, 0);
    ExpandConcat(a + core, b, 0);
    ExpandConcat(a, core, 0);
    ExpandRemovesTabs(core, col);
    ExpandKeepsSpace(a, 0);
    ExpandKeepsSpace(b, col');
    StripUnique(Expand(a, 0), core, Expand(b, col'));
  }

  lemma GuardsHaveNoTabs()
    ensures '\t' !in GuardOn() && '\t' !in GuardOff() && GuardOn() != GuardOff()
  {
  }

  // ----- The second pass over fixed tabs -----

  /** A line that becomes a guard was checked; one that was a guard stays the same guard. */
  lemma FixedLine(lines: seq<string>, i: nat)
    requires i < |lines|
    ensures var line, fixedLine := lines[i], FixLine(lines[i], EnabledAt(lines, i));
            && (Strip(line) == GuardOn() || Strip(line) == GuardOff() ==> Strip(fixedLine) == Strip(line))
            && (IsChecked(line, EnabledAt(lines, i)) ==> '\t' !in fixedLine)
            && (!IsChecked(line, EnabledAt(lines, i)) ==> fixedLine == line)
  {
    hide Strip, EnabledAt, EnabledAfter, GuardOn, GuardOff, Expand;
    var line := lines[i];
    GuardsHaveNoTabs();
    ExpandRemovesTabs(line, 0);
    if Strip(line) == GuardOn() || Strip(line) == GuardOff() {
      ExpandKeepsGuards(line);
    }
  }

  /**
   Fixing may create guards, so the two passes need not agree on which lines are enabled. But
   a line enabled in the second pass was enabled in the first.
   */
  lemma {:induction false} EnabledBefore(lines: seq<string>, n: nat)
    requires n <= |lines| && EnabledAt(FixTabs(lines), n)
    ensures EnabledAt(lines, n)
  {
    hide Strip, GuardOn, GuardOff, Expand, FixLine;
    if n > 0 {
      var i := n - 1;
      assert FixTabs(lines)[i] == FixLine(lines[i], EnabledAt(lines, i));
      FixedLine(lines, i);
      GuardsHaveNoTabs();
      if EnabledAt(FixTabs(lines), i) {
        EnabledBefore(lines, i);
      }
    }
  }

  /** Line `i` becomes an "off" guard, although it was none. */
  predicate BecomesGuardOff(lines: seq<string>, i: nat)
    requires i < |lines|
  {
    EnabledAt(lines, i + 1) && Strip(FixLine(lines[i], EnabledAt(lines, i))) == GuardOff()
  }

  lemma {:induction false} AgreeUpTo(lines: seq<string>, n: nat)
    requires n <= |lines| && forall i :: 0 <= i < n ==> !BecomesGuardOff(lines, i)
    ensures EnabledAt(FixTabs(lines), n) == EnabledAt(lines, n)
  {
    hide Strip, GuardOn, GuardOff, Expand, FixLine;
    if n > 0 {
      var i := n - 1;
      AgreeUpTo(lines, i);
      assert !BecomesGuardOff(lines, i);
      assert FixTabs(lines)[i] == FixLine(lines[i], EnabledAt(lines, i));
      FixedLine(lines, i);
      GuardsHaveNoTabs();
    }
  }

  /** The two passes agree on which lines are enabled exactly when no line becomes an "off" guard. */
  lemma {:induction false} PassesAgreeWhen(lines: seq<string>)
    ensures (forall n :: 0 <= n <= |lines| ==> EnabledAt(FixTabs(lines), n) == EnabledAt(lines, n)) <==>
            forall i :: 0 <= i < |lines| ==> !BecomesGuardOff(lines, i)
  {
    hide Strip, GuardOn, GuardOff, Expand, FixLine, EnabledAt;
    if forall i :: 0 <= i < |lines| ==> !BecomesGuardOff(lines, i) {
      forall n | 0 <= n <= |lines| ensures EnabledAt(FixTabs(lines), n) == EnabledAt(lines, n) {
        AgreeUpTo(lines, n);
      }
    } else {
      var i :| 0 <= i < |lines| && BecomesGuardOff(lines, i);
      assert FixTabs(lines)[i] == FixLine(lines[i], EnabledAt(lines, i));
      AtLine(FixTabs(lines), i);
      GuardsHaveNoTabs();
      assert EnabledAt(FixTabs(lines), i + 1) != EnabledAt(lines, i + 1);
    }
  }

  lemma {:induction false} NoTabsLeft(lines: seq<string>)
    ensures !HasTabs(FixTabs(lines))
    ensures FixTabs(FixTabs(lines)) == FixTabs(lines)
  {
    hide Strip, GuardOn, GuardOff, Expand, EnabledAt, EnabledAfter, FixLine;
    var fixedLines := FixTabs(lines);
    forall i | 0 <= i < |lines| ensures !TabAt(fixedLines, i) {
      AtLine(lines, i);
      AtLine(fixedLines, i);
      FixedLine(lines, i);
      if EnabledAt(fixedLines, i + 1) {
        EnabledBefore(lines, i + 1);
      }
    }
    forall i | 0 <= i < |lines| ensures FixLine(fixedLines[i], EnabledAt(fixedLines, i)) == fixedLines[i] {
      AtLine(fixedLines, i);
    }
  }

  // ----- Fixed files are read back line by line -----

  lemma {:induction false} ExpandKeepsLine(line: string)
    requires IsLine(line)
    ensures IsLine(Expand(line, 0)) && (Terminated(line) ==> Terminated(Expand(line, 0)))
  {
    var body := line[..|line| - 1];
    var end := [line[|line| - 1]];
    assert line == body + end;
    ExpandConcat(body, end, 0);
    ExpandRemovesTabs(body, 0);
    ExpandRemovesTabs(line, 0);
    if Terminated(line) {
      assert Expand(line, 0) == Expand(body, 0) + "\n";
    } else {
      assert '\n' !in line;
    }
  }

  lemma FixedLinesAreLines(lines: seq<string>)
    requires AreLines(lines)
    ensures AreLines(FixTabs(lines))
  {
    forall i | 0 <= i < |lines|
      ensures IsLine(FixTabs(lines)[i]) && (i < |lines| - 1 ==> Terminated(FixTabs(lines)[i]))
    {
      ExpandKeepsLine(lines[i]);
    }
  }

  lemma TrimmedLinesAreLines(lines: seq<string>)
    requires AreLines(lines)
    ensures AreLines(Trim(lines))
  {
  }

  /**
   For every file: after the tab fix, the tab check finds none and a second fix changes
   nothing; and the lines that were not checked are as they were.
   */
  lemma TabFixIsFinal(text: string)
    ensures ReadLines(TabsFixed(text)) == FixTabs(ReadLines(text))
    ensures !HasTabs(ReadLines(TabsFixed(text))) && TabsFixed(TabsFixed(text)) == TabsFixed(text)
    ensures forall i :: 0 <= i < |ReadLines(text)| && !IsChecked(ReadLines(text)[i], EnabledAt(ReadLines(text), i)) ==>
              ReadLines(TabsFixed(text))[i] == ReadLines(text)[i]
  {
    hide Strip, Expand, EnabledAt, EnabledAfter, ReadLines, WriteLines, IsChecked, HasTabs;
    var lines := ReadLines(text);
    ReadThenWrite(text);
    FixedLinesAreLines(lines);
    WriteThenRead(FixTabs(lines));
    NoTabsLeft(lines);
  }

  // ----- Both fixers -----

  /** Once a line is trimmed, fixing its tabs leaves it trimmed. */
  lemma {:induction false} TabFixKeepsTrim(line: string, enabled: bool)
    requires TrimLine(line) == line
    ensures TrimLine(FixLine(line, enabled)) == FixLine(line, enabled)
  {
    hide RStrip, Strip, IsSpace;
    var r := RStrip(line);
    assert line == r + "\n";
    var body := Expand(r, 0);
    ExpandConcat(r, "\n", 0);
    assert Expand(line, 0) == body + "\n";
    if r == "" {
      assert body == "";
    } else {
      var front, last := r[..|r| - 1], [r[|r| - 1]];
      assert r == front + last;
      ExpandConcat(front, last, 0);
      TabIsSpace();
      assert body == Expand(front, 0) + last;
    }
    TabIsSpace();
    assert AllSpace("\n");
    RStripUnique(body, "\n");
  }

  lemma TabIsSpace()
    ensures IsSpace('\t') && IsSpace('\n')
  {
  }

  /** Trimming, then fixing tabs, as the style check does, reaches a fixpoint of both. */
  lemma JointFixpoint(text: string)
    ensures var done := TabsFixed(Trimmed(text));
            && !HasTrailing(ReadLines(done)) && !HasTabs(ReadLines(done))
            && Trimmed(done) == done && TabsFixed(done) == done
  {
    hide Strip, RStrip, Expand, EnabledAt, EnabledAfter, ReadLines, WriteLines, FixLine, TrimLine, HasTabs;
    ReadThenWrite(text);
    var trimmed := Trim(ReadLines(text));
    TrimmedLinesAreLines(ReadLines(text));
    WriteThenRead(trimmed);
    var done := TabsFixed(Trimmed(text));
    TabFixIsFinal(Trimmed(text));
    var lines := ReadLines(done);
    forall i | 0 <= i < |lines| ensures TrimLine(lines[i]) == lines[i] {
      TrimTwice(ReadLines(text)[i]);
      TabFixKeepsTrim(trimmed[i], EnabledAt(trimmed, i));
    }
    assert Trim(lines) == lines;
    ReadThenWrite(done);
  }

  lemma TrimTwice(line: string)
    ensures TrimLine(TrimLine(line)) == TrimLine(line)
  {
  }

  /** The whitespace check on its own: it is clean exactly when the fix changes nothing. */
  lemma TrimIsFinal(text: string)
    ensures !HasTrailing(ReadLines(Trimmed(text)))
    ensures HasTrailing(ReadLines(text)) <==> Trimmed(text) != text
  {
    hide RStrip, ReadLines, WriteLines, TrimLine;
    ReadThenWrite(text);
    var lines := ReadLines(text);
    TrimmedLinesAreLines(lines);
    WriteThenRead(Trim(lines));
    forall i | 0 <= i < |lines| ensures TrimLine(Trim(lines)[i]) == Trim(lines)[i] {
      TrimTwice(lines[i]);
    }
    if HasTrailing(lines) {
      var i :| 0 <= i < |lines| && TrimLine(lines[i]) != lines[i];
      assert Trim(lines)[i] != lines[i];
    } else {
      assert Trim(lines) == lines;
    }
  }

  // ----- The passes disagree -----

  lemma NotYetAGuard()
    ensures Strip(" //\tclang-format off") == "//\tclang-format off"
  {
    hide Strip;
    assert " //\tclang-format off" == " " + "//\tclang-format off" + "";
    StripUnique(" ", "//\tclang-format off", "");
  }

  lemma NowAGuard()
    ensures Strip(" // clang-format off") == GuardOff()
  {
    hide Strip;
    assert " // clang-format off" == " " + GuardOff() + "";
    StripUnique(" ", GuardOff(), "");
  }

  lemma {:induction false} PlainColumns(a: string, col: nat)
    requires forall i :: 0 <= i < |a| ==> a[i] != '\t' && a[i] != '\n' && a[i] != '\r'
    ensures ColumnAfter(a, col) == col + |a|
  {
    if a != "" {
      PlainColumns(a[1..], col + 1);
    }
  }

  lemma OneTab(a: string, b: string)
    requires forall i :: 0 <= i < |a| ==> a[i] != '\t' && a[i] != '\n' && a[i] != '\r'
    requires '\t' !in b
    ensures Expand(a + "\t" + b, 0) == a + Spaces(TAB_SIZE - |a| % TAB_SIZE) + b
  {
    var tab := "\t";
    assert Expand(tab, |a|) == Spaces(TAB_SIZE - |a| % TAB_SIZE);
    hide Expand, ColumnAfter;
    PlainColumns(a, 0);
    ExpandConcat(a + tab, b, 0);
    ExpandConcat(a, tab, 0);
    ExpandRemovesTabs(a, 0);
    ExpandRemovesTabs(b, ColumnAfter(a + tab, 0));
  }

  lemma OneSpace()
    ensures Spaces(1) == " " && TAB_SIZE - 3 % TAB_SIZE == 1
  {
  }

  lemma FixedToAGuard()
    ensures Expand(" //\tclang-format off", 0) == " // clang-format off"
  {
    hide Expand;
    OneSpace();
    OneTab(" //", "clang-format off");
    Spelled();
  }

  lemma Spelled()
    ensures " //" + "\t" + "clang-format off" == " //\tclang-format off"
    ensures " //" + " " + "clang-format off" == " // clang-format off"
  {
  }

  /** Fixing this line makes it a guard, so what follows is enabled only in the first pass. */
  lemma AGuardCanAppear()
    ensures EnabledAt([" //\tclang-format off"], 1) && !EnabledAt(FixTabs([" //\tclang-format off"]), 1)
  {
    hide Strip, Expand;
    NotYetAGuard();
    NowAGuard();
    FixedToAGuard();
    assert "//\tclang-format off"[2] == '\t' && GuardOn()[2] == ' ' && GuardOff()[2] == ' ';
    assert " //\tclang-format off"[3] == '\t';
    assert GuardOn()[17] != GuardOff()[17];
    assert EnabledAt([" //\tclang-format off"], 0);
    assert FixTabs([" //\tclang-format off"]) == [" // clang-format off"];
  }
}
