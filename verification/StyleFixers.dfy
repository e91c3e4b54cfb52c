/**
 The whitespace and tab fixers of the style checker. Tabs are left alone between
 clang-format guards, and fixing tabs can turn an ordinary line into a guard.
 */
module StyleFixers {
  import opened TextLines

  const TAB_SIZE: nat := 4

  function GuardOn(): string {
    "// clang-format on"
  }

  function GuardOff(): string {
    "// clang-format off"
  }

  // ----- One line -----

  function Spaces(n: nat): string {
    seq(n, _ => ' ')
  }

  /** A line from column `col` on, with each tab replaced by spaces up to the next tab stop. */
  function Expand(s: string, col: nat): string {
    if s == "" then ""
    else if s[0] == '\t' then
      var n := TAB_SIZE - col % TAB_SIZE;
      Spaces(n) + Expand(s[1..], col + n)
    else
      [s[0]] + Expand(s[1..], if s[0] == '\n' || s[0] == '\r' then 0 else col + 1)
  }

  /** Whether clang-format is enabled after this line. */
  function EnabledAfter(line: string, enabled: bool): bool {
    if Strip(line) == GuardOn() then true
    else if Strip(line) == GuardOff() then false
    else enabled
  }

  /** Lines inside a guard are not checked, but the guard lines themselves are. */
  predicate IsChecked(line: string, enabled: bool) {
    EnabledAfter(line, enabled) || Strip(line) == GuardOn() || Strip(line) == GuardOff()
  }

  function FixLine(line: string, enabled: bool): string {
    if IsChecked(line, enabled) && '\t' in line then Expand(line, 0) else line
  }

  function TrimLine(line: string): string {
    RStrip(line) + "\n"
  }

  // ----- All lines -----

  /** Whether clang-format is enabled when line `n` is reached. */
  function EnabledAt(lines: seq<string>, n: nat): bool
    requires n <= |lines|
  {
    n == 0 || EnabledAfter(lines[n - 1], EnabledAt(lines, n - 1))
  }

  function FixTabs(lines: seq<string>): seq<string> {
    seq(|lines|, i requires 0 <= i < |lines| => FixLine(lines[i], EnabledAt(lines, i)))
  }

  predicate TabAt(lines: seq<string>, i: nat)
    requires i < |lines|
  {
    IsChecked(lines[i], EnabledAt(lines, i)) && '\t' in lines[i]
  }

  predicate HasTabs(lines: seq<string>) {
    exists i :: 0 <= i < |lines| && TabAt(lines, i)
  }

  lemma EnabledAtStart(lines: seq<string>)
    ensures EnabledAt(lines, 0)
  {
  }

  /** What the tab fixer makes of line `i`. */
  lemma AtLine(lines: seq<string>, i: nat)
    requires i < |lines|
    ensures EnabledAt(lines, i + 1) == if Strip(lines[i]) == GuardOn() then true
                                       else if Strip(lines[i]) == GuardOff() then false
                                       else EnabledAt(lines, i)
    ensures TabAt(lines, i) <==>
            && (EnabledAt(lines, i + 1) || Strip(lines[i]) == GuardOn() || Strip(lines[i]) == GuardOff())
            && '\t' in lines[i]
    ensures FixLine(lines[i], EnabledAt(lines, i)) == if TabAt(lines, i) then Expand(lines[i], 0) else lines[i]
  {
  }

  function Trim(lines: seq<string>): seq<string> {
    seq(|lines|, i requires 0 <= i < |lines| => TrimLine(lines[i]))
  }

  predicate HasTrailing(lines: seq<string>) {
    exists i :: 0 <= i < |lines| && TrimLine(lines[i]) != lines[i]
  }

  // ----- Files -----

  function TabsFixed(text: string): string {
    WriteLines(FixTabs(ReadLines(text)))
  }

  function Trimmed(text: string): string {
    WriteLines(Trim(ReadLines(text)))
  }

  class SourceFile {
    var text: string

    constructor (text: string)
      ensures this.text == text
    {
      this.text := text;
    }

    method CheckTrailingWhitespace(fix: bool) returns (found: bool)
      modifies this
      ensures found <==> HasTrailing(ReadLines(old(text)))
      ensures text == if fix then Trimmed(old(text)) else old(text)
    {
      hide RStrip, TrimLine, ReadLines, WriteLines;
      found := false;
      var original := ReadLines(text);
      var lines := original;
      for i := 0 to |original|
        invariant |lines| == |original| && text == old(text)
        invariant found <==> exists k :: 0 <= k < i && TrimLine(original[k]) != original[k]
        invariant forall k :: 0 <= k < |lines| ==>
                    lines[k] == if k < i && fix then TrimLine(original[k]) else original[k]
      {
        var fixedLine := TrimLine(lines[i]);
        if fixedLine != lines[i] {
          found := true;
          if !fix {
            return;
          }
          lines := lines[i := fixedLine];
        }
      }
      ReadThenWrite(text);
      assert fix ==> lines == Trim(original);
      if fix && found {
        text := WriteLines(lines);
      } else if fix {
        assert lines == original;
      }
    }

    method CheckTabs(fix: bool) returns (found: bool)
      modifies this
      ensures found <==> HasTabs(ReadLines(old(text)))
      ensures text == if fix then TabsFixed(old(text)) else old(text)
    {
      hide Strip, Expand, ReadLines, WriteLines, GuardOn, GuardOff, EnabledAt, EnabledAfter, TabAt, FixLine, IsChecked;
      EnabledAtStart(ReadLines(text));
      found := false;
      var enabled := true;
      var original := ReadLines(text);
      var lines := original;
      for i := 0 to |original|
        invariant |lines| == |original| && text == old(text) && enabled == EnabledAt(original, i)
        invariant found <==> exists k :: 0 <= k < i && TabAt(original, k)
        invariant forall k :: 0 <= k < |lines| ==>
                    lines[k] == if k < i && fix then FixLine(original[k], EnabledAt(original, k)) else original[k]
        invariant !found ==> lines == original
      {
        var line := lines[i];
        AtLine(original, i);
        var stripped := Strip(line);
        if stripped == GuardOn() {
          enabled := true;
        } else if stripped == GuardOff() {
          enabled := false;
        }
        if !enabled && stripped != GuardOn() && stripped != GuardOff() {
          continue;
        }
        if '\t' in line {
          found := true;
          if !fix {
            return;
          }
          lines := lines[i := Expand(line, 0)];
        }
      }
      ReadThenWrite(text);
      assert fix ==> lines == FixTabs(original);
      if fix && found {
        text := WriteLines(lines);
      }
    }
  }
}
