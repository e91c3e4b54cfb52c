/** Lines of a text, as a text file is read and written, and the whitespace around them. */
module TextLines {

  /** The characters that count as whitespace when a string is stripped. */
  predicate IsSpace(c: char) {
    var n := c as int;
    || 0x09 <= n <= 0x0d || 0x1c <= n <= 0x20 || n == 0x85 || n == 0xa0 || n == 0x1680
    || 0x2000 <= n <= 0x200a || n == 0x2028 || n == 0x2029 || n == 0x202f || n == 0x205f || n == 0x3000
  }

  ghost predicate AllSpace(s: string) {
    forall i :: 0 <= i < |s| ==> IsSpace(s[i])
  }

  function RStrip(s: string): (r: string)
    ensures r <= s && AllSpace(s[|r|..])
    ensures r == "" || !IsSpace(r[|r| - 1])
  {
    if s == "" || !IsSpace(s[|s| - 1]) then s else RStrip(s[..|s| - 1])
  }

  function LStrip(s: string): (r: string)
    ensures |r| <= |s| && r == s[|s| - |r|..] && AllSpace(s[..|s| - |r|])
    ensures r == "" || !IsSpace(r[0])
  {
    if s == "" || !IsSpace(s[0]) then s else LStrip(s[1..])
  }

  function Strip(s: string): string {
    LStrip(RStrip(s))
  }

  /** `core` is what is left of a string when the whitespace around it is gone. */
  ghost predicate IsCore(core: string) {
    core == "" || (!IsSpace(core[0]) && !IsSpace(core[|core| - 1]))
  }

  lemma {:induction false} RStripUnique(r: string, b: string)
    requires AllSpace(b) && (r == "" || !IsSpace(r[|r| - 1]))
    ensures RStrip(r + b) == r
  {
    hide IsSpace;
    if b == "" {
      assert r + b == r;
    } else {
      assert (r + b)[..|r + b| - 1] == r + b[..|b| - 1];
      RStripUnique(r, b[..|b| - 1]);
    }
  }

  lemma {:induction false} LStripUnique(a: string, r: string)
    requires AllSpace(a) && (r == "" || !IsSpace(r[0]))
    ensures LStrip(a + r) == r
  {
    hide IsSpace;
    if a == "" {
      assert a + r == r;
    } else {
      assert (a + r)[1..] == a[1..] + r;
      LStripUnique(a[1..], r);
    }
  }

  lemma {:induction false} StripUnique(a: string, core: string, b: string)
    requires AllSpace(a) && AllSpace(b) && IsCore(core)
    ensures Strip(a + core + b) == core
  {
    hide IsSpace, RStrip, LStrip;
    if core == "" {
      assert a + core + b == "" + (a + b);
      RStripUnique("", a + b);
      assert LStrip("") == "";
    } else {
      RStripUnique(a + core, b);
      LStripUnique(a, core);
    }
  }

  lemma SplitAtEnd(s: string, r: string)
    requires r <= s
    ensures s == r + s[|r|..]
  {
  }

  lemma SplitAtStart(s: string, r: string)
    requires |r| <= |s| && r == s[|s| - |r|..]
    ensures s == s[..|s| - |r|] + r
  {
  }

  /** A string is its core with whitespace on both sides. */
  lemma {:induction false} StripParts(s: string) returns (a: string, b: string)
    ensures s == a + Strip(s) + b && AllSpace(a) && AllSpace(b) && IsCore(Strip(s))
  {
    hide IsSpace, RStrip, LStrip, AllSpace;
    var r := RStrip(s);
    var core := LStrip(r);
    a, b := r[..|r| - |core|], s[|r|..];
    SplitAtEnd(s, r);
    SplitAtStart(r, core);
    if core != "" {
      assert core[|core| - 1] == r[|r| - 1];
    }
  }

  // ----- Lines -----

  function FirstNewline(text: string): (n: nat)
    ensures n <= |text| && (n < |text| ==> text[n] == '\n')
    ensures forall i :: 0 <= i < n ==> text[i] != '\n'
  {
    if text == "" || text[0] == '\n' then 0 else 1 + FirstNewline(text[1..])
  }

  /** The lines of a text, each with its newline; the last line may lack one. */
  function ReadLines(text: string): seq<string>
    decreases |text|
  {
    var n := FirstNewline(text);
    if text == "" then []
    else if n == |text| then [text]
    else [text[..n + 1]] + ReadLines(text[n + 1..])
  }

  function WriteLines(lines: seq<string>): string {
    if lines == [] then "" else lines[0] + WriteLines(lines[1..])
  }

  ghost predicate IsLine(line: string) {
    line != "" && forall i :: 0 <= i < |line| - 1 ==> line[i] != '\n'
  }

  ghost predicate Terminated(line: string) {
    IsLine(line) && line[|line| - 1] == '\n'
  }

  ghost predicate AreLines(lines: seq<string>) {
    forall i :: 0 <= i < |lines| ==> IsLine(lines[i]) && (i < |lines| - 1 ==> Terminated(lines[i]))
  }

  lemma {:induction false} ReadThenWrite(text: string)
    ensures WriteLines(ReadLines(text)) == text && AreLines(ReadLines(text))
    decreases |text|
  {
    hide FirstNewline;
    var n := FirstNewline(text);
    if text != "" && n < |text| {
      var first, rest := text[..n + 1], ReadLines(text[n + 1..]);
      ReadThenWrite(text[n + 1..]);
      assert ReadLines(text) == [first] + rest && ([first] + rest)[1..] == rest;
      assert text == first + text[n + 1..];
      assert Terminated(first);
    }
  }

  lemma {:induction false} WriteThenRead(lines: seq<string>)
    requires AreLines(lines)
    ensures ReadLines(WriteLines(lines)) == lines
  {
    if lines != [] {
      var line, rest, text := lines[0], WriteLines(lines[1..]), WriteLines(lines);
      WriteThenRead(lines[1..]);
      var n := FirstNewline(text);
      if line[|line| - 1] == '\n' {
        assert text[|line| - 1] == '\n' && n == |line| - 1;
        assert text[..n + 1] == line && text[n + 1..] == rest;
      } else {
        assert rest == "" && text == line;
      }
    }
  }
}
