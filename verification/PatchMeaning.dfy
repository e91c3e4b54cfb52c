/** What a printed patch looks like, and exactly which lines the parser accepts. */
module PatchMeaning {
  import opened Wrappers
  import opened Decimals
  import opened PatchSet
  import opened PatchTheorems

  // ----- Lines -----

  /** A pattern of a prefix and the rest of the line matches with or without a newline at the end. */
  lemma MatchesWhen(line: string, prefix: string, text: string)
    requires OneLine(prefix)
    ensures After(line, prefix) == Some(text) <==>
            OneLine(text) && (line == prefix + text || line == prefix + text + "\n")
  {
    var body := Body(line);
    if After(line, prefix) == Some(text) {
      assert body == prefix + text;
      assert line == body || line == body + "\n";
    }
    if OneLine(text) && line == prefix + text {
      assert body == line by {
        if line != "" {
          assert line[|line| - 1] in prefix || line[|line| - 1] in text;
        }
      }
    }
    if OneLine(text) && line == prefix + text + "\n" {
      BodyOfLine(prefix + text);
    }
  }

  /** The printed lines of a chunk, in order: a mark, the text, and a newline. */
  lemma {:induction false} PrintedLines(lines: seq<ChunkLine>, i: nat)
    requires i < |lines|
    ensures |WriteChunkLines(lines)| == |lines|
    ensures WriteChunkLines(lines)[i] ==
            (match lines[i].side case Src => "-" case Dst => "+" case Both => " ") + lines[i].text + "\n"
  {
    if i > 0 {
      PrintedLines(lines[1..], i - 1);
    } else if |lines| > 1 {
      PrintedLines(lines[1..], 0);
    }
  }

  // ----- Chunk headers -----

  predicate AreDigits(s: string) {
    s != "" && forall i :: 0 <= i < |s| ==> IsDigit(s[i])
  }

  /** Four numbers between the fixed parts of a chunk header, and anything after them. */
  ghost predicate IsHeader(line: string, p: string, n: string, q: string, m: string, rest: string) {
    && AreDigits(p) && AreDigits(n) && AreDigits(q) && AreDigits(m)
    && line == "@@ -" + (p + ("," + (n + (" +" + (q + ("," + (m + (" @@" + rest))))))))
  }

  lemma DigitsTaken(digits: string, rest: string)
    requires AreDigits(digits) && rest != "" && !IsDigit(rest[0])
    ensures TakeNumber(digits + rest) == Some((Number(digits), rest))
  {
    DigitsOfDecimal(digits, rest);
    assert (digits + rest)[..|digits|] == digits && (digits + rest)[|digits|..] == rest;
  }

  /** Every header is recognised, with its first and third number. */
  lemma HeaderRecognised(line: string, p: string, n: string, q: string, m: string, rest: string)
    requires IsHeader(line, p, n, q, m, rest)
    ensures Positions(line) == Some((Number(p), Number(q)))
  {
    hide Skip, TakeNumber, Number, AreDigits;
    var e8 := " @@" + rest;
    var e7 := "," + (m + e8);
    var e6 := " +" + (q + e7);
    var e5 := "," + (n + e6);
    assert line == "@@ -" + (p + e5);
    Skipped("@@ -", p + e5);
    DigitsTaken(p, e5);
    Skipped(",", n + e6);
    DigitsTaken(n, e6);
    Skipped(" +", q + e7);
    DigitsTaken(q, e7);
    Skipped(",", m + e8);
    DigitsTaken(m, e8);
    Skipped(" @@", rest);
  }

  lemma NumberSplit(s: string) returns (digits: string)
    requires TakeNumber(s).Some?
    ensures AreDigits(digits) && s == digits + TakeNumber(s).value.1 && Number(digits) == TakeNumber(s).value.0
  {
    digits := s[..DigitCount(s)];
  }

  lemma SkipSplit(s: string, prefix: string)
    requires Skip(s, prefix).Some?
    ensures s == prefix + Skip(s, prefix).value
  {
  }

  /** And nothing else is. */
  lemma OnlyHeadersRecognised(line: string) returns (p: string, n: string, q: string, m: string, rest: string)
    requires Positions(line).Some?
    ensures IsHeader(line, p, n, q, m, rest) && Positions(line) == Some((Number(p), Number(q)))
  {
    hide Skip, TakeNumber, Number, AreDigits;
    var a := Skip(line, "@@ -").value;
    SkipSplit(line, "@@ -");
    p := NumberSplit(a);
    var b := TakeNumber(a).value.1;
    SkipSplit(b, ",");
    var c := Skip(b, ",").value;
    n := NumberSplit(c);
    var d := TakeNumber(c).value.1;
    SkipSplit(d, " +");
    var e := Skip(d, " +").value;
    q := NumberSplit(e);
    var f := TakeNumber(e).value.1;
    SkipSplit(f, ",");
    var g := Skip(f, ",").value;
    m := NumberSplit(g);
    var h := TakeNumber(g).value.1;
    SkipSplit(h, " @@");
    rest := Skip(h, " @@").value;
  }

  /**
   A printed chunk header holds its two positions and, in this order, the number of "-" and
   blank lines and the number of "+" and blank lines that follow it.
   */
  lemma PrintedHeader(c: Chunk) returns (p: string, n: string, q: string, m: string)
    ensures var printed := WriteChunk(c);
            && IsHeader(printed[0], p, n, q, m, "\n")
            && Number(p) == c.srcPos && Number(n) == Marked(printed[1..], '-')
            && Number(q) == c.dstPos && Number(m) == Marked(printed[1..], '+')
  {
    LengthsAreCounts(c.lines);
    p, n, q, m := Decimal(c.srcPos), Decimal(SrcLen(c.lines)), Decimal(c.dstPos), Decimal(DstLen(c.lines));
    NumberOfDecimal(c.srcPos);
    NumberOfDecimal(SrcLen(c.lines));
    NumberOfDecimal(c.dstPos);
    NumberOfDecimal(DstLen(c.lines));
    hide Decimal, Number, SrcLen, DstLen, Marked;
    HeaderText(p, n, q, m);
    assert WriteChunk(c)[1..] == WriteChunkLines(c.lines);
  }

  lemma HeaderText(p: string, n: string, q: string, m: string)
    ensures "@@ -" + p + "," + n + " +" + q + "," + m + " @@\n" ==
            "@@ -" + (p + ("," + (n + (" +" + (q + ("," + (m + (" @@" + "\n"))))))))
  {
    assert " @@\n" == " @@" + "\n";
  }

  // ----- What a line is -----

  function MarkText(side: Side): string {
    match side case Src => "-" case Dst => "+" case Both => " "
  }

  ghost predicate IsLineOf(line: string, text: string) {
    line == text || line == text + "\n"
  }

  /** A file name line is what the two patterns for it match. */
  lemma SrcFileWhen(line: string, name: string)
    ensures Classify(line) == SrcFile(name) <==> OneLine(name) && IsLineOf(line, "--- " + name)
  {
    hide Positions, After;
    MatchesWhen(line, "--- ", name);
  }

  lemma DstFileWhen(line: string, name: string)
    ensures Classify(line) == DstFile(name) <==> OneLine(name) && IsLineOf(line, "+++ " + name)
  {
    hide Positions, After, IsLineOf;
    FilePatterns(line, name);
  }

  lemma FilePatterns(line: string, name: string)
    ensures After(line, "+++ ") == Some(name) <==> OneLine(name) && IsLineOf(line, "+++ " + name)
    ensures IsLineOf(line, "+++ " + name) ==> After(line, "--- ").None?
  {
    hide After;
    MatchesWhen(line, "+++ ", name);
    if IsLineOf(line, "+++ " + name) {
      StartsWithPlus(line, name);
    }
  }

  lemma StartsWithPlus(line: string, name: string)
    requires IsLineOf(line, "+++ " + name)
    ensures After(line, "--- ").None?
  {
    assert line[0] == '+';
    OtherPrefix(line, "--- ");
  }

  /** A content line is a mark and a text without a newline, unless it looks like a file name line. */
  lemma ContentLineWhen(line: string, l: ChunkLine)
    ensures Classify(line) == Content(l) <==>
            OneLine(l.text) && IsClean(l) && IsLineOf(line, MarkText(l.side) + l.text)
  {
    hide Positions, Classify, IsClean;
    if OneLine(l.text) && IsClean(l) && IsLineOf(line, MarkText(l.side) + l.text) {
      ContentIsRecognised(line, l);
    }
    if Classify(line) == Content(l) {
      ReadContentIsClean(line);
      ContentHasMark(line, l);
    }
  }

  lemma ContentHasMark(line: string, l: ChunkLine)
    requires Classify(line) == Content(l)
    ensures IsLineOf(line, MarkText(l.side) + l.text)
  {
    hide Positions;
    MatchesWhen(line, MarkText(l.side), l.text);
  }

  lemma ContentIsRecognised(line: string, l: ChunkLine)
    requires OneLine(l.text) && IsClean(l) && IsLineOf(line, MarkText(l.side) + l.text)
    ensures Classify(line) == Content(l)
  {
    var mark := MarkText(l.side);
    MatchesWhen(line, mark, l.text);
    assert line[0] == mark[0];
    NotAChunkHeader(line);
    hide Positions, After;
    NotAFile(line, l, "--- ");
    NotAFile(line, l, "+++ ");
    OtherMarks(line, mark);
  }

  lemma NotAFile(line: string, l: ChunkLine, prefix: string)
    requires OneLine(l.text) && IsClean(l) && IsLineOf(line, MarkText(l.side) + l.text)
    requires prefix == "--- " || prefix == "+++ "
    ensures After(line, prefix).None?
  {
    BodyOf(line, MarkText(l.side) + l.text);
    assert MarkText(l.side) == [Mark(l.side)];
    StartsWith('-', "-- ", l);
    StartsWith('+', "++ ", l);
    assert "--- " == ['-'] + "-- " && "+++ " == ['+'] + "++ ";
  }

  lemma BodyOf(line: string, text: string)
    requires OneLine(text) && IsLineOf(line, text)
    ensures Body(line) == text
  {
    if line == text {
      assert line != "" ==> line[|line| - 1] in text;
    } else {
      BodyOfLine(text);
    }
  }

  lemma OtherMarks(line: string, mark: string)
    requires mark in {"-", "+", " "} && line != "" && line[0] == mark[0]
    ensures mark != "-" ==> After(line, "-").None?
    ensures mark == " " ==> After(line, "+").None?
  {
    if mark != "-" {
      OtherPrefix(line, "-");
    }
    if mark == " " {
      OtherPrefix(line, "+");
    }
  }

  /** Numbers are in base ten. */
  lemma BaseTen()
    ensures Decimal(120) == "120" && Number("120") == 120
  {
    assert Decimal(1) == "1" && Decimal(12) == "12";
    NumberOfDecimal(120);
  }

  // ----- When parsing succeeds -----

  ghost predicate HasChunk(ps: seq<Patch>) {
    exists i :: 0 <= i < |ps| && ps[i].chunks != []
  }

  lemma {:induction false} AddLineWhen(ps: seq<Patch>, line: ChunkLine)
    ensures AddLine(ps, line).Some? <==> HasChunk(ps)
    ensures AddLine(ps, line).Some? ==>
              |AddLine(ps, line).value| == |ps| && HasChunk(AddLine(ps, line).value)
  {
    if ps != [] {
      var n := |ps| - 1;
      if ps[n].chunks == [] {
        AddLineWhen(ps[..n], line);
        if i :| 0 <= i < |ps| && ps[i].chunks != [] {
          assert ps[..n][i].chunks != [];
        }
        if AddLine(ps, line).Some? {
          var front := AddLine(ps[..n], line).value;
          var i :| 0 <= i < |front| && front[i].chunks != [];
          assert AddLine(ps, line).value[i].chunks != [];
        }
      } else {
        assert AddLine(ps, line).value[n].chunks != [];
      }
    }
  }

  /** Whether a line is accepted, when a patch or a chunk may have been started already. */
  ghost predicate Accepted(kind: Kind, patchStarted: bool, chunkStarted: bool) {
    match kind
    case SrcFile(_) => true
    case DstFile(_) => patchStarted
    case ChunkStart(_, _) => patchStarted
    case Content(_) => chunkStarted
    case Unknown => false
  }

  lemma StepWhen(ps: seq<Patch>, line: string)
    ensures Step(ps, line).Some? <==> Accepted(Classify(line), ps != [], HasChunk(ps))
    ensures Step(ps, line).Some? ==>
              && (Step(ps, line).value != [] <==> ps != [] || Classify(line).SrcFile?)
              && (HasChunk(Step(ps, line).value) <==> HasChunk(ps) || Classify(line).ChunkStart?)
  {
    hide Classify;
    match Classify(line)
    case Content(l) => AddLineWhen(ps, l);
    case SrcFile(name) =>
      var ps' := ps + [Patch(name, "", [])];
      if i :| 0 <= i < |ps| && ps[i].chunks != [] {
        assert ps'[i].chunks != [];
      }
    case DstFile(name) =>
      if ps != [] {
        var ps' := ps[..|ps| - 1] + [ps[|ps| - 1].(dst := name)];
        assert forall i :: 0 <= i < |ps| ==> ps'[i].chunks == ps[i].chunks;
      }
    case ChunkStart(_, _) =>
      if ps != [] {
        assert Step(ps, line).value[|ps| - 1].chunks != [];
      }
    case Unknown =>
  }

  ghost predicate StartedBefore(lines: seq<string>, i: nat, chunk: bool)
    requires i <= |lines|
  {
    exists j :: 0 <= j < i && if chunk then Classify(lines[j]).ChunkStart? else Classify(lines[j]).SrcFile?
  }

  lemma StartedStep(lines: seq<string>, i: nat, chunk: bool)
    requires 0 < i <= |lines|
    ensures StartedBefore(lines, i, chunk) <==>
            || (if chunk then Classify(lines[0]).ChunkStart? else Classify(lines[0]).SrcFile?)
            || StartedBefore(lines[1..], i - 1, chunk)
  {
    hide Classify;
    if StartedBefore(lines, i, chunk) {
      var j :| 0 <= j < i && if chunk then Classify(lines[j]).ChunkStart? else Classify(lines[j]).SrcFile?;
      assert j > 0 ==> lines[1..][j - 1] == lines[j];
    }
    if StartedBefore(lines[1..], i - 1, chunk) {
      var j :| 0 <= j < i - 1 &&
               if chunk then Classify(lines[1..][j]).ChunkStart? else Classify(lines[1..][j]).SrcFile?;
      assert lines[j + 1] == lines[1..][j];
    }
  }

  ghost predicate AcceptedAt(lines: seq<string>, i: nat, patchStarted: bool, chunkStarted: bool)
    requires i < |lines|
  {
    Accepted(Classify(lines[i]), patchStarted || StartedBefore(lines, i, false),
             chunkStarted || StartedBefore(lines, i, true))
  }

  ghost predicate AllAccepted(lines: seq<string>, patchStarted: bool, chunkStarted: bool) {
    forall i :: 0 <= i < |lines| ==> AcceptedAt(lines, i, patchStarted, chunkStarted)
  }

  lemma AllAcceptedStep(lines: seq<string>, patchStarted: bool, chunkStarted: bool)
    requires lines != []
    ensures AllAccepted(lines, patchStarted, chunkStarted) <==>
            && Accepted(Classify(lines[0]), patchStarted, chunkStarted)
            && AllAccepted(lines[1..], patchStarted || Classify(lines[0]).SrcFile?,
                           chunkStarted || Classify(lines[0]).ChunkStart?)
  {
    hide Classify, Accepted, StartedBefore;
    NothingBefore(lines);
    var p, k := patchStarted || Classify(lines[0]).SrcFile?, chunkStarted || Classify(lines[0]).ChunkStart?;
    forall i | 0 < i < |lines|
      ensures AcceptedAt(lines, i, patchStarted, chunkStarted) <==> AcceptedAt(lines[1..], i - 1, p, k)
    {
      StartedStep(lines, i, false);
      StartedStep(lines, i, true);
    }
    assert AcceptedAt(lines, 0, patchStarted, chunkStarted) <==>
           Accepted(Classify(lines[0]), patchStarted, chunkStarted);
    hide AcceptedAt;
    if AllAccepted(lines, patchStarted, chunkStarted) {
      forall i | 0 <= i < |lines| - 1 ensures AcceptedAt(lines[1..], i, p, k) {
        assert AcceptedAt(lines, i + 1, patchStarted, chunkStarted);
      }
    }
    if AllAccepted(lines[1..], p, k) {
      forall i | 0 < i < |lines| ensures AcceptedAt(lines, i, patchStarted, chunkStarted) {
        assert AcceptedAt(lines[1..], i - 1, p, k);
      }
    }
  }

  lemma {:induction false} ParseFromWhen(ps: seq<Patch>, lines: seq<string>)
    ensures ParseFrom(ps, lines).Some? <==> AllAccepted(lines, ps != [], HasChunk(ps))
    decreases |lines|
  {
    hide Classify, Step, HasChunk, AcceptedAt, Accepted;
    if lines != [] {
      StepWhen(ps, lines[0]);
      AllAcceptedStep(lines, ps != [], HasChunk(ps));
      if Step(ps, lines[0]).Some? {
        ParseFromWhen(Step(ps, lines[0]).value, lines[1..]);
      }
    }
  }

  lemma NothingBefore(lines: seq<string>)
    ensures !StartedBefore(lines, 0, false) && !StartedBefore(lines, 0, true)
  {
  }

  /**
   A list of lines is parsed without an error if and only if every line is of a known kind,
   and comes after the lines it needs: a new file name or a chunk after an old file name, and
   content after a chunk header.
   */
  lemma ParsedWhen(lines: seq<string>)
    ensures Parse(lines).Some? <==> forall i :: 0 <= i < |lines| ==> AcceptedAt(lines, i, false, false)
  {
    hide AcceptedAt, ParseFrom;
    ParseFromWhen([], lines);
    assert !HasChunk([]);
  }

  /** Content after the header of another file still goes to the chunk started last. */
  lemma AStrayLine(c: Chunk, q: Patch, line: ChunkLine)
    requires q.chunks == []
    ensures AddLine([Patch("a", "b", [c]), q], line) == Some([Patch("a", "b", [c.(lines := c.lines + [line])]), q])
  {
    var p, p' := Patch("a", "b", [c]), Patch("a", "b", [c.(lines := c.lines + [line])]);
    assert [p, q][..1] == [p] && [p][..0] == [];
    assert AddToChunk(p, line) == p';
    assert AddLine([p], line) == Some([] + [p']) && [] + [p'] == [p'];
    assert [p'] + [q] == [p', q];
  }
}
