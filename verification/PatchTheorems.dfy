/** Reading what was written gives the patches back, and exactly when. */
module PatchTheorems {
  import opened Wrappers
  import opened Decimals
  import opened PatchSet

  // ----- Recognising what was written -----

  predicate OneLine(s: string) {
    '\n' !in s
  }

  lemma BodyOfLine(text: string)
    ensures Body(text + "\n") == text
  {
  }

  lemma AfterPrefix(prefix: string, text: string)
    requires OneLine(prefix) && OneLine(text)
    ensures After(prefix + text + "\n", prefix) == Some(text)
  {
  }

  lemma SrcFileRecognised(name: string)
    requires OneLine(name)
    ensures Classify("--- " + name + "\n") == SrcFile(name)
  {
  }

  lemma DstFileRecognised(name: string)
    requires OneLine(name)
    ensures Classify("+++ " + name + "\n") == DstFile(name)
  {
    AfterPrefix("+++ ", name);
    BodyOfLine("+++ " + name);
    assert ("+++ " + name)[0] == '+' && "--- "[0] == '-';
  }

  lemma NumberTaken(n: nat, rest: string)
    requires rest != "" && !IsDigit(rest[0])
    ensures TakeNumber(Decimal(n) + rest) == Some((n, rest))
  {
    DigitsOfDecimal(Decimal(n), rest);
    NumberOfDecimal(n);
    assert (Decimal(n) + rest)[..|Decimal(n)|] == Decimal(n);
    assert (Decimal(n) + rest)[|Decimal(n)|..] == rest;
  }

  lemma Skipped(prefix: string, rest: string)
    ensures Skip(prefix + rest, prefix) == Some(rest)
  {
  }

  lemma PositionsOfHeader(a: nat, b: nat, c: nat, d: nat)
    ensures Positions(ChunkHeader(a, b, c, d)) == Some((a, c))
  {
    hide Skip, TakeNumber, Decimal, Number;
    var h := " @@" + "\n";
    var g := Decimal(d) + h;
    var f := "," + g;
    var e := Decimal(c) + f;
    var d' := " +" + e;
    var c' := Decimal(b) + d';
    var b' := "," + c';
    var a' := Decimal(a) + b';
    assert ChunkHeader(a, b, c, d) == "@@ -" + a';
    Skipped("@@ -", a');
    NumberTaken(a, b');
    Skipped(",", c');
    NumberTaken(b, d');
    Skipped(" +", e);
    NumberTaken(c, f);
    Skipped(",", g);
    NumberTaken(d, h);
    Skipped(" @@", "\n");
  }

  lemma OtherPrefix(line: string, prefix: string)
    requires prefix != "" && line != "" && line[0] != prefix[0] && line[0] != '\n'
    ensures After(line, prefix).None?
  {
  }

  lemma HeaderStartsWithAt(a: nat, b: nat, c: nat, d: nat)
    ensures ChunkHeader(a, b, c, d) != "" && ChunkHeader(a, b, c, d)[0] == '@'
  {
  }

  lemma ChunkHeaderRecognised(a: nat, b: nat, c: nat, d: nat)
    ensures Classify(ChunkHeader(a, b, c, d)) == ChunkStart(a, c)
  {
    hide ChunkHeader, Positions, After;
    var line := ChunkHeader(a, b, c, d);
    PositionsOfHeader(a, b, c, d);
    HeaderStartsWithAt(a, b, c, d);
    OtherPrefix(line, "--- ");
    OtherPrefix(line, "+++ ");
  }

  /** A removed line that starts with "-- " reads as a file name, and so does an added one with "++ ". */
  predicate IsClean(line: ChunkLine) {
    match line.side
    case Src => !("-- " <= line.text)
    case Dst => !("++ " <= line.text)
    case Both => true
  }

  lemma NotAChunkHeader(line: string)
    requires line != "" && line[0] != '@'
    ensures Positions(line).None?
  {
  }

  /** A content line is recognised as what it is exactly when it is clean. */
  lemma ContentRecognised(line: ChunkLine)
    requires OneLine(line.text)
    ensures IsClean(line) ==> Classify(WriteLine(line)) == Content(line)
    ensures !IsClean(line) ==> !Classify(WriteLine(line)).Content?
  {
    hide Positions;
    var mark := [Mark(line.side)];
    var body := mark + line.text;
    BodyOfLine(body);
    AfterPrefix(mark, line.text);
    NotAChunkHeader(WriteLine(line));
    assert mark == match line.side case Src => "-" case Dst => "+" case Both => " ";
    StartsWith('-', "-- ", line);
    StartsWith('+', "++ ", line);
    assert "--- " == ['-'] + "-- " && "+++ " == ['+'] + "++ ";
  }

  lemma StartsWith(c: char, prefix: string, line: ChunkLine)
    ensures [c] + prefix <= [Mark(line.side)] + line.text <==> c == Mark(line.side) && prefix <= line.text
  {
    var body := [Mark(line.side)] + line.text;
    if [c] + prefix <= body {
      assert body[0] == c;
      assert prefix == ([c] + prefix)[1..] == body[1..][..|prefix|];
    }
    if c == Mark(line.side) && prefix <= line.text {
      assert body[..|prefix| + 1] == [c] + prefix;
    }
  }

  // ----- Round trip -----

  ghost predicate LinesOk(lines: seq<ChunkLine>) {
    forall i :: 0 <= i < |lines| ==> OneLine(lines[i].text)
  }

  ghost predicate ChunksOk(cs: seq<Chunk>) {
    forall i :: 0 <= i < |cs| ==> LinesOk(cs[i].lines)
  }

  /** No name and no line of the patches spans several lines. */
  ghost predicate PatchesOk(ps: seq<Patch>) {
    forall i :: 0 <= i < |ps| ==> OneLine(ps[i].src) && OneLine(ps[i].dst) && ChunksOk(ps[i].chunks)
  }

  ghost predicate LinesClean(lines: seq<ChunkLine>) {
    forall i :: 0 <= i < |lines| ==> IsClean(lines[i])
  }

  ghost predicate ChunksClean(cs: seq<Chunk>) {
    forall i :: 0 <= i < |cs| ==> LinesClean(cs[i].lines)
  }

  ghost predicate PatchesClean(ps: seq<Patch>) {
    forall i :: 0 <= i < |ps| ==> ChunksClean(ps[i].chunks)
  }

  lemma {:induction false} ParseConcat(ps: seq<Patch>, a: seq<string>, b: seq<string>)
    ensures ParseFrom(ps, a + b) ==
            match ParseFrom(ps, a) case None => None case Some(ps') => ParseFrom(ps', b)
    decreases |a|
  {
    hide Step;
    if a == [] {
      assert a + b == b;
    } else {
      assert (a + b)[1..] == a[1..] + b;
      if Step(ps, a[0]).Some? {
        ParseConcat(Step(ps, a[0]).value, a[1..], b);
      }
    }
  }

  lemma {:induction false} ParseOne(ps: seq<Patch>, line: string)
    ensures ParseFrom(ps, [line]) == Step(ps, line)
  {
  }

  function WithChunk(front: seq<Patch>, p: Patch, c: Chunk): seq<Patch> {
    front + [p.(chunks := p.chunks + [c])]
  }

  lemma {:induction false} ParseChunkLines(front: seq<Patch>, p: Patch, c: Chunk, lines: seq<ChunkLine>)
    requires LinesOk(lines) && LinesClean(lines)
    ensures ParseFrom(WithChunk(front, p, c), WriteChunkLines(lines)) ==
            Some(WithChunk(front, p, c.(lines := c.lines + lines)))
    decreases |lines|
  {
    hide Classify, OneLine, IsClean;
    if lines == [] {
      assert c.lines + lines == c.lines;
    } else {
      ContentRecognised(lines[0]);
      var ps := WithChunk(front, p, c);
      var c' := c.(lines := c.lines + [lines[0]]);
      assert ps[..|ps| - 1] == front;
      assert AddToChunk(ps[|ps| - 1], lines[0]).chunks == p.chunks + [c'];
      assert Step(ps, WriteLine(lines[0])) == Some(WithChunk(front, p, c'));
      ParseChunkLines(front, p, c', lines[1..]);
      assert c'.lines + lines[1..] == c.lines + lines;
    }
  }

  lemma {:induction false} ParseChunks(front: seq<Patch>, p: Patch, cs: seq<Chunk>)
    requires ChunksOk(cs) && ChunksClean(cs)
    ensures ParseFrom(front + [p], WriteChunks(cs)) == Some(front + [p.(chunks := p.chunks + cs)])
    decreases |cs|
  {
    hide Classify, OneLine, IsClean, ChunkHeader;
    if cs == [] {
      assert p.chunks + cs == p.chunks;
    } else {
      var c := cs[0];
      var header := ChunkHeader(c.srcPos, SrcLen(c.lines), c.dstPos, DstLen(c.lines));
      var started := Chunk(c.srcPos, c.dstPos, []);
      ChunkHeaderRecognised(c.srcPos, SrcLen(c.lines), c.dstPos, DstLen(c.lines));
      assert (front + [p])[..|front|] == front;
      assert Step(front + [p], header) == Some(WithChunk(front, p, started));
      ParseOne(front + [p], header);
      ParseConcat(front + [p], [header], WriteChunkLines(c.lines));
      ParseChunkLines(front, p, started, c.lines);
      assert started.(lines := [] + c.lines) == c;
      ParseConcat(front + [p], WriteChunk(c), WriteChunks(cs[1..]));
      var p' := p.(chunks := p.chunks + [c]);
      ParseChunks(front, p', cs[1..]);
      assert p'.chunks + cs[1..] == p.chunks + cs;
    }
  }

  lemma {:induction false} ParsePatch(front: seq<Patch>, p: Patch)
    requires PatchesOk([p]) && PatchesClean([p])
    ensures ParseFrom(front, WritePatch(p)) == Some(front + [p])
  {
    hide Classify, IsClean;
    var src, dst := "--- " + p.src + "\n", "+++ " + p.dst + "\n";
    assert [p][0] == p;
    SrcFileRecognised(p.src);
    DstFileRecognised(p.dst);
    var p0 := Patch(p.src, "", []);
    var p1 := Patch(p.src, p.dst, []);
    ParseOne(front, src);
    ParseOne(front + [p0], dst);
    assert (front + [p0])[..|front|] == front;
    assert [src, dst] == [src] + [dst];
    ParseConcat(front, [src], [dst]);
    ParseConcat(front, [src, dst], WriteChunks(p.chunks));
    ParseChunks(front, p1, p.chunks);
    assert p1.(chunks := [] + p.chunks) == p;
  }

  lemma HeadAndTail(ps: seq<Patch>)
    requires ps != [] && PatchesOk(ps) && PatchesClean(ps)
    ensures PatchesOk([ps[0]]) && PatchesClean([ps[0]]) && PatchesOk(ps[1..]) && PatchesClean(ps[1..])
  {
  }

  lemma {:induction false} ParsePatches(front: seq<Patch>, ps: seq<Patch>)
    requires PatchesOk(ps) && PatchesClean(ps)
    ensures ParseFrom(front, WritePatches(ps)) == Some(front + ps)
    decreases |ps|
  {
    if ps == [] {
      assert front + ps == front;
    } else {
      assert WritePatches(ps) == WritePatch(ps[0]) + WritePatches(ps[1..]);
      hide *;
      HeadAndTail(ps);
      ParsePatch(front, ps[0]);
      ParseConcat(front, WritePatch(ps[0]), WritePatches(ps[1..]));
      ParsePatches(front + [ps[0]], ps[1..]);
      Regroup(front, ps);
    }
  }

  lemma Regroup<T>(front: seq<T>, ps: seq<T>)
    requires ps != []
    ensures front + [ps[0]] + ps[1..] == front + ps
  {
  }

  // ----- And only then -----

  function LineCount(cs: seq<Chunk>): nat {
    if cs == [] then 0 else LineCount(cs[..|cs| - 1]) + |cs[|cs| - 1].lines|
  }

  function TotalLines(ps: seq<Patch>): nat {
    if ps == [] then 0 else TotalLines(ps[..|ps| - 1]) + LineCount(ps[|ps| - 1].chunks)
  }

  function ContentLines(lines: seq<string>): nat {
    if lines == [] then 0 else (if Classify(lines[0]).Content? then 1 else 0) + ContentLines(lines[1..])
  }

  lemma {:induction false} AddLineCounts(ps: seq<Patch>, line: ChunkLine)
    requires AddLine(ps, line).Some?
    ensures TotalLines(AddLine(ps, line).value) == TotalLines(ps) + 1
  {
    var front, last := ps[..|ps| - 1], ps[|ps| - 1];
    var ps' := AddLine(ps, line).value;
    assert ps'[..|ps'| - 1] == if last.chunks != [] then front else AddLine(front, line).value;
    if last.chunks == [] {
      AddLineCounts(front, line);
    } else {
      var cs := AddToChunk(last, line).chunks;
      assert cs[..|cs| - 1] == last.chunks[..|cs| - 1];
    }
  }

  lemma {:induction false} StepCounts(ps: seq<Patch>, line: string)
    requires Step(ps, line).Some?
    ensures TotalLines(Step(ps, line).value) == TotalLines(ps) + if Classify(line).Content? then 1 else 0
  {
    hide Classify;
    var ps' := Step(ps, line).value;
    match Classify(line)
    case SrcFile(_) => assert ps'[..|ps'| - 1] == ps;
    case DstFile(_) => assert ps'[..|ps'| - 1] == ps[..|ps| - 1];
    case ChunkStart(_, _) =>
      assert ps'[..|ps'| - 1] == ps[..|ps| - 1];
      var cs := ps'[|ps'| - 1].chunks;
      assert cs[..|cs| - 1] == ps[|ps| - 1].chunks;
    case Content(l) => AddLineCounts(ps, l);
    case Unknown =>
  }

  lemma {:induction false} ParseCounts(ps: seq<Patch>, lines: seq<string>)
    requires ParseFrom(ps, lines).Some?
    ensures TotalLines(ParseFrom(ps, lines).value) == TotalLines(ps) + ContentLines(lines)
    decreases |lines|
  {
    hide Step, Classify, TotalLines;
    if lines != [] {
      StepCounts(ps, lines[0]);
      ParseCounts(Step(ps, lines[0]).value, lines[1..]);
    }
  }

  lemma {:induction false} ContentConcat(a: seq<string>, b: seq<string>)
    ensures ContentLines(a + b) == ContentLines(a) + ContentLines(b)
  {
    hide Classify;
    if a == [] {
      assert a + b == b;
    } else {
      assert (a + b)[1..] == a[1..] + b;
      ContentConcat(a[1..], b);
    }
  }

  lemma {:induction false} ContentOfLines(lines: seq<ChunkLine>)
    requires LinesOk(lines)
    ensures ContentLines(WriteChunkLines(lines)) <= |lines|
    ensures ContentLines(WriteChunkLines(lines)) == |lines| <==> LinesClean(lines)
  {
    hide Classify, OneLine, IsClean;
    if lines != [] {
      ContentRecognised(lines[0]);
      ContentOfLines(lines[1..]);
      assert LinesClean(lines) <==> IsClean(lines[0]) && LinesClean(lines[1..]) by {
        if IsClean(lines[0]) && LinesClean(lines[1..]) {
          forall i | 0 <= i < |lines| ensures IsClean(lines[i]) {
            assert i > 0 ==> IsClean(lines[1..][i - 1]);
          }
        }
        if LinesClean(lines) {
          forall i | 0 <= i < |lines| - 1 ensures IsClean(lines[1..][i]) {
            assert lines[1..][i] == lines[i + 1];
          }
        }
      }
    }
  }

  lemma {:induction false} ContentOfChunks(cs: seq<Chunk>)
    requires ChunksOk(cs)
    ensures ContentLines(WriteChunks(cs)) <= LineCount(cs)
    ensures ContentLines(WriteChunks(cs)) == LineCount(cs) <==> ChunksClean(cs)
  {
    hide Classify, OneLine, IsClean, LinesOk, LinesClean, ChunkHeader;
    if cs != [] {
      var c := cs[0];
      var header := ChunkHeader(c.srcPos, SrcLen(c.lines), c.dstPos, DstLen(c.lines));
      ChunkHeaderRecognised(c.srcPos, SrcLen(c.lines), c.dstPos, DstLen(c.lines));
      ContentConcat(WriteChunk(c), WriteChunks(cs[1..]));
      ContentOfLines(c.lines);
      ContentOfChunks(cs[1..]);
      LineCountHead(cs);
      assert ContentLines(WriteChunk(c)) == ContentLines(WriteChunkLines(c.lines)) by {
        assert WriteChunk(c)[1..] == WriteChunkLines(c.lines);
      }
      assert ChunksClean(cs) <==> LinesClean(c.lines) && ChunksClean(cs[1..]) by {
        if LinesClean(c.lines) && ChunksClean(cs[1..]) {
          forall i | 0 <= i < |cs| ensures LinesClean(cs[i].lines) {
            assert i > 0 ==> LinesClean(cs[1..][i - 1].lines);
          }
        }
        if ChunksClean(cs) {
          forall i | 0 <= i < |cs| - 1 ensures LinesClean(cs[1..][i].lines) {
            assert cs[1..][i] == cs[i + 1];
          }
        }
      }
    }
  }

  lemma {:induction false} LineCountHead(cs: seq<Chunk>)
    requires cs != []
    ensures LineCount(cs) == |cs[0].lines| + LineCount(cs[1..])
  {
    if |cs| > 1 {
      assert cs[1..][..|cs| - 2] == cs[..|cs| - 1][1..];
      LineCountHead(cs[..|cs| - 1]);
    }
  }

  lemma {:induction false} TotalLinesHead(ps: seq<Patch>)
    requires ps != []
    ensures TotalLines(ps) == LineCount(ps[0].chunks) + TotalLines(ps[1..])
  {
    hide LineCount;
    if |ps| > 1 {
      assert ps[1..][..|ps| - 2] == ps[..|ps| - 1][1..];
      TotalLinesHead(ps[..|ps| - 1]);
    }
  }

  lemma {:induction false} ContentOfPatches(ps: seq<Patch>)
    requires PatchesOk(ps)
    ensures ContentLines(WritePatches(ps)) <= TotalLines(ps)
    ensures ContentLines(WritePatches(ps)) == TotalLines(ps) <==> PatchesClean(ps)
  {
    hide Classify, ChunksOk, ChunksClean, LineCount;
    if ps != [] {
      var p := ps[0];
      SrcFileRecognised(p.src);
      DstFileRecognised(p.dst);
      ContentConcat(WritePatch(p), WritePatches(ps[1..]));
      ContentConcat(["--- " + p.src + "\n", "+++ " + p.dst + "\n"], WriteChunks(p.chunks));
      ContentOfChunks(p.chunks);
      ContentOfPatches(ps[1..]);
      TotalLinesHead(ps);
      assert PatchesClean(ps) <==> ChunksClean(p.chunks) && PatchesClean(ps[1..]) by {
        if ChunksClean(p.chunks) && PatchesClean(ps[1..]) {
          forall i | 0 <= i < |ps| ensures ChunksClean(ps[i].chunks) {
            assert i > 0 ==> ChunksClean(ps[1..][i - 1].chunks);
          }
        }
        if PatchesClean(ps) {
          forall i | 0 <= i < |ps| - 1 ensures ChunksClean(ps[1..][i].chunks) {
            assert ps[1..][i] == ps[i + 1];
          }
        }
      }
    }
  }

  /**
   Reading what was written gives the same patches, positions included, exactly when no removed
   line starts with "-- " and no added line with "++ ".
   */
  lemma RoundTrip(ps: seq<Patch>)
    requires PatchesOk(ps)
    ensures Parse(WritePatches(ps)) == Some(ps) <==> PatchesClean(ps)
  {
    hide PatchesOk, PatchesClean, ParseFrom, WritePatches, ContentLines, TotalLines;
    if PatchesClean(ps) {
      ParsePatches([], ps);
      assert [] + ps == ps;
    } else if Parse(WritePatches(ps)) == Some(ps) {
      ParseCounts([], WritePatches(ps));
      ContentOfPatches(ps);
      assert TotalLines([]) == 0 by { NoLines(); }
    }
  }

  /** A removed line is printed as what looks like a file header. */
  lemma ARemovedLineCanVanish()
    ensures var ps := [Patch("a", "b", [Chunk(1, 1, [ChunkLine(Src, "-- x")])])];
            PatchesOk(ps) && Parse(WritePatches(ps)) != Some(ps)
  {
    hide Parse, WritePatches;
    var line := ChunkLine(Src, "-- x");
    var ps := [Patch("a", "b", [Chunk(1, 1, [line])])];
    assert "-- x"[..3] == "-- " && !IsClean(line);
    assert !LinesClean([line]) by { assert [line][0] == line; }
    assert ps[0].chunks[0].lines == [line];
    RoundTrip(ps);
  }

  lemma NoLines()
    ensures TotalLines([]) == 0
  {
  }

  // ----- Whatever was read can be written and read again -----

  lemma ReadContentIsClean(line: string)
    ensures Classify(line).Content? ==> OneLine(Classify(line).line.text) && IsClean(Classify(line).line)
    ensures Classify(line).SrcFile? ==> OneLine(Classify(line).name)
    ensures Classify(line).DstFile? ==> OneLine(Classify(line).name)
  {
    hide Positions;
    var body := Body(line);
    match Classify(line)
    case Content(l) =>
      assert body == [Mark(l.side)] + l.text && OneLine(l.text);
      StartsWith('-', "-- ", l);
      StartsWith('+', "++ ", l);
      assert "--- " == ['-'] + "-- " && "+++ " == ['+'] + "++ ";
      assert "--- " <= body ==> After(line, "--- ").Some? by { SuffixOneLine(body, l, 4); }
      assert "+++ " <= body ==> After(line, "+++ ").Some? by { SuffixOneLine(body, l, 4); }
    case _ =>
  }

  lemma SuffixOneLine(body: string, l: ChunkLine, n: nat)
    requires body == [Mark(l.side)] + l.text && OneLine(l.text) && 1 <= n
    ensures n <= |body| ==> '\n' !in body[n..]
  {
  }

  lemma {:induction false} AddLineKeeps(ps: seq<Patch>, line: ChunkLine)
    requires PatchesOk(ps) && PatchesClean(ps) && OneLine(line.text) && IsClean(line) && AddLine(ps, line).Some?
    ensures PatchesOk(AddLine(ps, line).value) && PatchesClean(AddLine(ps, line).value)
  {
    hide OneLine, IsClean;
    var front, last := ps[..|ps| - 1], ps[|ps| - 1];
    if last.chunks == [] {
      AddLineKeeps(front, line);
    }
  }

  lemma StepKeeps(ps: seq<Patch>, line: string)
    requires PatchesOk(ps) && PatchesClean(ps) && Step(ps, line).Some?
    ensures PatchesOk(Step(ps, line).value) && PatchesClean(Step(ps, line).value)
  {
    ReadContentIsClean(line);
    hide Classify, OneLine, IsClean;
    match Classify(line)
    case SrcFile(name) => assert OneLine("") by { EmptyIsOneLine(); }
    case Content(l) => AddLineKeeps(ps, l);
    case _ =>
  }

  lemma EmptyIsOneLine()
    ensures OneLine("")
  {
  }

  lemma {:induction false} ParseKeeps(ps: seq<Patch>, lines: seq<string>)
    requires PatchesOk(ps) && PatchesClean(ps) && ParseFrom(ps, lines).Some?
    ensures PatchesOk(ParseFrom(ps, lines).value) && PatchesClean(ParseFrom(ps, lines).value)
    decreases |lines|
  {
    hide PatchesOk, PatchesClean, Step;
    if lines != [] {
      StepKeeps(ps, lines[0]);
      ParseKeeps(Step(ps, lines[0]).value, lines[1..]);
    }
  }

  /** For every input that can be read at all, reading what is then written gives the same patches. */
  lemma RereadingIsStable(lines: seq<string>)
    requires Parse(lines).Some?
    ensures Parse(WritePatches(Parse(lines).value)) == Parse(lines)
  {
    ParseKeeps([], lines);
    RoundTrip(Parse(lines).value);
  }

  // ----- Printed counts -----

  function Marked(lines: seq<string>, mark: char): nat {
    if lines == [] then 0
    else (if lines[0] != "" && (lines[0][0] == mark || lines[0][0] == ' ') then 1 else 0) + Marked(lines[1..], mark)
  }

  lemma {:induction false} LengthsAreCounts(lines: seq<ChunkLine>)
    ensures SrcLen(lines) == Marked(WriteChunkLines(lines), '-')
    ensures DstLen(lines) == Marked(WriteChunkLines(lines), '+')
  {
    if lines != [] {
      LengthsAreCounts(lines[1..]);
      assert WriteLine(lines[0])[0] == Mark(lines[0].side);
    }
  }

  /** A chunk is printed with the numbers of '-' or ' ' lines and of '+' or ' ' lines that follow. */
  lemma PrintedCountsAreRight(c: Chunk)
    ensures var printed := WriteChunk(c);
            printed[0] == ChunkHeader(c.srcPos, Marked(printed[1..], '-'), c.dstPos, Marked(printed[1..], '+'))
  {
    LengthsAreCounts(c.lines);
    assert WriteChunk(c)[1..] == WriteChunkLines(c.lines);
  }
}
