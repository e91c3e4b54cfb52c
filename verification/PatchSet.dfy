/** Patches as the style checker reads and writes them. */
module PatchSet {
  import opened Wrappers
  import opened Decimals

  datatype Side = Src | Dst | Both

  datatype ChunkLine = ChunkLine(side: Side, text: string) {
    predicate IsSrc() { side != Dst }
    predicate IsDst() { side != Src }
  }

  datatype Chunk = Chunk(srcPos: nat, dstPos: nat, lines: seq<ChunkLine>)

  datatype Patch = Patch(src: string, dst: string, chunks: seq<Chunk>)

  // ----- Writing -----

  function SrcLen(lines: seq<ChunkLine>): nat {
    if lines == [] then 0 else (if lines[0].IsSrc() then 1 else 0) + SrcLen(lines[1..])
  }

  function DstLen(lines: seq<ChunkLine>): nat {
    if lines == [] then 0 else (if lines[0].IsDst() then 1 else 0) + DstLen(lines[1..])
  }

  function Mark(side: Side): char {
    match side case Src => '-' case Dst => '+' case Both => ' '
  }

  function WriteLine(line: ChunkLine): string {
    [Mark(line.side)] + line.text + "\n"
  }

  function WriteChunkLines(lines: seq<ChunkLine>): seq<string> {
    if lines == [] then [] else [WriteLine(lines[0])] + WriteChunkLines(lines[1..])
  }

  function ChunkHeader(srcPos: nat, srcLen: nat, dstPos: nat, dstLen: nat): string {
    "@@ -" + Decimal(srcPos) + "," + Decimal(srcLen) + " +" + Decimal(dstPos) + "," + Decimal(dstLen) + " @@\n"
  }

  function WriteChunk(c: Chunk): seq<string> {
    [ChunkHeader(c.srcPos, SrcLen(c.lines), c.dstPos, DstLen(c.lines))] + WriteChunkLines(c.lines)
  }

  function WriteChunks(cs: seq<Chunk>): seq<string> {
    if cs == [] then [] else WriteChunk(cs[0]) + WriteChunks(cs[1..])
  }

  function WritePatch(p: Patch): seq<string> {
    ["--- " + p.src + "\n", "+++ " + p.dst + "\n"] + WriteChunks(p.chunks)
  }

  function WritePatches(ps: seq<Patch>): seq<string> {
    if ps == [] then [] else WritePatch(ps[0]) + WritePatches(ps[1..])
  }

  // ----- Recognising a line -----

  /** A line without the newline that may end it. */
  function Body(line: string): string {
    if line != "" && line[|line| - 1] == '\n' then line[..|line| - 1] else line
  }

  /** What follows `prefix` up to the end of the line. */
  function After(line: string, prefix: string): Option<string> {
    var body := Body(line);
    if prefix <= body && '\n' !in body[|prefix|..] then Some(body[|prefix|..]) else None
  }

  function Skip(s: string, prefix: string): Option<string> {
    if prefix <= s then Some(s[|prefix|..]) else None
  }

  /** The number at the start of `s`, and what follows it. */
  function TakeNumber(s: string): Option<(nat, string)> {
    var n := DigitCount(s);
    if n == 0 then None else Some((Number(s[..n]), s[n..]))
  }

  /** The two positions of a chunk header; the two lengths must be there but are not used. */
  function Positions(line: string): Option<(nat, nat)> {
    match Skip(line, "@@ -")
    case None => None
    case Some(a) =>
      match TakeNumber(a)
      case None => None
      case Some((srcPos, b)) =>
        match Skip(b, ",")
        case None => None
        case Some(c) =>
          match TakeNumber(c)
          case None => None
          case Some((_, d)) =>
            match Skip(d, " +")
            case None => None
            case Some(e) =>
              match TakeNumber(e)
              case None => None
              case Some((dstPos, f)) =>
                match Skip(f, ",")
                case None => None
                case Some(g) =>
                  match TakeNumber(g)
                  case None => None
                  case Some((_, h)) => if Skip(h, " @@").Some? then Some((srcPos, dstPos)) else None
  }

  datatype Kind =
    | SrcFile(name: string)
    | DstFile(name: string)
    | ChunkStart(srcPos: nat, dstPos: nat)
    | Content(line: ChunkLine)
    | Unknown

  /** The patterns are tried in this order; the first that matches decides. */
  function Classify(line: string): Kind {
    if After(line, "--- ").Some? then SrcFile(After(line, "--- ").value)
    else if After(line, "+++ ").Some? then DstFile(After(line, "+++ ").value)
    else if Positions(line).Some? then ChunkStart(Positions(line).value.0, Positions(line).value.1)
    else if After(line, "-").Some? then Content(ChunkLine(Src, After(line, "-").value))
    else if After(line, "+").Some? then Content(ChunkLine(Dst, After(line, "+").value))
    else if After(line, " ").Some? then Content(ChunkLine(Both, After(line, " ").value))
    else Unknown
  }

  // ----- Reading -----

  function AddToChunk(p: Patch, line: ChunkLine): Patch
    requires p.chunks != []
  {
    var last := p.chunks[|p.chunks| - 1];
    p.(chunks := p.chunks[..|p.chunks| - 1] + [last.(lines := last.lines + [line])])
  }

  /** A line goes to the chunk started last, even if a new patch has been started since. */
  function AddLine(ps: seq<Patch>, line: ChunkLine): Option<seq<Patch>> {
    if ps == [] then None
    else
      var front, last := ps[..|ps| - 1], ps[|ps| - 1];
      if last.chunks != [] then Some(front + [AddToChunk(last, line)])
      else match AddLine(front, line) case None => None case Some(front') => Some(front' + [last])
  }

  /** The patches after one more line, or None if the program raises an error. */
  function Step(ps: seq<Patch>, line: string): Option<seq<Patch>> {
    match Classify(line)
    case SrcFile(name) => Some(ps + [Patch(name, "", [])])
    case DstFile(name) =>
      if ps == [] then None
      else Some(ps[..|ps| - 1] + [ps[|ps| - 1].(dst := name)])
    case ChunkStart(srcPos, dstPos) =>
      if ps == [] then None
      else Some(ps[..|ps| - 1] + [ps[|ps| - 1].(chunks := ps[|ps| - 1].chunks + [Chunk(srcPos, dstPos, [])])])
    case Content(l) => AddLine(ps, l)
    case Unknown => None
  }

  function ParseFrom(ps: seq<Patch>, lines: seq<string>): Option<seq<Patch>>
    decreases |lines|
  {
    if lines == [] then Some(ps)
    else match Step(ps, lines[0]) case None => None case Some(ps') => ParseFrom(ps', lines[1..])
  }

  function Parse(lines: seq<string>): Option<seq<Patch>> {
    ParseFrom([], lines)
  }

  // ----- The loop -----

  /** `current` is the chunk started last, by patch and position. */
  ghost predicate IsCurrent(ps: seq<Patch>, current: Option<(nat, nat)>) {
    match current
    case None => forall i :: 0 <= i < |ps| ==> ps[i].chunks == []
    case Some((p, c)) =>
      && p < |ps| && c == |ps[p].chunks| - 1
      && forall i :: p < i < |ps| ==> ps[i].chunks == []
  }

  lemma {:induction false} AddLineAtCurrent(ps: seq<Patch>, current: Option<(nat, nat)>, line: ChunkLine)
    requires IsCurrent(ps, current)
    ensures AddLine(ps, line) ==
            match current case None => None case Some((p, c)) => Some(ps[p := AddToChunk(ps[p], line)])
  {
    if ps != [] {
      var front, last := ps[..|ps| - 1], ps[|ps| - 1];
      if last.chunks == [] {
        AddLineAtCurrent(front, current, line);
        if current.Some? {
          var p := current.value.0;
          assert ps[p := AddToChunk(ps[p], line)] == front[p := AddToChunk(ps[p], line)] + [last];
        }
      } else {
        var p := current.value.0;
        assert ps[p := AddToChunk(ps[p], line)] == front + [AddToChunk(last, line)];
      }
    }
  }

  method ParsePatchset(lines: seq<string>) returns (result: Option<seq<Patch>>)
    ensures result == Parse(lines)
  {
    hide Classify;
    var patchset: seq<Patch> := [];
    var current: Option<(nat, nat)> := None;
    for i := 0 to |lines|
      invariant IsCurrent(patchset, current)
      invariant ParseFrom(patchset, lines[i..]) == Parse(lines)
    {
      assert lines[i..][0] == lines[i] && lines[i..][1..] == lines[i + 1..];
      match Classify(lines[i]) {
        case SrcFile(name) =>
          patchset := patchset + [Patch(name, "", [])];
        case DstFile(name) =>
          if patchset == [] {
            return None;
          }
          var n := |patchset| - 1;
          assert patchset[n := patchset[n].(dst := name)] == patchset[..n] + [patchset[n].(dst := name)];
          patchset := patchset[n := patchset[n].(dst := name)];
        case ChunkStart(srcPos, dstPos) =>
          if patchset == [] {
            return None;
          }
          var n := |patchset| - 1;
          var p := patchset[n].(chunks := patchset[n].chunks + [Chunk(srcPos, dstPos, [])]);
          assert patchset[n := p] == patchset[..n] + [p];
          patchset := patchset[n := p];
          current := Some((n, |p.chunks| - 1));
        case Content(line) =>
          AddLineAtCurrent(patchset, current, line);
          if current.None? {
            return None;
          }
          var (n, c) := current.value;
          var chunk := patchset[n].chunks[c];
          var p := patchset[n].(chunks := patchset[n].chunks[c := chunk.(lines := chunk.lines + [line])]);
          assert p.chunks == AddToChunk(patchset[n], line).chunks;
          patchset := patchset[n := p];
        case Unknown =>
          return None;
      }
    }
    return Some(patchset);
  }
}
