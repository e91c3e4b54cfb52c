/** The field extractor of the control message, which searches the text for substrings. */
module FieldExtractor {
  import opened Wrappers
  import opened Decimals

  // ----- The extractor -----

  /** The first place at or after `from` where `pat` occurs. */
  function Find(s: string, pat: string, from: nat): (r: Option<nat>)
    ensures r.Some? ==> from <= r.value && r.value + |pat| <= |s| && s[r.value..r.value + |pat|] == pat
    decreases |s| - from
  {
    if from + |pat| > |s| then None
    else if s[from..from + |pat|] == pat then Some(from)
    else Find(s, pat, from + 1)
  }

  /** Whitespace as the C library's number parser skips it. */
  predicate IsBlank(c: char) {
    c == ' ' || '\t' as int <= c as int <= '\r' as int
  }

  function SkipBlanks(s: string): string {
    if s != "" && IsBlank(s[0]) then SkipBlanks(s[1..]) else s
  }

  /** A number that is not a plain decimal integer is `Other`, whatever its value. */
  datatype Scanned = NoNumber | Integer(v: int) | Other

  function ScanUnsigned(s: string): Scanned {
    var n := DigitCount(s);
    if n == 0 then
      if s != "" && s[0] in {'.', 'i', 'I', 'n', 'N'} then Other else NoNumber
    else if n < |s| && s[n] in {'.', 'e', 'E', 'x', 'X'} then Other
    else Integer(Number(s[..n]))
  }

  /** The number parser, on the text after the colon. */
  function ScanNumber(s: string): Scanned {
    var t := SkipBlanks(s);
    if t != "" && t[0] == '-' then
      match ScanUnsigned(t[1..]) case Integer(v) => Integer(-v) case other => other
    else if t != "" && t[0] == '+' then ScanUnsigned(t[1..])
    else ScanUnsigned(t)
  }

  function SkipSpaces(s: string, k: nat): nat
    decreases |s| - k
  {
    if k + 1 < |s| && s[k + 1] == ' ' then SkipSpaces(s, k + 1) else k
  }

  function FindNumber(s: string, key: string): Scanned {
    match Find(s, key, 0)
    case None => NoNumber
    case Some(k) =>
      match Find(s, ":", k)
      case None => NoNumber
      case Some(c) =>
        var k' := SkipSpaces(s, c);
        if k' + 1 <= |s| then ScanNumber(s[k' + 1..]) else NoNumber
  }

  /** The number extractor as it runs, with the loop that steps over the spaces. */
  method ExtractNumber(s: string, key: string) returns (r: Scanned)
    ensures r == FindNumber(s, key)
  {
    var found := Find(s, key, 0);
    if found.None? {
      return NoNumber;
    }
    var colon := Find(s, ":", found.value);
    if colon.None? {
      return NoNumber;
    }
    var k := colon.value;
    while k + 1 < |s| && s[k + 1] == ' '
      invariant k < |s| && SkipSpaces(s, k) == SkipSpaces(s, colon.value)
    {
      k := k + 1;
    }
    return ScanNumber(s[k + 1..]);
  }

  /** Converting a number of 2^32 or more to 32 bits is undefined. */
  datatype Uint = NotFound | Value(u: nat) | Undefined | NotModelled

  function ToUint(scanned: Scanned): Uint {
    match scanned
    case NoNumber => NotFound
    case Other => NotModelled
    case Integer(v) => if v < 0 then NotFound else if v < 0x1_0000_0000 then Value(v) else Undefined
  }

  function FindUint(s: string, key: string): Uint {
    ToUint(FindNumber(s, key))
  }

  function FindString(s: string, key: string): Option<string> {
    match Find(s, key, 0)
    case None => None
    case Some(k) =>
      match Find(s, ":", k)
      case None => None
      case Some(c) =>
        match Find(s, "\"", c)
        case None => None
        case Some(q) =>
          match Find(s, "\"", q + 1)
          case None => None
          case Some(e) => if q + 1 <= e then Some(s[q + 1..e]) else None
  }

  // ----- Flat objects -----

  datatype Field = Str(s: string) | Num(n: int)

  datatype Entry = Entry(key: string, field: Field)

  function Quote(s: string): string {
    "\"" + s + "\""
  }

  function PrintField(f: Field): string {
    match f
    case Str(s) => Quote(s)
    case Num(n) => if n < 0 then "-" + Decimal(-n) else Decimal(n)
  }

  function PrintEntry(e: Entry): string {
    Quote(e.key) + ": " + PrintField(e.field)
  }

  /** What follows an entry when `more` are still to come. */
  function Following(more: seq<Entry>): string
    decreases |more|, 1
  {
    if more == [] then "}" else ", " + PrintEntries(more)
  }

  function PrintEntries(es: seq<Entry>): string
    requires es != []
    decreases |es|, 0
  {
    PrintEntry(es[0]) + Following(es[1..])
  }

  function Print(es: seq<Entry>): string {
    if es == [] then "{}" else "{" + PrintEntries(es)
  }

  predicate IsLetter(c: char) {
    'a' <= c <= 'z' || 'A' <= c <= 'Z'
  }

  predicate IsName(k: string) {
    k != "" && forall i :: 0 <= i < |k| ==> IsLetter(k[i])
  }

  ghost predicate IsFlat(es: seq<Entry>) {
    && (forall i :: 0 <= i < |es| ==> IsName(es[i].key))
    && (forall i, j :: 0 <= i < j < |es| ==> es[i].key != es[j].key)
    && (forall i :: 0 <= i < |es| && es[i].field.Str? ==> '\"' !in es[i].field.s && '\\' !in es[i].field.s)
  }
}
