/** On flat objects the extractor agrees with a real parse, and exactly when. */
module ExtractorTheorems {
  import opened Wrappers
  import opened Decimals
  import opened FieldExtractor

  // ----- Searching by suffixes -----

  /** The text from the first occurrence of `pat` on. */
  function Suffix(s: string, pat: string): (r: Option<string>)
    ensures r.Some? ==> pat <= r.value && |r.value| <= |s|
  {
    if |s| < |pat| then None
    else if pat <= s then Some(s)
    else if s == "" then None
    else Suffix(s[1..], pat)
  }

  lemma SuffixCases(t: string, pat: string)
    requires pat != ""
    ensures |t| < |pat| ==> Suffix(t, pat) == None
    ensures pat <= t ==> Suffix(t, pat) == Some(t)
    ensures |t| >= |pat| && !(pat <= t) ==> Suffix(t, pat) == Suffix(t[1..], pat)
  {
  }

  lemma FindCases(s: string, pat: string, from: nat)
    ensures from + |pat| > |s| ==> Find(s, pat, from) == None
    ensures from + |pat| <= |s| && s[from..from + |pat|] == pat ==> Find(s, pat, from) == Some(from)
    ensures from + |pat| <= |s| && s[from..from + |pat|] != pat ==> Find(s, pat, from) == Find(s, pat, from + 1)
  {
  }

  lemma PrefixAt(s: string, pat: string, from: nat)
    requires from + |pat| <= |s|
    ensures pat <= s[from..] <==> s[from..from + |pat|] == pat
  {
  }

  /** A search by position and one by suffix find the same place. */
  lemma {:induction false} FindIsSuffix(s: string, pat: string, from: nat)
    requires from <= |s| && pat != ""
    ensures Find(s, pat, from) ==
            match Suffix(s[from..], pat) case None => None case Some(t) => Some(|s| - |t|)
    decreases |s| - from
  {
    hide Suffix, Find;
    SuffixCases(s[from..], pat);
    FindCases(s, pat, from);
    if from + |pat| <= |s| {
      PrefixAt(s, pat, from);
      if !(pat <= s[from..]) {
        assert s[from..][1..] == s[from + 1..];
        FindIsSuffix(s, pat, from + 1);
      }
    }
  }

  /** Text without quotes is passed over in the search for something quoted. */
  lemma {:induction false} PassPlain(a: string, u: string, k: string)
    requires '\"' !in a
    ensures Suffix(a + u, Quote(k)) == Suffix(u, Quote(k))
  {
    if a == "" {
      assert a + u == u;
    } else {
      assert (a + u)[1..] == a[1..] + u && (a + u)[0] == a[0];
      PassPlain(a[1..], u, k);
      if |a + u| < |Quote(k)| {
        ShortSuffix(u, Quote(k));
      }
    }
  }

  lemma ShortSuffix(u: string, pat: string)
    requires |u| < |pat|
    ensures Suffix(u, pat) == None
  {
  }

  /** So is a quoted text that is not the one looked for. */
  lemma {:induction false} PassQuoted(x: string, u: string, k: string)
    requires '\"' !in x && IsName(k) && x != k
    requires u != "" && !IsLetter(u[0])
    ensures Suffix(Quote(x) + u, Quote(k)) == Suffix(u, Quote(k))
  {
    var s := Quote(x) + u;
    var pat := Quote(k);
    var t := x + ("\"" + u);
    assert s[1..] == t && s[0] == '\"';
    if pat <= s {
      DifferentNames(x, u, k);
    }
    if |s| >= |pat| {
      PassPlain(x, "\"" + u, k);
    } else {
      ShortSuffix(u, pat);
    }
    PassClosingQuote(u, k);
  }

  function FirstQuote(s: string): nat {
    if s == "" || s[0] == '\"' then 0 else 1 + FirstQuote(s[1..])
  }

  lemma {:induction false} QuoteAfter(x: string, u: string)
    requires '\"' !in x
    ensures FirstQuote(x + "\"" + u) == |x|
  {
    if x != "" {
      assert (x + "\"" + u)[1..] == x[1..] + "\"" + u;
      QuoteAfter(x[1..], u);
    }
  }

  lemma DifferentNames(x: string, u: string, k: string)
    requires '\"' !in x && '\"' !in k && Quote(k) <= Quote(x) + u
    ensures x == k
  {
    var s := Quote(x) + u;
    var rest := s[|k| + 2..];
    assert s[1..] == x + "\"" + u;
    assert s == Quote(k) + rest && s[1..] == k + "\"" + rest;
    QuoteAfter(x, u);
    QuoteAfter(k, rest);
    assert s[1..|x| + 1] == x && s[1..|k| + 1] == k;
  }

  lemma PassClosingQuote(u: string, k: string)
    requires IsName(k) && u != "" && !IsLetter(u[0])
    ensures Suffix("\"" + u, Quote(k)) == Suffix(u, Quote(k))
  {
  }

  // ----- Where the search for a key ends -----

  /** The entries that are read for `k`: from the one after the first place where `k` stands in quotes. */
  function ReadFrom(es: seq<Entry>, k: string): Option<seq<Entry>> {
    if es == [] then None
    else if es[0].key == k then Some(es)
    else if es[0].field == Str(k) then Some(es[1..])
    else ReadFrom(es[1..], k)
  }

  lemma NumbersHaveNoQuotes(f: Field)
    ensures f.Num? ==> '\"' !in PrintField(f)
  {
  }

  /** The text from the first occurrence of the key on. */
  function Hit(es: seq<Entry>, k: string): Option<string> {
    if es == [] then None
    else if es[0].key == k then Some(PrintEntries(es))
    else if es[0].field == Str(k) then Some(Quote(k) + Following(es[1..]))
    else Hit(es[1..], k)
  }

  lemma FollowingStart(more: seq<Entry>)
    ensures Following(more) != "" && !IsLetter(Following(more)[0])
    ensures Following(more) != "" && !IsDigit(Following(more)[0])
  {
  }

  /** After an entry that does not hold the key, the search goes on with the next entries. */
  lemma PassEntry(e: Entry, after: string, k: string)
    requires IsName(e.key) && (e.field.Str? ==> '\"' !in e.field.s) && IsName(k)
    requires e.key != k && e.field != Str(k) && after != "" && !IsLetter(after[0])
    ensures Suffix(PrintEntry(e) + after, Quote(k)) == Suffix(after, Quote(k))
  {
    PassKey(e, after, k);
    hide Suffix, Quote, IsName, IsLetter;
    if e.field.Str? {
      PassQuoted(e.field.s, after, k);
    } else {
      NumbersHaveNoQuotes(e.field);
      PassPlain(PrintField(e.field), after, k);
    }
  }

  lemma PassKey(e: Entry, after: string, k: string)
    requires IsName(e.key) && IsName(k) && e.key != k
    ensures Suffix(PrintEntry(e) + after, Quote(k)) == Suffix(PrintField(e.field) + after, Quote(k))
  {
    hide Suffix, Quote, IsName, PrintField;
    NamesHaveNoQuotes(e.key);
    ColonIsNoLetter();
    var u := ": " + (PrintField(e.field) + after);
    assert PrintEntry(e) + after == Quote(e.key) + u;
    PassQuoted(e.key, u, k);
    PassPlain(": ", PrintField(e.field) + after, k);
  }

  lemma {:induction false} KeyIsHit(es: seq<Entry>, k: string)
    requires es != [] && IsFlat(es) && IsName(k)
    ensures Suffix(PrintEntries(es), Quote(k)) == Hit(es, k)
  {
    hide Suffix, Quote, IsName, PrintField, IsLetter;
    var e, after := es[0], Following(es[1..]);
    assert IsFlat(es[1..]) && IsName(e.key);
    FollowingStart(es[1..]);
    if e.key == k {
      var u := ": " + PrintField(e.field) + after;
      assert PrintEntries(es) == Quote(k) + u;
      SuffixHere(Quote(k), u);
    } else if e.field == Str(k) {
      PassKey(e, after, k);
      StringPrintsQuoted(k);
      SuffixHere(Quote(k), after);
    } else {
      PassEntry(e, after, k);
      if es[1..] == [] {
        assert after == "}" + "";
        PassPlain("}", "", k);
        EmptyHasNoKey(k);
      } else {
        PassPlain(", ", PrintEntries(es[1..]), k);
        KeyIsHit(es[1..], k);
      }
    }
  }

  lemma StringPrintsQuoted(k: string)
    ensures PrintField(Str(k)) == Quote(k)
  {
  }

  lemma ColonIsNoLetter()
    ensures !IsLetter(':')
  {
  }

  lemma NamesHaveNoQuotes(k: string)
    requires IsName(k)
    ensures '\"' !in k && ':' !in k
  {
  }

  lemma SuffixHere(pat: string, u: string)
    ensures Suffix(pat + u, pat) == Some(pat + u)
  {
  }

  lemma EmptyHasNoKey(k: string)
    ensures Suffix("", Quote(k)) == None
  {
  }

  // ----- From the key to the value -----

  lemma {:induction false} SuffixEnds(s: string, pat: string)
    ensures Suffix(s, pat).Some? ==> Suffix(s, pat).value == s[|s| - |Suffix(s, pat).value|..]
  {
    if |s| >= |pat| && !(pat <= s) && s != "" {
      SuffixEnds(s[1..], pat);
    }
  }

  lemma {:induction false} PassChars(a: string, u: string, c: char)
    requires c !in a
    ensures Suffix(a + u, [c]) == Suffix(u, [c])
  {
    if a == "" {
      assert a + u == u;
    } else {
      assert (a + u)[1..] == a[1..] + u && (a + u)[0] == a[0];
      PassChars(a[1..], u, c);
    }
  }

  /** What is read as a string from the text that starts at the colon. */
  function StringAfterColon(b: string): Option<string> {
    match Suffix(b, "\"")
    case None => None
    case Some(c) =>
      match Suffix(c[1..], "\"")
      case None => None
      case Some(e) => Some(c[1..|c| - |e|])
  }

  /** The rest of a text at a position that a search has found. */
  lemma Continue(s: string, k: nat, t: string, pat: string)
    requires k <= |s| && s[k..] == t && pat != ""
    ensures Find(s, pat, k) == match Suffix(t, pat) case None => None case Some(u) => Some(|s| - |u|)
    ensures Suffix(t, pat).Some? ==> s[|s| - |Suffix(t, pat).value|..] == Suffix(t, pat).value
  {
    hide Suffix, Find;
    FindIsSuffix(s, pat, k);
    SuffixEnds(t, pat);
  }

  /** The last part of the string extractor, from the position of the colon on. */
  function StringAt(s: string, c: nat): Option<string> {
    match Find(s, "\"", c)
    case None => None
    case Some(q) =>
      match Find(s, "\"", q + 1)
      case None => None
      case Some(e) => if q + 1 <= e then Some(s[q + 1..e]) else None
  }

  lemma StringAtReads(s: string, k: nat, b: string)
    requires k <= |s| && s[k..] == b
    ensures StringAt(s, k) == StringAfterColon(b)
  {
    hide Suffix, Find;
    Continue(s, k, b, "\"");
    if Suffix(b, "\"").Some? {
      var c := Suffix(b, "\"").value;
      var q := |s| - |c|;
      assert s[q + 1..] == c[1..];
      Continue(s, q + 1, c[1..], "\"");
      if Suffix(c[1..], "\"").Some? {
        var e := Suffix(c[1..], "\"").value;
        assert s[q + 1..|s| - |e|] == c[1..|c| - |e|];
      }
    }
  }

  lemma FindStringInParts(s: string, key: string)
    ensures FindString(s, key) ==
            match Find(s, key, 0)
            case None => None
            case Some(k) => match Find(s, ":", k) case None => None case Some(c) => StringAt(s, c)
  {
  }

  lemma FindStringReads(s: string, key: string)
    requires key != ""
    ensures FindString(s, key) ==
            match Suffix(s, key)
            case None => None
            case Some(a) => match Suffix(a, ":") case None => None case Some(b) => StringAfterColon(b)
  {
    hide *;
    FindStringInParts(s, key);
    assert s[0..] == s;
    Continue(s, 0, s, key);
    if Suffix(s, key).Some? {
      var a := Suffix(s, key).value;
      Continue(s, |s| - |a|, a, ":");
      if Suffix(a, ":").Some? {
        var b := Suffix(a, ":").value;
        StringAtReads(s, |s| - |b|, b);
      }
    }
  }

  /** What follows a colon is read as this string. */
  function StringOf(es: seq<Entry>): Option<string> {
    if es == [] then None
    else match es[0].field
         case Str(v) => Some(v)
         case Num(_) => if |es| > 1 then Some(es[1].key) else None
  }

  lemma QuotedText(v: string, u: string)
    requires '\"' !in v
    ensures Suffix(Quote(v) + u, "\"") == Some(Quote(v) + u)
    ensures Suffix((Quote(v) + u)[1..], "\"") == Some("\"" + u)
    ensures (Quote(v) + u)[1..|Quote(v) + u| - |"\"" + u|] == v
  {
    SuffixHere("\"", v + "\"" + u);
    assert Quote(v) + u == "\"" + (v + "\"" + u);
    assert (Quote(v) + u)[1..] == v + ("\"" + u);
    PassChars(v, "\"" + u, '\"');
    SuffixHere("\"", u);
  }

  /** From the colon of an entry on. */
  function FromColon(es: seq<Entry>): string
    requires es != []
  {
    ": " + (PrintField(es[0].field) + Following(es[1..]))
  }

  lemma StringFromColon(es: seq<Entry>)
    requires es != [] && IsFlat(es)
    ensures StringAfterColon(FromColon(es)) == StringOf(es)
  {
    hide Suffix;
    var field, after := es[0].field, Following(es[1..]);
    PassChars(": ", PrintField(field) + after, '\"');
    match field
    case Str(v) =>
      QuotedText(v, after);
    case Num(_) =>
      NumbersHaveNoQuotes(field);
      PassChars(PrintField(field), after, '\"');
      if |es| == 1 {
        NothingQuotedAtEnd();
      } else {
        var more := es[1..];
        var u := ": " + PrintField(more[0].field) + Following(more[1..]);
        assert more[0].key == es[1].key && IsName(es[1].key);
        NamesHaveNoQuotes(es[1].key);
        assert PrintEntries(more) == Quote(es[1].key) + u;
        assert after == ", " + (Quote(es[1].key) + u);
        PassChars(", ", Quote(es[1].key) + u, '\"');
        QuotedText(es[1].key, u);
      }
  }

  lemma NothingQuotedAtEnd()
    ensures Suffix("}", "\"") == None && Suffix("}", ":") == None
  {
    assert "}" == "}" + "";
    PassChars("}", "", '\"');
    PassChars("}", "", ':');
  }

  lemma QuoteHasNoColon(k: string)
    requires IsName(k)
    ensures ':' !in Quote(k)
  {
  }

  lemma ColonFirst(es: seq<Entry>)
    requires es != []
    ensures Suffix(FromColon(es), ":") == Some(FromColon(es))
  {
  }

  lemma KeyThenColon(es: seq<Entry>)
    requires es != []
    ensures PrintEntries(es) == Quote(es[0].key) + FromColon(es)
  {
  }

  /** The colon that follows the place where the key stands. */
  lemma ColonAfterName(k: string, es: seq<Entry>)
    requires es != [] && IsFlat(es) && IsName(k)
    ensures es[0].key == k ==> Suffix(PrintEntries(es), ":") == Some(FromColon(es))
    ensures Suffix(Quote(k) + ", " + PrintEntries(es), ":") == Some(FromColon(es))
  {
    var key := es[0].key;
    assert IsName(key);
    hide *;
    ColonFirst(es);
    KeyThenColon(es);
    QuoteHasNoColon(key);
    QuoteHasNoColon(k);
    PassChars(Quote(key), FromColon(es), ':');
    var a := Quote(k) + ", " + Quote(key);
    assert Quote(k) + ", " + PrintEntries(es) == a + FromColon(es);
    PassChars(a, FromColon(es), ':');
  }

  lemma {:induction false} ColonAfterHit(es: seq<Entry>, k: string)
    requires IsFlat(es) && IsName(k)
    ensures match ReadFrom(es, k)
            case None => Hit(es, k) == None
            case Some(more) =>
              && Hit(es, k).Some? && IsFlat(more)
              && Suffix(Hit(es, k).value, ":") == if more == [] then None else Some(FromColon(more))
  {
    hide Suffix;
    if es != [] {
      assert IsFlat(es[1..]);
      if es[0].key == k {
        ColonAfterName(k, es);
      } else if es[0].field == Str(k) {
        if es[1..] == [] {
          QuoteHasNoColon(k);
          PassChars(Quote(k), "}", ':');
          NothingQuotedAtEnd();
        } else {
          ColonAfterName(k, es[1..]);
          assert Quote(k) + Following(es[1..]) == Quote(k) + ", " + PrintEntries(es[1..]);
        }
      } else {
        ColonAfterHit(es[1..], k);
      }
    }
  }

  lemma KeyInPrint(es: seq<Entry>, k: string)
    requires IsFlat(es) && IsName(k)
    ensures Suffix(Print(es), Quote(k)) == Hit(es, k)
  {
    hide Suffix;
    if es == [] {
      assert Print(es) == "{}" + "";
      PassPlain("{}", "", k);
      EmptyHasNoKey(k);
    } else {
      PassPlain("{", PrintEntries(es), k);
      KeyIsHit(es, k);
    }
  }

  /** The whole of what the string extractor does on flat objects. */
  lemma FindStringOnFlat(es: seq<Entry>, k: string)
    requires IsFlat(es) && IsName(k)
    ensures FindString(Print(es), Quote(k)) ==
            match ReadFrom(es, k) case None => None case Some(more) => StringOf(more)
  {
    NothingIsNoString();
    hide *;
    NonEmptyQuote(k);
    FindStringReads(Print(es), Quote(k));
    KeyInPrint(es, k);
    ColonAfterHit(es, k);
    if Hit(es, k).Some? && ReadFrom(es, k).value != [] {
      StringFromColon(ReadFrom(es, k).value);
    }
  }

  lemma NothingIsNoString()
    ensures StringOf([]) == None
  {
  }

  lemma NonEmptyQuote(k: string)
    ensures Quote(k) != ""
  {
  }

  // ----- Numbers -----

  /** What follows a colon is read as this number. */
  function NumberOf(es: seq<Entry>): Scanned {
    if es == [] || es[0].field.Str? then NoNumber else Integer(es[0].field.n)
  }

  lemma ScanDecimal(n: nat, after: string)
    requires after != "" && !IsDigit(after[0]) && after[0] !in {'.', 'e', 'E', 'x', 'X'}
    ensures ScanUnsigned(Decimal(n) + after) == Integer(n)
  {
    DigitsOfDecimal(Decimal(n), after);
    NumberOfDecimal(n);
    assert (Decimal(n) + after)[..|Decimal(n)|] == Decimal(n);
  }

  lemma ScanDigits(digits: string, rest: string)
    requires digits != "" && forall i :: 0 <= i < |digits| ==> IsDigit(digits[i])
    requires rest == "" || (!IsDigit(rest[0]) && rest[0] !in {'.', 'e', 'E', 'x', 'X'})
    ensures ScanUnsigned(digits + rest) == Integer(Number(digits))
  {
    DigitsOfDecimal(digits, rest);
    assert (digits + rest)[..|digits|] == digits;
  }

  lemma ScanSigned(sign: string, t: string)
    requires t != "" && IsDigit(t[0]) && sign in {"", "+", "-"}
    ensures !IsBlank((sign + t)[0])
    ensures SkipBlanks(sign + t) == sign + t
    ensures ScanNumber(sign + t) ==
            if sign == "-" then match ScanUnsigned(t) case Integer(v) => Integer(-v) case other => other
            else ScanUnsigned(t)
  {
    hide ScanUnsigned;
    assert sign != "" ==> (sign + t)[1..] == t;
    assert sign == "" ==> sign + t == t;
  }

  /** Any decimal integer is read, after blanks and a sign, up to something that does not go on with it. */
  lemma ScanReads(blanks: string, sign: string, digits: string, rest: string)
    requires forall i :: 0 <= i < |blanks| ==> blanks[i] == ' ' || '\t' <= blanks[i] <= '\r'
    requires sign in {"", "+", "-"}
    requires digits != "" && forall i :: 0 <= i < |digits| ==> '0' <= digits[i] <= '9'
    requires rest == "" || (!('0' <= rest[0] <= '9') && rest[0] !in {'.', 'e', 'E', 'x', 'X'})
    ensures ScanNumber(blanks + (sign + (digits + rest))) ==
            Integer(if sign == "-" then 0 - Number(digits) else Number(digits))
  {
    hide ScanUnsigned, SkipBlanks, Number;
    ScanDigits(digits, rest);
    ScanSigned(sign, digits + rest);
    BlanksSkipped(blanks, sign + (digits + rest));
    ScanSkips(blanks + (sign + (digits + rest)));
  }

  lemma ScanSkips(s: string)
    ensures SkipBlanks(SkipBlanks(s)) == SkipBlanks(s) && ScanNumber(s) == ScanNumber(SkipBlanks(s))
  {
    SkipTwice(s);
  }

  lemma {:induction false} SkipTwice(s: string)
    ensures SkipBlanks(SkipBlanks(s)) == SkipBlanks(s)
  {
    if s != "" && IsBlank(s[0]) {
      SkipTwice(s[1..]);
    }
  }

  lemma {:induction false} BlanksSkipped(blanks: string, t: string)
    requires forall i :: 0 <= i < |blanks| ==> IsBlank(blanks[i])
    requires t != "" && !IsBlank(t[0])
    ensures SkipBlanks(blanks + t) == t
  {
    if blanks == "" {
      assert blanks + t == t;
    } else {
      assert (blanks + t)[1..] == blanks[1..] + t;
      BlanksSkipped(blanks[1..], t);
    }
  }

  lemma EntryEnds(more: seq<Entry>)
    ensures Following(more) != "" && (Following(more)[0] == '}' || Following(more)[0] == ',')
  {
  }

  lemma ScanField(f: Field, more: seq<Entry>)
    ensures ScanNumber(PrintField(f) + Following(more)) ==
            match f case Str(_) => NoNumber case Num(n) => Integer(n)
    ensures (PrintField(f) + Following(more))[0] != ' '
  {
    EntryEnds(more);
    hide Following, ScanNumber;
    match f
    case Str(v) => ScanQuote(PrintField(f) + Following(more));
    case Num(n) => if n < 0 { ScanNegative(-n, Following(more)); } else { ScanPositive(n, Following(more)); }
  }

  lemma ScanPositive(n: nat, after: string)
    requires after != "" && (after[0] == '}' || after[0] == ',')
    ensures ScanNumber(Decimal(n) + after) == Integer(n) && (Decimal(n) + after)[0] != ' '
  {
    hide Decimal, ScanUnsigned, DigitCount;
    var text := Decimal(n) + after;
    assert IsDigit(text[0]) && SkipBlanks(text) == text;
    ScanDecimal(n, after);
  }

  lemma ScanNegative(n: nat, after: string)
    requires n > 0 && after != "" && (after[0] == '}' || after[0] == ',')
    ensures ScanNumber("-" + Decimal(n) + after) == Integer(0 - n) && ("-" + Decimal(n) + after)[0] != ' '
  {
    hide Decimal, ScanUnsigned, DigitCount;
    var text := "-" + Decimal(n) + after;
    assert text[0] == '-' && text[1..] == Decimal(n) + after;
    ScanDecimal(n, after);
  }

  lemma ScanQuote(text: string)
    requires text != "" && text[0] == '\"'
    ensures ScanNumber(text) == NoNumber
  {
  }

  /** The last part of the number extractor, from the position of the colon on. */
  function NumberAt(s: string, c: nat): Scanned {
    var k := SkipSpaces(s, c);
    if k + 1 <= |s| then ScanNumber(s[k + 1..]) else NoNumber
  }

  lemma NumberFromColon(s: string, c: nat, es: seq<Entry>)
    requires es != [] && c <= |s| && s[c..] == FromColon(es)
    ensures NumberAt(s, c) == NumberOf(es)
  {
    hide PrintField, Following, SkipSpaces, ScanNumber;
    var text := PrintField(es[0].field) + Following(es[1..]);
    ScanField(es[0].field, es[1..]);
    FollowingStart(es[1..]);
    OneSpace(s, c, text);
  }

  lemma FindNumberReads(s: string, key: string, a: string)
    requires key != "" && Suffix(s, key) == Some(a)
    ensures FindNumber(s, key) ==
            match Suffix(a, ":") case None => NoNumber case Some(b) => NumberAt(s, |s| - |b|)
    ensures Suffix(a, ":").Some? ==> s[|s| - |Suffix(a, ":").value|..] == Suffix(a, ":").value
  {
    hide Suffix, Find, SkipSpaces, ScanNumber;
    assert s[0..] == s;
    Continue(s, 0, s, key);
    Continue(s, |s| - |a|, a, ":");
  }

  lemma NoKeyNoNumber(s: string, key: string)
    requires key != "" && Suffix(s, key) == None
    ensures FindNumber(s, key) == NoNumber
  {
    hide Suffix, Find;
    assert s[0..] == s;
    Continue(s, 0, s, key);
  }

  lemma NoColonNoNumber(es: seq<Entry>)
    requires es == []
    ensures NumberOf(es) == NoNumber
  {
  }

  /** The whole of what the number extractor does on flat objects. */
  lemma FindNumberOnFlat(es: seq<Entry>, k: string)
    requires IsFlat(es) && IsName(k)
    ensures FindNumber(Print(es), Quote(k)) ==
            match ReadFrom(es, k) case None => NoNumber case Some(more) => NumberOf(more)
  {
    hide *;
    var s := Print(es);
    NonEmptyQuote(k);
    KeyInPrint(es, k);
    ColonAfterHit(es, k);
    if Hit(es, k).Some? {
      var more := ReadFrom(es, k).value;
      FindNumberReads(s, Quote(k), Hit(es, k).value);
      if more == [] {
        NoColonNoNumber(more);
      } else {
        NumberFromColon(s, |s| - |FromColon(more)|, more);
      }
    } else {
      NoKeyNoNumber(s, Quote(k));
    }
  }

  lemma OneSpace(s: string, c: nat, text: string)
    requires c <= |s| && s[c..] == ": " + text && text != "" && text[0] != ' '
    ensures SkipSpaces(s, c) == c + 1 && s[c + 2..] == text
  {
  }

  // ----- Agreement with a real parse -----

  /** What a real parse of the object gives for a key. */
  function Lookup(es: seq<Entry>, k: string): Option<Field> {
    if es == [] then None else if es[0].key == k then Some(es[0].field) else Lookup(es[1..], k)
  }
}
