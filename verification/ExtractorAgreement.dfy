/**
 When the field extractor agrees with a real parse, on every flat object and for every name,
 whether the object has it as a key or not.
 */
module ExtractorAgreement {
  import opened Wrappers
  import opened FieldExtractor
  import opened ExtractorTheorems

  // ----- Which entry is read -----

  /** The entry with this key, or the number of entries if there is none. */
  function KeyAt(es: seq<Entry>, k: string): (i: nat)
    ensures i <= |es| && (i < |es| ==> es[i].key == k)
    ensures forall j :: 0 <= j < i ==> es[j].key != k
  {
    if es == [] || es[0].key == k then 0 else 1 + KeyAt(es[1..], k)
  }

  /** The first entry in which the name stands in quotes, as key or as value. */
  function NameAt(es: seq<Entry>, k: string): (h: nat)
    ensures h <= |es| && (h < |es| ==> es[h].key == k || es[h].field == Str(k))
    ensures forall j :: 0 <= j < h ==> es[j].key != k && es[j].field != Str(k)
  {
    if es == [] || es[0].key == k || es[0].field == Str(k) then 0 else 1 + NameAt(es[1..], k)
  }

  /** The entry that is read: a name found as a value makes it the one after. */
  function ReadAt(es: seq<Entry>, k: string): (p: nat)
    ensures p <= |es|
  {
    var h := NameAt(es, k);
    if h == |es| || es[h].key == k then h else h + 1
  }

  lemma {:induction false} ReadFromIsReadAt(es: seq<Entry>, k: string)
    ensures match ReadFrom(es, k)
            case None => ReadAt(es, k) == |es|
            case Some(more) => more == es[ReadAt(es, k)..]
  {
    if es != [] && es[0].key != k && es[0].field != Str(k) {
      ReadFromIsReadAt(es[1..], k);
    }
  }

  lemma {:induction false} LookupIsKeyAt(es: seq<Entry>, k: string)
    ensures Lookup(es, k) == if KeyAt(es, k) == |es| then None else Some(es[KeyAt(es, k)].field)
  {
    if es != [] && es[0].key != k {
      LookupIsKeyAt(es[1..], k);
    }
  }

  /** Another entry than that of the key is read only before it. */
  lemma ReadNoLater(es: seq<Entry>, k: string)
    ensures ReadAt(es, k) <= KeyAt(es, k)
  {
  }

  /**
   The entry of the key is the one that is read, or none if there is no such key, exactly when
   no string value equal to the name stands before it, except right before it.
   */
  lemma ReadsTheRightEntry(es: seq<Entry>, k: string)
    ensures ReadAt(es, k) == KeyAt(es, k) <==>
            forall j :: 0 <= j < KeyAt(es, k) - 1 ==> es[j].field != Str(k)
  {
    var h, i := NameAt(es, k), KeyAt(es, k);
    ReadNoLater(es, k);
    if h + 1 < i {
      assert es[h].field == Str(k);
    }
  }

  // ----- Strings -----

  function StringBound(es: seq<Entry>, k: string): Option<string> {
    match Lookup(es, k) case Some(Str(v)) => Some(v) case _ => None
  }

  /**
   The right entry is read, and it is a string, or a number with no entry after it whose key would
   be read instead; or what is read in its place happens to be the same.
   */
  predicate StringIsRight(es: seq<Entry>, k: string) {
    var i, p := KeyAt(es, k), ReadAt(es, k);
    if p == i then i == |es| || es[i].field.Str? || i + 1 == |es|
    else if p == |es| then true
    else match es[p].field
         case Str(v) => i < |es| && es[i].field == Str(v)
         case Num(_) => p + 1 == |es| || (i < |es| && es[i].field == Str(es[p + 1].key))
  }

  lemma StringRead(es: seq<Entry>, k: string)
    requires IsFlat(es) && IsName(k)
    ensures var p := ReadAt(es, k);
            FindString(Print(es), Quote(k)) ==
            if p == |es| then None
            else match es[p].field
                 case Str(v) => Some(v)
                 case Num(_) => if p + 1 < |es| then Some(es[p + 1].key) else None
  {
    hide FindString, Print, Quote, IsFlat, ReadFrom, ReadAt;
    FindStringOnFlat(es, k);
    ReadFromIsReadAt(es, k);
    assert es[ReadAt(es, k)..] == [] <==> ReadAt(es, k) == |es|;
  }

  /** On every flat object and for every name: when the string read is the one bound to the name, or none. */
  lemma StringAgreesWhen(es: seq<Entry>, k: string)
    requires IsFlat(es) && IsName(k)
    ensures FindString(Print(es), Quote(k)) == StringBound(es, k) <==> StringIsRight(es, k)
  {
    hide FindString, Print, Quote, IsFlat, Lookup;
    StringRead(es, k);
    LookupIsKeyAt(es, k);
    ReadNoLater(es, k);
    hide ReadAt;
  }

  // ----- Numbers -----

  predicate IsUint(f: Field) {
    f.Num? && 0 <= f.n < 0x1_0000_0000
  }

  function UintBound(es: seq<Entry>, k: string): Uint {
    match Lookup(es, k) case Some(f) => (if IsUint(f) then Value(f.n) else NotFound) case None => NotFound
  }

  /**
   The right entry is read, and it is not too large; or what is read in its place happens to be
   the same number, or no number where none is bound.
   */
  predicate UintIsRight(es: seq<Entry>, k: string) {
    var i, p := KeyAt(es, k), ReadAt(es, k);
    if p == |es| then true
    else if es[p].field.Num? && es[p].field.n >= 0x1_0000_0000 then false
    else if p == i then true
    else if IsUint(es[p].field) then i < |es| && es[i].field == es[p].field
    else i == |es| || !IsUint(es[i].field)
  }

  lemma NumberRead(es: seq<Entry>, k: string)
    requires IsFlat(es) && IsName(k)
    ensures var p := ReadAt(es, k);
            FindNumber(Print(es), Quote(k)) ==
            if p < |es| && es[p].field.Num? then Integer(es[p].field.n) else NoNumber
  {
    hide FindNumber, Print, Quote, IsFlat, ReadFrom, ReadAt;
    FindNumberOnFlat(es, k);
    ReadFromIsReadAt(es, k);
    assert es[ReadAt(es, k)..] == [] <==> ReadAt(es, k) == |es|;
  }

  /** On every flat object and for every name: when the number read is the one below 2^32 bound to it, or none. */
  lemma UintAgreesWhen(es: seq<Entry>, k: string)
    requires IsFlat(es) && IsName(k)
    ensures FindUint(Print(es), Quote(k)) == UintBound(es, k) <==> UintIsRight(es, k)
  {
    hide FindNumber, Print, Quote, IsFlat, Lookup;
    NumberRead(es, k);
    LookupIsKeyAt(es, k);
    ReadNoLater(es, k);
    hide ReadAt;
  }

  /**
   If no string value is the name that is looked up, the number read is right unless it is 2^32 or
   more, and the string is right unless the name is bound to a number before the last entry.
   */
  lemma AgreesWithParse(es: seq<Entry>, k: string)
    requires IsFlat(es) && IsName(k)
    requires forall j :: 0 <= j < |es| ==> es[j].field != Str(k)
    ensures match Lookup(es, k)
            case None => FindString(Print(es), Quote(k)) == None && FindUint(Print(es), Quote(k)) == NotFound
            case Some(Str(v)) => FindString(Print(es), Quote(k)) == Some(v) && FindUint(Print(es), Quote(k)) == NotFound
            case Some(Num(n)) =>
              && (FindUint(Print(es), Quote(k)) == UintBound(es, k) <==> n < 0x1_0000_0000)
              && (FindString(Print(es), Quote(k)) == None <==> es[|es| - 1].key == k)
  {
    hide FindString, FindNumber, Print, Quote, Lookup;
    StringAgreesWhen(es, k);
    UintAgreesWhen(es, k);
    ReadsTheRightEntry(es, k);
    LookupIsKeyAt(es, k);
  }

  // ----- Inputs on which it does not -----

  lemma Names()
    ensures "cmd" != "node" && "app" != "node" && "by" != "node" && "rateMbps" != "node"
    ensures "cmd" != "app" && "cmd" != "by" && "cmd" != "rateMbps"
    ensures "app" != "by" && "app" != "rateMbps" && "by" != "rateMbps"
    ensures IsName("cmd") && IsName("app") && IsName("node") && IsName("by") && IsName("rateMbps")
    ensures '\\' !in "node" && '\"' !in "node" && '\\' !in "set-flow-rate" && '\"' !in "set-flow-rate"
    ensures "set-flow-rate" != "node"
  {
  }

  /** A command whose "by" is "node". */
  const BY_NODE: seq<Entry> :=
    [Entry("cmd", Str("set-flow-rate")), Entry("by", Str("node")), Entry("app", Num(5)), Entry("rateMbps", Num(10))]

  /** A string value equal to a name makes the extractor read the entry after it instead. */
  lemma AValueCanShadowAKey()
    ensures var es := BY_NODE + [Entry("node", Num(3))];
            IsFlat(es) && Lookup(es, "node") == Some(Num(3)) && FindUint(Print(es), Quote("node")) == Value(5)
  {
    hide FindNumber, Print, Quote;
    Names();
    hide IsName;
    var es := BY_NODE + [Entry("node", Num(3))];
    assert IsFlat(es);
    hide IsFlat;
    NumberRead(es, "node");
    LookupIsKeyAt(es, "node");
    assert es[1] == Entry("by", Str("node")) && es[2] == Entry("app", Num(5)) && es[4].key == "node";
    assert NameAt(es, "node") == 1 && KeyAt(es, "node") == 4;
  }

  /** So a name that is no key of the object is found. */
  lemma AnAbsentKeyCanBeFound()
    ensures IsFlat(BY_NODE) && Lookup(BY_NODE, "node") == None
    ensures FindUint(Print(BY_NODE), Quote("node")) == Value(5)
  {
    hide FindNumber, Print, Quote;
    Names();
    hide IsName;
    assert IsFlat(BY_NODE);
    hide IsFlat;
    NumberRead(BY_NODE, "node");
    LookupIsKeyAt(BY_NODE, "node");
    assert BY_NODE[1] == Entry("by", Str("node")) && BY_NODE[2] == Entry("app", Num(5));
    assert NameAt(BY_NODE, "node") == 1 && KeyAt(BY_NODE, "node") == 4;
  }

  /** A name bound to a number reads, as a string, the key after it. */
  lemma ANumberGivesTheNextKey()
    ensures var es := [Entry("cmd", Num(5)), Entry("node", Num(3))];
            Lookup(es, "cmd") == Some(Num(5)) && FindString(Print(es), Quote("cmd")) == Some("node")
  {
    hide FindString, Print, Quote;
    Names();
    hide IsName;
    var es := [Entry("cmd", Num(5)), Entry("node", Num(3))];
    StringRead(es, "cmd");
    assert NameAt(es, "cmd") == 0;
  }
}
