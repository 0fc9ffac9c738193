/**
 The bytes a torrent file's InfoHash is taken of. The info dictionary is decoded
 and encoded again before it is hashed, so they need not be the bytes in the
 file.

 Main results
   InfoOutcome          what is hashed, or why nothing is, for every file that decodes
   InfoBytesPreserved   it is the text of the file's own info entry if and only
                        if that text is canonical
 */
module InfoHash {
  import opened Text
  import opened Bytes
  import opened Bencode
  import opened BencodeGrammar

  const INFO: bytes := [105, 110, 102, 111]

  datatype Outcome =
    | Hashed(text: bytes)
    | Undecodable(why: Failure)
    | NotADictionary
    | NoInfo
    | InfoNotADictionary

  // The argument of the hash function, or the error returned before it.
  ghost function InfoText(max: nat, file: bytes): Outcome {
    match Decode(max, file)
    case Fail(why) => Undecodable(why)
    case Ok(raw, _) =>
      if !raw.Dict? then NotADictionary
      else if INFO !in raw.entries then NoInfo
      else if !raw.entries[INFO].Dict? then InfoNotADictionary
      else Hashed(Encode(raw.entries[INFO]))
  }

  // ---------------------------------------------------------------------
  // The entry that counts
  // ---------------------------------------------------------------------

  // Position i holds the last entry with this key.
  predicate LastWith(es: seq<Entry>, key: bytes, i: nat) {
    i < |es| && es[i].key == key && forall j :: i < j < |es| ==> es[j].key != key
  }

  lemma {:induction false} CollectedOther(es: seq<Entry>, m: map<bytes, Value>, key: bytes)
    requires forall j :: 0 <= j < |es| ==> es[j].key != key
    ensures key in Collected(es, m) <==> key in m
    ensures key in m ==> Collected(es, m)[key] == m[key]
  {
    if es != [] {
      CollectedOther(es[1..], m[es[0].key := Meaning(es[0].value)], key);
    }
  }

  lemma {:induction false} CollectedLast(es: seq<Entry>, m: map<bytes, Value>, key: bytes, i: nat)
    requires LastWith(es, key, i)
    ensures key in Collected(es, m) && Collected(es, m)[key] == Meaning(es[i].value)
  {
    var m1 := m[es[0].key := Meaning(es[0].value)];
    if i == 0 {
      CollectedOther(es[1..], m1, key);
    } else {
      CollectedLast(es[1..], m1, key, i - 1);
    }
  }

  lemma {:induction false} FindLast(es: seq<Entry>, key: bytes) returns (i: nat)
    ensures LastWith(es, key, i) || (i == |es| && forall j :: 0 <= j < |es| ==> es[j].key != key)
  {
    i := |es|;
    while i > 0 && es[i - 1].key != key
      invariant 0 <= i <= |es|
      invariant forall j :: i <= j < |es| ==> es[j].key != key
    {
      i := i - 1;
    }
    i := if i > 0 then i - 1 else |es|;
  }

  // ---------------------------------------------------------------------
  // What is hashed
  // ---------------------------------------------------------------------

  // What comes of the entries of the outermost dictionary: the last info entry decides.
  ghost function Decision(es: seq<Entry>): Outcome {
    if es == [] then NoInfo
    else
      var e := es[|es| - 1];
      if e.key != INFO then Decision(es[..|es| - 1])
      else if e.value.Entries? then Hashed(Encode(Meaning(e.value)))
      else InfoNotADictionary
  }

  lemma {:induction false} DecisionNone(es: seq<Entry>)
    requires forall j :: 0 <= j < |es| ==> es[j].key != INFO
    ensures Decision(es) == NoInfo
  {
    if es != [] { DecisionNone(es[..|es| - 1]); }
  }

  lemma {:induction false} DecisionLast(es: seq<Entry>, i: nat)
    requires LastWith(es, INFO, i)
    ensures Decision(es) == if es[i].value.Entries? then Hashed(Encode(Meaning(es[i].value))) else InfoNotADictionary
  {
    if i < |es| - 1 { DecisionLast(es[..|es| - 1], i); }
  }

  lemma MeaningKind(t: Tree)
    ensures Meaning(t).Dict? <==> t.Entries?
  {
  }

  lemma DictText(max: nat, m: map<bytes, Value>, file: bytes, rest: bytes)
    requires Decode(max, file) == Ok(Dict(m), rest)
    ensures InfoText(max, file) ==
            if INFO !in m then NoInfo
            else if !m[INFO].Dict? then InfoNotADictionary
            else Hashed(Encode(m[INFO]))
  {
  }

  lemma LastDecides(max: nat, es: seq<Entry>, rest: bytes, i: nat)
    requires ValidEntries(max, es) && LastWith(es, INFO, i)
    ensures InfoText(max, Written(Entries(es)) + rest) ==
            if es[i].value.Entries? then Hashed(Encode(Meaning(es[i].value))) else InfoNotADictionary
  {
    Decodes(max, Entries(es), rest);
    DictText(max, Collected(es, map[]), Written(Entries(es)) + rest, rest);
    CollectedLast(es, map[], INFO, i);
    MeaningKind(es[i].value);
  }

  lemma NoneDecides(max: nat, es: seq<Entry>, rest: bytes)
    requires ValidEntries(max, es) && forall j :: 0 <= j < |es| ==> es[j].key != INFO
    ensures InfoText(max, Written(Entries(es)) + rest) == NoInfo
  {
    Decodes(max, Entries(es), rest);
    DictText(max, Collected(es, map[]), Written(Entries(es)) + rest, rest);
    CollectedOther(es, map[], INFO);
  }

  // Every file that decodes is a tree with anything behind it. The outcome depends
  // on nothing but the tree, and in a dictionary on nothing but its last info entry.
  lemma InfoOutcome(max: nat, t: Tree, rest: bytes)
    requires Valid(max, t)
    ensures InfoText(max, Written(t) + rest) == if t.Entries? then Decision(t.entries) else NotADictionary
  {
    if t.Entries? {
      EntriesDecide(max, t.entries, rest);
    } else {
      Decodes(max, t, rest);
      MeaningKind(t);
    }
  }

  lemma EntriesDecide(max: nat, es: seq<Entry>, rest: bytes)
    requires ValidEntries(max, es)
    ensures InfoText(max, Written(Entries(es)) + rest) == Decision(es)
  {
    var k := FindLast(es, INFO);
    if k == |es| {
      NoneDecides(max, es, rest);
      DecisionNone(es);
    } else {
      LastDecides(max, es, rest, k);
      DecisionLast(es, k);
    }
  }

  // A file of these entries, the last info entry at i and a dictionary.
  predicate Torrent(max: nat, file: bytes, es: seq<Entry>, rest: bytes, i: nat) {
    ValidEntries(max, es) && file == Written(Entries(es)) + rest && LastWith(es, INFO, i) && es[i].value.Entries?
  }

  // Something is hashed exactly for these files.
  lemma HashedIff(max: nat, file: bytes)
    ensures InfoText(max, file).Hashed? <==> exists es, rest, i :: Torrent(max, file, es, rest, i)
  {
    if InfoText(max, file).Hashed? {
      var rest := Decode(max, file).rest;
      var t := TreeOf(max, file);
      InfoOutcome(max, t, rest);
      var i := FindLast(t.entries, INFO);
      if i == |t.entries| { DecisionNone(t.entries); } else { DecisionLast(t.entries, i); }
      assert Torrent(max, file, t.entries, rest, i);
    }
    if es, rest, i :| Torrent(max, file, es, rest, i) {
      LastDecides(max, es, rest, i);
    }
  }

  // ---------------------------------------------------------------------
  // Whether it is the file's own text
  // ---------------------------------------------------------------------

  lemma ReencodesIff(max: nat, t: Tree)
    requires Valid(max, t)
    ensures Encode(Meaning(t)) == Written(t) <==> Canonical(max, Written(t))
  {
    Decodes(max, t, []);
    assert Written(t) + [] == Written(t);
    CanonicalIffReencodes(max, Written(t));
  }

  // What stands before and behind the value of an entry.
  function Front(es: seq<Entry>, i: nat): bytes
    requires i < |es|
  {
    [DICT_MARK] + (WrittenEntries(es[..i]) + Prefixed(es[i].numeral, es[i].key))
  }

  function Back(es: seq<Entry>, i: nat, rest: bytes): bytes
    requires i < |es|
  {
    WrittenEntries(es[i + 1..]) + ([END_MARK] + rest)
  }

  lemma {:induction false} EntriesSplit(es: seq<Entry>, i: nat)
    requires i <= |es|
    ensures WrittenEntries(es) == WrittenEntries(es[..i]) + WrittenEntries(es[i..])
  {
    if i == 0 {
      assert es[0..] == es && es[..0] == [];
      NothingLeft(WrittenEntries(es));
    } else {
      EntriesSplit(es[1..], i - 1);
      assert es[..i][1..] == es[1..][..i - 1] && es[1..][i - 1..] == es[i..];
      Associate(Prefixed(es[0].numeral, es[0].key) + Written(es[0].value), WrittenEntries(es[..i][1..]), WrittenEntries(es[i..]));
    }
  }

  lemma RegroupAround(d: bytes, a: bytes, p: bytes, v: bytes, b: bytes, e: bytes, rest: bytes)
    ensures (d + (a + (p + v + b)) + e) + rest == (d + (a + p)) + v + (b + (e + rest))
  {
  }

  lemma ValueSits(es: seq<Entry>, i: nat, rest: bytes)
    requires i < |es|
    ensures Written(Entries(es)) + rest == Front(es, i) + Written(es[i].value) + Back(es, i, rest)
  {
    var e := es[i];
    EntriesSplit(es, i);
    assert es[i..][1..] == es[i + 1..];
    RegroupAround([DICT_MARK], WrittenEntries(es[..i]), Prefixed(e.numeral, e.key), Written(e.value),
                  WrittenEntries(es[i + 1..]), [END_MARK], rest);
  }

  // For every file that is hashed: where its info value stands, and that the bytes
  // hashed are those if and only if they are canonical, whatever else the file holds.
  lemma InfoBytesPreserved(max: nat, file: bytes, es: seq<Entry>, rest: bytes, i: nat)
    requires Torrent(max, file, es, rest, i)
    ensures var own := Written(es[i].value);
            && file == Front(es, i) + own + Back(es, i, rest)
            && InfoText(max, file).Hashed?
            && (InfoText(max, file).text == own <==> Canonical(max, own))
  {
    LastDecides(max, es, rest, i);
    ValueSits(es, i, rest);
    assert ValidEntry(max, es[i]);
    ReencodesIff(max, es[i].value);
  }

  // ---------------------------------------------------------------------
  // Canonical files, and one that is not
  // ---------------------------------------------------------------------

  lemma SameEnd(a: bytes, b: bytes, tail: bytes)
    requires a + tail == b + tail
    ensures a == b
  {
    assert |a| == |b|;
    assert (a + tail)[..|a|] == a && (b + tail)[..|b|] == b;
  }

  lemma CanonicalAtFront(max: nat, t: Tree, tail: bytes)
    requires Valid(max, t) && Scan(max, Written(t) + tail).Some?
    ensures Scan(max, Written(t) + tail) == Some(tail) && Canonical(max, Written(t))
  {
    ScanSound(max, Written(t) + tail);
    Decodes(max, t, tail);
    SameEnd(Written(t), Encode(Meaning(t)), tail);
    ReencodesIff(max, t);
  }

  lemma ScanEntryStep(max: nat, s: bytes, prev: Option<bytes>, key: bytes, mid: bytes)
    requires s != [] && s[0] != END_MARK && ScanDict(max, s, prev).Some? && DecodeString(max, s) == Ok(key, mid)
    ensures Scan(max, mid).Some? && ScanDict(max, Scan(max, mid).value, Some(key)).Some?
  {
    ScanStringSound(max, s);
  }

  lemma FirstEntry(max: nat, e: Entry, prev: Option<bytes>, after: bytes)
    requires ValidEntry(max, e)
    requires ScanDict(max, Prefixed(e.numeral, e.key) + (Written(e.value) + after), prev).Some?
    ensures Canonical(max, Written(e.value)) && ScanDict(max, after, Some(e.key)).Some?
  {
    var mid := Written(e.value) + after;
    StringDecodes(max, e.numeral, e.key, mid);
    ScanEntryStep(max, Prefixed(e.numeral, e.key) + mid, prev, e.key, mid);
    CanonicalAtFront(max, e.value, after);
  }

  lemma EntriesFront(es: seq<Entry>, tail: bytes)
    requires es != []
    ensures WrittenEntries(es) + tail ==
            Prefixed(es[0].numeral, es[0].key) + (Written(es[0].value) + (WrittenEntries(es[1..]) + tail))
  {
    RegroupFront(Prefixed(es[0].numeral, es[0].key), Written(es[0].value), WrittenEntries(es[1..]), tail);
  }

  lemma FirstOfEntries(max: nat, es: seq<Entry>, prev: Option<bytes>, tail: bytes)
    requires es != [] && ValidEntry(max, es[0]) && ScanDict(max, WrittenEntries(es) + tail, prev).Some?
    ensures Canonical(max, Written(es[0].value))
    ensures ScanDict(max, WrittenEntries(es[1..]) + tail, Some(es[0].key)).Some?
  {
    EntriesFront(es, tail);
    FirstEntry(max, es[0], prev, WrittenEntries(es[1..]) + tail);
  }

  predicate EachCanonical(max: nat, es: seq<Entry>) {
    forall i :: 0 <= i < |es| ==> Canonical(max, Written(es[i].value))
  }

  lemma EachCons(es: seq<Entry>, good: Tree -> bool)
    requires es != [] && good(es[0].value) && forall i :: 0 <= i < |es[1..]| ==> good(es[1..][i].value)
    ensures forall i :: 0 <= i < |es| ==> good(es[i].value)
  {
    forall i | 0 <= i < |es|
      ensures good(es[i].value)
    {
      if i > 0 { assert es[i] == es[1..][i - 1]; }
    }
  }

  lemma {:induction false} CanonicalEntries(max: nat, es: seq<Entry>, prev: Option<bytes>, tail: bytes)
    requires ValidEntries(max, es) && ScanDict(max, WrittenEntries(es) + tail, prev).Some?
    ensures EachCanonical(max, es)
  {
    if es != [] {
      FirstOfEntries(max, es, prev, tail);
      CanonicalEntries(max, es[1..], Some(es[0].key), tail);
      EachCons(es, t => Canonical(max, Written(t)));
    }
  }

  // In a canonical file, with anything behind it, the info value is canonical.
  lemma CanonicalFile(max: nat, file: bytes, es: seq<Entry>, rest: bytes, i: nat)
    requires Torrent(max, file, es, rest, i) && Scan(max, file).Some?
    ensures InfoText(max, file) == Hashed(Written(es[i].value))
  {
    InfoBytesPreserved(max, file, es, rest, i);
    Bracketed(DICT_MARK, WrittenEntries(es), rest);
    Associate(WrittenEntries(es), [END_MARK], rest);
    assert file == [DICT_MARK] + (WrittenEntries(es) + ([END_MARK] + rest));
    assert file[1..] == WrittenEntries(es) + ([END_MARK] + rest);
    CanonicalEntries(max, es, None, [END_MARK] + rest);
  }

  // d4:infod1:ai07eee is hashed as d1:ai7ee, which is not in it.
  lemma LenientInfo(max: nat, file: bytes)
    requires max >= 4
    requires file == [DICT_MARK, 52, COLON, 105, 110, 102, 111, DICT_MARK, 49, COLON, 97, INT_MARK, 48, 55, END_MARK, END_MARK, END_MARK]
    ensures InfoText(max, file) == Hashed([DICT_MARK, 49, COLON, 97, INT_MARK, 55, END_MARK, END_MARK])
  {
    var inner := [Entry([49], [97], Number([48, 55]))];
    var es := [Entry([52], INFO, Entries(inner))];
    SmallNumerals();
    SmallTorrent(max, inner, es);
    SpeltOut(inner, es, file);
    InnerEncoded(inner);
    LastDecides(max, es, [], 0);
    NothingLeft(file);
  }

  lemma SmallNumerals()
    ensures ParseInt64([49]) == Some(1) && ParseInt64([52]) == Some(4) && ParseInt64([48, 55]) == Some(7)
  {
    var two: bytes := [48, 55];
    assert [49][..0] == [] && [52][..0] == [] && two[..1] == [48] && [48][..0] == [];
    assert NatValue([49]) == 1 && NatValue([52]) == 4 && NatValue([48]) == 0 && NatValue(two) == 7;
  }

  lemma SmallTorrent(max: nat, inner: seq<Entry>, es: seq<Entry>)
    requires max >= 4
    requires inner == [Entry([49], [97], Number([48, 55]))] && es == [Entry([52], INFO, Entries(inner))]
    ensures ValidEntries(max, es) && LastWith(es, INFO, 0)
  {
    SmallNumerals();
    assert ValidEntry(max, inner[0]);
    assert ValidEntry(max, es[0]);
  }

  lemma WrittenOne(e: Entry)
    ensures WrittenEntries([e]) == Prefixed(e.numeral, e.key) + Written(e.value)
  {
    EntriesCons(e, []);
    NothingLeft([e]);
    NothingLeft(Prefixed(e.numeral, e.key) + Written(e.value));
  }

  lemma SpeltOut(inner: seq<Entry>, es: seq<Entry>, file: bytes)
    requires inner == [Entry([49], [97], Number([48, 55]))] && es == [Entry([52], INFO, Entries(inner))]
    requires file == [DICT_MARK, 52, COLON, 105, 110, 102, 111, DICT_MARK, 49, COLON, 97, INT_MARK, 48, 55, END_MARK, END_MARK, END_MARK]
    ensures Written(Entries(es)) == file
  {
    WrittenOne(inner[0]);
    WrittenOne(es[0]);
  }

  lemma InnerEncoded(inner: seq<Entry>)
    requires inner == [Entry([49], [97], Number([48, 55]))]
    ensures Encode(Meaning(Entries(inner))) == [DICT_MARK, 49, COLON, 97, INT_MARK, 55, END_MARK, END_MARK]
  {
    SmallNumerals();
    assert inner[1..] == [];
    assert Meaning(inner[0].value) == Int(7);
    assert Collected(inner, map[]) == map[[97] := Int(7)];
    OneKeyEncoded([97], Int(7));
    assert EncodeString([97]) == [49, COLON, 97];
    assert Encode(Int(7)) == [INT_MARK, 55, END_MARK];
  }

  lemma OneKeyEncoded(key: bytes, v: Value)
    ensures Encode(Dict(map[key := v])) == [DICT_MARK] + (EncodeString(key) + Encode(v)) + [END_MARK]
  {
    var d := Dict(map[key := v]);
    AscendingUnique(SortedKeys(d.entries.Keys), [key]);
    assert [key][1..] == [];
    NothingLeft(EncodeString(key) + Encode(v));
    assert EncodeEntries([key], d) == EncodeString(key) + Encode(v);
  }
}
