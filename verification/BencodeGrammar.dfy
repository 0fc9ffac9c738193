/**
 The grammar of what the bencode decoder accepts, as syntax trees apart from the
 decoder, and of the unfinished inputs in front of a hole; and with them exactly
 which inputs make the decoder's make panic.

 Main results
   AcceptsIff    an input decodes if and only if a tree is written at its front
   PanicsIff     decoding panics if and only if a bad length stands in a hole of
                 an unfinished input
   SafeLengths   a check on the bytes alone that rules the panic out
   DashAfterMark a weaker check that does not
 */
module BencodeGrammar {
  import opened Text
  import opened Bytes
  import opened Bencode

  // ---------------------------------------------------------------------
  // Trees
  // ---------------------------------------------------------------------

  // The input of one value: numerals as they are spelt, entries in input order.
  datatype Tree =
    | Number(numeral: bytes)
    | String(numeral: bytes, data: bytes)
    | Items(items: seq<Tree>)
    | Entries(entries: seq<Entry>)

  datatype Entry = Entry(numeral: bytes, key: bytes, value: Tree)

  function Prefixed(numeral: bytes, data: bytes): bytes {
    numeral + [COLON] + data
  }

  function Written(t: Tree): bytes
    decreases t
  {
    match t
    case Number(numeral) => [INT_MARK] + numeral + [END_MARK]
    case String(numeral, data) => Prefixed(numeral, data)
    case Items(items) => [LIST_MARK] + WrittenItems(items) + [END_MARK]
    case Entries(entries) => [DICT_MARK] + WrittenEntries(entries) + [END_MARK]
  }

  function WrittenItems(ts: seq<Tree>): bytes
    decreases ts
  {
    if ts == [] then [] else Written(ts[0]) + WrittenItems(ts[1..])
  }

  function WrittenEntries(es: seq<Entry>): bytes
    decreases es
  {
    if es == [] then [] else Prefixed(es[0].numeral, es[0].key) + Written(es[0].value) + WrittenEntries(es[1..])
  }

  // A numeral that gives the length of the data, and a length make accepts. Signs
  // and leading zeros are allowed.
  predicate Measures(max: nat, numeral: bytes, data: bytes) {
    ParseInt64(numeral) == Some(|data|) && Allocates(max, |data|)
  }

  predicate StartsWithDigit(s: bytes) {
    s != [] && IsDigit(s[0])
  }

  predicate Valid(max: nat, t: Tree)
    decreases t
  {
    match t
    case Number(numeral) => numeral != [MINUS, ZERO] && ParseInt64(numeral).Some?
    case String(numeral, data) => StartsWithDigit(numeral) && Measures(max, numeral, data)
    case Items(items) => forall i :: 0 <= i < |items| ==> Valid(max, items[i])
    case Entries(entries) => forall i :: 0 <= i < |entries| ==> ValidEntry(max, entries[i])
  }

  predicate ValidEntry(max: nat, e: Entry)
    decreases e
  {
    Measures(max, e.numeral, e.key) && Valid(max, e.value)
  }

  predicate ValidItems(max: nat, ts: seq<Tree>) {
    forall i :: 0 <= i < |ts| ==> Valid(max, ts[i])
  }

  predicate ValidEntries(max: nat, es: seq<Entry>) {
    forall i :: 0 <= i < |es| ==> ValidEntry(max, es[i])
  }

  // --- what a tree means ---

  function Meaning(t: Tree): Value
    decreases t
  {
    match t
    case Number(numeral) => Int(match ParseInt64(numeral) case Some(n) => n case None => 0)
    case String(_, data) => Str(data)
    case Items(items) => List(Meanings(items))
    case Entries(entries) => Dict(Collected(entries, map[]))
  }

  function Meanings(ts: seq<Tree>): seq<Value>
    decreases ts
  {
    if ts == [] then [] else [Meaning(ts[0])] + Meanings(ts[1..])
  }

  // A later occurrence of a key replaces an earlier one.
  function Collected(es: seq<Entry>, m: map<bytes, Value>): map<bytes, Value>
    decreases es
  {
    if es == [] then m else Collected(es[1..], m[es[0].key := Meaning(es[0].value)])
  }

  // ---------------------------------------------------------------------
  // A tree decodes to what it means
  // ---------------------------------------------------------------------

  lemma NumeralStart(numeral: bytes)
    requires ParseInt64(numeral).Some?
    ensures numeral != [] && numeral[0] != END_MARK && COLON !in numeral && END_MARK !in numeral
  {
    if numeral[0] == PLUS || numeral[0] == MINUS {
      assert numeral == [numeral[0]] + numeral[1..];
    }
  }

  lemma StringDecodes(max: nat, numeral: bytes, data: bytes, rest: bytes)
    requires Measures(max, numeral, data)
    ensures DecodeString(max, Prefixed(numeral, data) + rest) == Ok(data, rest)
    ensures (Prefixed(numeral, data) + rest)[0] == numeral[0] != END_MARK
  {
    NumeralStart(numeral);
    assert Prefixed(numeral, data) + rest == numeral + [COLON] + (data + rest);
    ReadUntilFirst(numeral, COLON, data + rest);
    assert (data + rest)[..|data|] == data && (data + rest)[|data|..] == rest;
  }

  lemma NumberDecodes(numeral: bytes, rest: bytes)
    requires numeral != [MINUS, ZERO] && ParseInt64(numeral).Some?
    ensures DecodeInt(numeral + [END_MARK] + rest) == Ok(ParseInt64(numeral).value, rest)
  {
    NumeralStart(numeral);
    ReadUntilFirst(numeral, END_MARK, rest);
  }

  lemma WrittenStart(max: nat, t: Tree, rest: bytes)
    requires Valid(max, t)
    ensures Written(t) + rest != [] && (Written(t) + rest)[0] != END_MARK
  {
    if t.String? { NumeralStart(t.numeral); }
  }

  lemma {:induction false} Decodes(max: nat, t: Tree, rest: bytes)
    requires Valid(max, t)
    ensures Decode(max, Written(t) + rest) == Ok(Meaning(t), rest)
    decreases t
  {
    match t
    case Number(numeral) =>
      NumberDecodes(numeral, rest);
      DecodeIntMark(max, ParseInt64(numeral).value, numeral + [END_MARK] + rest, rest);
      Bracketed(INT_MARK, numeral, rest);
    case String(numeral, data) =>
      StringDecodes(max, numeral, data, rest);
      DecodeStringMark(max, data, Prefixed(numeral, data) + rest, rest);
    case Items(items) =>
      ItemsDecode(max, items, [END_MARK] + rest);
      EndOfList(max, items, rest);
    case Entries(entries) =>
      EntriesDecode(max, entries, map[], [END_MARK] + rest);
      EndOfDict(max, entries, rest);
  }

  lemma EndOfList(max: nat, ts: seq<Tree>, rest: bytes)
    requires DecodeList(max, WrittenItems(ts) + ([END_MARK] + rest)) ==
             Prepend(Meanings(ts), DecodeList(max, [END_MARK] + rest))
    ensures Decode(max, Written(Items(ts)) + rest) == Ok(List(Meanings(ts)), rest)
  {
    assert ([END_MARK] + rest)[1..] == rest;
    assert Meanings(ts) + [] == Meanings(ts);
    Associate(WrittenItems(ts), [END_MARK], rest);
    DecodeListMark(max, Meanings(ts), WrittenItems(ts) + [END_MARK] + rest, rest);
    Bracketed(LIST_MARK, WrittenItems(ts), rest);
  }

  lemma EndOfDict(max: nat, es: seq<Entry>, rest: bytes)
    requires DecodeDict(max, WrittenEntries(es) + ([END_MARK] + rest), map[]) ==
             DecodeDict(max, [END_MARK] + rest, Collected(es, map[]))
    ensures Decode(max, Written(Entries(es)) + rest) == Ok(Dict(Collected(es, map[])), rest)
  {
    assert ([END_MARK] + rest)[1..] == rest;
    Associate(WrittenEntries(es), [END_MARK], rest);
    DecodeDictMark(max, Collected(es, map[]), WrittenEntries(es) + [END_MARK] + rest, rest);
    Bracketed(DICT_MARK, WrittenEntries(es), rest);
  }

  lemma {:induction false} ItemsDecode(max: nat, ts: seq<Tree>, tail: bytes)
    requires ValidItems(max, ts)
    ensures DecodeList(max, WrittenItems(ts) + tail) == Prepend(Meanings(ts), DecodeList(max, tail))
    decreases ts
  {
    var p := DecodeList(max, tail);
    if ts == [] {
      NothingLeft(tail);
      PrependNone(p);
    } else {
      var mid := WrittenItems(ts[1..]) + tail;
      Associate(Written(ts[0]), WrittenItems(ts[1..]), tail);
      WrittenStart(max, ts[0], mid);
      Decodes(max, ts[0], mid);
      PrependStep(max, Written(ts[0]) + mid, Meaning(ts[0]), mid);
      ItemsDecode(max, ts[1..], tail);
      PrependBoth([Meaning(ts[0])], Meanings(ts[1..]), p);
    }
  }

  lemma RegroupFront(a: bytes, b: bytes, c: bytes, tail: bytes)
    ensures (a + b + c) + tail == a + (b + (c + tail))
  {
  }

  lemma {:induction false} EntriesDecode(max: nat, es: seq<Entry>, m: map<bytes, Value>, tail: bytes)
    requires ValidEntries(max, es)
    ensures DecodeDict(max, WrittenEntries(es) + tail, m) == DecodeDict(max, tail, Collected(es, m))
    decreases es
  {
    if es == [] {
      NothingLeft(tail);
    } else {
      var e := es[0];
      assert ValidEntry(max, e);
      var after := WrittenEntries(es[1..]) + tail;
      var mid := Written(e.value) + after;
      RegroupFront(Prefixed(e.numeral, e.key), Written(e.value), WrittenEntries(es[1..]), tail);
      StringDecodes(max, e.numeral, e.key, mid);
      Decodes(max, e.value, after);
      DecodeDictStep(max, Prefixed(e.numeral, e.key) + mid, m, e.key, Meaning(e.value), mid, after);
      EntriesDecode(max, es[1..], m[e.key := Meaning(e.value)], tail);
    }
  }

  // ---------------------------------------------------------------------
  // What decodes is a tree
  // ---------------------------------------------------------------------

  lemma ReadNumeral(max: nat, s: bytes) returns (numeral: bytes)
    requires DecodeString(max, s).Ok?
    ensures Measures(max, numeral, DecodeString(max, s).value)
    ensures s == Prefixed(numeral, DecodeString(max, s).value) + DecodeString(max, s).rest
    ensures s != [] && numeral != [] && numeral[0] == s[0]
  {
    var t, rest := ReadUntil(s, COLON).value, ReadUntil(s, COLON).rest;
    numeral := t;
    NumeralStart(t);
    CutText(s, t, rest, ParseInt64(t).value);
  }

  lemma {:induction false} TreeOf(max: nat, s: bytes) returns (t: Tree)
    requires Decode(max, s).Ok?
    ensures Valid(max, t) && s == Written(t) + Decode(max, s).rest
    decreases |s|, 0
  {
    var rest := Decode(max, s).rest;
    assert s == [s[0]] + s[1..];
    if s[0] == INT_MARK {
      var numeral := ReadUntil(s[1..], END_MARK).value;
      t := Number(numeral);
      Bracketed(INT_MARK, numeral, rest);
    } else if s[0] == LIST_MARK {
      var ts := TreesOf(max, s[1..]);
      t := Items(ts);
      Bracketed(LIST_MARK, WrittenItems(ts), rest);
    } else if s[0] == DICT_MARK {
      var es := EntriesOf(max, s[1..], map[]);
      t := Entries(es);
      Bracketed(DICT_MARK, WrittenEntries(es), rest);
    } else {
      var numeral := ReadNumeral(max, s);
      t := String(numeral, DecodeString(max, s).value);
    }
  }

  lemma {:induction false} TreesOf(max: nat, s: bytes) returns (ts: seq<Tree>)
    requires DecodeList(max, s).Ok?
    ensures ValidItems(max, ts) && s == WrittenItems(ts) + [END_MARK] + DecodeList(max, s).rest
    decreases |s|, 1
  {
    if s[0] == END_MARK {
      ts := [];
      assert s == [] + [END_MARK] + s[1..];
    } else {
      var t := TreeOf(max, s);
      var mid := Decode(max, s).rest;
      var later := TreesOf(max, mid);
      ts := [t] + later;
      WrittenCons(t, later);
      RegroupItem(Written(t), WrittenItems(later), DecodeList(max, mid).rest);
    }
  }

  lemma WrittenCons(t: Tree, ts: seq<Tree>)
    ensures WrittenItems([t] + ts) == Written(t) + WrittenItems(ts)
  {
    assert ([t] + ts)[1..] == ts;
  }

  lemma EntriesCons(e: Entry, es: seq<Entry>)
    ensures WrittenEntries([e] + es) == Prefixed(e.numeral, e.key) + Written(e.value) + WrittenEntries(es)
  {
    assert ([e] + es)[1..] == es;
  }

  lemma {:induction false} EntriesOf(max: nat, s: bytes, m: map<bytes, Value>) returns (es: seq<Entry>)
    requires DecodeDict(max, s, m).Ok?
    ensures ValidEntries(max, es) && s == WrittenEntries(es) + [END_MARK] + DecodeDict(max, s, m).rest
    decreases |s|, 1
  {
    if s[0] == END_MARK {
      es := [];
      assert s == [] + [END_MARK] + s[1..];
    } else {
      var numeral := ReadNumeral(max, s);
      var key, mid := DecodeString(max, s).value, DecodeString(max, s).rest;
      var t := TreeOf(max, mid);
      var v, after := Decode(max, mid).value, Decode(max, mid).rest;
      DecodeDictStep(max, s, m, key, v, mid, after);
      var later := EntriesOf(max, after, m[key := v]);
      es := [Entry(numeral, key, t)] + later;
      EntriesCons(Entry(numeral, key, t), later);
      Regroup(Prefixed(numeral, key), Written(t), WrittenEntries(later), DecodeDict(max, s, m).rest);
    }
  }

  // What decodes, to what value and up to where: exactly the inputs with a valid
  // tree at the front.
  lemma AcceptsIff(max: nat, s: bytes, v: Value, rest: bytes)
    ensures Decode(max, s) == Ok(v, rest) <==>
            exists t :: Valid(max, t) && s == Written(t) + rest && Meaning(t) == v
  {
    if Decode(max, s) == Ok(v, rest) {
      var t := TreeOf(max, s);
      Decodes(max, t, rest);
    }
    if t :| Valid(max, t) && s == Written(t) + rest && Meaning(t) == v {
      Decodes(max, t, rest);
    }
  }

  // ---------------------------------------------------------------------
  // Unfinished input
  // ---------------------------------------------------------------------

  // A list or dictionary begun and not ended: waiting for an item, for a key, or
  // for the value of a key.
  datatype Frame =
    | ListOpen(items: seq<Tree>)
    | KeyOpen(entries: seq<Entry>)
    | ValueOpen(entries: seq<Entry>, numeral: bytes, key: bytes)

  function Begun(f: Frame): bytes {
    match f
    case ListOpen(items) => [LIST_MARK] + WrittenItems(items)
    case KeyOpen(entries) => [DICT_MARK] + WrittenEntries(entries)
    case ValueOpen(entries, numeral, key) => [DICT_MARK] + WrittenEntries(entries) + Prefixed(numeral, key)
  }

  predicate ValidFrame(max: nat, f: Frame) {
    match f
    case ListOpen(items) => ValidItems(max, items)
    case KeyOpen(entries) => ValidEntries(max, entries)
    case ValueOpen(entries, numeral, key) => ValidEntries(max, entries) && Measures(max, numeral, key)
  }

  // What is open, outermost first; only the innermost can wait for a key.
  function Opened(fs: seq<Frame>): bytes {
    if fs == [] then [] else Begun(fs[0]) + Opened(fs[1..])
  }

  predicate ValidFrames(max: nat, fs: seq<Frame>) {
    forall i :: 0 <= i < |fs| ==> ValidFrame(max, fs[i]) && (fs[i].KeyOpen? ==> i == |fs| - 1)
  }

  predicate AwaitsKey(fs: seq<Frame>) {
    fs != [] && fs[|fs| - 1].KeyOpen?
  }

  // A length that make refuses stands in the hole: a numeral with any sign where a
  // key is awaited, one that starts with a digit where a value is.
  predicate BadLengthIn(max: nat, fs: seq<Frame>, numeral: bytes, n: int) {
    && ParseInt64(numeral) == Some(n) && !Allocates(max, n)
    && (AwaitsKey(fs) || StartsWithDigit(numeral))
  }

  predicate PanicsAt(max: nat, s: bytes, n: int, fs: seq<Frame>, numeral: bytes, rest: bytes) {
    && ValidFrames(max, fs) && BadLengthIn(max, fs, numeral, n)
    && s == Opened(fs) + (numeral + [COLON] + rest)
  }

  // --- a bad length in a hole panics ---

  lemma BadStringPanics(max: nat, numeral: bytes, n: int, rest: bytes)
    requires ParseInt64(numeral) == Some(n) && !Allocates(max, n)
    ensures DecodeString(max, numeral + [COLON] + rest) == Fail(MakePanics(n))
    ensures (numeral + [COLON] + rest)[0] == numeral[0] != END_MARK
  {
    NumeralStart(numeral);
    ReadUntilFirst(numeral, COLON, rest);
  }

  lemma FailsInList(max: nat, ts: seq<Tree>, hole: bytes, n: int)
    requires ValidItems(max, ts) && Decode(max, hole) == Fail(MakePanics(n))
    ensures Decode(max, [LIST_MARK] + WrittenItems(ts) + hole) == Fail(MakePanics(n))
  {
    ItemsDecode(max, ts, hole);
    assert hole != [] && hole[0] != END_MARK;
    assert DecodeList(max, hole) == Fail(MakePanics(n));
    ListMarkFails(max, WrittenItems(ts) + hole, MakePanics(n));
    Associate([LIST_MARK], WrittenItems(ts), hole);
  }

  lemma FailsInDict(max: nat, es: seq<Entry>, hole: bytes, n: int)
    requires ValidEntries(max, es) && DecodeDict(max, hole, Collected(es, map[])) == Fail(MakePanics(n))
    ensures Decode(max, [DICT_MARK] + WrittenEntries(es) + hole) == Fail(MakePanics(n))
  {
    EntriesDecode(max, es, map[], hole);
    DictMarkFails(max, WrittenEntries(es) + hole, MakePanics(n));
    Associate([DICT_MARK], WrittenEntries(es), hole);
  }

  lemma DictMarkFails(max: nat, body: bytes, why: Failure)
    requires DecodeDict(max, body, map[]) == Fail(why)
    ensures Decode(max, [DICT_MARK] + body) == Fail(why)
  {
    assert ([DICT_MARK] + body)[1..] == body;
  }

  lemma ListMarkFails(max: nat, body: bytes, why: Failure)
    requires DecodeList(max, body) == Fail(why)
    ensures Decode(max, [LIST_MARK] + body) == Fail(why)
  {
    assert ([LIST_MARK] + body)[1..] == body;
  }

  // Which part of the input a panic comes from.
  lemma PanicPart(max: nat, s: bytes, n: int)
    requires Decode(max, s) == Fail(MakePanics(n))
    ensures s != []
    ensures s[0] == LIST_MARK ==> s == [LIST_MARK] + s[1..] && DecodeList(max, s[1..]) == Fail(MakePanics(n))
    ensures s[0] == DICT_MARK ==> s == [DICT_MARK] + s[1..] && DecodeDict(max, s[1..], map[]) == Fail(MakePanics(n))
    ensures s[0] != LIST_MARK && s[0] != DICT_MARK ==> IsDigit(s[0]) && DecodeString(max, s) == Fail(MakePanics(n))
  {
  }

  lemma KeyFails(max: nat, s: bytes, m: map<bytes, Value>, why: Failure)
    requires s != [] && s[0] != END_MARK && DecodeString(max, s) == Fail(why)
    ensures DecodeDict(max, s, m) == Fail(why)
  {
  }

  lemma ValueFails(max: nat, s: bytes, m: map<bytes, Value>, key: bytes, mid: bytes, why: Failure)
    requires s != [] && s[0] != END_MARK && DecodeString(max, s) == Ok(key, mid) && Decode(max, mid) == Fail(why)
    ensures DecodeDict(max, s, m) == Fail(why)
  {
  }

  lemma FailsInFrame(max: nat, f: Frame, hole: bytes, n: int)
    requires ValidFrame(max, f) && !f.KeyOpen? && Decode(max, hole) == Fail(MakePanics(n))
    ensures Decode(max, Begun(f) + hole) == Fail(MakePanics(n))
  {
    match f
    case ListOpen(items) => FailsInList(max, items, hole, n);
    case ValueOpen(entries, numeral, key) =>
      var s := Prefixed(numeral, key) + hole;
      StringDecodes(max, numeral, key, hole);
      ValueFails(max, s, Collected(entries, map[]), key, hole, MakePanics(n));
      FailsInDict(max, entries, s, n);
      Associate([DICT_MARK] + WrittenEntries(entries), Prefixed(numeral, key), hole);
  }

  lemma FailsAsKey(max: nat, es: seq<Entry>, numeral: bytes, n: int, rest: bytes)
    requires ValidEntries(max, es) && ParseInt64(numeral) == Some(n) && !Allocates(max, n)
    ensures Decode(max, Begun(KeyOpen(es)) + (numeral + [COLON] + rest)) == Fail(MakePanics(n))
  {
    var hole := numeral + [COLON] + rest;
    BadStringPanics(max, numeral, n, rest);
    KeyFails(max, hole, Collected(es, map[]), MakePanics(n));
    FailsInDict(max, es, hole, n);
  }

  lemma FailsAsValue(max: nat, numeral: bytes, n: int, rest: bytes)
    requires StartsWithDigit(numeral) && ParseInt64(numeral) == Some(n) && !Allocates(max, n)
    ensures Decode(max, numeral + [COLON] + rest) == Fail(MakePanics(n))
  {
    BadStringPanics(max, numeral, n, rest);
    var s := numeral + [COLON] + rest;
    assert s[0] != INT_MARK && s[0] != LIST_MARK && s[0] != DICT_MARK;
  }

  lemma {:induction false} HolePanics(max: nat, fs: seq<Frame>, numeral: bytes, n: int, rest: bytes)
    requires ValidFrames(max, fs) && BadLengthIn(max, fs, numeral, n)
    ensures Decode(max, Opened(fs) + (numeral + [COLON] + rest)) == Fail(MakePanics(n))
    decreases fs
  {
    var hole := numeral + [COLON] + rest;
    if fs == [] {
      NothingLeft(hole);
      FailsAsValue(max, numeral, n, rest);
    } else {
      assert ValidFrame(max, fs[0]);
      Associate(Begun(fs[0]), Opened(fs[1..]), hole);
      if fs[0].KeyOpen? {
        assert fs[1..] == [];
        NothingLeft(hole);
        FailsAsKey(max, fs[0].entries, numeral, n, rest);
      } else {
        InnerFrames(max, fs);
        HolePanics(max, fs[1..], numeral, n, rest);
        FailsInFrame(max, fs[0], Opened(fs[1..]) + hole, n);
      }
    }
  }

  lemma InnerFrames(max: nat, fs: seq<Frame>)
    requires fs != [] && !fs[0].KeyOpen? && ValidFrames(max, fs)
    ensures ValidFrames(max, fs[1..]) && (AwaitsKey(fs[1..]) <==> AwaitsKey(fs))
  {
    assert forall i :: 0 <= i < |fs[1..]| ==> fs[1..][i] == fs[i + 1];
  }

  // --- a panic comes from a bad length in a hole ---

  // Where a panicking input is open and what stands there.
  datatype Hole = Hole(frames: seq<Frame>, numeral: bytes, rest: bytes)

  predicate Explains(max: nat, s: bytes, n: int, h: Hole) {
    PanicsAt(max, s, n, h.frames, h.numeral, h.rest)
  }

  lemma BadString(max: nat, s: bytes, n: int) returns (numeral: bytes, rest: bytes)
    requires DecodeString(max, s) == Fail(MakePanics(n))
    ensures s == numeral + [COLON] + rest && ParseInt64(numeral) == Some(n) && !Allocates(max, n)
    ensures numeral != [] && numeral[0] == s[0]
  {
    numeral, rest := ReadUntil(s, COLON).value, ReadUntil(s, COLON).rest;
    NumeralStart(numeral);
  }

  lemma Wrapped(max: nat, f: Frame, inner: bytes, n: int, h: Hole)
    requires ValidFrame(max, f) && !f.KeyOpen? && Explains(max, inner, n, h)
    ensures Explains(max, Begun(f) + inner, n, h.(frames := [f] + h.frames))
  {
    FramesCons(max, f, h.frames);
    Associate(Begun(f), Opened(h.frames), h.numeral + [COLON] + h.rest);
  }

  lemma FramesCons(max: nat, f: Frame, fs: seq<Frame>)
    requires ValidFrame(max, f) && !f.KeyOpen? && ValidFrames(max, fs)
    ensures ValidFrames(max, [f] + fs) && (AwaitsKey([f] + fs) <==> AwaitsKey(fs))
    ensures Opened([f] + fs) == Begun(f) + Opened(fs)
  {
    var all := [f] + fs;
    assert all[1..] == fs;
    assert forall i :: 1 <= i < |all| ==> all[i] == fs[i - 1];
  }

  lemma {:induction false} Explained(max: nat, s: bytes, n: int) returns (h: Hole)
    requires Decode(max, s) == Fail(MakePanics(n))
    ensures Explains(max, s, n, h)
    decreases |s|, 1
  {
    PanicPart(max, s, n);
    if s[0] == LIST_MARK {
      h := ExplainedList(max, s[1..], n);
    } else if s[0] == DICT_MARK {
      h := ExplainedInDict(max, s[1..], map[], [], n);
      NothingLeft([DICT_MARK]);
    } else {
      h := ExplainedString(max, s, n);
    }
  }

  lemma ExplainedString(max: nat, s: bytes, n: int) returns (h: Hole)
    requires s != [] && IsDigit(s[0]) && DecodeString(max, s) == Fail(MakePanics(n))
    ensures Explains(max, s, n, h)
  {
    var numeral, rest := BadString(max, s, n);
    h := Hole([], numeral, rest);
    NoFrames(max, s, n, numeral, rest);
  }

  lemma NoFrames(max: nat, s: bytes, n: int, numeral: bytes, rest: bytes)
    requires s == numeral + [COLON] + rest && BadLengthIn(max, [], numeral, n)
    ensures PanicsAt(max, s, n, [], numeral, rest)
  {
    NothingLeft(s);
  }

  lemma {:induction false} ExplainedList(max: nat, body: bytes, n: int) returns (h: Hole)
    requires DecodeList(max, body) == Fail(MakePanics(n))
    ensures Explains(max, [LIST_MARK] + body, n, h)
    decreases |body|, 3
  {
    var items, inner, h0 := ExplainedInList(max, body, n);
    h := h0.(frames := [ListOpen(items)] + h0.frames);
    Wrapped(max, ListOpen(items), inner, n, h0);
    Associate([LIST_MARK], WrittenItems(items), inner);
  }

  lemma {:induction false} ExplainedInList(max: nat, s: bytes, n: int)
      returns (items: seq<Tree>, inner: bytes, h: Hole)
    requires DecodeList(max, s) == Fail(MakePanics(n))
    ensures ValidItems(max, items) && s == WrittenItems(items) + inner && Explains(max, inner, n, h)
    decreases |s|, 2
  {
    ListFails(max, s, n);
    if Decode(max, s).Fail? {
      items, inner := [], s;
      h := Explained(max, s, n);
      NothingLeft(s);
    } else {
      var t := TreeOf(max, s);
      var later;
      later, inner, h := ExplainedInList(max, Decode(max, s).rest, n);
      items := [t] + later;
      OneMoreItem(max, t, later, inner);
    }
  }

  lemma ListFails(max: nat, s: bytes, n: int)
    requires DecodeList(max, s) == Fail(MakePanics(n))
    ensures Decode(max, s).Fail? ==> Decode(max, s) == Fail(MakePanics(n))
    ensures Decode(max, s).Ok? ==>
              |Decode(max, s).rest| < |s| && DecodeList(max, Decode(max, s).rest) == Fail(MakePanics(n))
  {
  }

  lemma OneMoreItem(max: nat, t: Tree, later: seq<Tree>, inner: bytes)
    requires Valid(max, t) && ValidItems(max, later)
    ensures ValidItems(max, [t] + later)
    ensures WrittenItems([t] + later) + inner == Written(t) + (WrittenItems(later) + inner)
  {
    WrittenCons(t, later);
    Associate(Written(t), WrittenItems(later), inner);
  }

  lemma {:induction false} EntriesSnoc(es: seq<Entry>, e: Entry)
    ensures WrittenEntries(es + [e]) == WrittenEntries(es) + (Prefixed(e.numeral, e.key) + Written(e.value))
  {
    if es == [] {
      assert es + [e] == [e] + [];
      EntriesCons(e, []);
      NothingLeft(Prefixed(e.numeral, e.key) + Written(e.value));
    } else {
      EntriesSnoc(es[1..], e);
      assert es + [e] == [es[0]] + (es[1..] + [e]);
      EntriesCons(es[0], es[1..] + [e]);
      Associate(Prefixed(es[0].numeral, es[0].key) + Written(es[0].value), WrittenEntries(es[1..]),
                Prefixed(e.numeral, e.key) + Written(e.value));
    }
  }

  lemma RegroupEntries(a: bytes, k: bytes, v: bytes, rest: bytes)
    ensures a + (k + (v + rest)) == a + (k + v) + rest
  {
  }

  // A bad key, behind the entries read before it.
  lemma ExplainedKey(max: nat, s: bytes, done: seq<Entry>, n: int) returns (h: Hole)
    requires ValidEntries(max, done) && DecodeString(max, s) == Fail(MakePanics(n))
    ensures Explains(max, [DICT_MARK] + WrittenEntries(done) + s, n, h)
  {
    var numeral, rest := BadString(max, s, n);
    h := Hole([KeyOpen(done)], numeral, rest);
    OneFrame(max, KeyOpen(done), s, n, numeral, rest);
  }

  lemma OneFrame(max: nat, f: Frame, s: bytes, n: int, numeral: bytes, rest: bytes)
    requires f.KeyOpen? && ValidFrame(max, f) && s == numeral + [COLON] + rest
    requires ParseInt64(numeral) == Some(n) && !Allocates(max, n)
    ensures PanicsAt(max, Begun(f) + s, n, [f], numeral, rest)
  {
    assert [f][1..] == [];
    NothingLeft(Begun(f));
  }

  // A bad value, behind its key.
  lemma ExplainedValue(max: nat, s: bytes, done: seq<Entry>, numeral: bytes, key: bytes, mid: bytes, n: int, h: Hole)
    requires ValidEntries(max, done) && Measures(max, numeral, key) && s == Prefixed(numeral, key) + mid
    requires Explains(max, mid, n, h)
    ensures Explains(max, [DICT_MARK] + WrittenEntries(done) + s, n,
                     h.(frames := [ValueOpen(done, numeral, key)] + h.frames))
  {
    Wrapped(max, ValueOpen(done, numeral, key), mid, n, h);
    Associate([DICT_MARK] + WrittenEntries(done), Prefixed(numeral, key), mid);
  }

  // One more entry in front of where the panic is.
  lemma EntryMoved(done: seq<Entry>, e: Entry, s: bytes, after: bytes)
    requires s == Prefixed(e.numeral, e.key) + (Written(e.value) + after)
    ensures [DICT_MARK] + WrittenEntries(done + [e]) + after == [DICT_MARK] + WrittenEntries(done) + s
  {
    EntriesSnoc(done, e);
    Associate([DICT_MARK], WrittenEntries(done), Prefixed(e.numeral, e.key) + Written(e.value));
    RegroupEntries([DICT_MARK] + WrittenEntries(done), Prefixed(e.numeral, e.key), Written(e.value), after);
  }

  // The dictionary's own frame, given the entries read before s.
  lemma {:induction false} ExplainedInDict(max: nat, s: bytes, m: map<bytes, Value>, done: seq<Entry>, n: int)
      returns (h: Hole)
    requires ValidEntries(max, done) && DecodeDict(max, s, m) == Fail(MakePanics(n))
    ensures Explains(max, [DICT_MARK] + WrittenEntries(done) + s, n, h)
    decreases |s|, 2
  {
    if DecodeString(max, s).Fail? {
      h := ExplainedKey(max, s, done, n);
    } else {
      var numeral := ReadNumeral(max, s);
      var key, mid := DecodeString(max, s).value, DecodeString(max, s).rest;
      if Decode(max, mid).Fail? {
        var h0 := Explained(max, mid, n);
        h := h0.(frames := [ValueOpen(done, numeral, key)] + h0.frames);
        ExplainedValue(max, s, done, numeral, key, mid, n, h0);
      } else {
        var t := TreeOf(max, mid);
        var v, after := Decode(max, mid).value, Decode(max, mid).rest;
        DecodeDictStep(max, s, m, key, v, mid, after);
        h := ExplainedInDict(max, after, m[key := v], done + [Entry(numeral, key, t)], n);
        EntryMoved(done, Entry(numeral, key, t), s, after);
      }
    }
  }

  // Decoding panics with a length exactly when that length is one make refuses and
  // stands where an unfinished input awaits a key or a value.
  lemma PanicsIff(max: nat, s: bytes, n: int)
    ensures Decode(max, s) == Fail(MakePanics(n)) <==>
            exists fs, numeral, rest :: PanicsAt(max, s, n, fs, numeral, rest)
  {
    if Decode(max, s) == Fail(MakePanics(n)) {
      var h := Explained(max, s, n);
      assert PanicsAt(max, s, n, h.frames, h.numeral, h.rest);
    }
    if fs, numeral, rest :| PanicsAt(max, s, n, fs, numeral, rest) {
      HolePanics(max, fs, numeral, n, rest);
    }
  }

  // A negative length is only ever read as a key, spelt with a minus sign.
  lemma NegativeIsKey(max: nat, s: bytes, n: int, fs: seq<Frame>, numeral: bytes, rest: bytes)
    requires PanicsAt(max, s, n, fs, numeral, rest) && n < 0
    ensures AwaitsKey(fs) && numeral[0] == MINUS && AllDigits(numeral[1..]) && NatValue(numeral[1..]) == -n
  {
  }

  // ---------------------------------------------------------------------
  // What a caller can check
  // ---------------------------------------------------------------------

  // Every numeral directly before a colon is a length make accepts.
  predicate LengthsOk(max: nat, s: bytes) {
    forall i, j :: 0 <= i < j < |s| && s[j] == COLON && ParseInt64(s[i..j]).Some? ==>
      Allocates(max, ParseInt64(s[i..j]).value)
  }

  lemma Inside(a: bytes, b: bytes, c: byte, rest: bytes)
    ensures var s := a + (b + [c] + rest);
            |a| + |b| < |s| && s[|a|..|a| + |b|] == b && s[|a| + |b|] == c
  {
  }

  lemma BadLengthShows(max: nat, s: bytes, n: int, h: Hole)
    requires Explains(max, s, n, h)
    ensures !LengthsOk(max, s)
  {
    var i := |Opened(h.frames)|;
    NumeralStart(h.numeral);
    Inside(Opened(h.frames), h.numeral, COLON, h.rest);
    assert s[i..i + |h.numeral|] == h.numeral;
  }

  lemma SafeLengths(max: nat, s: bytes)
    requires LengthsOk(max, s)
    ensures Decode(max, s).Fail? ==> !Decode(max, s).why.MakePanics?
  {
    if Decode(max, s).Fail? && Decode(max, s).why.MakePanics? {
      var h := Explained(max, s, Decode(max, s).why.length);
      BadLengthShows(max, s, Decode(max, s).why.length, h);
    }
  }

  // That every minus sign follows an i, as it does in an integer, is not enough:
  // the i can be the last byte of a string.
  ghost predicate DashesMarked(s: bytes) {
    forall i :: 0 <= i < |s| && s[i] == MINUS ==> i > 0 && s[i - 1] == INT_MARK
  }

  lemma OneDash(s: bytes)
    requires s == [DICT_MARK, 49, COLON, 97, 49, COLON, INT_MARK, MINUS, 49, COLON]
    ensures DashesMarked(s)
  {
  }

  lemma DashAfterMark(max: nat, s: bytes)
    requires max >= 1 && s == [DICT_MARK, 49, COLON, 97, 49, COLON, INT_MARK, MINUS, 49, COLON]
    ensures DashesMarked(s) && Decode(max, s) == Fail(MakePanics(-1))
  {
    OneDash(s);
    DashPanics(max, Entry([49], [97], String([49], [INT_MARK])), [MINUS, 49], s);
  }

  lemma DashPanics(max: nat, e: Entry, numeral: bytes, s: bytes)
    requires max >= 1 && e == Entry([49], [97], String([49], [INT_MARK])) && numeral == [MINUS, 49]
    requires s == [DICT_MARK, 49, COLON, 97, 49, COLON, INT_MARK, MINUS, 49, COLON]
    ensures Decode(max, s) == Fail(MakePanics(-1))
  {
    SmallEntry(max, e);
    OneEntry(e);
    OneNumerals();
    OneFramePanics(max, e, numeral, -1);
  }

  lemma SmallEntry(max: nat, e: Entry)
    requires max >= 1 && e == Entry([49], [97], String([49], [INT_MARK]))
    ensures ValidEntries(max, [e])
  {
    OneNumerals();
    assert Measures(max, [49], [97]) && Measures(max, [49], [INT_MARK]);
    assert ValidEntry(max, e);
  }

  lemma OneFramePanics(max: nat, e: Entry, numeral: bytes, n: int)
    requires ValidEntries(max, [e]) && ParseInt64(numeral) == Some(n) && !Allocates(max, n)
    ensures Decode(max, Opened([KeyOpen([e])]) + (numeral + [COLON] + [])) == Fail(MakePanics(n))
  {
    HolePanics(max, [KeyOpen([e])], numeral, n, []);
  }

  lemma OneNumerals()
    ensures ParseInt64([49]) == Some(1) && ParseInt64([MINUS, 49]) == Some(-1)
  {
    var one, minusOne: bytes := [49], [MINUS, 49];
    assert one[..0] == [] && minusOne[1..] == one;
    assert NatValue(one) == 1;
  }

  lemma OneEntry(e: Entry)
    requires e == Entry([49], [97], String([49], [INT_MARK]))
    ensures Opened([KeyOpen([e])]) + ([MINUS, 49] + [COLON] + []) ==
            [DICT_MARK, 49, COLON, 97, 49, COLON, INT_MARK, MINUS, 49, COLON]
  {
    EntriesCons(e, []);
    NothingLeft([e]);
    assert WrittenEntries([e]) == [49, COLON, 97, 49, COLON, INT_MARK];
    assert [KeyOpen([e])][1..] == [];
    NothingLeft(Begun(KeyOpen([e])));
  }
}
