/**
 Bencoding (BEP 3): the value model, the decoder as it is written (lenient
 about leading zeros, signs and key order), the encoder with sorted keys, and
 a separate grammar of canonical input.

 Main results
   RoundTrip              decoding an encoded value gives it back and leaves
                          exactly what followed
   CanonicalIffEncoding   the canonical inputs are exactly the encodings, and
                          exactly the inputs that re-encode to themselves
 */
module Bencode {
  import opened Text
  import opened Bytes

  const INT_MARK: byte := 105 // i
  const LIST_MARK: byte := 108 // l
  const DICT_MARK: byte := 100 // d
  const END_MARK: byte := 101 // e
  const COLON: byte := 58

  datatype Value =
    | Int(n: int)
    | Str(s: bytes)
    | List(items: seq<Value>)
    | Dict(entries: map<bytes, Value>)

  // A length make accepts: within the machine's int and its allocation limit max.
  predicate Allocates(max: nat, n: int) {
    0 <= n <= MAX_INT64 && n <= max
  }

  // The values Go can hold: 64-bit integers and strings that can be allocated.
  ghost predicate Representable(max: nat, v: Value) {
    match v
    case Int(n) => MIN_INT64 <= n <= MAX_INT64
    case Str(s) => Allocates(max, |s|)
    case List(items) => forall i :: 0 <= i < |items| ==> Representable(max, items[i])
    case Dict(m) => forall k :: k in m ==> Allocates(max, |k|) && Representable(max, m[k])
  }

  // MakePanics is not an error return but a run-time panic of make, which refuses
  // a negative length and one above its allocation limit.
  datatype Failure =
    | UnexpectedEnd | UnexpectedByte | BadInteger | NegativeZero | BadLength | ShortData | MakePanics(length: int)

  datatype Parsed<+T> = Ok(value: T, rest: bytes) | Fail(why: Failure)

  // ---------------------------------------------------------------------
  // Decoder
  // ---------------------------------------------------------------------

  // bufio's ReadString, with the delimiter already trimmed off.
  function ReadUntil(s: bytes, delim: byte): (r: Parsed<bytes>)
    ensures r.Ok? ==> delim !in r.value && s == r.value + [delim] + r.rest
    ensures r.Fail? <==> delim !in s
  {
    var i := IndexOf(s, delim);
    IndexOfLeast(s, delim);
    if i < 0 then Fail(UnexpectedEnd) else Ok(s[..i], s[i + 1..])
  }

  // After the leading i.
  function DecodeInt(s: bytes): (r: Parsed<int>)
    ensures r.Ok? ==> |r.rest| < |s| && MIN_INT64 <= r.value <= MAX_INT64
  {
    match ReadUntil(s, END_MARK)
    case Fail(why) => Fail(why)
    case Ok(t, rest) =>
      if t == [MINUS, ZERO] then Fail(NegativeZero)
      else match ParseInt64(t)
           case None => Fail(BadInteger)
           case Some(n) => Ok(n, rest)
  }

  function DecodeString(max: nat, s: bytes): (r: Parsed<bytes>)
    ensures r.Ok? ==> |r.rest| < |s| && Allocates(max, |r.value|)
  {
    match ReadUntil(s, COLON)
    case Fail(why) => Fail(why)
    case Ok(t, rest) =>
      match ParseInt64(t)
      case None => Fail(BadLength)
      case Some(n) =>
        if !Allocates(max, n) then Fail(MakePanics(n))
        else if n > |rest| then Fail(ShortData)
        else Ok(rest[..n], rest[n..])
  }

  function Decode(max: nat, s: bytes): (r: Parsed<Value>)
    ensures r.Ok? ==> |r.rest| < |s|
    decreases |s|, 0
  {
    if s == [] then Fail(UnexpectedEnd)
    else if s[0] == INT_MARK then
      match DecodeInt(s[1..]) case Fail(why) => Fail(why) case Ok(n, rest) => Ok(Int(n), rest)
    else if s[0] == LIST_MARK then
      match DecodeList(max, s[1..]) case Fail(why) => Fail(why) case Ok(l, rest) => Ok(List(l), rest)
    else if s[0] == DICT_MARK then
      match DecodeDict(max, s[1..], map[]) case Fail(why) => Fail(why) case Ok(m, rest) => Ok(Dict(m), rest)
    else if IsDigit(s[0]) then
      match DecodeString(max, s) case Fail(why) => Fail(why) case Ok(t, rest) => Ok(Str(t), rest)
    else Fail(UnexpectedByte)
  }

  // After the leading l.
  function DecodeList(max: nat, s: bytes): (r: Parsed<seq<Value>>)
    ensures r.Ok? ==> |r.rest| < |s|
    decreases |s|, 1
  {
    if s == [] then Fail(UnexpectedEnd)
    else if s[0] == END_MARK then Ok([], s[1..])
    else match Decode(max, s)
         case Fail(why) => Fail(why)
         case Ok(v, rest) =>
           match DecodeList(max, rest)
           case Fail(why) => Fail(why)
           case Ok(vs, rest') => Ok([v] + vs, rest')
  }

  // After the leading d: a later occurrence of a key replaces an earlier one.
  function DecodeDict(max: nat, s: bytes, m: map<bytes, Value>): (r: Parsed<map<bytes, Value>>)
    ensures r.Ok? ==> |r.rest| < |s|
    decreases |s|, 1
  {
    if s == [] then Fail(UnexpectedEnd)
    else if s[0] == END_MARK then Ok(m, s[1..])
    else match DecodeString(max, s)
         case Fail(why) => Fail(why)
         case Ok(key, rest) =>
           match Decode(max, rest)
           case Fail(why) => Fail(why)
           case Ok(v, rest') => DecodeDict(max, rest', m[key := v])
  }

  // Items in front of the rest of a list.
  function Prepend(vs: seq<Value>, p: Parsed<seq<Value>>): Parsed<seq<Value>> {
    match p case Fail(why) => Fail(why) case Ok(ws, rest) => Ok(vs + ws, rest)
  }

  lemma PrependNone(p: Parsed<seq<Value>>)
    ensures Prepend([], p) == p
  {
    if p.Ok? { NothingLeft(p.value); }
  }

  lemma PrependBoth(vs: seq<Value>, ws: seq<Value>, p: Parsed<seq<Value>>)
    ensures Prepend(vs + ws, p) == Prepend(vs, Prepend(ws, p))
  {
    if p.Ok? { Associate(vs, ws, p.value); }
  }

  lemma PrependStep(max: nat, s: bytes, v: Value, mid: bytes)
    requires s != [] && s[0] != END_MARK && Decode(max, s) == Ok(v, mid)
    ensures DecodeList(max, s) == Prepend([v], DecodeList(max, mid))
  {
  }

  // ---------------------------------------------------------------------
  // Encoder
  // ---------------------------------------------------------------------

  function EncodeString(s: bytes): bytes {
    FormatNat(|s|) + [COLON] + s
  }

  ghost function Encode(v: Value): bytes
    decreases v
  {
    match v
    case Int(n) => [INT_MARK] + FormatInt(n) + [END_MARK]
    case Str(s) => EncodeString(s)
    case List(items) => [LIST_MARK] + EncodeItems(items) + [END_MARK]
    case Dict(m) => [DICT_MARK] + EncodeEntries(SortedKeys(m.Keys), v) + [END_MARK]
  }

  ghost function EncodeItems(items: seq<Value>): bytes
    decreases items
  {
    if items == [] then [] else Encode(items[0]) + EncodeItems(items[1..])
  }

  ghost function EncodeEntries(keys: seq<bytes>, d: Value): bytes
    requires d.Dict? && forall k :: k in keys ==> k in d.entries
    decreases d, |keys|
  {
    if keys == [] then []
    else EncodeString(keys[0]) + Encode(d.entries[keys[0]]) + EncodeEntries(keys[1..], d)
  }

  // ---------------------------------------------------------------------
  // Decoding what was encoded
  // ---------------------------------------------------------------------

  lemma ReadUntilFirst(t: bytes, delim: byte, rest: bytes)
    requires delim !in t
    ensures ReadUntil(t + [delim] + rest, delim) == Ok(t, rest)
  {
    IndexOfFirst(t, delim, rest);
    var s := t + [delim] + rest;
    assert s[..|t|] == t && s[|t| + 1..] == rest;
  }

  lemma DecodeEncodedString(max: nat, s: bytes, rest: bytes)
    requires Allocates(max, |s|)
    ensures DecodeString(max, EncodeString(s) + rest) == Ok(s, rest)
    ensures IsDigit((EncodeString(s) + rest)[0])
  {
    var t := FormatNat(|s|);
    FormatNatRoundTrip(|s|);
    assert EncodeString(s) + rest == t + [COLON] + (s + rest);
    assert COLON !in t;
    ReadUntilFirst(t, COLON, s + rest);
    assert (s + rest)[..|s|] == s && (s + rest)[|s|..] == rest;
  }

  lemma DecodeEncodedInt(n: int, rest: bytes)
    requires MIN_INT64 <= n <= MAX_INT64
    ensures DecodeInt(FormatInt(n) + [END_MARK] + rest) == Ok(n, rest)
  {
    FormatIntRoundTrip(n);
    ReadUntilFirst(FormatInt(n), END_MARK, rest);
  }

  predicate StartsValue(b: byte) {
    b == INT_MARK || b == LIST_MARK || b == DICT_MARK || IsDigit(b)
  }

  lemma EncodeStart(v: Value)
    ensures Encode(v) != [] && StartsValue(Encode(v)[0])
  {
  }

  // Regrouping of concatenations.
  lemma Bracketed(mark: byte, body: bytes, rest: bytes)
    ensures ([mark] + body + [END_MARK]) + rest == [mark] + (body + [END_MARK] + rest)
  {
  }

  lemma Regroup(a: bytes, b: bytes, c: bytes, rest: bytes)
    ensures (a + b + c) + [END_MARK] + rest == a + (b + (c + [END_MARK] + rest))
  {
  }

  lemma RegroupItem(a: bytes, b: bytes, rest: bytes)
    ensures (a + b) + [END_MARK] + rest == a + (b + [END_MARK] + rest)
  {
  }

  lemma EncodeItemsCons(v: Value, vs: seq<Value>)
    ensures EncodeItems([v] + vs) == Encode(v) + EncodeItems(vs)
  {
    assert ([v] + vs)[1..] == vs;
  }

  lemma DecodeIntMark(max: nat, n: int, body: bytes, rest: bytes)
    requires DecodeInt(body) == Ok(n, rest)
    ensures Decode(max, [INT_MARK] + body) == Ok(Int(n), rest)
  {
    assert ([INT_MARK] + body)[1..] == body;
  }

  lemma DecodeListMark(max: nat, items: seq<Value>, body: bytes, rest: bytes)
    requires DecodeList(max, body) == Ok(items, rest)
    ensures Decode(max, [LIST_MARK] + body) == Ok(List(items), rest)
  {
    assert ([LIST_MARK] + body)[1..] == body;
  }

  lemma DecodeDictMark(max: nat, m: map<bytes, Value>, body: bytes, rest: bytes)
    requires DecodeDict(max, body, map[]) == Ok(m, rest)
    ensures Decode(max, [DICT_MARK] + body) == Ok(Dict(m), rest)
  {
    assert ([DICT_MARK] + body)[1..] == body;
  }

  lemma DecodeStringMark(max: nat, t: bytes, s: bytes, rest: bytes)
    requires s != [] && IsDigit(s[0]) && DecodeString(max, s) == Ok(t, rest)
    ensures Decode(max, s) == Ok(Str(t), rest)
  {
    assert s[0] != INT_MARK && s[0] != LIST_MARK && s[0] != DICT_MARK;
  }

  lemma DecodeDictStep(max: nat, s: bytes, m: map<bytes, Value>, key: bytes, v: Value, mid: bytes, rest: bytes)
    requires s != [] && s[0] != END_MARK
    requires DecodeString(max, s) == Ok(key, mid) && Decode(max, mid) == Ok(v, rest)
    ensures DecodeDict(max, s, m) == DecodeDict(max, rest, m[key := v])
  {
  }

  // For every value and every continuation of the input, decoding the encoding
  // returns the value and leaves exactly the continuation.
  lemma {:induction false} RoundTrip(max: nat, v: Value, rest: bytes)
    requires Representable(max, v)
    ensures Decode(max, Encode(v) + rest) == Ok(v, rest)
    decreases v
  {
    match v
    case Int(n) =>
      var body := FormatInt(n) + [END_MARK] + rest;
      DecodeEncodedInt(n, rest);
      DecodeIntMark(max, n, body, rest);
      Bracketed(INT_MARK, FormatInt(n), rest);
    case Str(t) =>
      DecodeEncodedString(max, t, rest);
      DecodeStringMark(max, t, EncodeString(t) + rest, rest);
    case List(items) =>
      var body := EncodeItems(items) + [END_MARK] + rest;
      RoundTripItems(max, items, rest);
      DecodeListMark(max, items, body, rest);
      Bracketed(LIST_MARK, EncodeItems(items), rest);
    case Dict(m) =>
      RoundTripDict(max, v, rest);
  }

  lemma {:induction false} RoundTripDict(max: nat, d: Value, rest: bytes)
    requires Representable(max, d) && d.Dict?
    ensures Decode(max, Encode(d) + rest) == Ok(d, rest)
    decreases d, |d.entries| + 1
  {
    var m := d.entries;
    var keys := SortedKeys(m.Keys);
    SortedKeysLength(m.Keys);
    var body := EncodeEntries(keys, d) + [END_MARK] + rest;
    RoundTripEntries(max, keys, d, map[], rest);
    RestrictAll(m, keys);
    DecodeDictMark(max, m, body, rest);
    Bracketed(DICT_MARK, EncodeEntries(keys, d), rest);
  }

  // The entries of m under some keys.
  ghost function Restrict(m: map<bytes, Value>, keys: seq<bytes>): map<bytes, Value> {
    map k | k in m && k in keys :: m[k]
  }

  lemma RestrictAll(m: map<bytes, Value>, keys: seq<bytes>)
    requires forall k :: k in m <==> k in keys
    ensures map[] + Restrict(m, keys) == m
  {
  }

  lemma DecodeListStep(max: nat, s: bytes, v: Value, mid: bytes, vs: seq<Value>, rest: bytes)
    requires s != [] && s[0] != END_MARK
    requires Decode(max, s) == Ok(v, mid) && DecodeList(max, mid) == Ok(vs, rest)
    ensures DecodeList(max, s) == Ok([v] + vs, rest)
  {
  }

  lemma {:induction false} RoundTripItems(max: nat, items: seq<Value>, rest: bytes)
    requires forall i :: 0 <= i < |items| ==> Representable(max, items[i])
    ensures DecodeList(max, EncodeItems(items) + [END_MARK] + rest) == Ok(items, rest)
    decreases items
  {
    if items == [] {
      assert [] + [END_MARK] + rest == [END_MARK] + rest;
    } else {
      var v, vs := items[0], items[1..];
      var tail := EncodeItems(vs) + [END_MARK] + rest;
      assert items == [v] + vs;
      EncodeItemsCons(v, vs);
      RegroupItem(Encode(v), EncodeItems(vs), rest);
      EncodeStart(v);
      RoundTrip(max, v, tail);
      RoundTripItems(max, vs, rest);
      DecodeListStep(max, Encode(v) + tail, v, tail, vs, rest);
    }
  }

  lemma RestrictStep(m: map<bytes, Value>, keys: seq<bytes>, acc: map<bytes, Value>)
    requires keys != [] && keys[0] in m
    ensures acc[keys[0] := m[keys[0]]] + Restrict(m, keys[1..]) == acc + Restrict(m, keys)
  {
    assert keys == [keys[0]] + keys[1..];
  }

  lemma {:induction false} RoundTripEntries(max: nat, keys: seq<bytes>, d: Value, acc: map<bytes, Value>, rest: bytes)
    requires d.Dict? && Representable(max, d) && forall k :: k in keys ==> k in d.entries
    ensures DecodeDict(max, EncodeEntries(keys, d) + [END_MARK] + rest, acc) == Ok(acc + Restrict(d.entries, keys), rest)
    decreases d, |keys|
  {
    var m := d.entries;
    var s := EncodeEntries(keys, d) + [END_MARK] + rest;
    if keys == [] {
      assert s == [END_MARK] + rest;
      assert acc + Restrict(m, keys) == acc;
    } else {
      var k := keys[0];
      var tail := EncodeEntries(keys[1..], d) + [END_MARK] + rest;
      var mid := Encode(m[k]) + tail;
      Regroup(EncodeString(k), Encode(m[k]), EncodeEntries(keys[1..], d), rest);
      DecodeEncodedString(max, k, mid);
      RoundTrip(max, m[k], tail);
      DecodeDictStep(max, s, acc, k, m[k], mid, tail);
      RoundTripEntries(max, keys[1..], d, acc[k := m[k]], rest);
      RestrictStep(m, keys, acc);
    }
  }

  // Hence the encoding determines the value, even inside a longer stream.
  lemma EncodeInjective(max: nat, v: Value, w: Value, x: bytes, y: bytes)
    requires Representable(max, v) && Representable(max, w)
    requires Encode(v) + x == Encode(w) + y
    ensures v == w && x == y
  {
    RoundTrip(max, v, x);
    RoundTrip(max, w, y);
  }

  // Whatever the decoder returns is representable.
  lemma {:induction false} DecodeRepresentable(max: nat, s: bytes)
    ensures Decode(max, s).Ok? ==> Representable(max, Decode(max, s).value)
    decreases |s|, 0
  {
    if s != [] && s[0] == LIST_MARK {
      DecodeListRepresentable(max, s[1..]);
    } else if s != [] && s[0] == DICT_MARK {
      DecodeDictRepresentable(max, s[1..], map[]);
    }
  }

  lemma {:induction false} DecodeListRepresentable(max: nat, s: bytes)
    ensures DecodeList(max, s).Ok? ==> Representable(max, List(DecodeList(max, s).value))
    decreases |s|, 1
  {
    if s != [] && s[0] != END_MARK && Decode(max, s).Ok? {
      DecodeRepresentable(max, s);
      DecodeListRepresentable(max, Decode(max, s).rest);
    }
  }

  lemma {:induction false} DecodeDictRepresentable(max: nat, s: bytes, m: map<bytes, Value>)
    requires Representable(max, Dict(m))
    ensures DecodeDict(max, s, m).Ok? ==> Representable(max, Dict(DecodeDict(max, s, m).value))
    decreases |s|, 1
  {
    if s != [] && s[0] != END_MARK && DecodeString(max, s).Ok? {
      var key, rest := DecodeString(max, s).value, DecodeString(max, s).rest;
      DecodeRepresentable(max, rest);
      if Decode(max, rest).Ok? {
        DecodeDictRepresentable(max, Decode(max, rest).rest, m[key := Decode(max, rest).value]);
      }
    }
  }

  // ---------------------------------------------------------------------
  // Canonical input
  // ---------------------------------------------------------------------

  // Each scanner returns what follows one canonical item at the front of s.
  function ScanInt(s: bytes): Option<bytes> {
    match ReadUntil(s, END_MARK)
    case Fail(_) => None
    case Ok(t, rest) => if CanonicalInt(t) && ParseInt64(t).Some? then Some(rest) else None
  }

  // The text of a canonical string and what follows it.
  function ScanString(max: nat, s: bytes): Option<(bytes, bytes)> {
    match ReadUntil(s, COLON)
    case Fail(_) => None
    case Ok(t, rest) =>
      if CanonicalNat(t) && Allocates(max, NatValue(t)) && NatValue(t) <= |rest|
      then Some((rest[..NatValue(t)], rest[NatValue(t)..])) else None
  }

  function Scan(max: nat, s: bytes): (r: Option<bytes>)
    ensures r.Some? ==> |r.value| < |s|
    decreases |s|, 0
  {
    if s == [] then None
    else if s[0] == INT_MARK then ScanInt(s[1..])
    else if s[0] == LIST_MARK then ScanList(max, s[1..])
    else if s[0] == DICT_MARK then ScanDict(max, s[1..], None)
    else match ScanString(max, s) case None => None case Some((_, rest)) => Some(rest)
  }

  function ScanList(max: nat, s: bytes): (r: Option<bytes>)
    ensures r.Some? ==> |r.value| < |s|
    decreases |s|, 1
  {
    if s == [] then None
    else if s[0] == END_MARK then Some(s[1..])
    else match Scan(max, s) case None => None case Some(rest) => ScanList(max, rest)
  }

  // Keys in strictly ascending order: each above the one before it.
  function ScanDict(max: nat, s: bytes, prev: Option<bytes>): (r: Option<bytes>)
    ensures r.Some? ==> |r.value| < |s|
    decreases |s|, 1
  {
    if s == [] then None
    else if s[0] == END_MARK then Some(s[1..])
    else match ScanString(max, s)
         case None => None
         case Some((key, rest)) =>
           if prev.Some? && !Less(prev.value, key) then None
           else match Scan(max, rest) case None => None case Some(rest') => ScanDict(max, rest', Some(key))
  }

  predicate Canonical(max: nat, s: bytes) {
    Scan(max, s) == Some([])
  }

  // --- A scanned input decodes, and re-encodes to itself ---

  // A text cut at its first colon and then at a length.
  lemma CutText(s: bytes, t: bytes, rest: bytes, n: nat)
    requires s == t + [COLON] + rest && n <= |rest|
    ensures s == (t + [COLON] + rest[..n]) + rest[n..]
  {
  }

  lemma ScanStringSound(max: nat, s: bytes)
    requires ScanString(max, s).Some?
    ensures DecodeString(max, s) == Ok(ScanString(max, s).value.0, ScanString(max, s).value.1)
    ensures s == EncodeString(ScanString(max, s).value.0) + ScanString(max, s).value.1
    ensures s != [] && IsDigit(s[0])
  {
    var t, rest := ReadUntil(s, COLON).value, ReadUntil(s, COLON).rest;
    CanonicalNatValue(t);
    assert t[0] != PLUS && t[0] != MINUS;
    assert s[0] == t[0];
    CutText(s, t, rest, NatValue(t));
  }

  lemma ScanIntSound(s: bytes)
    requires ScanInt(s).Some?
    ensures DecodeInt(s).Ok? && DecodeInt(s).rest == ScanInt(s).value
    ensures s == FormatInt(DecodeInt(s).value) + [END_MARK] + ScanInt(s).value
  {
    CanonicalIntValue(ReadUntil(s, END_MARK).value);
  }

  // A canonical prefix is the encoding of the value the decoder reads from it.
  lemma {:induction false} ScanSound(max: nat, s: bytes)
    requires Scan(max, s).Some?
    ensures Decode(max, s).Ok? && Decode(max, s).rest == Scan(max, s).value
    ensures s == Encode(Decode(max, s).value) + Scan(max, s).value
    decreases |s|, 1
  {
    var body := s[1..];
    assert s == [s[0]] + body;
    if s[0] == INT_MARK {
      ScanIntSound(body);
      Bracketed(INT_MARK, FormatInt(DecodeInt(body).value), Scan(max, s).value);
    } else if s[0] == LIST_MARK {
      ScanListValue(max, s);
    } else if s[0] == DICT_MARK {
      ScanDictValue(max, s);
    } else {
      ScanStringSound(max, s);
    }
  }

  lemma {:induction false} ScanListValue(max: nat, s: bytes)
    requires Scan(max, s).Some? && s[0] == LIST_MARK
    ensures Decode(max, s).Ok? && Decode(max, s).rest == Scan(max, s).value
    ensures s == Encode(Decode(max, s).value) + Scan(max, s).value
    decreases |s|, 0
  {
    assert s == [s[0]] + s[1..];
    ScanListSound(max, s[1..]);
    Bracketed(LIST_MARK, EncodeItems(DecodeList(max, s[1..]).value), Scan(max, s).value);
  }

  lemma {:induction false} ScanDictValue(max: nat, s: bytes)
    requires Scan(max, s).Some? && s[0] == DICT_MARK
    ensures Decode(max, s).Ok? && Decode(max, s).rest == Scan(max, s).value
    ensures s == Encode(Decode(max, s).value) + Scan(max, s).value
    decreases |s|, 0
  {
    var rest := Scan(max, s).value;
    var keys := ScanDictSound(max, s[1..], None, map[]);
    var all := DecodeDict(max, s[1..], map[]).value;
    DecodeDictMark(max, all, s[1..], rest);
    assert s == [DICT_MARK] + s[1..];
    EnteredWhole(s[1..], keys, all, rest);
  }

  lemma EnteredWhole(body: bytes, keys: seq<bytes>, all: map<bytes, Value>, rest: bytes)
    requires Entered(body, map[], keys, all, rest) && Ascending(keys)
    ensures [DICT_MARK] + body == Encode(Dict(all)) + rest
  {
    AscendingUnique(keys, SortedKeys(all.Keys));
    Bracketed(DICT_MARK, EncodeEntries(keys, Dict(all)), rest);
  }

  lemma {:induction false} ScanListSound(max: nat, s: bytes)
    requires ScanList(max, s).Some?
    ensures DecodeList(max, s).Ok? && DecodeList(max, s).rest == ScanList(max, s).value
    ensures s == EncodeItems(DecodeList(max, s).value) + [END_MARK] + ScanList(max, s).value
    decreases |s|, 2
  {
    if s[0] == END_MARK {
      assert s == [] + [END_MARK] + s[1..];
    } else {
      ScanSound(max, s);
      var v, mid := Decode(max, s).value, Scan(max, s).value;
      ScanListSound(max, mid);
      var vs, rest := DecodeList(max, mid).value, ScanList(max, s).value;
      EncodeItemsCons(v, vs);
      RegroupItem(Encode(v), EncodeItems(vs), rest);
    }
  }

  // The text s is the entries of these keys, the end mark and rest; all holds what
  // was read before and them.
  ghost predicate Entered(s: bytes, m: map<bytes, Value>, keys: seq<bytes>, all: map<bytes, Value>, rest: bytes) {
    && (forall k :: k in keys ==> k in all) && (forall k :: k in all ==> k in m || k in keys)
    && (forall k :: k in m ==> k in all && all[k] == m[k])
    && s == EncodeEntries(keys, Dict(all)) + [END_MARK] + rest
  }

  lemma EnteredStep(s: bytes, m: map<bytes, Value>, key: bytes, v: Value, mid: bytes, after: bytes,
                    later: seq<bytes>, all: map<bytes, Value>, rest: bytes)
    requires key !in m && s == EncodeString(key) + mid && mid == Encode(v) + after
    requires Entered(after, m[key := v], later, all, rest)
    ensures Entered(s, m, [key] + later, all, rest)
  {
    var keys := [key] + later;
    assert key in m[key := v] && all[key] == v && keys[1..] == later;
    assert forall k :: k in m ==> k in m[key := v] && m[key := v][k] == m[k];
    Regroup(EncodeString(key), Encode(v), EncodeEntries(later, Dict(all)), rest);
  }

  // The keys read while scanning a dictionary, in order; m holds what was read before.
  lemma {:induction false} ScanDictSound(max: nat, s: bytes, prev: Option<bytes>, m: map<bytes, Value>) returns (keys: seq<bytes>)
    requires ScanDict(max, s, prev).Some?
    requires forall k :: k in m ==> prev.Some? && (k == prev.value || Less(k, prev.value))
    ensures Ascending(keys)
    ensures forall k :: k in keys && prev.Some? ==> Less(prev.value, k)
    ensures DecodeDict(max, s, m).Ok? && DecodeDict(max, s, m).rest == ScanDict(max, s, prev).value
    ensures Entered(s, m, keys, DecodeDict(max, s, m).value, ScanDict(max, s, prev).value)
    decreases |s|, 2
  {
    if s[0] == END_MARK {
      keys := [];
      assert s == [] + [END_MARK] + s[1..];
    } else {
      ScanStringSound(max, s);
      var key, mid := ScanString(max, s).value.0, ScanString(max, s).value.1;
      ScanSound(max, mid);
      var v, after := Decode(max, mid).value, Scan(max, mid).value;
      DecodeDictStep(max, s, m, key, v, mid, after);
      KeyIsNew(key, prev, m);
      var later := ScanDictSound(max, after, Some(key), m[key := v]);
      keys := [key] + later;
      KeysAbove(key, prev, later);
      EnteredStep(s, m, key, v, mid, after, later, DecodeDict(max, after, m[key := v]).value, ScanDict(max, s, prev).value);
    }
  }

  lemma KeyIsNew(key: bytes, prev: Option<bytes>, m: map<bytes, Value>)
    requires prev.Some? ==> Less(prev.value, key)
    requires forall k :: k in m ==> prev.Some? && (k == prev.value || Less(k, prev.value))
    ensures key !in m
    ensures forall k :: k in m ==> Less(k, key)
  {
    forall k | k in m ensures Less(k, key) {
      if k != prev.value { LessTransitive(k, prev.value, key); }
    }
    LessIrreflexive(key);
  }

  lemma KeysAbove(key: bytes, prev: Option<bytes>, later: seq<bytes>)
    requires Ascending(later) && forall k :: k in later ==> Less(key, k)
    requires prev.Some? ==> Less(prev.value, key)
    ensures Ascending([key] + later)
    ensures forall k :: k in [key] + later && prev.Some? ==> Less(prev.value, k)
  {
    forall k | k in later && prev.Some? ensures Less(prev.value, k) {
      LessTransitive(prev.value, key, k);
    }
    forall j | 0 <= j < |later| ensures Less(key, later[j]) {
      assert later[j] in later;
    }
  }

  // --- Every encoding is canonical ---

  lemma ScanEncodedString(max: nat, t: bytes, rest: bytes)
    requires Allocates(max, |t|)
    ensures ScanString(max, EncodeString(t) + rest) == Some((t, rest))
    ensures IsDigit((EncodeString(t) + rest)[0])
  {
    var numeral := FormatNat(|t|);
    FormatNatRoundTrip(|t|);
    assert EncodeString(t) + rest == numeral + [COLON] + (t + rest);
    ReadUntilFirst(numeral, COLON, t + rest);
    assert (t + rest)[..|t|] == t && (t + rest)[|t|..] == rest;
  }

  lemma ScanMark(max: nat, mark: byte, body: bytes)
    ensures mark == INT_MARK ==> Scan(max, [mark] + body) == ScanInt(body)
    ensures mark == LIST_MARK ==> Scan(max, [mark] + body) == ScanList(max, body)
    ensures mark == DICT_MARK ==> Scan(max, [mark] + body) == ScanDict(max, body, None)
  {
    assert ([mark] + body)[1..] == body;
  }

  lemma {:induction false} ScanComplete(max: nat, v: Value, rest: bytes)
    requires Representable(max, v)
    ensures Scan(max, Encode(v) + rest) == Some(rest)
    decreases v
  {
    match v
    case Int(n) => ScanCompleteInt(max, n, rest);
    case Str(t) =>
      ScanEncodedString(max, t, rest);
      ScanStringMark(max, t, EncodeString(t) + rest, rest);
    case List(items) =>
      ScanItemsComplete(max, items, rest);
      ScanBracketed(max, LIST_MARK, EncodeItems(items), rest);
    case Dict(m) => ScanCompleteDict(max, v, rest);
  }

  lemma ScanStringMark(max: nat, t: bytes, s: bytes, rest: bytes)
    requires s != [] && IsDigit(s[0]) && ScanString(max, s) == Some((t, rest))
    ensures Scan(max, s) == Some(rest)
  {
    assert s[0] != INT_MARK && s[0] != LIST_MARK && s[0] != DICT_MARK;
  }

  lemma ScanBracketed(max: nat, mark: byte, body: bytes, rest: bytes)
    requires mark == LIST_MARK && ScanList(max, body + [END_MARK] + rest) == Some(rest)
    ensures Scan(max, ([mark] + body + [END_MARK]) + rest) == Some(rest)
  {
    ScanMark(max, mark, body + [END_MARK] + rest);
    Bracketed(mark, body, rest);
  }

  lemma ScanCompleteInt(max: nat, n: int, rest: bytes)
    requires Representable(max, Int(n))
    ensures Scan(max, Encode(Int(n)) + rest) == Some(rest)
  {
    FormatIntRoundTrip(n);
    ReadUntilFirst(FormatInt(n), END_MARK, rest);
    ScanMark(max, INT_MARK, FormatInt(n) + [END_MARK] + rest);
    Bracketed(INT_MARK, FormatInt(n), rest);
  }

  lemma {:induction false} ScanCompleteDict(max: nat, d: Value, rest: bytes)
    requires Representable(max, d) && d.Dict?
    ensures Scan(max, Encode(d) + rest) == Some(rest)
    decreases d, |d.entries| + 1
  {
    var keys := SortedKeys(d.entries.Keys);
    SortedKeysLength(d.entries.Keys);
    ScanEntriesComplete(max, keys, d, None, rest);
    ScanMark(max, DICT_MARK, EncodeEntries(keys, d) + [END_MARK] + rest);
    Bracketed(DICT_MARK, EncodeEntries(keys, d), rest);
  }

  lemma ScanListStep(max: nat, s: bytes, mid: bytes)
    requires s != [] && s[0] != END_MARK && Scan(max, s) == Some(mid)
    ensures ScanList(max, s) == ScanList(max, mid)
  {
  }

  lemma ScanDictStep(max: nat, s: bytes, prev: Option<bytes>, key: bytes, mid: bytes, rest: bytes)
    requires s != [] && s[0] != END_MARK && (prev.Some? ==> Less(prev.value, key))
    requires ScanString(max, s) == Some((key, mid)) && Scan(max, mid) == Some(rest)
    ensures ScanDict(max, s, prev) == ScanDict(max, rest, Some(key))
  {
  }

  lemma {:induction false} ScanItemsComplete(max: nat, items: seq<Value>, rest: bytes)
    requires forall i :: 0 <= i < |items| ==> Representable(max, items[i])
    ensures ScanList(max, EncodeItems(items) + [END_MARK] + rest) == Some(rest)
    decreases items
  {
    if items == [] {
      assert [] + [END_MARK] + rest == [END_MARK] + rest;
    } else {
      var v, vs := items[0], items[1..];
      var tail := EncodeItems(vs) + [END_MARK] + rest;
      assert items == [v] + vs;
      EncodeItemsCons(v, vs);
      RegroupItem(Encode(v), EncodeItems(vs), rest);
      EncodeStart(v);
      ScanComplete(max, v, tail);
      ScanItemsComplete(max, vs, rest);
      ScanListStep(max, Encode(v) + tail, tail);
    }
  }

  lemma {:induction false} ScanEntriesComplete(max: nat, keys: seq<bytes>, d: Value, prev: Option<bytes>, rest: bytes)
    requires d.Dict? && Representable(max, d) && forall k :: k in keys ==> k in d.entries
    requires Ascending(keys)
    requires prev.Some? && keys != [] ==> Less(prev.value, keys[0])
    ensures ScanDict(max, EncodeEntries(keys, d) + [END_MARK] + rest, prev) == Some(rest)
    decreases d, |keys|
  {
    if keys == [] {
      assert [] + [END_MARK] + rest == [END_MARK] + rest;
    } else {
      var k := keys[0];
      var tail := EncodeEntries(keys[1..], d) + [END_MARK] + rest;
      var mid := Encode(d.entries[k]) + tail;
      Regroup(EncodeString(k), Encode(d.entries[k]), EncodeEntries(keys[1..], d), rest);
      ScanEncodedString(max, k, mid);
      ScanComplete(max, d.entries[k], tail);
      ScanEntriesComplete(max, keys[1..], d, Some(k), rest);
      ScanDictStep(max, EncodeString(k) + mid, prev, k, mid, tail);
    }
  }

  // The canonical inputs are exactly the encodings of values.
  lemma CanonicalIffEncoding(max: nat, s: bytes)
    ensures Canonical(max, s) <==> exists v :: Representable(max, v) && s == Encode(v)
  {
    if Canonical(max, s) {
      ScanSound(max, s);
      DecodeRepresentable(max, s);
      assert s == Encode(Decode(max, s).value) + [] == Encode(Decode(max, s).value);
    }
    if v :| Representable(max, v) && s == Encode(v) {
      ScanComplete(max, v, []);
      assert s + [] == s;
    }
  }

  // They are also exactly the inputs that decode completely and re-encode to
  // the same bytes.
  lemma CanonicalIffReencodes(max: nat, s: bytes)
    ensures Canonical(max, s) <==> Decode(max, s).Ok? && Decode(max, s).rest == [] && Encode(Decode(max, s).value) == s
  {
    DecodeRepresentable(max, s);
    if Canonical(max, s) {
      ScanSound(max, s);
      assert Encode(Decode(max, s).value) + [] == Encode(Decode(max, s).value);
    }
    if Decode(max, s).Ok? && Decode(max, s).rest == [] && Encode(Decode(max, s).value) == s {
      ScanComplete(max, Decode(max, s).value, []);
      assert s + [] == s;
    }
  }

  // What the strict grammar leaves out: a leading zero is read but not
  // reproduced, and a negative key length stops the program.
  lemma LenientInputs(max: nat)
    ensures var s := [INT_MARK, 48, 55, END_MARK];
            Decode(max, s) == Ok(Int(7), []) && Encode(Int(7)) != s
    ensures Decode(max, [DICT_MARK, MINUS, 49, COLON]) == Fail(MakePanics(-1))
  {
    var s: bytes := [INT_MARK, 48, 55, END_MARK];
    assert s[1..] == [48, 55] + [END_MARK] + [];
    ReadUntilFirst([48, 55], END_MARK, []);
    assert NatValue([48, 55]) == 7 by { assert [48, 55][..1] == [48]; assert [48][..0] == []; }
    var d: bytes := [DICT_MARK, MINUS, 49, COLON];
    assert d[1..] == [MINUS, 49] + [COLON] + [];
    ReadUntilFirst([MINUS, 49], COLON, []);
    assert [MINUS, 49][1..] == [49] && [49][..0] == [];
    assert NatValue([49]) == 1;
  }
}
