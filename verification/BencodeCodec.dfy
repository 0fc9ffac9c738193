/**
 The bencode reader and writer in the form the library has them: a cursor that
 advances over the input, loops that append to a list or fill a map, and an
 output that grows. Each is proved equal to its counterpart in Bencode.
 */
module BencodeCodec {
  import opened Text
  import opened Bytes
  import opened Bencode

  datatype Result<+T> = Success(value: T) | Error(why: Failure)

  // A buffered reader over bytes already received.
  class Reader {
    const data: bytes
    var pos: nat

    ghost predicate Valid()
      reads this
    {
      pos <= |data|
    }

    ghost function Rest(): bytes
      requires Valid()
      reads this
    {
      data[pos..]
    }

    constructor (data: bytes)
      ensures Valid() && Rest() == data
    {
      this.data := data;
      pos := 0;
    }

    method ReadByte() returns (b: Option<byte>)
      requires Valid()
      modifies this
      ensures Valid()
      ensures old(Rest()) == [] ==> b == None && pos == old(pos)
      ensures old(Rest()) != [] ==> b == Some(old(Rest())[0]) && pos == old(pos) + 1 && Rest() == old(Rest())[1..]
    {
      if pos == |data| { return None; }
      b := Some(data[pos]);
      pos := pos + 1;
    }

    method UnreadByte()
      requires Valid() && pos > 0
      modifies this
      ensures Valid() && pos == old(pos) - 1
    {
      pos := pos - 1;
    }

    // Everything up to the delimiter, which is consumed as well.
    method ReadString(delim: byte) returns (t: Result<bytes>)
      requires Valid()
      modifies this
      ensures Valid()
      ensures t == Stripped(ReadUntil(old(Rest()), delim))
      ensures t.Success? ==> pos > old(pos) && Rest() == ReadUntil(old(Rest()), delim).rest
      ensures t.Error? ==> pos >= old(pos)
    {
      var i := IndexOf(data[pos..], delim);
      if i < 0 {
        pos := |data|;
        return Error(UnexpectedEnd);
      }
      t := Success(data[pos..pos + i]);
      assert data[pos..][..i] == data[pos..pos + i];
      assert data[pos..][i + 1..] == data[pos + i + 1..];
      pos := pos + i + 1;
    }

    // io.ReadFull into a buffer of n bytes.
    method ReadFull(n: nat) returns (t: Result<bytes>)
      requires Valid()
      modifies this
      ensures Valid() && pos >= old(pos)
      ensures n <= |old(Rest())| ==> t == Success(old(Rest())[..n]) && Rest() == old(Rest())[n..]
      ensures n > |old(Rest())| ==> t == Error(ShortData)
    {
      if n > |data| - pos {
        pos := |data|;
        return Error(ShortData);
      }
      t := Success(data[pos..pos + n]);
      assert data[pos..][..n] == data[pos..pos + n];
      assert data[pos..][n..] == data[pos + n..];
      pos := pos + n;
    }
  }

  // The outcome without the remaining input, which lives in the reader.
  function Stripped<T>(p: Parsed<T>): Result<T> {
    match p case Ok(v, _) => Success(v) case Fail(why) => Error(why)
  }

  method ReadInt(r: Reader) returns (res: Result<int>)
    requires r.Valid()
    modifies r
    ensures r.Valid() && r.pos >= old(r.pos)
    ensures res == Stripped(DecodeInt(old(r.Rest())))
    ensures res.Success? ==> r.Rest() == DecodeInt(old(r.Rest())).rest
  {
    var t := r.ReadString(END_MARK);
    if t.Error? { return Error(t.why); }
    if t.value == [MINUS, ZERO] { return Error(NegativeZero); }
    var n := ParseInt64(t.value);
    res := if n.None? then Error(BadInteger) else Success(n.value);
  }

  method ReadText(max: nat, r: Reader) returns (res: Result<bytes>)
    requires r.Valid()
    modifies r
    ensures r.Valid() && r.pos >= old(r.pos)
    ensures res == Stripped(DecodeString(max, old(r.Rest())))
    ensures res.Success? ==> r.pos > old(r.pos) && r.Rest() == DecodeString(max, old(r.Rest())).rest
  {
    var t := r.ReadString(COLON);
    if t.Error? { return Error(t.why); }
    var n := ParseInt64(t.value);
    if n.None? { return Error(BadLength); }
    if !Allocates(max, n.value) { return Error(MakePanics(n.value)); }
    res := r.ReadFull(n.value);
  }

  method ReadValue(max: nat, r: Reader) returns (res: Result<Value>)
    requires r.Valid()
    modifies r
    ensures r.Valid() && r.pos >= old(r.pos)
    ensures res == Stripped(Decode(max, old(r.Rest())))
    ensures res.Success? ==> r.pos > old(r.pos) && r.Rest() == Decode(max, old(r.Rest())).rest
    decreases |r.data| - r.pos, 0
  {
    var b := r.ReadByte();
    if b.None? { return Error(UnexpectedEnd); }
    if b.value == INT_MARK {
      var n := ReadInt(r);
      res := if n.Success? then Success(Int(n.value)) else Error(n.why);
    } else if b.value == LIST_MARK {
      var l := ReadList(max, r);
      res := if l.Success? then Success(List(l.value)) else Error(l.why);
    } else if b.value == DICT_MARK {
      var m := ReadDict(max, r);
      res := if m.Success? then Success(Dict(m.value)) else Error(m.why);
    } else if IsDigit(b.value) {
      r.UnreadByte();
      assert r.Rest() == old(r.Rest());
      var t := ReadText(max, r);
      res := if t.Success? then Success(Str(t.value)) else Error(t.why);
    } else {
      res := Error(UnexpectedByte);
    }
  }

  // One more item read: what the rest of the list adds to those read so far.
  lemma OneMoreRead(max: nat, items: seq<Value>, s: bytes)
    requires s != [] && s[0] != END_MARK && Decode(max, s).Ok?
    ensures Prepend(items, DecodeList(max, s)) == Prepend(items + [Decode(max, s).value], DecodeList(max, Decode(max, s).rest))
  {
    var v, mid := Decode(max, s).value, Decode(max, s).rest;
    PrependStep(max, s, v, mid);
    PrependBoth(items, [v], DecodeList(max, mid));
  }

  method ReadList(max: nat, r: Reader) returns (res: Result<seq<Value>>)
    requires r.Valid()
    modifies r
    ensures r.Valid() && r.pos >= old(r.pos)
    ensures res == Stripped(DecodeList(max, old(r.Rest())))
    ensures res.Success? ==> r.Rest() == DecodeList(max, old(r.Rest())).rest
    decreases |r.data| - r.pos, 1
  {
    var list: seq<Value> := [];
    ghost var start := r.Rest();
    PrependNone(DecodeList(max, start));
    while true
      invariant r.Valid() && r.pos >= old(r.pos)
      invariant DecodeList(max, start) == Prepend(list, DecodeList(max, r.Rest()))
      decreases |r.data| - r.pos
    {
      ghost var here := r.Rest();
      var b := r.ReadByte();
      if b.None? { return Error(UnexpectedEnd); }
      if b.value == END_MARK {
        assert list + [] == list;
        return Success(list);
      }
      r.UnreadByte();
      assert r.Rest() == here;
      var v := ReadValue(max, r);
      if v.Error? { return Error(v.why); }
      OneMoreRead(max, list, here);
      list := list + [v.value];
    }
  }

  method ReadDict(max: nat, r: Reader) returns (res: Result<map<bytes, Value>>)
    requires r.Valid()
    modifies r
    ensures r.Valid() && r.pos >= old(r.pos)
    ensures res == Stripped(DecodeDict(max, old(r.Rest()), map[]))
    ensures res.Success? ==> r.Rest() == DecodeDict(max, old(r.Rest()), map[]).rest
    decreases |r.data| - r.pos, 1
  {
    var m: map<bytes, Value> := map[];
    while true
      invariant r.Valid() && r.pos >= old(r.pos)
      invariant DecodeDict(max, old(r.Rest()), map[]) == DecodeDict(max, r.Rest(), m)
      decreases |r.data| - r.pos
    {
      ghost var here := r.Rest();
      var b := r.ReadByte();
      if b.None? { return Error(UnexpectedEnd); }
      if b.value == END_MARK { return Success(m); }
      r.UnreadByte();
      assert r.Rest() == here;
      var key := ReadText(max, r);
      if key.Error? { return Error(key.why); }
      ghost var mid := r.Rest();
      var v := ReadValue(max, r);
      if v.Error? { return Error(v.why); }
      DecodeDictStep(max, here, m, key.value, v.value, mid, r.Rest());
      m := m[key.value := v.value];
    }
  }

  // ---------------------------------------------------------------------
  // Writing
  // ---------------------------------------------------------------------

  // sort.Strings over the keys of a map.
  method SortKeys(ks: set<bytes>) returns (sorted: seq<bytes>)
    ensures sorted == SortedKeys(ks)
  {
    sorted := [];
    var left := ks;
    ghost var later, all := SortedKeys(ks), SortedKeys(ks);
    NothingLeft(all);
    while left != {}
      invariant left <= ks
      invariant sorted + later == all && later == SortedKeys(left)
      decreases left
    {
      var k := PickLeast(left);
      LeastIsFirst(k, left);
      Moved(sorted, k, SortedKeys(left - {k}), later, all);
      sorted := sorted + [k];
      left := left - {k};
      later := SortedKeys(left);
    }
    NothingLeft(sorted);
  }

  method PickLeast(ks: set<bytes>) returns (k: bytes)
    requires ks != {}
    ensures IsLeast(k, ks)
  {
    LeastExists(ks);
    ghost var least :| IsLeast(least, ks);
    k :| k in ks && forall j :: j in ks && j != k ==> Less(k, j);
  }

  lemma LeastIsFirst(k: bytes, ks: set<bytes>)
    requires IsLeast(k, ks)
    ensures SortedKeys(ks) == [k] + SortedKeys(ks - {k})
  {
    var r := [k] + SortedKeys(ks - {k});
    assert forall i :: 0 <= i < |r| - 1 ==> SortedKeys(ks - {k})[i] in ks - {k};
    AscendingUnique(r, SortedKeys(ks));
  }

  method Write(v: Value) returns (out: bytes)
    ensures out == Encode(v)
    decreases v
  {
    match v
    case Int(n) =>
      out := [INT_MARK] + FormatInt(n) + [END_MARK];
    case Str(s) =>
      out := EncodeString(s);
    case List(items) =>
      var body := WriteItems(items);
      out := [LIST_MARK] + body + [END_MARK];
    case Dict(m) =>
      var body := WriteEntries(v);
      out := [DICT_MARK] + body + [END_MARK];
  }

  lemma ItemsFrom(items: seq<Value>, i: nat)
    requires i < |items|
    ensures EncodeItems(items[i..]) == Encode(items[i]) + EncodeItems(items[i + 1..])
  {
    assert items[i..] == [items[i]] + items[i + 1..];
    EncodeItemsCons(items[i], items[i + 1..]);
  }

  method WriteItems(items: seq<Value>) returns (out: bytes)
    ensures out == EncodeItems(items)
    decreases items, 0
  {
    out := [];
    ghost var all := EncodeItems(items);
    assert items[0..] == items;
    NothingLeft(all);
    for i := 0 to |items|
      invariant out + EncodeItems(items[i..]) == all
    {
      var item := Write(items[i]);
      ItemsFrom(items, i);
      Associate(out, item, EncodeItems(items[i + 1..]));
      out := out + item;
    }
    assert items[|items|..] == [];
    NothingLeft(out);
  }

  method WriteEntries(d: Value) returns (out: bytes)
    requires d.Dict?
    ensures out == EncodeEntries(SortedKeys(d.entries.Keys), d)
    decreases d, 0
  {
    out := [];
    var keys := SortKeys(d.entries.Keys);
    for i := 0 to |keys|
      invariant out + EncodeEntries(keys[i..], d) == EncodeEntries(keys, d)
    {
      var k := keys[i];
      assert k in keys;
      var value := Write(d.entries[k]);
      assert keys[i..][1..] == keys[i + 1..];
      RegroupOutput(out, EncodeString(k), value, EncodeEntries(keys[i + 1..], d));
      out := out + EncodeString(k) + value;
    }
  }

  lemma RegroupOutput(out: bytes, k: bytes, v: bytes, rest: bytes)
    ensures out + (k + v + rest) == (out + k + v) + rest
  {
  }
}
