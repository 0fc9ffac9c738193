/**
 Downloading one BitTorrent piece: the blocks that are requested and the buffer
 they are stored in.

 Main results
   BlocksTile        the requests tile the piece: block j is the j-th stretch of
                     16384 bytes, the last one cut to fit, and there are as many
                     as the length calls for
   CompleteAtLast    storing every block once, in any order, completes the piece
                     exactly at the last store
   Assembled         and then the buffer is the piece
 */
module PieceAssembly {
  import opened Bytes

  const BLOCK := 16384

  datatype Block = Block(begin: nat, len: nat)

  // ---------------------------------------------------------------------
  // Requests
  // ---------------------------------------------------------------------

  function Next(length: nat, requested: nat): (b: Block)
    requires requested < length
    ensures b.begin + b.len <= length && b.len > 0
  {
    Block(requested, if requested + BLOCK > length then length - requested else BLOCK)
  }

  // All requests from a cursor on.
  function Requests(length: nat, requested: nat): seq<Block>
    decreases length - requested
  {
    if requested >= length then []
    else
      var b := Next(length, requested);
      [b] + Requests(length, requested + b.len)
  }

  function BlockCount(length: nat): nat {
    (length + BLOCK - 1) / BLOCK
  }

  function BlockAt(length: nat, j: nat): (b: Block)
    requires j < BlockCount(length)
    ensures b.begin + b.len <= length && b.len > 0
    ensures j < BlockCount(length) - 1 ==> b.len == BLOCK
    ensures j == BlockCount(length) - 1 ==> b.begin + b.len == length
  {
    Block(BLOCK * j, if BLOCK * j + BLOCK > length then length - BLOCK * j else BLOCK)
  }

  lemma {:induction false} RequestsFrom(length: nat, j: nat)
    requires j <= BlockCount(length)
    ensures var cursor := if BLOCK * j > length then length else BLOCK * j;
            var r := Requests(length, cursor);
            && |r| == BlockCount(length) - j
            && forall i :: 0 <= i < |r| ==> r[i] == BlockAt(length, j + i)
    decreases BlockCount(length) - j
  {
    if j < BlockCount(length) {
      RequestsFrom(length, j + 1);
      var r := Requests(length, BLOCK * j);
      assert r[0] == BlockAt(length, j);
      assert forall i :: 1 <= i < |r| ==> r[i] == r[1..][i - 1];
    }
  }

  // The requests for a whole piece: the right number, in order, each starting
  // where the one before it ends, covering the piece exactly.
  lemma BlocksTile(length: nat)
    ensures var r := Requests(length, 0);
            && |r| == BlockCount(length)
            && (forall j :: 0 <= j < |r| ==> r[j] == BlockAt(length, j))
            && (forall j :: 0 <= j < |r| - 1 ==> r[j].len == BLOCK && r[j + 1].begin == r[j].begin + r[j].len)
            && (|r| > 0 ==> r[0].begin == 0 && r[|r| - 1].begin + r[|r| - 1].len == length)
  {
    RequestsFrom(length, 0);
  }

  // ---------------------------------------------------------------------
  // Storing
  // ---------------------------------------------------------------------

  datatype Buffer = Buffer(data: bytes, downloaded: nat)

  function Overwrite(data: bytes, begin: nat, block: bytes): (r: bytes)
    requires begin + |block| <= |data|
    ensures |r| == |data|
    ensures forall i :: 0 <= i < |data| ==> r[i] == if begin <= i < begin + |block| then block[i - begin] else data[i]
  {
    data[..begin] + block + data[begin + |block|..]
  }

  function Store(b: Buffer, begin: nat, block: bytes): Buffer
    requires begin + |block| <= |b.data|
  {
    Buffer(Overwrite(b.data, begin, block), b.downloaded + |block|)
  }

  function Content(piece: bytes, j: nat): (r: bytes)
    requires j < BlockCount(|piece|)
    ensures |r| == BlockAt(|piece|, j).len
  {
    var b := BlockAt(|piece|, j);
    piece[b.begin..b.begin + b.len]
  }

  predicate InRange(piece: bytes, order: seq<nat>) {
    forall i :: 0 <= i < |order| ==> order[i] < BlockCount(|piece|)
  }

  predicate Distinct(order: seq<nat>) {
    forall i, j :: 0 <= i < j < |order| ==> order[i] != order[j]
  }

  // The buffer after storing these blocks of the piece, in this order.
  function Stored(start: bytes, piece: bytes, order: seq<nat>): (b: Buffer)
    requires |start| == |piece| && InRange(piece, order)
    ensures |b.data| == |piece|
  {
    if order == [] then Buffer(start, 0)
    else
      var j := order[|order| - 1];
      Store(Stored(start, piece, order[..|order| - 1]), BlockAt(|piece|, j).begin, Content(piece, j))
  }

  lemma StoredStep(start: bytes, piece: bytes, order: seq<nat>, i: nat)
    requires |start| == |piece| && InRange(piece, order) && i < |order|
    ensures InRange(piece, order[..i]) && InRange(piece, order[..i + 1])
    ensures Stored(start, piece, order[..i + 1]) ==
            Store(Stored(start, piece, order[..i]), BlockAt(|piece|, order[i]).begin, Content(piece, order[i]))
  {
    assert order[..i + 1][..i] == order[..i];
  }

  // The bytes of the first n blocks that are in the order.
  function Covered(length: nat, order: seq<nat>, n: nat): nat
    requires n <= BlockCount(length)
  {
    if n == 0 then 0
    else Covered(length, order, n - 1) + if n - 1 in order then BlockAt(length, n - 1).len else 0
  }

  lemma {:induction false} CoveredSnoc(length: nat, order: seq<nat>, j: nat, n: nat)
    requires j < BlockCount(length) && n <= BlockCount(length) && j !in order
    ensures Covered(length, order + [j], n) == Covered(length, order, n) + if j < n then BlockAt(length, j).len else 0
  {
    if n > 0 {
      CoveredSnoc(length, order, j, n - 1);
      assert n - 1 in order + [j] <==> n - 1 in order || n - 1 == j;
    }
  }

  lemma {:induction false} CoveredBound(length: nat, order: seq<nat>, n: nat)
    requires n <= BlockCount(length)
    ensures var full := if BLOCK * n > length then length else BLOCK * n;
            && Covered(length, order, n) <= full
            && (Covered(length, order, n) == full <==> forall j :: 0 <= j < n ==> j in order)
  {
    if n > 0 {
      CoveredBound(length, order, n - 1);
      assert BlockAt(length, n - 1).begin == BLOCK * (n - 1);
    }
  }

  lemma {:induction false} CoveredNone(length: nat, n: nat)
    requires n <= BlockCount(length)
    ensures Covered(length, [], n) == 0
  {
    if n > 0 { CoveredNone(length, n - 1); }
  }

  // The counter is the number of bytes covered, if no block is stored twice.
  lemma {:induction false} Counted(start: bytes, piece: bytes, order: seq<nat>)
    requires |start| == |piece| && InRange(piece, order) && Distinct(order)
    ensures Stored(start, piece, order).downloaded == Covered(|piece|, order, BlockCount(|piece|))
  {
    if order == [] {
      CoveredNone(|piece|, BlockCount(|piece|));
    } else {
      var init, j := order[..|order| - 1], order[|order| - 1];
      Counted(start, piece, init);
      assert order == init + [j];
      CoveredSnoc(|piece|, init, j, BlockCount(|piece|));
    }
  }

  // Complete means that every block has been stored.
  lemma CompleteIff(start: bytes, piece: bytes, order: seq<nat>)
    requires |start| == |piece| && InRange(piece, order) && Distinct(order)
    ensures Stored(start, piece, order).downloaded >= |piece| <==>
            forall j :: 0 <= j < BlockCount(|piece|) ==> j in order
  {
    Counted(start, piece, order);
    CoveredBound(|piece|, order, BlockCount(|piece|));
  }

  // Bytes stored for a block that was stored before.
  function Repeated(length: nat, order: seq<nat>): nat
    requires forall i :: 0 <= i < |order| ==> order[i] < BlockCount(length)
  {
    if order == [] then 0
    else
      var init, j := order[..|order| - 1], order[|order| - 1];
      Repeated(length, init) + if j in init then BlockAt(length, j).len else 0
  }

  lemma {:induction false} CoveredAgain(length: nat, order: seq<nat>, j: nat, n: nat)
    requires n <= BlockCount(length) && j in order
    ensures Covered(length, order + [j], n) == Covered(length, order, n)
  {
    if n > 0 {
      CoveredAgain(length, order, j, n - 1);
      assert n - 1 in order + [j] <==> n - 1 in order || n - 1 == j;
    }
  }

  // In any order and with any repetition the counter is what is covered and what
  // was stored again.
  lemma {:induction false} CountedTwice(start: bytes, piece: bytes, order: seq<nat>)
    requires |start| == |piece| && InRange(piece, order)
    ensures Stored(start, piece, order).downloaded ==
            Covered(|piece|, order, BlockCount(|piece|)) + Repeated(|piece|, order)
  {
    if order == [] {
      CoveredNone(|piece|, BlockCount(|piece|));
    } else {
      var init, j := order[..|order| - 1], order[|order| - 1];
      assert order == init + [j];
      CountedTwice(start, piece, init);
      if j in init {
        CoveredAgain(|piece|, init, j, BlockCount(|piece|));
      } else {
        CoveredSnoc(|piece|, init, j, BlockCount(|piece|));
      }
    }
  }

  // Complete tells the truth exactly when nothing is missing or less was stored
  // again than is missing.
  lemma CompleteTrueIff(start: bytes, piece: bytes, order: seq<nat>)
    requires |start| == |piece| && InRange(piece, order)
    ensures var all := forall j :: 0 <= j < BlockCount(|piece|) ==> j in order;
            var missing := |piece| - Covered(|piece|, order, BlockCount(|piece|));
            && (all <==> missing == 0)
            && ((Stored(start, piece, order).downloaded >= |piece| <==> all)
                <==> missing == 0 || Repeated(|piece|, order) < missing)
  {
    CountedTwice(start, piece, order);
    CoveredBound(|piece|, order, BlockCount(|piece|));
  }

  lemma CompleteAtLast(start: bytes, piece: bytes, order: seq<nat>, k: nat)
    requires |start| == |piece| && InRange(piece, order) && Distinct(order) && k <= |order|
    requires forall j :: 0 <= j < BlockCount(|piece|) ==> j in order
    ensures InRange(piece, order[..k])
    ensures Stored(start, piece, order[..k]).downloaded >= |piece| <==> k == |order|
  {
    CompleteIff(start, piece, order[..k]);
    if k == |order| {
      assert order[..k] == order;
    } else {
      var j := order[k];
      assert j !in order[..k];
    }
  }

  // Every block stored reads back, whatever was stored in which order.
  lemma {:induction false} BlockReadsBack(start: bytes, piece: bytes, order: seq<nat>, j: nat, i: nat)
    requires |start| == |piece| && InRange(piece, order) && j in order
    requires BlockAt(|piece|, j).begin <= i < BlockAt(|piece|, j).begin + BlockAt(|piece|, j).len
    ensures Stored(start, piece, order).data[i] == piece[i]
  {
    var init, last := order[..|order| - 1], order[|order| - 1];
    if last != j {
      assert j in init;
      BlockReadsBack(start, piece, init, j, i);
    }
  }

  lemma Assembled(start: bytes, piece: bytes, order: seq<nat>)
    requires |start| == |piece| && InRange(piece, order)
    requires forall j :: 0 <= j < BlockCount(|piece|) ==> j in order
    ensures Stored(start, piece, order).data == piece
  {
    forall i | 0 <= i < |piece|
      ensures Stored(start, piece, order).data[i] == piece[i]
    {
      var j := i / BLOCK;
      assert j < BlockCount(|piece|);
      BlockReadsBack(start, piece, order, j, i);
    }
  }

  lemma OverwriteTwice(data: bytes, block: bytes)
    requires |block| <= |data|
    ensures Overwrite(Overwrite(data, 0, block), 0, block) == block + data[|block|..]
  {
  }

  lemma SameTail(a: bytes, b: bytes, n: nat)
    requires n <= |b| && |a| + n == |b|
    ensures b[..n] + a == b <==> a == b[n..]
  {
    assert (b[..n] + a)[n..] == a;
    assert b[..n] + b[n..] == b;
  }

  // The counter trusts its caller: storing one block twice can complete a piece
  // that is not there.
  lemma DuplicateCompletes(start: bytes, piece: bytes)
    requires |start| == |piece| == 2 * BLOCK
    ensures var b := Stored(start, piece, [0, 0]);
            b.downloaded >= |piece| && (b.data == piece <==> start[BLOCK..] == piece[BLOCK..])
  {
    var block := Content(piece, 0);
    assert BlockAt(|piece|, 0) == Block(0, BLOCK);
    assert [0, 0][..1] == [0] && [0][..0] == [];
    assert Stored(start, piece, [0]) == Store(Buffer(start, 0), 0, block);
    assert Stored(start, piece, [0, 0]) == Store(Stored(start, piece, [0]), 0, block);
    OverwriteTwice(start, block);
    SameTail(start[BLOCK..], piece, BLOCK);
  }

  // ---------------------------------------------------------------------
  // The object
  // ---------------------------------------------------------------------

  class State {
    const data: array<byte>
    const length: nat
    var downloaded: nat
    var requested: nat

    ghost predicate Valid()
      reads this
    {
      data.Length == length && requested <= length
    }

    constructor (n: nat)
      ensures Valid() && length == n && downloaded == 0 && requested == 0 && fresh(data)
    {
      length := n;
      data := new byte[n](i => 0);
      downloaded, requested := 0, 0;
    }

    predicate Complete()
      reads this
    {
      downloaded >= length
    }

    method NextRequest() returns (begin: nat, blockLen: nat, ok: bool)
      requires Valid()
      modifies `requested
      ensures Valid()
      ensures ok <==> old(requested) < length
      ensures ok ==> Block(begin, blockLen) == Next(length, old(requested)) && requested == old(requested) + blockLen
      ensures !ok ==> requested == old(requested)
    {
      if requested >= length {
        return 0, 0, false;
      }
      begin := requested;
      blockLen := BLOCK;
      if begin + blockLen > length {
        blockLen := length - begin;
      }
      requested := requested + blockLen;
      ok := true;
    }

    // The requests a downloader makes until there are none left.
    method AllRequests() returns (blocks: seq<Block>)
      requires Valid()
      modifies `requested
      ensures Valid() && requested == length && blocks == Requests(length, old(requested))
    {
      blocks := [];
      ghost var all := Requests(length, requested);
      while true
        invariant Valid() && blocks + Requests(length, requested) == all
        decreases length - requested
      {
        var begin, blockLen, ok := NextRequest();
        if !ok {
          assert blocks + [] == blocks;
          return;
        }
        blocks := blocks + [Block(begin, blockLen)];
      }
    }

    method StoreBlock(begin: nat, block: bytes) returns (ok: bool)
      requires Valid()
      modifies `downloaded, data
      ensures Valid()
      ensures ok <==> begin + |block| <= length
      ensures ok ==> Buffer(data[..], downloaded) == Store(old(Buffer(data[..], downloaded)), begin, block)
      ensures !ok ==> data[..] == old(data[..]) && downloaded == old(downloaded)
    {
      if begin + |block| > length {
        return false;
      }
      var i := 0;
      while i < |block|
        invariant 0 <= i <= |block| && downloaded == old(downloaded)
        invariant forall j :: 0 <= j < data.Length ==>
                    data[j] == if begin <= j < begin + i then block[j - begin] else old(data[j])
      {
        data[begin + i] := block[i];
        i := i + 1;
      }
      assert data[..] == Overwrite(old(data[..]), begin, block);
      downloaded := downloaded + |block|;
      return true;
    }

    // Every block of a piece arrives once, in any order: nothing is refused, the
    // piece is complete at the last of them and no earlier, and the buffer is it.
    method Receive(piece: bytes, order: seq<nat>) returns (completeAfter: nat)
      requires Valid() && downloaded == 0 && |piece| == length > 0
      requires InRange(piece, order) && Distinct(order)
      requires forall j :: 0 <= j < BlockCount(length) ==> j in order
      modifies `downloaded, data
      ensures Valid() && Complete() && completeAfter == |order| && data[..] == piece
    {
      ghost var start := data[..];
      completeAfter := 0;
      var i := 0;
      CompleteAtLast(start, piece, order, 0);
      assert order[..0] == [];
      while i < |order|
        invariant 0 <= i <= |order| && Valid()
        invariant InRange(piece, order[..i]) && Buffer(data[..], downloaded) == Stored(start, piece, order[..i])
        invariant Complete() <==> i == |order|
        invariant completeAfter == if i == |order| then i else 0
      {
        var b := BlockAt(length, order[i]);
        StoredStep(start, piece, order, i);
        var ok := StoreBlock(b.begin, Content(piece, order[i]));
        i := i + 1;
        CompleteAtLast(start, piece, order, i);
        if Complete() {
          completeAfter := i;
        }
      }
      assert order[..i] == order;
      Assembled(start, piece, order);
    }
  }
}
