/**
 The bitfield of pieces a peer has, most significant bit first.

 Main results
   Count        the clear-lowest-bit loop counts the pieces present
   Validate     accepts exactly the fields of the right length with no piece at
                or past the end
   SetGrows     setting a piece adds that piece and no other
 */
module Bitfield {
  // ---------------------------------------------------------------------
  // Bits of one byte
  // ---------------------------------------------------------------------

  function Mask(k: nat): bv8
    requires k < 8
  {
    if k == 0 then 0x80 else if k == 1 then 0x40 else if k == 2 then 0x20 else if k == 3 then 0x10
    else if k == 4 then 0x08 else if k == 5 then 0x04 else if k == 6 then 0x02 else 0x01
  }

  predicate Bit(o: bv8, k: nat)
    requires k < 8
  {
    o & Mask(k) != 0
  }

  lemma ShiftIsMask(o: bv8, k: nat)
    requires k < 8
    ensures (o >> (7 - k)) & 1 == 1 <==> Bit(o, k)
    ensures (1 as bv8) << (7 - k) == Mask(k)
  {
  }

  function One(b: bool): nat {
    if b then 1 else 0
  }

  // The number of bits among the first k.
  function Bits(o: bv8, k: nat): nat
    requires k <= 8
  {
    if k == 0 then 0 else Bits(o, k - 1) + One(Bit(o, k - 1))
  }

  // Clearing the lowest bit clears one bit and keeps the others.
  lemma LowestCleared(o: bv8)
    requires o != 0
    ensures exists j: nat :: j < 8 && Bit(o, j) && !Bit(o & (o - 1), j)
                          && forall k: nat :: k < 8 && k != j ==> Bit(o & (o - 1), k) == Bit(o, k)
  {
    var c := o & (o - 1);
    var j := if Bit(o, 7) then 7 else if Bit(o, 6) then 6 else if Bit(o, 5) then 5 else if Bit(o, 4) then 4
             else if Bit(o, 3) then 3 else if Bit(o, 2) then 2 else if Bit(o, 1) then 1 else 0;
    assert Bit(o, j) && !Bit(c, j);
    assert forall k: nat :: k < 8 && k != j ==> Bit(c, k) == Bit(o, k);
  }

  lemma {:induction false} BitsDiffer(a: bv8, b: bv8, j: nat, k: nat)
    requires j < 8 && k <= 8 && Bit(a, j) && !Bit(b, j)
    requires forall i: nat :: i < 8 && i != j ==> Bit(b, i) == Bit(a, i)
    ensures Bits(a, k) == Bits(b, k) + One(j < k)
  {
    if k > 0 { BitsDiffer(a, b, j, k - 1); }
  }

  lemma ClearedCount(o: bv8)
    requires o != 0
    ensures Bits(o & (o - 1), 8) == Bits(o, 8) - 1
  {
    LowestCleared(o);
    var j: nat :| j < 8 && Bit(o, j) && !Bit(o & (o - 1), j)
                  && forall k: nat :: k < 8 && k != j ==> Bit(o & (o - 1), k) == Bit(o, k);
    BitsDiffer(o, o & (o - 1), j, 8);
  }

  lemma {:induction false} NoBits(k: nat)
    requires k <= 8
    ensures Bits(0, k) == 0
  {
    if k > 0 { NoBits(k - 1); }
  }

  // ---------------------------------------------------------------------
  // The field
  // ---------------------------------------------------------------------

  predicate Has(s: seq<bv8>, i: int) {
    0 <= i < 8 * |s| && Bit(s[i / 8], i % 8)
  }

  // The number of pieces below n that are present.
  function Present(s: seq<bv8>, n: nat): nat {
    if n == 0 then 0 else Present(s, n - 1) + One(Has(s, n - 1))
  }

  lemma {:induction false} PresentInByte(s: seq<bv8>, j: nat, k: nat)
    requires j < |s| && k <= 8
    ensures Present(s, 8 * j + k) == Present(s, 8 * j) + Bits(s[j], k)
  {
    if k > 0 {
      PresentInByte(s, j, k - 1);
      assert (8 * j + k - 1) / 8 == j && (8 * j + k - 1) % 8 == k - 1;
    }
  }

  function SetBit(s: seq<bv8>, i: int): seq<bv8> {
    if 0 <= i < 8 * |s| then s[i / 8 := s[i / 8] | Mask(i % 8)] else s
  }

  lemma OrBit(o: bv8, j: nat, k: nat)
    requires j < 8 && k < 8
    ensures Bit(o | Mask(j), k) <==> Bit(o, k) || j == k
  {
  }

  lemma SetGrows(s: seq<bv8>, i: int, k: int)
    ensures |SetBit(s, i)| == |s|
    ensures Has(SetBit(s, i), k) <==> Has(s, k) || (k == i && 0 <= i < 8 * |s|)
  {
    if 0 <= i < 8 * |s| && 0 <= k < 8 * |s| {
      OrBit(s[i / 8], i % 8, k % 8);
    }
  }

  method New(n: nat) returns (b: array<bv8>)
    ensures fresh(b) && b.Length == (n + 7) / 8
    ensures forall i :: !Has(b[..], i)
  {
    b := new bv8[(n + 7) / 8](i => 0);
  }

  method Set(b: array<bv8>, i: int)
    modifies b
    ensures b[..] == SetBit(old(b[..]), i)
  {
    if i < 0 || i >= b.Length * 8 {
      return;
    }
    ShiftIsMask(0, i % 8);
    b[i / 8] := b[i / 8] | ((1 as bv8) << (7 - i % 8));
  }

  method Test(b: array<bv8>, i: int) returns (r: bool)
    ensures r == Has(b[..], i)
  {
    if i < 0 || i >= b.Length * 8 {
      return false;
    }
    ShiftIsMask(b[i / 8], i % 8);
    return (b[i / 8] >> (7 - i % 8)) & 1 == 1;
  }

  method Count(b: array<bv8>) returns (n: nat)
    ensures n == Present(b[..], 8 * b.Length)
  {
    n := 0;
    var j := 0;
    while j < b.Length
      invariant 0 <= j <= b.Length && n == Present(b[..], 8 * j)
    {
      var octet := b[j];
      ghost var all := n + Bits(octet, 8);
      PresentInByte(b[..], j, 8);
      while octet != 0
        invariant n + Bits(octet, 8) == all
        decreases octet
      {
        ClearedCount(octet);
        octet := octet & (octet - 1);
        n := n + 1;
      }
      NoBits(8);
      j := j + 1;
    }
  }

  // The bits of the last byte from spare on.
  lemma SpareBit(o: bv8, spare: nat, k: nat)
    requires 0 < spare < 8 && k < 8
    ensures Bit(o & ((0xff as bv8) >> spare), k) <==> Bit(o, k) && spare <= k
  {
  }

  lemma SomeBit(m: bv8)
    ensures m != 0 <==> exists k: nat :: k < 8 && Bit(m, k)
  {
    assert m != 0 ==> Bit(m, 0) || Bit(m, 1) || Bit(m, 2) || Bit(m, 3) || Bit(m, 4) || Bit(m, 5) || Bit(m, 6) || Bit(m, 7);
  }

  lemma SpareMask(o: bv8, spare: nat)
    requires 0 < spare < 8
    ensures o & ((0xff as bv8) >> spare) != 0 <==> exists k: nat :: spare <= k < 8 && Bit(o, k)
  {
    SomeBit(o & ((0xff as bv8) >> spare));
    forall k: nat | k < 8
      ensures Bit(o & ((0xff as bv8) >> spare), k) <==> Bit(o, k) && spare <= k
    {
      SpareBit(o, spare, k);
    }
  }

  // In a field of the right length, a piece past the end is a spare bit.
  lemma PastEnd(s: seq<bv8>, n: nat, i: int)
    requires |s| == (n + 7) / 8 && Has(s, i) && i >= n
    ensures n % 8 != 0 && i / 8 == |s| - 1 && n % 8 <= i % 8 < 8 && Bit(s[|s| - 1], i % 8)
  {
  }

  lemma SpareHas(s: seq<bv8>, n: nat, k: nat)
    requires |s| == (n + 7) / 8 && n % 8 != 0 && n % 8 <= k < 8 && Bit(s[|s| - 1], k)
    ensures Has(s, 8 * (|s| - 1) + k) && 8 * (|s| - 1) + k >= n
  {
    assert (8 * (|s| - 1) + k) / 8 == |s| - 1 && (8 * (|s| - 1) + k) % 8 == k;
  }

  method Validate(b: array<bv8>, n: nat) returns (ok: bool)
    ensures ok <==> b.Length == (n + 7) / 8 && forall i :: Has(b[..], i) ==> i < n
  {
    var expected := (n + 7) / 8;
    if b.Length != expected {
      return false;
    }
    var spare := n % 8;
    if spare != 0 && b.Length > 0 {
      var last := b.Length - 1;
      SpareMask(b[last], spare);
      if b[last] & ((0xff as bv8) >> spare) != 0 {
        ghost var k: nat :| spare <= k < 8 && Bit(b[last], k);
        SpareHas(b[..], n, k);
        return false;
      }
    }
    forall i | Has(b[..], i) && i >= n ensures false { PastEnd(b[..], n, i); }
    return true;
  }
}
