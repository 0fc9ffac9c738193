/**
 Byte strings: lexicographic order, and decimal numerals as Go's strconv and fmt
 read and write them.
 */
module Bytes {
  import opened Text

  type byte = x: int | 0 <= x < 256
  type bytes = seq<byte>

  const MAX_INT64 := 0x7fff_ffff_ffff_ffff
  const MIN_INT64 := -0x8000_0000_0000_0000

  // ---------------------------------------------------------------------
  // Lexicographic order, as sort.Strings uses it
  // ---------------------------------------------------------------------

  predicate Less(a: bytes, b: bytes) {
    b != [] && (a == [] || a[0] < b[0] || (a[0] == b[0] && Less(a[1..], b[1..])))
  }

  lemma {:induction false} LessTransitive(a: bytes, b: bytes, c: bytes)
    requires Less(a, b) && Less(b, c)
    ensures Less(a, c)
  {
    if a != [] && a[0] == b[0] == c[0] {
      LessTransitive(a[1..], b[1..], c[1..]);
    }
  }

  lemma {:induction false} LessTrichotomy(a: bytes, b: bytes)
    ensures Less(a, b) || a == b || Less(b, a)
    ensures !(Less(a, b) && Less(b, a))
  {
    if a != [] && b != [] && a[0] == b[0] {
      LessTrichotomy(a[1..], b[1..]);
      assert a == [a[0]] + a[1..] && b == [b[0]] + b[1..];
    }
  }

  lemma {:induction false} LessIrreflexive(a: bytes)
    ensures !Less(a, a)
  {
    if a != [] { LessIrreflexive(a[1..]); }
  }

  ghost predicate Ascending(ks: seq<bytes>) {
    forall i, j :: 0 <= i < j < |ks| ==> Less(ks[i], ks[j])
  }

  ghost predicate IsLeast(k: bytes, ks: set<bytes>) {
    k in ks && forall j :: j in ks && j != k ==> Less(k, j)
  }

  lemma {:induction false} LeastExists(ks: set<bytes>)
    requires ks != {}
    ensures exists k :: IsLeast(k, ks)
    decreases |ks|
  {
    var x :| x in ks;
    if ks - {x} == {} {
      assert ks == {x};
      assert IsLeast(x, ks);
    } else {
      LeastExists(ks - {x});
      var k :| IsLeast(k, ks - {x});
      LessTrichotomy(k, x);
      if Less(k, x) {
        assert IsLeast(k, ks);
      } else {
        forall j | j in ks && j != x ensures Less(x, j) {
          if j != k { LessTransitive(x, k, j); }
        }
        assert IsLeast(x, ks);
      }
    }
  }

  // The keys in ascending order.
  ghost function SortedKeys(ks: set<bytes>): (r: seq<bytes>)
    ensures Ascending(r)
    ensures forall k :: k in r <==> k in ks
    decreases |ks|
  {
    if ks == {} then [] else
      LeastExists(ks);
      var k :| IsLeast(k, ks);
      var rest := SortedKeys(ks - {k});
      assert forall i :: 0 <= i < |rest| ==> rest[i] in rest;
      [k] + rest
  }

  lemma {:induction false} SortedKeysLength(ks: set<bytes>)
    ensures |SortedKeys(ks)| == |ks|
    decreases |ks|
  {
    if ks != {} {
      LeastExists(ks);
      var r := SortedKeys(ks);
      SortedKeysLength(ks - {r[0]});
    }
  }

  // An ascending enumeration is unique.
  lemma {:induction false} AscendingUnique(a: seq<bytes>, b: seq<bytes>)
    requires Ascending(a) && Ascending(b)
    requires forall k :: k in a <==> k in b
    ensures a == b
  {
    if a == [] {
      assert forall i :: 0 <= i < |b| ==> b[i] in b;
    } else {
      assert a[0] in a && b != [];
      FirstIsLeast(a, b);
      FirstIsLeast(b, a);
      LessTrichotomy(a[0], b[0]);
      NotLater(a);
      NotLater(b);
      assert a == [a[0]] + a[1..] && b == [b[0]] + b[1..];
      assert forall k :: k in a[1..] <==> k in a && k != a[0];
      assert forall k :: k in b[1..] <==> k in b && k != b[0];
      AscendingUnique(a[1..], b[1..]);
    }
  }

  lemma FirstIsLeast(a: seq<bytes>, b: seq<bytes>)
    requires Ascending(a) && a != [] && b != []
    requires forall k :: k in b ==> k in a
    ensures a[0] == b[0] || Less(a[0], b[0])
  {
    assert b[0] in b;
    var i :| 0 <= i < |a| && a[i] == b[0];
  }

  lemma NotLater(a: seq<bytes>)
    requires Ascending(a) && a != []
    ensures a[0] !in a[1..]
  {
    LessIrreflexive(a[0]);
  }

  // ---------------------------------------------------------------------
  // Decimal numerals
  // ---------------------------------------------------------------------

  const ZERO: byte := 48
  const PLUS: byte := 43
  const MINUS: byte := 45

  predicate IsDigit(b: byte) {
    48 <= b <= 57
  }

  predicate AllDigits(s: bytes) {
    forall i :: 0 <= i < |s| ==> IsDigit(s[i])
  }

  // fmt's %d on a non-negative number
  function FormatNat(n: nat): (r: bytes)
    ensures r != [] && AllDigits(r)
  {
    if n < 10 then [48 + n] else FormatNat(n / 10) + [48 + n % 10]
  }

  // The value of a string of digits.
  function NatValue(s: bytes): (n: nat)
    requires AllDigits(s)
  {
    if s == [] then 0 else 10 * NatValue(s[..|s| - 1]) + (s[|s| - 1] - 48)
  }

  // A numeral without superfluous leading zeros.
  predicate CanonicalNat(s: bytes) {
    s != [] && AllDigits(s) && (s[0] == ZERO ==> |s| == 1)
  }

  lemma {:induction false} FormatNatRoundTrip(n: nat)
    ensures CanonicalNat(FormatNat(n))
    ensures NatValue(FormatNat(n)) == n
    ensures n > 0 ==> FormatNat(n)[0] != ZERO
  {
    if n >= 10 {
      var r := FormatNat(n);
      FormatNatRoundTrip(n / 10);
      assert r[..|r| - 1] == FormatNat(n / 10);
    } else {
      assert FormatNat(n)[..0] == [];
    }
  }

  lemma {:induction false} CanonicalNatValue(s: bytes)
    requires CanonicalNat(s)
    ensures FormatNat(NatValue(s)) == s
    ensures s[0] != ZERO ==> NatValue(s) > 0
  {
    var p := s[..|s| - 1];
    assert s == p + [s[|s| - 1]];
    if |s| > 1 {
      CanonicalNatValue(p);
      assert NatValue(p) > 0;
      assert NatValue(s) / 10 == NatValue(p) && NatValue(s) % 10 == s[|s| - 1] - 48;
    } else {
      assert p == [] && NatValue(p) == 0;
    }
  }

  // fmt's %d
  function FormatInt(n: int): (r: bytes)
    ensures r != []
  {
    if n < 0 then [MINUS] + FormatNat(-n) else FormatNat(n)
  }

  // strconv.ParseInt(s, 10, 64), and strconv.Atoi on a 64-bit platform: an
  // optional sign, at least one digit, nothing else, and a value in range.
  function ParseInt64(s: bytes): (r: Option<int>)
    ensures r.Some? ==> MIN_INT64 <= r.value <= MAX_INT64
  {
    var signed := s != [] && (s[0] == PLUS || s[0] == MINUS);
    var digits := if signed then s[1..] else s;
    if digits == [] || !AllDigits(digits) then None
    else
      var n: int := if signed && s[0] == MINUS then 0 - NatValue(digits) else NatValue(digits);
      if MIN_INT64 <= n <= MAX_INT64 then Some(n) else None
  }

  predicate CanonicalInt(s: bytes) {
    CanonicalNat(s) || (|s| > 1 && s[0] == MINUS && s[1] != ZERO && CanonicalNat(s[1..]))
  }

  lemma FormatIntRoundTrip(n: int)
    requires MIN_INT64 <= n <= MAX_INT64
    ensures ParseInt64(FormatInt(n)) == Some(n)
    ensures CanonicalInt(FormatInt(n))
    ensures forall b :: b in FormatInt(n) ==> b == MINUS || IsDigit(b)
  {
    if n < 0 {
      FormatNatRoundTrip(-n);
      assert FormatInt(n)[1..] == FormatNat(-n);
    } else {
      FormatNatRoundTrip(n);
    }
  }

  lemma CanonicalIntValue(s: bytes)
    requires CanonicalInt(s) && ParseInt64(s).Some?
    ensures FormatInt(ParseInt64(s).value) == s
    ensures s[0] != MINUS ==> ParseInt64(s).value >= 0
  {
    if CanonicalNat(s) {
      CanonicalNatValue(s);
    } else {
      CanonicalNatValue(s[1..]);
      assert s == [MINUS] + s[1..];
    }
  }
}
