/**
 The string operations of Go's `strings` package that the four protocol
 libraries rely on, with the laws their proofs need.

 A string is a sequence of characters. Case mapping is the ASCII one.
 */
module Text {

  datatype Option<+T> = None | Some(value: T)

  // ---------------------------------------------------------------------
  // Case mapping
  // ---------------------------------------------------------------------

  function UpperChar(c: char): char {
    if 'a' <= c <= 'z' then c - ('a' - 'A') else c
  }

  function LowerChar(c: char): char {
    if 'A' <= c <= 'Z' then c + ('a' - 'A') else c
  }

  function Upper(s: string): (r: string)
    ensures |r| == |s|
    ensures forall i :: 0 <= i < |s| ==> r[i] == UpperChar(s[i])
  {
    seq(|s|, i requires 0 <= i < |s| => UpperChar(s[i]))
  }

  function Lower(s: string): (r: string)
    ensures |r| == |s|
    ensures forall i :: 0 <= i < |s| ==> r[i] == LowerChar(s[i])
  {
    seq(|s|, i requires 0 <= i < |s| => LowerChar(s[i]))
  }

  predicate EqualFold(a: string, b: string) {
    Lower(a) == Lower(b)
  }

  // ---------------------------------------------------------------------
  // Searching and trimming
  // ---------------------------------------------------------------------

  predicate HasPrefix(s: string, p: string) {
    p <= s
  }

  function TrimPrefix(s: string, p: string): (r: string)
    ensures p <= s ==> s == p + r
    ensures !(p <= s) ==> r == s
  {
    if p <= s then s[|p|..] else s
  }

  // The first position of c in s, or -1.
  function IndexOf<T(==)>(s: seq<T>, c: T): (i: int)
    ensures -1 <= i < |s|
    ensures i < 0 <==> c !in s
    ensures 0 <= i ==> s[i] == c
  {
    if s == [] then -1
    else if s[0] == c then 0
    else
      var i := IndexOf(s[1..], c);
      assert s == [s[0]] + s[1..];
      if i < 0 then -1 else i + 1
  }

  lemma {:induction false} IndexOfLeast<T>(s: seq<T>, c: T)
    ensures forall j :: 0 <= j < IndexOf(s, c) ==> s[j] != c
    ensures IndexOf(s, c) >= 0 ==> c !in s[..IndexOf(s, c)]
  {
    if s != [] && s[0] != c {
      IndexOfLeast(s[1..], c);
      assert forall j :: 1 <= j < |s| ==> s[j] == s[1..][j - 1];
    }
  }

  // The last position of c in s, or -1.
  function LastIndexOf(s: string, c: char): (i: int)
    ensures -1 <= i < |s|
    ensures i < 0 <==> c !in s
    ensures 0 <= i ==> s[i] == c && c !in s[i + 1..]
  {
    if s == [] then -1
    else if s[|s| - 1] == c then |s| - 1
    else
      var i := LastIndexOf(s[..|s| - 1], c);
      assert s == s[..|s| - 1] + [s[|s| - 1]];
      if i < 0 then -1 else
        assert s[i + 1..] == s[..|s| - 1][i + 1..] + [s[|s| - 1]];
        i
  }

  // A first occurrence is determined by what precedes it.
  lemma {:induction false} IndexOfFirst<T>(a: seq<T>, c: T, b: seq<T>)
    requires c !in a
    ensures IndexOf(a + [c] + b, c) == |a|
  {
    var s := a + [c] + b;
    if a == [] {
      assert s[0] == c;
    } else {
      assert s[0] == a[0] && s[1..] == a[1..] + [c] + b;
      IndexOfFirst(a[1..], c, b);
    }
  }

  function TrimLeft(s: string, c: char): (r: string)
    ensures r == [] || r[0] != c
    ensures |r| <= |s|
  {
    if s != [] && s[0] == c then TrimLeft(s[1..], c) else s
  }

  lemma {:induction false} TrimLeftSuffix(s: string, c: char)
    ensures TrimLeft(s, c) == s[|s| - |TrimLeft(s, c)|..]
  {
    if s != [] && s[0] == c {
      TrimLeftSuffix(s[1..], c);
    }
  }

  // strings.TrimRight(s, "\r\n")
  function TrimEol(s: string): (r: string)
    ensures r <= s
    ensures r == [] || (r[|r| - 1] != '\r' && r[|r| - 1] != '\n')
  {
    if s != [] && (s[|s| - 1] == '\r' || s[|s| - 1] == '\n') then TrimEol(s[..|s| - 1]) else s
  }

  // strings.Cut around the first c: the part before it and the part after it.
  function Cut(s: string, c: char): (r: (string, string))
    ensures c in s ==> s == r.0 + [c] + r.1 && c !in r.0
    ensures c !in s ==> r == (s, "")
  {
    var i := IndexOf(s, c);
    IndexOfLeast(s, c);
    if i < 0 then (s, "") else (s[..i], s[i + 1..])
  }

  lemma CutFirst(a: string, c: char, b: string)
    requires c !in a
    ensures Cut(a + [c] + b, c) == (a, b)
  {
    IndexOfFirst(a, c, b);
    assert (a + [c] + b)[..|a|] == a;
    assert (a + [c] + b)[|a| + 1..] == b;
  }

  // ---------------------------------------------------------------------
  // Split and Join on one character
  // ---------------------------------------------------------------------

  function Split(s: string, c: char): (r: seq<string>)
    ensures |r| >= 1
  {
    if s == [] then [""]
    else
      var r := Split(s[1..], c);
      if s[0] == c then [""] + r else [[s[0]] + r[0]] + r[1..]
  }

  lemma {:induction false} SplitParts(s: string, c: char)
    ensures forall i :: 0 <= i < |Split(s, c)| ==> c !in Split(s, c)[i]
  {
    if s != [] { SplitParts(s[1..], c); }
  }

  lemma {:induction false} SplitWhole(s: string, c: char)
    requires c !in s
    ensures Split(s, c) == [s]
  {
    if s != [] {
      SplitWhole(s[1..], c);
      assert [s[0]] + s[1..] == s;
    }
  }

  function Join(parts: seq<string>, c: char): string {
    if |parts| == 0 then ""
    else if |parts| == 1 then parts[0]
    else parts[0] + [c] + Join(parts[1..], c)
  }

  lemma {:induction false} SplitFirst(a: string, c: char, b: string)
    requires c !in a
    ensures Split(a + [c] + b, c) == [a] + Split(b, c)
  {
    var s := a + [c] + b;
    if a == [] {
      assert s[1..] == b;
    } else {
      assert s[1..] == a[1..] + [c] + b;
      SplitFirst(a[1..], c, b);
      assert ([a[1..]] + Split(b, c))[1..] == Split(b, c);
      assert [a[0]] + a[1..] == a;
    }
  }

  lemma SplitAt(s: string, c: char, i: nat)
    requires i == IndexOf(s, c)
    ensures Split(s, c) == [s[..i]] + Split(s[i + 1..], c)
  {
    IndexOfLeast(s, c);
    TakenApart(s, i);
    SplitFirst(s[..i], c, s[i + 1..]);
  }

  lemma TakenApart<T>(s: seq<T>, i: nat)
    requires i < |s|
    ensures s[..i] + [s[i]] + s[i + 1..] == s
  {
  }

  lemma Associate<T>(a: seq<T>, b: seq<T>, c: seq<T>)
    ensures a + (b + c) == a + b + c
  {
  }

  // Moving the first of what is left to the end of what is done.
  lemma Moved<T>(done: seq<T>, x: T, rest: seq<T>, left: seq<T>, all: seq<T>)
    requires left == [x] + rest && done + left == all
    ensures (done + [x]) + rest == all
  {
  }

  lemma NothingLeft<T>(done: seq<T>)
    ensures done + [] == done && [] + done == done
  {
  }

  // Splitting distributes over a separator anywhere in the string.
  lemma {:induction false} SplitAppend(a: string, c: char, b: string)
    ensures Split(a + [c] + b, c) == Split(a, c) + Split(b, c)
    decreases |a|
  {
    var s := a + [c] + b;
    if a == [] {
      assert s[1..] == b;
    } else {
      assert s[1..] == a[1..] + [c] + b;
      SplitAppend(a[1..], c, b);
      var r, t := Split(a[1..], c), Split(b, c);
      if a[0] == c {
        Associate([""], r, t);
      } else {
        FirstOf(r, t);
        Associate([[a[0]] + r[0]], r[1..], t);
      }
    }
  }

  lemma FirstOf<T>(r: seq<T>, t: seq<T>)
    requires r != []
    ensures (r + t)[0] == r[0] && (r + t)[1..] == r[1..] + t
  {
  }

  lemma {:induction false} SplitJoin(parts: seq<string>, c: char)
    requires |parts| >= 1
    requires forall p :: p in parts ==> c !in p
    ensures Split(Join(parts, c), c) == parts
  {
    if |parts| == 1 {
      SplitWhole(parts[0], c);
    } else {
      SplitFirst(parts[0], c, Join(parts[1..], c));
      SplitJoin(parts[1..], c);
      assert parts == [parts[0]] + parts[1..];
    }
  }

  // ---------------------------------------------------------------------
  // strings.Fields
  // ---------------------------------------------------------------------

  // unicode.IsSpace
  predicate IsSpace(c: char) {
    var n := c as int;
    9 <= n <= 13 || n == 32 || n == 0x85 || n == 0xA0 || n == 0x1680 || 0x2000 <= n <= 0x200a
    || n == 0x2028 || n == 0x2029 || n == 0x202f || n == 0x205f || n == 0x3000
  }

  // Non-empty and free of white space: what Fields yields.
  predicate IsField(s: string) {
    s != [] && forall i :: 0 <= i < |s| ==> !IsSpace(s[i])
  }

  function FieldLength(s: string): (n: nat)
    ensures n <= |s|
    ensures forall i :: 0 <= i < n ==> !IsSpace(s[i])
    ensures n < |s| ==> IsSpace(s[n])
  {
    if s == [] || IsSpace(s[0]) then 0
    else
      var n := FieldLength(s[1..]);
      assert forall i :: 1 <= i < n + 1 ==> s[i] == s[1..][i - 1];
      n + 1
  }

  function Fields(s: string): (r: seq<string>)
    ensures forall f :: f in r ==> IsField(f)
    decreases |s|
  {
    if s == [] then []
    else if IsSpace(s[0]) then Fields(s[1..])
    else [s[..FieldLength(s)]] + Fields(s[FieldLength(s)..])
  }

  lemma FieldLengthOf(f: string, rest: string)
    requires IsField(f)
    requires rest == [] || IsSpace(rest[0])
    ensures FieldLength(f + rest) == |f|
  {
    var s := f + rest;
    assert forall j :: 0 <= j < |f| ==> s[j] == f[j];
    assert |f| < |s| ==> s[|f|] == rest[0];
  }

  // Joining fields with one space and splitting again loses nothing.
  lemma {:induction false} FieldsJoin(parts: seq<string>)
    requires forall p :: p in parts ==> IsField(p)
    ensures Fields(Join(parts, ' ')) == parts
  {
    if |parts| > 0 {
      var rest := if |parts| == 1 then "" else " " + Join(parts[1..], ' ');
      var s := parts[0] + rest;
      assert Join(parts, ' ') == s;
      FieldLengthOf(parts[0], rest);
      assert s[0] == parts[0][0];
      assert s[..|parts[0]|] == parts[0] && s[|parts[0]|..] == rest;
      FieldsJoin(parts[1..]);
      if |parts| > 1 {
        assert rest[1..] == Join(parts[1..], ' ');
      }
      assert parts == [parts[0]] + parts[1..];
    }
  }
}
