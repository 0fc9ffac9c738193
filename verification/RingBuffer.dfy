/**
 The fixed-capacity circular buffer: its contents are always the newest values
 pushed, oldest first.
 */
module RingBuffer {
  // The last k elements, or all of them.
  function Newest<T>(s: seq<T>, k: nat): (r: seq<T>)
    ensures |r| == if |s| < k then |s| else k
    ensures forall i :: 0 <= i < |r| ==> r[i] == s[|s| - |r| + i]
  {
    if |s| <= k then s else s[|s| - k..]
  }

  lemma NewestNewest<T>(s: seq<T>, j: nat, k: nat)
    ensures Newest(Newest(s, j), k) == Newest(s, if j < k then j else k)
  {
  }

  // The position i places after head on a ring.
  function At(head: nat, i: nat, cap: nat): (r: nat)
    requires head < cap && i <= cap
    ensures r < cap && r == if head + i < cap then head + i else head + i - cap
  {
    Wrap(head + i, cap);
    (head + i) % cap
  }

  lemma Wrap(x: nat, cap: nat)
    requires 0 < cap && x < 2 * cap
    ensures x % cap == if x < cap then x else x - cap
  {
    if x < cap {
      Below(x, cap);
    } else {
      assert x == (x - cap) + cap * 1;
      Above(x - cap, cap);
    }
  }

  lemma Below(x: nat, m: nat)
    requires x < m
    ensures x % m == x
  {
  }

  lemma Above(x: nat, m: nat)
    requires x < m
    ensures (x + m) % m == x
  {
    var q := (x + m) / m;
    assert x + m == q * m + (x + m) % m;
    assert q < 1 ==> q * m <= 0;
    assert q > 1 ==> q * m >= 2 * m;
  }

  class RingBuf<T(0)> {
    const buf: array<T>
    var head: nat // the oldest value
    var size: nat
    ghost var pushed: seq<T> // everything ever pushed

    ghost predicate Valid()
      reads this, buf
    {
      && 0 < buf.Length && head < buf.Length
      && size == (if |pushed| < buf.Length then |pushed| else buf.Length)
      && forall i :: 0 <= i < size ==> buf[At(head, i, buf.Length)] == pushed[|pushed| - size + i]
    }

    constructor (capacity: int)
      ensures Valid() && fresh(buf) && pushed == []
      ensures buf.Length == if capacity <= 0 then 1 else capacity
    {
      var n := if capacity <= 0 then 1 else capacity;
      buf := new T[n];
      head, size, pushed := 0, 0, [];
    }

    method Push(v: T)
      requires Valid()
      modifies this, buf
      ensures Valid() && pushed == old(pushed) + [v]
    {
      ghost var p, h, n := pushed, head, buf.Length;
      if size == buf.Length {
        buf[head] := v;
        head := (head + 1) % buf.Length;
        pushed := p + [v];
        Wrap(h + 1, n);
        forall i | 0 <= i < size
          ensures buf[At(head, i, n)] == pushed[|pushed| - size + i]
        {
          if i == n - 1 {
            assert At(head, i, n) == h;
          } else {
            assert At(head, i, n) == At(h, i + 1, n) != h;
          }
        }
      } else {
        Wrap(h + size, n);
        var idx := (head + size) % buf.Length;
        buf[idx] := v;
        size := size + 1;
        pushed := p + [v];
        assert forall i :: 0 <= i < size - 1 ==> At(head, i, n) != idx;
      }
    }

    method Slice() returns (out: seq<T>)
      requires Valid()
      ensures out == Newest(pushed, buf.Length)
    {
      out := [];
      var i := 0;
      while i < size
        invariant 0 <= i <= size && |out| == i
        invariant forall j :: 0 <= j < i ==> out[j] == pushed[|pushed| - size + j]
      {
        assert At(head, i, buf.Length) == (head + i) % buf.Length;
        out := out + [buf[(head + i) % buf.Length]];
        i := i + 1;
      }
    }

    method Last(n: nat) returns (out: seq<T>)
      requires Valid()
      ensures out == Newest(Newest(pushed, buf.Length), n)
      ensures n >= size ==> out == Newest(pushed, buf.Length)
    {
      var m := if n > size then size else n;
      var start := size - m;
      out := [];
      var i := 0;
      while i < m
        invariant 0 <= i <= m && |out| == i
        invariant forall j :: 0 <= j < i ==> out[j] == pushed[|pushed| - m + j]
      {
        Wrap(head + (start + i), buf.Length);
        assert At(head, start + i, buf.Length) == (head + start + i) % buf.Length;
        out := out + [buf[(head + start + i) % buf.Length]];
        i := i + 1;
      }
      NewestNewest(pushed, buf.Length, n);
    }
  }
}
