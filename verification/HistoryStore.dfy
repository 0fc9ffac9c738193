/**
 The bouncer's in-memory history: one ring buffer for each network and target.

 Main results
   MemoryStore.Query   a query is a function of everything appended so far
   NoInterferenceIff   other targets' messages do not matter exactly when no
                       network's name extends another's by a NUL
   KeysCollide         two such names and a message that turns up under both
 */
module HistoryStore {
  import opened RingBuffer
  import opened Text
  import opened IrcMessage

  const DEFAULT_LIMIT := 500
  const NUL := '\0'

  datatype Entry = Entry(time: int, msg: Message)

  datatype Query = Query(before: Option<int>, after: Option<int>, afterMsgID: string, limit: int)

  datatype Appended = Appended(network: string, target: string, entry: Entry)

  function Key(network: string, target: string): string {
    network + [NUL] + target
  }

  // ---------------------------------------------------------------------
  // The specification of a query
  // ---------------------------------------------------------------------

  function MsgId(e: Entry): string {
    if "msgid" in e.msg.tags then e.msg.tags["msgid"] else ""
  }

  // Behind the first entry with this id; nothing when there is none.
  function Behind(all: seq<Entry>, id: string): seq<Entry> {
    if all == [] then []
    else if MsgId(all[0]) == id then all[1..]
    else Behind(all[1..], id)
  }

  predicate Matches(e: Entry, q: Query) {
    && (q.before.Some? ==> e.time < q.before.value)
    && (q.after.Some? ==> e.time > q.after.value)
  }

  function Filter(all: seq<Entry>, q: Query): seq<Entry> {
    if all == [] then []
    else Filter(all[..|all| - 1], q) + if Matches(all[|all| - 1], q) then [all[|all| - 1]] else []
  }

  function Limit(n: int): nat {
    if n <= 0 then DEFAULT_LIMIT else n
  }

  // Of the stored entries, those behind the id and within the times, newest last,
  // at most as many as asked for.
  function Answer(stored: seq<Entry>, q: Query): seq<Entry> {
    Newest(Filter(if q.afterMsgID != "" then Behind(stored, q.afterMsgID) else stored, q), Limit(q.limit))
  }

  // The entries appended under a key.
  function KeyLog(log: seq<Appended>, k: string): seq<Entry> {
    if log == [] then []
    else KeyLog(log[..|log| - 1], k)
         + if Key(log[|log| - 1].network, log[|log| - 1].target) == k then [log[|log| - 1].entry] else []
  }

  // The entries appended for a network and target.
  function OwnLog(log: seq<Appended>, network: string, target: string): seq<Entry> {
    if log == [] then []
    else OwnLog(log[..|log| - 1], network, target)
         + if log[|log| - 1].network == network && log[|log| - 1].target == target then [log[|log| - 1].entry] else []
  }

  predicate HasId(e: Entry, id: string) {
    "msgid" in e.msg.tags && e.msg.tags["msgid"] == id
  }

  predicate IdBefore(stored: seq<Entry>, id: string, i: int) {
    exists j :: 0 <= j < i && j < |stored| && HasId(stored[j], id)
  }

  predicate BehindAsked(stored: seq<Entry>, q: Query, i: int) {
    q.afterMsgID != "" ==> IdBefore(stored, q.afterMsgID, i)
  }

  // The entry at position i is within the times asked for, and behind an entry with
  // the id asked for, if one is.
  predicate Eligible(stored: seq<Entry>, q: Query, i: nat)
    requires i < |stored|
  {
    && (q.before.Some? ==> stored[i].time < q.before.value)
    && (q.after.Some? ==> stored[i].time > q.after.value)
    && BehindAsked(stored, q, i)
  }

  // These are the positions below n that satisfy the condition, in order.
  predicate PositionsOf(at: seq<nat>, n: nat, ok: nat -> bool) {
    && (forall k :: 0 <= k < |at| ==> at[k] < n && ok(at[k]))
    && (forall k, l :: 0 <= k < l < |at| ==> at[k] < at[l])
    && (forall i :: 0 <= i < n && ok(i) ==> i in at)
  }

  function Picked(stored: seq<Entry>, at: seq<nat>): (r: seq<Entry>)
    requires forall k :: 0 <= k < |at| ==> at[k] < |stored|
    ensures |r| == |at|
  {
    seq(|at|, k requires 0 <= k < |at| => stored[at[k]])
  }

  lemma {:induction false} FilterPicks(all: seq<Entry>, q: Query) returns (at: seq<nat>)
    ensures PositionsOf(at, |all|, i => 0 <= i < |all| && Matches(all[i], q)) && Filter(all, q) == Picked(all, at)
  {
    if all == [] {
      at := [];
    } else {
      var n := |all| - 1;
      var init := all[..n];
      var before := FilterPicks(init, q);
      at := before + if Matches(all[n], q) then [n] else [];
      assert Picked(init, before) == Picked(all, before);
      forall i | 0 <= i < |all| && Matches(all[i], q)
        ensures i in at
      {
        if i < n { assert init[i] == all[i] && i in before; }
      }
    }
  }

  lemma {:induction false} BehindFrom(all: seq<Entry>, id: string) returns (start: nat)
    requires id != ""
    ensures start <= |all| && Behind(all, id) == all[start..]
    ensures forall i :: 0 <= i < |all| ==> (i >= start <==> IdBefore(all, id, i))
  {
    if all == [] {
      start := 0;
    } else if MsgId(all[0]) == id {
      start := 1;
      assert HasId(all[0], id);
    } else {
      var s := BehindFrom(all[1..], id);
      start := s + 1;
      forall i | 0 <= i < |all|
        ensures i >= start <==> IdBefore(all, id, i)
      {
        if i > 0 { BehindShift(all, id, i); }
      }
    }
  }

  lemma BehindShift(all: seq<Entry>, id: string, i: nat)
    requires 0 < i < |all| && id != "" && MsgId(all[0]) != id
    ensures IdBefore(all, id, i) <==> IdBefore(all[1..], id, i - 1)
  {
    if j :| 0 <= j < i && j < |all| && HasId(all[j], id) { assert all[1..][j - 1] == all[j]; }
    if j :| 0 <= j < i - 1 && j < |all[1..]| && HasId(all[1..][j], id) { assert all[j + 1] == all[1..][j]; }
  }

  // The positions of the rest of a sequence, in the whole of it.
  function Shifted(at: seq<nat>, d: nat): (r: seq<nat>)
    ensures |r| == |at|
  {
    seq(|at|, k requires 0 <= k < |at| => at[k] + d)
  }

  lemma ShiftedPicks(stored: seq<Entry>, q: Query, start: nat, at: seq<nat>)
    requires start <= |stored|
    requires forall i :: 0 <= i < |stored| ==> (i >= start <==> BehindAsked(stored, q, i))
    requires PositionsOf(at, |stored| - start, i => 0 <= i < |stored[start..]| && Matches(stored[start..][i], q))
    ensures PositionsOf(Shifted(at, start), |stored|, i => 0 <= i < |stored| && Eligible(stored, q, i))
    ensures Picked(stored[start..], at) == Picked(stored, Shifted(at, start))
  {
    var all := Shifted(at, start);
    forall i | 0 <= i < |stored| && Eligible(stored, q, i)
      ensures i in all
    {
      assert stored[start..][i - start] == stored[i];
      assert i - start in at;
      var k :| 0 <= k < |at| && at[k] == i - start;
      assert all[k] == i;
    }
  }

  // An answer, by the times, the id and the limit alone: the newest of the eligible
  // entries, in order, all of them when they are no more than the limit.
  lemma AnswerMeaning(stored: seq<Entry>, q: Query) returns (at: seq<nat>, n: nat)
    ensures PositionsOf(at, |stored|, i => 0 <= i < |stored| && Eligible(stored, q, i))
    ensures n == if q.limit <= 0 then DEFAULT_LIMIT else q.limit
    ensures Answer(stored, q) == Picked(stored, if |at| > n then at[|at| - n..] else at)
  {
    n := if q.limit <= 0 then DEFAULT_LIMIT else q.limit;
    var start := 0;
    if q.afterMsgID != "" { start := BehindFrom(stored, q.afterMsgID); }
    assert start == 0 ==> stored[start..] == stored;
    var rest := FilterPicks(stored[start..], q);
    ShiftedPicks(stored, q, start, rest);
    at := Shifted(rest, start);
    PickedTail(stored, at, n);
  }

  lemma PickedTail(stored: seq<Entry>, at: seq<nat>, n: nat)
    requires forall k :: 0 <= k < |at| ==> at[k] < |stored|
    ensures Newest(Picked(stored, at), n) == Picked(stored, if |at| > n then at[|at| - n..] else at)
  {
  }

  // ---------------------------------------------------------------------
  // Keys
  // ---------------------------------------------------------------------

  // One network name is the other, a NUL, and more.
  predicate Extends(n1: string, n2: string) {
    n2 + [NUL] <= n1
  }

  // Two names under which different targets can meet.
  predicate Clash(n1: string, n2: string) {
    Extends(n1, n2) || Extends(n2, n1)
  }

  lemma KeyParts(n: string, t: string)
    ensures Key(n, t)[..|n|] == n && Key(n, t)[|n| + 1..] == t && Key(n, t)[|n|] == NUL
  {
  }

  lemma MeetOnlyIfExtends(n1: string, t1: string, n2: string, t2: string)
    requires Key(n1, t1) == Key(n2, t2) && |n1| < |n2|
    ensures Extends(n2, n1)
  {
    KeyParts(n1, t1);
    KeyParts(n2, t2);
    assert n2[..|n1|] == Key(n2, t2)[..|n1|] && n2[|n1|] == Key(n2, t2)[|n1|];
    assert n1 + [NUL] == n2[..|n1| + 1];
  }

  // Keys of the same or of names that do not clash are equal only for the same
  // network and target.
  lemma KeyInjective(n1: string, t1: string, n2: string, t2: string)
    requires !Clash(n1, n2)
    ensures Key(n1, t1) == Key(n2, t2) <==> n1 == n2 && t1 == t2
  {
    if Key(n1, t1) == Key(n2, t2) {
      KeyParts(n1, t1);
      KeyParts(n2, t2);
      if |n1| < |n2| {
        MeetOnlyIfExtends(n1, t1, n2, t2);
      } else if |n2| < |n1| {
        MeetOnlyIfExtends(n2, t2, n1, t1);
      }
    }
  }

  lemma ExtensionMeets(n1: string, n2: string)
    requires Extends(n1, n2)
    ensures Key(n1, "") == Key(n2, n1[|n2| + 1..] + [NUL])
  {
    assert n1 == n2 + [NUL] + n1[|n2| + 1..];
  }

  // Two networks have targets that meet if and only if their names clash.
  lemma MeetIff(n1: string, n2: string)
    requires n1 != n2
    ensures (exists t1, t2 :: Key(n1, t1) == Key(n2, t2)) <==> Clash(n1, n2)
  {
    if t1, t2 :| Key(n1, t1) == Key(n2, t2) {
      if !Clash(n1, n2) { KeyInjective(n1, t1, n2, t2); }
    }
    if Extends(n1, n2) { ExtensionMeets(n1, n2); }
    if Extends(n2, n1) { ExtensionMeets(n2, n1); }
  }

  lemma HoldsNul(n1: string, n2: string)
    requires Extends(n1, n2)
    ensures NUL in n1
  {
    assert n1[|n2|] == (n2 + [NUL])[|n2|];
  }

  // No network of the log clashes with this one.
  predicate Separate(log: seq<Appended>, network: string) {
    forall i :: 0 <= i < |log| ==> !Clash(log[i].network, network)
  }

  // As every NUL-free name is separate from every other.
  predicate NulFree(log: seq<Appended>, network: string) {
    NUL !in network && forall i :: 0 <= i < |log| ==> NUL !in log[i].network
  }

  lemma NulFreeSeparate(log: seq<Appended>, network: string)
    requires NulFree(log, network)
    ensures Separate(log, network)
  {
    forall i | 0 <= i < |log|
      ensures !Clash(log[i].network, network)
    {
      if Extends(log[i].network, network) { HoldsNul(log[i].network, network); }
      if Extends(network, log[i].network) { HoldsNul(network, log[i].network); }
    }
  }

  lemma {:induction false} NoInterference(log: seq<Appended>, network: string, target: string)
    requires Separate(log, network)
    ensures KeyLog(log, Key(network, target)) == OwnLog(log, network, target)
  {
    if log != [] {
      var last := log[|log| - 1];
      NoInterference(log[..|log| - 1], network, target);
      KeyInjective(last.network, last.target, network, target);
    }
  }

  ghost predicate OnlyFrom(log: seq<Appended>, networks: iset<string>) {
    forall i :: 0 <= i < |log| ==> log[i].network in networks
  }

  // Among networks with these names, a network's queries see exactly its own
  // entries, whatever is appended and asked, if and only if none of the names
  // clashes with its own.
  lemma NoInterferenceIff(networks: iset<string>, network: string, e: Entry)
    ensures (forall log, target :: OnlyFrom(log, networks) ==>
               KeyLog(log, Key(network, target)) == OwnLog(log, network, target))
            <==> forall n :: n in networks ==> !Clash(n, network)
  {
    if forall n :: n in networks ==> !Clash(n, network) {
      forall log, target | OnlyFrom(log, networks)
        ensures KeyLog(log, Key(network, target)) == OwnLog(log, network, target)
      {
        NoInterference(log, network, target);
      }
    }
    if n :| n in networks && Clash(n, network) {
      var x, target := Intruder(n, network, e);
      assert OnlyFrom([x], networks);
      assert KeyLog([x], Key(network, target)) != OwnLog([x], network, target);
    }
  }

  // An entry of a clashing network that turns up under another's key.
  lemma Intruder(n: string, network: string, e: Entry) returns (x: Appended, target: string)
    requires Clash(n, network)
    ensures x.network == n
    ensures KeyLog([x], Key(network, target)) == [e] && OwnLog([x], network, target) == []
  {
    if Extends(n, network) {
      ExtensionMeets(n, network);
      x, target := Appended(n, "", e), n[|network| + 1..] + [NUL];
    } else {
      ExtensionMeets(network, n);
      x, target := Appended(n, network[|n| + 1..] + [NUL], e), "";
    }
    assert [x][..0] == [];
    assert |n| != |network|;
  }

  // A network name with a NUL in it can read another network's history.
  lemma KeysCollide(e: Entry)
    ensures KeyLog([Appended("a", "b" + [NUL] + "c", e)], Key("a" + [NUL] + "b", "c")) == [e]
    ensures OwnLog([Appended("a", "b" + [NUL] + "c", e)], "a" + [NUL] + "b", "c") == []
  {
    var x := Appended("a", "b" + [NUL] + "c", e);
    assert Key(x.network, x.target) == Key("a" + [NUL] + "b", "c");
    assert [x][..0] == [];
    assert |"a"| != |"a" + [NUL] + "b"|;
  }

  lemma KeyLogSnoc(log: seq<Appended>, x: Appended, k: string)
    ensures KeyLog(log + [x], k) == KeyLog(log, k) + if Key(x.network, x.target) == k then [x.entry] else []
  {
    assert (log + [x])[..|log|] == log;
  }

  lemma {:induction false} KeyLogEmpty(log: seq<Appended>, k: string)
    requires forall i :: 0 <= i < |log| ==> Key(log[i].network, log[i].target) != k
    ensures KeyLog(log, k) == []
  {
    if log != [] { KeyLogEmpty(log[..|log| - 1], k); }
  }

  // ---------------------------------------------------------------------
  // The store
  // ---------------------------------------------------------------------

  method SkipToId(all: seq<Entry>, id: string) returns (start: nat)
    ensures start <= |all| && all[start..] == Behind(all, id)
  {
    var i := 0;
    while i < |all|
      invariant 0 <= i <= |all| && Behind(all[i..], id) == Behind(all, id)
    {
      assert all[i..][0] == all[i] && all[i..][1..] == all[i + 1..];
      if MsgId(all[i]) == id {
        return i + 1;
      }
      i := i + 1;
    }
    return |all|;
  }

  method Select(all: seq<Entry>, q: Query) returns (result: seq<Entry>)
    ensures result == Answer(all, q)
  {
    var limit := if q.limit <= 0 then DEFAULT_LIMIT else q.limit;
    var start := 0;
    if q.afterMsgID != "" {
      start := SkipToId(all, q.afterMsgID);
    }
    var rest := all[start..];
    assert start == 0 ==> rest == all;
    result := [];
    var i := 0;
    while i < |rest|
      invariant 0 <= i <= |rest| && result == Filter(rest[..i], q)
    {
      assert rest[..i + 1][..i] == rest[..i];
      if !((q.before.Some? && !(rest[i].time < q.before.value)) || (q.after.Some? && !(rest[i].time > q.after.value))) {
        result := result + [rest[i]];
      }
      i := i + 1;
    }
    assert rest[..i] == rest;
    if |result| > limit {
      result := result[|result| - limit..];
    }
  }

  class MemoryStore {
    var buffers: map<string, RingBuf<Entry>>
    const limit: nat
    ghost var log: seq<Appended>
    ghost var Repr: set<object>

    // Every buffer is in order and shares nothing with the others.
    ghost predicate Apart()
      reads this, Repr
    {
      && this in Repr && limit > 0
      && (forall k :: k in buffers ==>
            buffers[k] in Repr && buffers[k].buf in Repr && buffers[k].Valid() && buffers[k].buf.Length == limit)
      && (forall k, l :: k in buffers && l in buffers && k != l ==>
            buffers[k] != buffers[l] && buffers[k].buf != buffers[l].buf)
    }

    // Every buffer has been given what was appended under its key.
    ghost predicate Logged()
      reads this, Repr
      requires Apart()
    {
      && (forall k :: k in buffers ==> buffers[k].pushed == KeyLog(log, k))
      && (forall i :: 0 <= i < |log| ==> Key(log[i].network, log[i].target) in buffers)
    }

    ghost predicate Valid()
      reads this, Repr
    {
      Apart() && Logged()
    }

    constructor (n: int)
      ensures Valid() && log == [] && fresh(Repr) && limit == Limit(n)
    {
      limit := if n <= 0 then DEFAULT_LIMIT else n;
      buffers, log, Repr := map[], [], {this};
    }

    method NewBuffer(k: string) returns (b: RingBuf<Entry>)
      requires Apart() && k !in buffers
      modifies this
      ensures Apart() && log == old(log) && fresh(Repr - old(Repr))
      ensures buffers == old(buffers)[k := b] && fresh(b) && b.pushed == []
    {
      b := new RingBuf<Entry>(limit);
      buffers := buffers[k := b];
      Repr := Repr + {b, b.buf};
    }

    method BufferFor(k: string) returns (b: RingBuf<Entry>)
      requires Valid()
      modifies this
      ensures Valid() && log == old(log) && fresh(Repr - old(Repr))
      ensures k in buffers && b == buffers[k]
    {
      if k in buffers {
        return buffers[k];
      }
      KeyLogEmpty(log, k);
      b := NewBuffer(k);
    }

    method PushTo(k: string, entry: Entry)
      requires Apart() && k in buffers
      modifies buffers[k], buffers[k].buf
      ensures Apart()
      ensures forall l :: l in buffers ==>
                buffers[l].pushed == old(buffers[l].pushed) + if l == k then [entry] else []
    {
      buffers[k].Push(entry);
    }

    method Append(network: string, target: string, entry: Entry)
      requires Valid()
      modifies Repr
      ensures Valid() && log == old(log) + [Appended(network, target, entry)] && fresh(Repr - old(Repr))
    {
      ghost var x := Appended(network, target, entry);
      var k := Key(network, target);
      var b := BufferFor(k);
      PushTo(k, entry);
      forall l | l in buffers
        ensures buffers[l].pushed == KeyLog(log + [x], l)
      {
        KeyLogSnoc(log, x, l);
      }
      log := log + [x];
    }

    // A query sees exactly what was appended under its key and is still kept.
    method Query(network: string, target: string, q: Query) returns (result: seq<Entry>)
      requires Valid()
      modifies this
      ensures Valid() && log == old(log) && fresh(Repr - old(Repr))
      ensures result == Answer(Newest(KeyLog(log, Key(network, target)), limit), q)
      ensures Separate(log, network) ==>
                result == Answer(Newest(OwnLog(log, network, target), limit), q)
      ensures NulFree(log, network) ==>
                result == Answer(Newest(OwnLog(log, network, target), limit), q)
    {
      var b := BufferFor(Key(network, target));
      var all := b.Slice();
      result := Select(all, q);
      if NulFree(log, network) {
        NulFreeSeparate(log, network);
      }
      if Separate(log, network) {
        NoInterference(log, network, target);
      }
    }
  }
}
