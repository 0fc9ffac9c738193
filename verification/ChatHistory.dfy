/**
 CHATHISTORY selection and paging. Times are integers and the parser of
 timestamps is a parameter (clock); an entry carries its time, its msgid tag
 ("" when it has none) and its text.

 Main results
   CatchUp, FetchBack, FetchAll   paging visits every entry exactly once, in order
   BetweenSymmetric               BETWEEN a b and BETWEEN b a select the same entries
   AroundShape                    AROUND is a window as large as the limit allows
 */
module ChatHistory {
  import opened Text

  datatype Entry = Entry(time: int, msgid: string, text: string)

  type Clock = string -> Option<int>

  datatype Reference = Reference(time: int, msgid: string, index: int, found: bool)

  datatype Error = BadLimit | BadSelectors | BadSelector | BadTimestamp | BadMessageId | Unsupported | UnknownCommand

  datatype RefResult = Ref(ref: Reference) | BadRef(why: Error)

  // Panic is an index out of range at run time, not a returned error.
  datatype Answer = Page(entries: seq<Entry>, complete: bool) | Invalid(why: Error) | Panic

  // ---------------------------------------------------------------------
  // Selection
  // ---------------------------------------------------------------------

  // The first entry with this id, or -1.
  function FindId(entries: seq<Entry>, id: string): (i: int)
    ensures -1 <= i < |entries|
    ensures i >= 0 ==> entries[i].msgid == id && forall j :: 0 <= j < i ==> entries[j].msgid != id
    ensures i < 0 ==> forall j :: 0 <= j < |entries| ==> entries[j].msgid != id
  {
    if entries == [] then -1
    else if entries[0].msgid == id then 0
    else
      var i := FindId(entries[1..], id);
      assert forall j :: 1 <= j < |entries| ==> entries[j] == entries[1..][j - 1];
      if i < 0 then -1 else i + 1
  }

  function ParseReference(entries: seq<Entry>, selector: string, clock: Clock): RefResult {
    if HasPrefix(selector, "timestamp=") then
      match clock(TrimPrefix(selector, "timestamp="))
      case None => BadRef(BadTimestamp)
      case Some(t) => Ref(Reference(t, "", 0, true))
    else if HasPrefix(selector, "msgid=") then
      var id := TrimPrefix(selector, "msgid=");
      if id == "" then BadRef(BadMessageId)
      else
        var i := FindId(entries, id);
        if i < 0 then Ref(Reference(0, "", 0, false)) else Ref(Reference(entries[i].time, id, i, true))
    else BadRef(Unsupported)
  }

  predicate IsBefore(e: Entry, index: int, ref: Reference) {
    if ref.msgid != "" then index < ref.index else e.time < ref.time
  }

  predicate IsAfter(e: Entry, index: int, ref: Reference) {
    if ref.msgid != "" then index > ref.index else e.time > ref.time
  }

  function Filter(entries: seq<Entry>, keep: (Entry, int) -> bool): seq<Entry> {
    if entries == [] then []
    else
      var n := |entries| - 1;
      Filter(entries[..n], keep) + if keep(entries[n], n) then [entries[n]] else []
  }

  function EntriesBefore(entries: seq<Entry>, ref: Reference): seq<Entry> {
    Filter(entries, (e, i) => IsBefore(e, i, ref))
  }

  function EntriesAfter(entries: seq<Entry>, ref: Reference): seq<Entry> {
    Filter(entries, (e, i) => IsAfter(e, i, ref))
  }

  function EntriesBetween(entries: seq<Entry>, low: Reference, high: Reference): seq<Entry> {
    Filter(entries, (e, i) => IsAfter(e, i, low) && IsBefore(e, i, high))
  }

  function Latest(entries: seq<Entry>, limit: nat): Answer {
    Page(if |entries| > limit then entries[|entries| - limit..] else entries, |entries| <= limit)
  }

  function Earliest(entries: seq<Entry>, limit: nat): Answer {
    Page(if |entries| > limit then entries[..limit] else entries, |entries| <= limit)
  }

  function Min(a: nat, b: nat): nat {
    if a < b then a else b
  }

  function Around(before: seq<Entry>, after: seq<Entry>, limit: nat): Answer {
    var half := Min(|before|, limit / 2);
    var right := Min(|after|, limit - half);
    var left := Min(|before|, limit - right);
    Page(before[|before| - left..] + after[..right], |before| + |after| <= limit)
  }

  predicate Forward(first: Reference, second: Reference) {
    first.time < second.time
    || (first.time == second.time && first.msgid != "" && second.msgid != "" && first.index < second.index)
  }

  function Between(entries: seq<Entry>, first: Reference, second: Reference, limit: nat): Answer {
    if Forward(first, second) then Earliest(EntriesBetween(entries, first, second), limit)
    else Latest(EntriesBetween(entries, second, first), limit)
  }

  function Select(entries: seq<Entry>, subcommand: string, selectors: seq<string>, limit: int, clock: Clock): Answer {
    var sub := Upper(subcommand);
    if limit <= 0 then Invalid(BadLimit)
    else if |selectors| != 1 && (sub != "BETWEEN" || |selectors| != 2) then Invalid(BadSelectors)
    else if sub == "LATEST" && selectors[0] == "*" then Latest(entries, limit)
    else if selectors[0] == "*" then Invalid(BadSelector)
    else match ParseReference(entries, selectors[0], clock)
         case BadRef(why) => Invalid(why)
         case Ref(first) =>
           if !first.found then Page([], true)
           else if sub == "LATEST" then Latest(EntriesAfter(entries, first), limit)
           else if sub == "AFTER" then Earliest(EntriesAfter(entries, first), limit)
           else if sub == "BEFORE" then Latest(EntriesBefore(entries, first), limit)
           else if sub == "AROUND" then
             Around(EntriesBefore(entries, first), EntriesAfter(entries, first), limit)
           else if sub == "BETWEEN" then
             if |selectors| != 2 then Panic
             else match ParseReference(entries, selectors[1], clock)
                  case BadRef(why) => Invalid(why)
                  case Ref(second) =>
                    if !second.found then Page([], true) else Between(entries, first, second, limit)
           else Invalid(UnknownCommand)
  }

  // ---------------------------------------------------------------------
  // Where the references cut the history
  // ---------------------------------------------------------------------

  lemma SliceOfTake(s: seq<Entry>, n: nat, lo: nat, hi: nat)
    requires lo <= hi <= n <= |s|
    ensures s[..n][lo..hi] == s[lo..hi]
  {
  }

  // A filter that keeps exactly a range of positions is a slice.
  lemma {:induction false} FilterRange(entries: seq<Entry>, keep: (Entry, int) -> bool, lo: nat, hi: nat)
    requires lo <= hi <= |entries|
    requires forall i :: 0 <= i < |entries| ==> (keep(entries[i], i) <==> lo <= i < hi)
    ensures Filter(entries, keep) == entries[lo..hi]
  {
    if entries != [] {
      var n := |entries| - 1;
      var init := entries[..n];
      if hi > n {
        FilterRange(init, keep, if lo > n then n else lo, n);
        if lo <= n { SliceOfTake(entries, n, lo, n); }
        assert lo <= n ==> entries[lo..n] + [entries[n]] == entries[lo..hi];
      } else {
        FilterRange(init, keep, lo, hi);
        SliceOfTake(entries, n, lo, hi);
      }
    }
  }

  predicate Ascending(entries: seq<Entry>) {
    forall i, j :: 0 <= i < j < |entries| ==> entries[i].time <= entries[j].time
  }

  // A reference found in this history.
  predicate Located(entries: seq<Entry>, ref: Reference) {
    ref.found && (ref.msgid != "" ==> 0 <= ref.index < |entries| && entries[ref.index].time == ref.time)
  }

  lemma ParsedLocated(entries: seq<Entry>, selector: string, clock: Clock)
    requires ParseReference(entries, selector, clock).Ref?
    ensures var ref := ParseReference(entries, selector, clock).ref; ref.found ==> Located(entries, ref)
  {
  }

  // How many entries at the front are earlier than t.
  function CountBelow(entries: seq<Entry>, t: int): (n: nat)
    requires Ascending(entries)
    ensures n <= |entries|
    ensures forall i :: 0 <= i < |entries| ==> (entries[i].time < t <==> i < n)
  {
    if entries == [] then 0
    else
      var last := |entries| - 1;
      if entries[last].time < t then |entries| else CountBelow(entries[..last], t)
  }

  function LowCut(entries: seq<Entry>, ref: Reference): (n: nat)
    requires Ascending(entries) && Located(entries, ref)
    ensures n <= |entries|
  {
    if ref.msgid != "" then ref.index else CountBelow(entries, ref.time)
  }

  function HighCut(entries: seq<Entry>, ref: Reference): (n: nat)
    requires Ascending(entries) && Located(entries, ref)
    ensures LowCut(entries, ref) <= n <= |entries|
  {
    if ref.msgid != "" then ref.index + 1
    else
      var below := CountBelow(entries, ref.time);
      assert below > 0 ==> entries[below - 1].time < ref.time + 1;
      CountBelow(entries, ref.time + 1)
  }

  // In a history in time order every reference cuts it in two: what is before
  // is a prefix, what is after is a suffix, and at most the named entry or the
  // entries of that very instant lie between.
  lemma ReferenceCuts(entries: seq<Entry>, ref: Reference)
    requires Ascending(entries) && Located(entries, ref)
    ensures EntriesBefore(entries, ref) == entries[..LowCut(entries, ref)]
    ensures EntriesAfter(entries, ref) == entries[HighCut(entries, ref)..]
  {
    FilterRange(entries, (e, i) => IsBefore(e, i, ref), 0, LowCut(entries, ref));
    FilterRange(entries, (e, i) => IsAfter(e, i, ref), HighCut(entries, ref), |entries|);
  }

  lemma BetweenCuts(entries: seq<Entry>, low: Reference, high: Reference)
    requires Ascending(entries) && Located(entries, low) && Located(entries, high)
    ensures var lo, hi := HighCut(entries, low), LowCut(entries, high);
            EntriesBetween(entries, low, high) == if lo <= hi then entries[lo..hi] else []
  {
    var lo, hi := HighCut(entries, low), LowCut(entries, high);
    FilterRange(entries, (e, i) => IsAfter(e, i, low) && IsBefore(e, i, high), if lo <= hi then lo else hi, hi);
  }

  // ---------------------------------------------------------------------
  // BETWEEN
  // ---------------------------------------------------------------------

  // Swapping the two references never changes which entries match.
  lemma SwappedEmpty(entries: seq<Entry>, a: Reference, b: Reference)
    requires Ascending(entries) && Located(entries, a) && Located(entries, b)
    requires !Forward(a, b)
    ensures Forward(b, a) || EntriesBetween(entries, a, b) == EntriesBetween(entries, b, a) == []
  {
    BetweenCuts(entries, a, b);
    BetweenCuts(entries, b, a);
  }

  // The entries both BETWEEN a b and BETWEEN b a choose from.
  function Matches(entries: seq<Entry>, a: Reference, b: Reference): seq<Entry> {
    if Forward(a, b) then EntriesBetween(entries, a, b) else EntriesBetween(entries, b, a)
  }

  // Over time-ascending entries, for any mix of timestamps and ids, the two
  // orders of the references select from the same entries; when there are more
  // than the limit, one keeps the earliest of them and the other the latest.
  lemma BetweenSymmetric(entries: seq<Entry>, x: string, y: string, limit: int, clock: Clock)
    requires Ascending(entries) && limit > 0 && x != "*" && y != "*"
    requires ParseReference(entries, x, clock).Ref? && ParseReference(entries, y, clock).Ref?
    ensures var a, b := ParseReference(entries, x, clock).ref, ParseReference(entries, y, clock).ref;
            var xy, yx := Select(entries, "BETWEEN", [x, y], limit, clock), Select(entries, "BETWEEN", [y, x], limit, clock);
            if !a.found || !b.found then xy == yx == Page([], true)
            else
              var all := Matches(entries, a, b);
              && all == Matches(entries, b, a)
              && (Forward(a, b) ==> xy == Earliest(all, limit) && yx == Latest(all, limit))
              && (Forward(b, a) ==> xy == Latest(all, limit) && yx == Earliest(all, limit))
              && (!Forward(a, b) && !Forward(b, a) ==> all == [] && xy == yx == Page([], true))
              && (|all| <= limit ==> xy == yx == Page(all, true))
  {
    ParsedLocated(entries, x, clock);
    ParsedLocated(entries, y, clock);
    assert Upper("BETWEEN") == "BETWEEN";
    var a, b := ParseReference(entries, x, clock).ref, ParseReference(entries, y, clock).ref;
    if a.found && b.found {
      if !Forward(a, b) { SwappedEmpty(entries, a, b); }
      if !Forward(b, a) { SwappedEmpty(entries, b, a); }
    }
  }

  // ---------------------------------------------------------------------
  // AROUND
  // ---------------------------------------------------------------------

  // AROUND returns as many entries as the limit allows: the last of those before
  // and the first of those after, a side falling short of its half only when it
  // has no more.
  lemma AroundShape(before: seq<Entry>, after: seq<Entry>, limit: nat) returns (left: nat, right: nat)
    ensures left <= |before| && right <= |after|
    ensures Around(before, after, limit) == Page(before[|before| - left..] + after[..right], |before| + |after| <= limit)
    ensures left + right == Min(limit, |before| + |after|)
    ensures left < limit / 2 ==> left == |before|
    ensures right < limit - limit / 2 ==> right == |after|
  {
    var half := Min(|before|, limit / 2);
    right := Min(|after|, limit - half);
    left := Min(|before|, limit - right);
  }

  // ---------------------------------------------------------------------
  // Paging
  // ---------------------------------------------------------------------

  // Every entry has its own id.
  predicate DistinctIds(entries: seq<Entry>) {
    && (forall i :: 0 <= i < |entries| ==> entries[i].msgid != "")
    && (forall i, j :: 0 <= i < j < |entries| ==> entries[i].msgid != entries[j].msgid)
  }

  function IdSelector(e: Entry): string {
    "msgid=" + e.msgid
  }

  lemma IdReference(entries: seq<Entry>, i: nat, clock: Clock)
    requires DistinctIds(entries) && i < |entries|
    ensures ParseReference(entries, IdSelector(entries[i]), clock) ==
            Ref(Reference(entries[i].time, entries[i].msgid, i, true))
    ensures IdSelector(entries[i]) != "*"
  {
    var s := IdSelector(entries[i]);
    assert s[0] == 'm' && !HasPrefix(s, "timestamp=");
    assert HasPrefix(s, "msgid=");
    assert TrimPrefix(s, "msgid=") == entries[i].msgid;
  }

  lemma AfterId(entries: seq<Entry>, i: nat, limit: int, clock: Clock)
    requires DistinctIds(entries) && i < |entries| && limit > 0
    ensures Select(entries, "AFTER", [IdSelector(entries[i])], limit, clock) == Earliest(entries[i + 1..], limit)
  {
    IdReference(entries, i, clock);
    var ref := Reference(entries[i].time, entries[i].msgid, i, true);
    FilterRange(entries, (e, k) => IsAfter(e, k, ref), i + 1, |entries|);
    assert Upper("AFTER") == "AFTER";
    assert entries[i + 1..|entries|] == entries[i + 1..];
  }

  lemma BeforeId(entries: seq<Entry>, i: nat, limit: int, clock: Clock)
    requires DistinctIds(entries) && i < |entries| && limit > 0
    ensures Select(entries, "BEFORE", [IdSelector(entries[i])], limit, clock) == Latest(entries[..i], limit)
  {
    IdReference(entries, i, clock);
    var ref := Reference(entries[i].time, entries[i].msgid, i, true);
    FilterRange(entries, (e, k) => IsBefore(e, k, ref), 0, i);
    assert Upper("BEFORE") == "BEFORE";
  }

  lemma AroundId(entries: seq<Entry>, i: nat, limit: int, clock: Clock)
    requires DistinctIds(entries) && i < |entries| && limit > 0
    ensures Select(entries, "AROUND", [IdSelector(entries[i])], limit, clock) ==
            Around(entries[..i], entries[i + 1..], limit)
  {
    IdReference(entries, i, clock);
    var ref := Reference(entries[i].time, entries[i].msgid, i, true);
    FilterRange(entries, (e, k) => IsBefore(e, k, ref), 0, i);
    FilterRange(entries, (e, k) => IsAfter(e, k, ref), i + 1, |entries|);
    assert Upper("AROUND") == "AROUND";
    assert entries[i + 1..|entries|] == entries[i + 1..];
  }
}
