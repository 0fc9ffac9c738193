/**
 CHATHISTORY as loops: filtering and searching as the library does it, and a
 client that pages through a history by asking again from the last id it got.
 */
module HistoryPaging {
  import opened Text
  import opened ChatHistory

  method FilterHistory(entries: seq<Entry>, keep: (Entry, int) -> bool) returns (result: seq<Entry>)
    ensures result == Filter(entries, keep)
  {
    result := [];
    for i := 0 to |entries|
      invariant result == Filter(entries[..i], keep)
    {
      assert entries[..i + 1][..i] == entries[..i];
      if keep(entries[i], i) {
        result := result + [entries[i]];
      }
    }
    assert entries[..|entries|] == entries;
  }

  method FindReference(entries: seq<Entry>, selector: string, clock: Clock) returns (r: RefResult)
    ensures r == ParseReference(entries, selector, clock)
  {
    if HasPrefix(selector, "timestamp=") {
      var t := clock(TrimPrefix(selector, "timestamp="));
      return if t.None? then BadRef(BadTimestamp) else Ref(Reference(t.value, "", 0, true));
    }
    if HasPrefix(selector, "msgid=") {
      var id := TrimPrefix(selector, "msgid=");
      if id == "" { return BadRef(BadMessageId); }
      for i := 0 to |entries|
        invariant forall j :: 0 <= j < i ==> entries[j].msgid != id
      {
        if entries[i].msgid == id {
          return Ref(Reference(entries[i].time, id, i, true));
        }
      }
      return Ref(Reference(0, "", 0, false));
    }
    return BadRef(Unsupported);
  }

  method SelectChatHistory(entries: seq<Entry>, subcommand: string, selectors: seq<string>, limit: int, clock: Clock)
      returns (a: Answer)
    ensures a == Select(entries, subcommand, selectors, limit, clock)
  {
    if limit <= 0 { return Invalid(BadLimit); }
    var sub := Upper(subcommand);
    if |selectors| != 1 && (sub != "BETWEEN" || |selectors| != 2) { return Invalid(BadSelectors); }
    if sub == "LATEST" && selectors[0] == "*" { return Latest(entries, limit); }
    if selectors[0] == "*" { return Invalid(BadSelector); }
    var r := FindReference(entries, selectors[0], clock);
    if r.BadRef? { return Invalid(r.why); }
    var first := r.ref;
    if !first.found { return Page([], true); }
    if sub == "LATEST" || sub == "AFTER" {
      var matches := FilterHistory(entries, (e, i) => IsAfter(e, i, first));
      return if sub == "LATEST" then Latest(matches, limit) else Earliest(matches, limit);
    }
    if sub == "BEFORE" {
      var matches := FilterHistory(entries, (e, i) => IsBefore(e, i, first));
      return Latest(matches, limit);
    }
    if sub == "AROUND" {
      var before := FilterHistory(entries, (e, i) => IsBefore(e, i, first));
      var after := FilterHistory(entries, (e, i) => IsAfter(e, i, first));
      return Around(before, after, limit);
    }
    if sub != "BETWEEN" { return Invalid(UnknownCommand); }
    if |selectors| != 2 { return Panic; }
    r := FindReference(entries, selectors[1], clock);
    if r.BadRef? { return Invalid(r.why); }
    var second := r.ref;
    if !second.found { return Page([], true); }
    if Forward(first, second) {
      var matches := FilterHistory(entries, (e, i) => IsAfter(e, i, first) && IsBefore(e, i, second));
      return Earliest(matches, limit);
    }
    var matches := FilterHistory(entries, (e, i) => IsAfter(e, i, second) && IsBefore(e, i, first));
    return Latest(matches, limit);
  }

  // The one way to make the selection panic: BETWEEN with a single reference
  // that is found.
  lemma SelectPanicsIff(entries: seq<Entry>, subcommand: string, selectors: seq<string>, limit: int, clock: Clock)
    ensures Select(entries, subcommand, selectors, limit, clock) == Panic <==>
            && limit > 0 && Upper(subcommand) == "BETWEEN" && |selectors| == 1 && selectors[0] != "*"
            && ParseReference(entries, selectors[0], clock).Ref?
            && ParseReference(entries, selectors[0], clock).ref.found
  {
  }

  // BETWEEN with one reference, to the only entry there is. Of the function alone: both
  // commands that call it insist on two references for BETWEEN.
  lemma LoneReferencePanics(e: Entry, clock: Clock)
    requires e.msgid != ""
    ensures Select([e], "BETWEEN", ["msgid=" + e.msgid], 1, clock) == Panic
  {
    var x := "msgid=" + e.msgid;
    assert x[0] == 'm' && "timestamp="[0] == 't';
    assert !HasPrefix(x, "timestamp=");
    assert HasPrefix(x, "msgid=") && TrimPrefix(x, "msgid=") == e.msgid;
    assert FindId([e], e.msgid) == 0;
    assert x != "*";
    assert Upper("BETWEEN") == "BETWEEN";
    SelectPanicsIff([e], "BETWEEN", [x], 1, clock);
  }

  // ---------------------------------------------------------------------
  // Paging
  // ---------------------------------------------------------------------

  // One AFTER request from the entry before position at; the page ends before end.
  method AskAfter(entries: seq<Entry>, ghost at: nat, last: Entry, limit: int, clock: Clock)
      returns (page: seq<Entry>, complete: bool, ghost end: nat)
    requires DistinctIds(entries) && 0 < at <= |entries| && last == entries[at - 1] && limit > 0
    ensures complete <==> |entries| - at <= limit
    ensures end == (if complete then |entries| else at + limit) && page == entries[at..end]
    ensures !complete ==> page[|page| - 1] == entries[end - 1]
  {
    end := AfterEnds(entries, at, limit, clock);
    var answer := SelectChatHistory(entries, "AFTER", [IdSelector(last)], limit, clock);
    page, complete := answer.entries, answer.complete;
  }

  lemma AfterEnds(entries: seq<Entry>, at: nat, limit: int, clock: Clock) returns (end: nat)
    requires DistinctIds(entries) && 0 < at <= |entries| && limit > 0
    ensures end == if |entries| - at <= limit then |entries| else at + limit
    ensures Select(entries, "AFTER", [IdSelector(entries[at - 1])], limit, clock)
            == Page(entries[at..end], |entries| - at <= limit)
  {
    end := EarliestSlice(entries, at, limit);
    AfterId(entries, at - 1, limit, clock);
  }

  lemma EarliestSlice(entries: seq<Entry>, at: nat, limit: nat) returns (end: nat)
    requires at <= |entries|
    ensures end == if |entries| - at <= limit then |entries| else at + limit
    ensures Earliest(entries[at..], limit) == Page(entries[at..end], |entries| - at <= limit)
  {
    end := if |entries| - at <= limit then |entries| else at + limit;
    assert |entries| - at > limit ==> entries[at..][..limit] == entries[at..end];
  }

  // One BEFORE request from the entry at position at.
  method AskBefore(entries: seq<Entry>, ghost at: nat, first: Entry, limit: int, clock: Clock)
      returns (page: seq<Entry>, complete: bool)
    requires DistinctIds(entries) && at < |entries| && first == entries[at] && limit > 0
    ensures complete <==> at <= limit
    ensures page == if complete then entries[..at] else entries[at - limit..at]
  {
    BeforeId(entries, at, limit, clock);
    var answer := SelectChatHistory(entries, "BEFORE", [IdSelector(first)], limit, clock);
    page, complete := answer.entries, answer.complete;
  }

  lemma NextPage(pages: nat, limit: int)
    ensures (pages + 1) * limit == pages * limit + limit
  {
  }

  // Ask AFTER the last id received until the answer says it is complete.
  method CatchUp(entries: seq<Entry>, pivot: nat, limit: int, clock: Clock) returns (got: seq<Entry>, pages: nat)
    requires DistinctIds(entries) && pivot < |entries| && limit > 0
    ensures got == entries[pivot + 1..]
    ensures pages >= 1 && |got| <= pages * limit && (pages > 1 ==> (pages - 1) * limit < |got|)
  {
    got, pages := [], 0;
    var last := entries[pivot];
    ghost var at := pivot + 1;
    while true
      invariant pivot < at <= |entries| && last == entries[at - 1]
      invariant got == entries[pivot + 1..at]
      invariant |got| == pages * limit
      invariant pages > 0 ==> at < |entries|
      decreases |entries| - at
    {
      var page, complete, end := AskAfter(entries, at, last, limit, clock);
      NextPage(pages, limit);
      Continued(entries, pivot + 1, at, end);
      got := got + page;
      pages := pages + 1;
      if complete { return; }
      at := end;
      last := page[|page| - 1];
    }
  }

  lemma Continued(entries: seq<Entry>, a: nat, b: nat, c: nat)
    requires a <= b <= c <= |entries|
    ensures entries[a..b] + entries[b..c] == entries[a..c]
    ensures c == |entries| ==> entries[b..c] == entries[b..] && entries[a..c] == entries[a..]
  {
  }

  // Ask BEFORE the first id received until the answer says it is complete.
  method FetchBack(entries: seq<Entry>, pivot: nat, limit: int, clock: Clock) returns (got: seq<Entry>, pages: nat)
    requires DistinctIds(entries) && pivot < |entries| && limit > 0
    ensures got == entries[..pivot]
    ensures pages >= 1 && |got| <= pages * limit && (pages > 1 ==> (pages - 1) * limit < |got|)
  {
    got, pages := [], 0;
    var first := entries[pivot];
    ghost var at := pivot;
    while true
      invariant 0 <= at <= pivot && first == entries[at]
      invariant got == entries[at..pivot]
      invariant |got| == pages * limit
      invariant pages > 0 ==> at > 0
      decreases at
    {
      var page, complete := AskBefore(entries, at, first, limit, clock);
      NextPage(pages, limit);
      Continued(entries, if complete then 0 else at - limit, at, pivot);
      got := page + got;
      pages := pages + 1;
      if complete { return; }
      at := at - limit;
      first := page[0];
    }
  }

  // Paging back and forth from any entry reads the whole history, each entry once.
  method FetchAll(entries: seq<Entry>, pivot: nat, limit: int, clock: Clock) returns (got: seq<Entry>)
    requires DistinctIds(entries) && pivot < |entries| && limit > 0
    ensures got == entries
  {
    var before, _ := FetchBack(entries, pivot, limit, clock);
    var after, _ := CatchUp(entries, pivot, limit, clock);
    got := before + [entries[pivot]] + after;
  }
}
