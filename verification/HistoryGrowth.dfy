/**
 Catching up with a history that grows while the client asks and of which the
 server keeps only the newest entries. A request from an id that has been dropped
 is answered with an empty page marked complete, so a client that is overtaken
 stops without what it missed.

 Main results
   Record             the server keeps the newest entries of everything recorded
   AnswerGrown        what AFTER an id is answered, dropped or not
   CatchUpGrowing     what a client gets, and exactly when entries are lost
   LosesIff           the schedules under which that happens
   SteadyNeverLoses   a rate of growth at which none are lost
 */
module HistoryGrowth {
  import opened Text
  import opened ChatHistory
  import opened HistoryPaging

  // chatHistoryLimit: how many entries are kept, and the largest page.
  const KEPT := 50

  // ---------------------------------------------------------------------
  // What the server keeps
  // ---------------------------------------------------------------------

  function Start(n: nat): nat {
    if n > KEPT then n - KEPT else 0
  }

  function Newest(log: seq<Entry>): seq<Entry> {
    log[Start(|log|)..]
  }

  class Channel {
    var history: seq<Entry>
    ghost var log: seq<Entry>

    ghost predicate Valid()
      reads this
    {
      history == Newest(log)
    }

    constructor ()
      ensures Valid() && log == []
    {
      history, log := [], [];
    }

    method Record(e: Entry)
      requires Valid()
      modifies this
      ensures Valid() && log == old(log) + [e]
    {
      history := history + [e];
      log := log + [e];
      if |history| > KEPT {
        history := history[|history| - KEPT..];
      }
    }
  }

  // ---------------------------------------------------------------------
  // One request
  // ---------------------------------------------------------------------

  // With n entries recorded, the one at position at is no longer kept.
  predicate Dropped(n: nat, at: nat) {
    at < Start(n)
  }

  lemma WindowDistinct(log: seq<Entry>, a: nat, n: nat)
    requires DistinctIds(log) && a <= n <= |log|
    ensures DistinctIds(log[a..n])
  {
  }

  lemma NotInWindow(log: seq<Entry>, at: nat, a: nat, n: nat)
    requires DistinctIds(log) && at < a <= n <= |log|
    ensures FindId(log[a..n], log[at].msgid) == -1
  {
    forall j | 0 <= j < |log[a..n]|
      ensures log[a..n][j].msgid != log[at].msgid
    {
      assert log[a..n][j] == log[a + j];
    }
  }

  lemma MissingId(window: seq<Entry>, e: Entry, limit: int, clock: Clock)
    requires e.msgid != "" && FindId(window, e.msgid) == -1 && limit > 0
    ensures Select(window, "AFTER", [IdSelector(e)], limit, clock) == Page([], true)
  {
    var s := IdSelector(e);
    assert s[0] == 'm' && "timestamp="[0] == 't';
    assert !HasPrefix(s, "timestamp=") && HasPrefix(s, "msgid=") && TrimPrefix(s, "msgid=") == e.msgid;
  }

  lemma TailOfWindow(log: seq<Entry>, a: nat, at: nat, n: nat)
    requires a <= at < n <= |log|
    ensures log[a..n][at - a] == log[at] && log[a..n][at - a + 1..] == log[at + 1..n]
  {
  }

  lemma KeptAnswer(log: seq<Entry>, a: nat, n: nat, at: nat, limit: int, clock: Clock)
    requires DistinctIds(log) && a <= at < n <= |log| && limit > 0
    ensures Select(log[a..n], "AFTER", [IdSelector(log[at])], limit, clock) == Earliest(log[at + 1..n], limit)
  {
    WindowDistinct(log, a, n);
    TailOfWindow(log, a, at, n);
    AfterEntry(log[a..n], at - a, log[at], log[at + 1..n], limit, clock);
  }

  lemma AfterEntry(window: seq<Entry>, i: nat, e: Entry, after: seq<Entry>, limit: int, clock: Clock)
    requires DistinctIds(window) && i < |window| && window[i] == e && window[i + 1..] == after && limit > 0
    ensures Select(window, "AFTER", [IdSelector(e)], limit, clock) == Earliest(after, limit)
  {
    AfterId(window, i, limit, clock);
  }

  lemma DroppedAnswer(log: seq<Entry>, a: nat, n: nat, at: nat, limit: int, clock: Clock)
    requires DistinctIds(log) && at < a <= n <= |log| && limit > 0
    ensures Select(log[a..n], "AFTER", [IdSelector(log[at])], limit, clock) == Page([], true)
  {
    NotInWindow(log, at, a, n);
    MissingId(log[a..n], log[at], limit, clock);
  }

  lemma NewestWindow(log: seq<Entry>, n: nat)
    requires n <= |log|
    ensures Newest(log[..n]) == log[Start(n)..n]
  {
  }

  // AFTER an id that is kept gives the earliest of what follows it; AFTER one that
  // was dropped gives nothing and says that this is all.
  lemma AnswerGrown(log: seq<Entry>, n: nat, at: nat, limit: int, clock: Clock)
    requires DistinctIds(log) && at < n <= |log| && limit > 0
    ensures Select(Newest(log[..n]), "AFTER", [IdSelector(log[at])], limit, clock) ==
            if Dropped(n, at) then Page([], true) else Earliest(log[at + 1..n], limit)
  {
    NewestWindow(log, n);
    if Dropped(n, at) {
      DroppedAnswer(log, Start(n), n, at, limit, clock);
    } else {
      KeptAnswer(log, Start(n), n, at, limit, clock);
    }
  }

  // ---------------------------------------------------------------------
  // Catching up
  // ---------------------------------------------------------------------

  // How much is recorded at each request: what is recorded stays recorded.
  predicate Growth(sizes: seq<nat>, pivot: nat, all: nat) {
    && (forall j :: 0 <= j < |sizes| ==> pivot < sizes[j] <= all)
    && (forall i, j :: 0 <= i <= j < |sizes| ==> sizes[i] <= sizes[j])
  }

  // The first entry a client lacks that has taken j full pages behind its pivot.
  function Lacks(pivot: nat, j: nat, limit: nat): nat {
    if j == 0 then pivot + 1 else Lacks(pivot, j - 1, limit) + limit
  }

  lemma {:induction false} LacksPages(pivot: nat, j: nat, limit: nat)
    ensures Lacks(pivot, j, limit) == pivot + 1 + j * limit
  {
    if j > 0 {
      LacksPages(pivot, j - 1, limit);
      assert j * limit == (j - 1) * limit + limit;
    }
  }

  // At request j the last entry it has is no longer kept.
  predicate Overtaken(sizes: seq<nat>, pivot: nat, limit: nat, j: nat)
    requires j < |sizes|
  {
    sizes[j] >= Lacks(pivot, j, limit) + KEPT
  }

  // At request j one page is enough for the rest.
  predicate Within(sizes: seq<nat>, pivot: nat, limit: nat, j: nat)
    requires j < |sizes|
  {
    sizes[j] <= Lacks(pivot, j, limit) + limit
  }

  // The first j requests find neither.
  predicate Behind(sizes: seq<nat>, pivot: nat, limit: nat, j: nat)
    requires j <= |sizes|
  {
    forall i :: 0 <= i < j ==> !Overtaken(sizes, pivot, limit, i) && !Within(sizes, pivot, limit, i)
  }

  lemma FrontOf(log: seq<Entry>, at: nat, n: nat, limit: nat)
    requires at + limit <= n <= |log|
    ensures log[at..n][..limit] == log[at..at + limit]
  {
  }

  method AskGrown(log: seq<Entry>, n: nat, ghost at: nat, last: Entry, limit: nat, clock: Clock)
      returns (page: seq<Entry>, complete: bool, ghost end: nat)
    requires DistinctIds(log) && 0 < at <= n <= |log| && last == log[at - 1] && limit > 0
    ensures complete <==> n >= at + KEPT || n <= at + limit
    ensures end == if n >= at + KEPT then at else if complete then n else at + limit
    ensures at <= end <= n && page == log[at..end]
    ensures !complete ==> page[|page| - 1] == log[end - 1]
  {
    var window := Newest(log[..n]);
    page, complete := AskAfterId(window, last, limit, clock, log, n, at);
    PageStretch(log, n, at, limit);
    end := PageEnd(n, at, limit);
    if !complete { LastOf(log, at, end); }
  }

  lemma LastOf(log: seq<Entry>, a: nat, b: nat)
    requires a < b <= |log|
    ensures log[a..b][b - a - 1] == log[b - 1]
  {
  }

  method AskAfterId(window: seq<Entry>, last: Entry, limit: nat, clock: Clock, ghost log: seq<Entry>, ghost n: nat, ghost at: nat)
      returns (page: seq<Entry>, complete: bool)
    requires DistinctIds(log) && 0 < at <= n <= |log| && limit > 0
    requires window == Newest(log[..n]) && last == log[at - 1]
    ensures PageFrom(log, n, at, limit) == Page(page, complete)
  {
    AnswerIn(log, n, at, at - 1, window, last, limit, clock);
    var answer := SelectChatHistory(window, "AFTER", [IdSelector(last)], limit, clock);
    page, complete := answer.entries, answer.complete;
  }

  // Where the page from position at ends.
  function PageEnd(n: nat, at: nat, limit: nat): nat {
    if n >= at + KEPT then at else if n <= at + limit then n else at + limit
  }

  function PageFrom(log: seq<Entry>, n: nat, at: nat, limit: nat): Answer
    requires at <= n <= |log|
  {
    if n >= at + KEPT then Page([], true) else Earliest(log[at..n], limit)
  }

  // The page as a stretch of the log.
  lemma PageStretch(log: seq<Entry>, n: nat, at: nat, limit: nat)
    requires at <= n <= |log|
    ensures at <= PageEnd(n, at, limit) <= n
    ensures PageFrom(log, n, at, limit) == Page(log[at..PageEnd(n, at, limit)], n >= at + KEPT || n <= at + limit)
  {
    EarliestPage(log, at, n, limit);
    assert log[at..at] == [];
  }

  lemma AnswerFrom(log: seq<Entry>, n: nat, at: nat, a: nat, limit: nat, clock: Clock)
    requires DistinctIds(log) && 0 < at <= n <= |log| && limit > 0 && a == at - 1
    ensures Select(Newest(log[..n]), "AFTER", [IdSelector(log[a])], limit, clock) == PageFrom(log, n, at, limit)
  {
    AnswerGrown(log, n, a, limit, clock);
  }

  lemma AnswerIn(log: seq<Entry>, n: nat, at: nat, a: nat, window: seq<Entry>, last: Entry, limit: nat, clock: Clock)
    requires DistinctIds(log) && 0 < at <= n <= |log| && limit > 0 && a == at - 1
    requires window == Newest(log[..n]) && last == log[a]
    ensures Select(window, "AFTER", [IdSelector(last)], limit, clock) == PageFrom(log, n, at, limit)
  {
    AnswerFrom(log, n, at, a, limit, clock);
  }

  lemma EarliestPage(log: seq<Entry>, at: nat, n: nat, limit: nat)
    requires at <= n <= |log|
    ensures Earliest(log[at..n], limit) ==
            if n <= at + limit then Page(log[at..n], true) else Page(log[at..at + limit], false)
  {
    if n > at + limit { FrontOf(log, at, n, limit); }
  }

  // The same client as in CatchUp. What it gets has no gaps. It stops at the first
  // request that finds it overtaken or within a page, and what it has then is all
  // there is at that moment if and only if it was not overtaken.
  method CatchUpGrowing(log: seq<Entry>, sizes: seq<nat>, pivot: nat, limit: nat, clock: Clock)
      returns (got: seq<Entry>, complete: bool, rounds: nat)
    requires DistinctIds(log) && 0 < limit && pivot < |log| && Growth(sizes, pivot, |log|)
    ensures rounds <= |sizes|
    ensures complete ==>
              && rounds > 0 && Behind(sizes, pivot, limit, rounds - 1)
              && (Overtaken(sizes, pivot, limit, rounds - 1) || Within(sizes, pivot, limit, rounds - 1))
    ensures !complete ==> rounds == |sizes| && Behind(sizes, pivot, limit, rounds)
    ensures pivot + 1 + |got| <= |log| && got == log[pivot + 1..pivot + 1 + |got|]
    ensures complete ==>
              (pivot + 1 + |got| == sizes[rounds - 1] <==> !Overtaken(sizes, pivot, limit, rounds - 1))
  {
    got, rounds, complete := [], 0, false;
    var last := log[pivot];
    ghost var at := pivot + 1;
    while rounds < |sizes|
      invariant rounds <= |sizes| && at == Lacks(pivot, rounds, limit) && pivot < at <= |log| && last == log[at - 1]
      invariant got == log[pivot + 1..at] && !complete
      invariant Behind(sizes, pivot, limit, rounds)
      invariant rounds < |sizes| ==> at <= sizes[rounds]
      decreases |sizes| - rounds
    {
      var page;
      ghost var end;
      page, complete, end := AskGrown(log, sizes[rounds], at, last, limit, clock);
      Continued(log, pivot + 1, at, end);
      got := got + page;
      rounds := rounds + 1;
      if complete { return; }
      last := page[|page| - 1];
      at := end;
    }
  }

  // ---------------------------------------------------------------------
  // When entries are lost
  // ---------------------------------------------------------------------

  // Some request finds the client overtaken before any found it within a page.
  ghost predicate Loses(sizes: seq<nat>, pivot: nat, limit: nat) {
    exists j: nat :: j < |sizes| && Behind(sizes, pivot, limit, j) && Overtaken(sizes, pivot, limit, j)
  }

  // That is the request at which the client stops, so these are exactly the
  // schedules under which it believes it has everything and has not.
  lemma LosesIff(sizes: seq<nat>, pivot: nat, limit: nat, rounds: nat)
    requires 0 < rounds <= |sizes| && Behind(sizes, pivot, limit, rounds - 1)
    requires Overtaken(sizes, pivot, limit, rounds - 1) || Within(sizes, pivot, limit, rounds - 1)
    ensures Loses(sizes, pivot, limit) <==> Overtaken(sizes, pivot, limit, rounds - 1)
  {
    if j: nat :| j < |sizes| && Behind(sizes, pivot, limit, j) && Overtaken(sizes, pivot, limit, j) {
      if j > rounds - 1 { assert false; }
    }
  }

  // A client less than the kept entries behind, and no more new entries between two
  // requests than a page holds: nothing is lost.
  lemma SteadyNeverLoses(sizes: seq<nat>, pivot: nat, limit: nat)
    requires sizes != [] ==> sizes[0] <= pivot + KEPT
    requires forall j :: 0 < j < |sizes| ==> sizes[j] <= sizes[j - 1] + limit
    ensures !Loses(sizes, pivot, limit)
  {
    forall j | 0 <= j < |sizes| ensures !Overtaken(sizes, pivot, limit, j) { Keeps(sizes, pivot, limit, j); }
  }

  lemma {:induction false} Keeps(sizes: seq<nat>, pivot: nat, limit: nat, j: nat)
    requires j < |sizes| && sizes[0] <= pivot + KEPT
    requires forall j :: 0 < j < |sizes| ==> sizes[j] <= sizes[j - 1] + limit
    ensures !Overtaken(sizes, pivot, limit, j)
  {
    if j > 0 { Keeps(sizes, pivot, limit, j - 1); }
  }

  // One entry more than that and the very first answer is empty and complete, with
  // as many unseen entries kept as the server ever keeps.
  lemma FirstRequestLoses(log: seq<Entry>, pivot: nat, limit: nat, clock: Clock)
    requires DistinctIds(log) && limit > 0 && |log| > pivot + KEPT
    ensures Select(Newest(log), "AFTER", [IdSelector(log[pivot])], limit, clock) == Page([], true)
    ensures |Newest(log)| == KEPT && Newest(log) == log[pivot + 1..][|log| - KEPT - pivot - 1..]
  {
    assert log[..|log|] == log;
    AnswerGrown(log, |log|, pivot, limit, clock);
  }
}
