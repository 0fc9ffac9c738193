/**
 What a CHATHISTORY request returns, as a slice of the history, from the positions
 and the times of its entries alone.

 Main results
   LatestOfAll                               LATEST without a reference
   LatestOf, AfterOf, BeforeOf, AroundOf     one reference, by id or by time
   BetweenOf                                 two references, of either kind in either order
   NotFound, RefusedIff                      the empty answer and the errors
 */
module HistorySelectors {
  import opened Text
  import opened ChatHistory

  // What a selector can point at: the entry at a position, or an instant.
  datatype Mark = ById(i: nat) | ByTime(t: int)

  const BY_ID := "msgid="
  const BY_TIME := "timestamp="

  // The selector points there. An id stands for the first entry that has it.
  predicate PointsAt(entries: seq<Entry>, sel: string, m: Mark, clock: Clock) {
    match m
    case ById(i) =>
      && i < |entries| && entries[i].msgid != "" && sel == BY_ID + entries[i].msgid
      && forall j :: 0 <= j < i ==> entries[j].msgid != entries[i].msgid
    case ByTime(t) => BY_TIME <= sel && clock(sel[|BY_TIME|..]) == Some(t)
  }

  predicate Precedes(entries: seq<Entry>, k: nat, m: Mark)
    requires k < |entries|
  {
    match m case ById(i) => k < i case ByTime(t) => entries[k].time < t
  }

  predicate Succeeds(entries: seq<Entry>, k: nat, m: Mark)
    requires k < |entries|
  {
    match m case ById(i) => k > i case ByTime(t) => entries[k].time > t
  }

  // The first lo entries precede the mark, those from hi on succeed it, and no others.
  predicate Cuts(entries: seq<Entry>, m: Mark, lo: nat, hi: nat) {
    && lo <= hi <= |entries|
    && (forall k :: 0 <= k < |entries| ==> (Precedes(entries, k, m) <==> k < lo))
    && (forall k :: 0 <= k < |entries| ==> (Succeeds(entries, k, m) <==> k >= hi))
  }

  // In time order every mark cuts the history.
  lemma CutsExist(entries: seq<Entry>, m: Mark) returns (lo: nat, hi: nat)
    requires Ascending(entries) && (m.ById? ==> m.i < |entries|)
    ensures Cuts(entries, m, lo, hi)
  {
    match m
    case ById(i) => lo, hi := i, i + 1;
    case ByTime(t) =>
      lo, hi := CountBelow(entries, t), CountBelow(entries, t + 1);
      assert lo > 0 ==> entries[lo - 1].time < t + 1;
  }

  // ---------------------------------------------------------------------
  // References and cuts
  // ---------------------------------------------------------------------

  function RefOf(entries: seq<Entry>, m: Mark): Reference
    requires m.ById? ==> m.i < |entries|
  {
    match m
    case ById(i) => Reference(entries[i].time, entries[i].msgid, i, true)
    case ByTime(t) => Reference(t, "", 0, true)
  }

  lemma SelectorShape(sel: string)
    ensures BY_TIME <= sel ==> HasPrefix(sel, "timestamp=") && TrimPrefix(sel, "timestamp=") == sel[|BY_TIME|..]
    ensures BY_TIME <= sel ==> sel != "*" && !(BY_ID <= sel)
    ensures BY_ID <= sel ==> HasPrefix(sel, "msgid=") && TrimPrefix(sel, "msgid=") == sel[|BY_ID|..]
    ensures BY_ID <= sel ==> sel != "*" && !HasPrefix(sel, "timestamp=")
  {
    assert BY_TIME[0] == 't' && BY_ID[0] == 'm';
    if BY_TIME <= sel { assert sel[0] == BY_TIME[0]; }
    if BY_ID <= sel { assert sel[0] == BY_ID[0]; }
  }

  lemma FoundFirst(entries: seq<Entry>, i: nat)
    requires i < |entries| && forall j :: 0 <= j < i ==> entries[j].msgid != entries[i].msgid
    ensures FindId(entries, entries[i].msgid) == i
  {
  }

  lemma Refers(entries: seq<Entry>, sel: string, m: Mark, clock: Clock)
    requires PointsAt(entries, sel, m, clock)
    ensures sel != "*" && ParseReference(entries, sel, clock) == Ref(RefOf(entries, m))
  {
    SelectorShape(sel);
    if m.ById? {
      assert sel[|BY_ID|..] == entries[m.i].msgid;
      FoundFirst(entries, m.i);
    }
  }

  lemma Sides(entries: seq<Entry>, k: nat, m: Mark)
    requires k < |entries| && (m.ById? ==> m.i < |entries| && entries[m.i].msgid != "")
    ensures IsBefore(entries[k], k, RefOf(entries, m)) <==> Precedes(entries, k, m)
    ensures IsAfter(entries[k], k, RefOf(entries, m)) <==> Succeeds(entries, k, m)
  {
  }

  lemma CutBy(entries: seq<Entry>, m: Mark, lo: nat, hi: nat)
    requires (m.ById? ==> m.i < |entries| && entries[m.i].msgid != "") && Cuts(entries, m, lo, hi)
    ensures EntriesBefore(entries, RefOf(entries, m)) == entries[..lo]
    ensures EntriesAfter(entries, RefOf(entries, m)) == entries[hi..]
  {
    var ref := RefOf(entries, m);
    forall i | 0 <= i < |entries|
      ensures IsBefore(entries[i], i, ref) <==> i < lo
      ensures IsAfter(entries[i], i, ref) <==> i >= hi
    {
      Sides(entries, i, m);
    }
    FilterRange(entries, (e, i) => IsBefore(e, i, ref), 0, lo);
    FilterRange(entries, (e, i) => IsAfter(e, i, ref), hi, |entries|);
  }

  // ---------------------------------------------------------------------
  // One reference
  // ---------------------------------------------------------------------

  lemma LastSlice(entries: seq<Entry>, lo: nat, hi: nat, limit: nat)
    requires lo <= hi <= |entries|
    ensures Latest(entries[lo..hi], limit) == Page(entries[hi - Min(limit, hi - lo)..hi], hi - lo <= limit)
  {
  }

  lemma LastToEnd(entries: seq<Entry>, lo: nat, limit: nat)
    requires lo <= |entries|
    ensures Latest(entries[lo..|entries|], limit) ==
            Page(entries[|entries| - Min(limit, |entries| - lo)..], |entries| - lo <= limit)
  {
  }

  lemma FirstSlice(entries: seq<Entry>, lo: nat, hi: nat, limit: nat)
    requires lo <= hi <= |entries|
    ensures Earliest(entries[lo..hi], limit) == Page(entries[lo..lo + Min(limit, hi - lo)], hi - lo <= limit)
  {
  }

  // The command's own choice from what lies before and behind.
  lemma Chosen(entries: seq<Entry>, sub: string, sel: string, ref: Reference, limit: int, clock: Clock)
    requires limit > 0 && sel != "*" && ParseReference(entries, sel, clock) == Ref(ref) && ref.found
    ensures var a := Select(entries, sub, [sel], limit, clock);
            var before, after := EntriesBefore(entries, ref), EntriesAfter(entries, ref);
            && (Upper(sub) == "LATEST" ==> a == Latest(after, limit))
            && (Upper(sub) == "AFTER" ==> a == Earliest(after, limit))
            && (Upper(sub) == "BEFORE" ==> a == Latest(before, limit))
            && (Upper(sub) == "AROUND" ==> a == Around(before, after, limit))
  {
  }

  lemma ChosenAt(entries: seq<Entry>, sub: string, sel: string, m: Mark, lo: nat, hi: nat, limit: int, clock: Clock)
    requires limit > 0 && PointsAt(entries, sel, m, clock) && Cuts(entries, m, lo, hi)
    ensures var a := Select(entries, sub, [sel], limit, clock);
            && (Upper(sub) == "LATEST" ==> a == Latest(entries[hi..|entries|], limit))
            && (Upper(sub) == "AFTER" ==> a == Earliest(entries[hi..|entries|], limit))
            && (Upper(sub) == "BEFORE" ==> a == Latest(entries[0..lo], limit))
            && (Upper(sub) == "AROUND" ==> a == Around(entries[0..lo], entries[hi..|entries|], limit))
  {
    Refers(entries, sel, m, clock);
    CutBy(entries, m, lo, hi);
    Chosen(entries, sub, sel, RefOf(entries, m), limit, clock);
    assert entries[hi..|entries|] == entries[hi..] && entries[0..lo] == entries[..lo];
  }

  // The newest entries, as many as the limit allows.
  lemma LatestOfAll(entries: seq<Entry>, sub: string, limit: int, clock: Clock)
    requires Upper(sub) == "LATEST" && limit > 0
    ensures Select(entries, sub, ["*"], limit, clock) ==
            Page(entries[|entries| - Min(limit, |entries|)..], |entries| <= limit)
  {
    LastToEnd(entries, 0, limit);
    assert entries[0..|entries|] == entries;
  }

  // The newest entries behind the mark.
  lemma LatestOf(entries: seq<Entry>, sub: string, sel: string, m: Mark, lo: nat, hi: nat, limit: int, clock: Clock)
    requires Upper(sub) == "LATEST" && limit > 0 && PointsAt(entries, sel, m, clock) && Cuts(entries, m, lo, hi)
    ensures Select(entries, sub, [sel], limit, clock) ==
            Page(entries[|entries| - Min(limit, |entries| - hi)..], |entries| - hi <= limit)
  {
    ChosenAt(entries, sub, sel, m, lo, hi, limit, clock);
    LastToEnd(entries, hi, limit);
  }

  // The entries that follow the mark.
  lemma AfterOf(entries: seq<Entry>, sub: string, sel: string, m: Mark, lo: nat, hi: nat, limit: int, clock: Clock)
    requires Upper(sub) == "AFTER" && limit > 0 && PointsAt(entries, sel, m, clock) && Cuts(entries, m, lo, hi)
    ensures Select(entries, sub, [sel], limit, clock) ==
            Page(entries[hi..hi + Min(limit, |entries| - hi)], |entries| - hi <= limit)
  {
    ChosenAt(entries, sub, sel, m, lo, hi, limit, clock);
    FirstSlice(entries, hi, |entries|, limit);
  }

  // The entries that lead up to the mark.
  lemma BeforeOf(entries: seq<Entry>, sub: string, sel: string, m: Mark, lo: nat, hi: nat, limit: int, clock: Clock)
    requires Upper(sub) == "BEFORE" && limit > 0 && PointsAt(entries, sel, m, clock) && Cuts(entries, m, lo, hi)
    ensures Select(entries, sub, [sel], limit, clock) == Page(entries[lo - Min(limit, lo)..lo], lo <= limit)
  {
    ChosenAt(entries, sub, sel, m, lo, hi, limit, clock);
    LastSlice(entries, 0, lo, limit);
  }

  // The entries on either side of the mark: as many as the limit allows, half of it on
  // each side unless a side has no more.
  lemma AroundOf(entries: seq<Entry>, sub: string, sel: string, m: Mark, lo: nat, hi: nat, limit: int, clock: Clock)
      returns (left: nat, right: nat)
    requires Upper(sub) == "AROUND" && limit > 0 && PointsAt(entries, sel, m, clock) && Cuts(entries, m, lo, hi)
    ensures left <= lo && hi + right <= |entries| && left + right == Min(limit, lo + (|entries| - hi))
    ensures left < limit / 2 ==> left == lo
    ensures right < limit - limit / 2 ==> right == |entries| - hi
    ensures Select(entries, sub, [sel], limit, clock) ==
            Page(entries[lo - left..lo] + entries[hi..hi + right], lo + (|entries| - hi) <= limit)
  {
    ChosenAt(entries, sub, sel, m, lo, hi, limit, clock);
    left, right := AroundSlices(entries, lo, hi, limit);
  }

  lemma AroundSlices(entries: seq<Entry>, lo: nat, hi: nat, limit: nat) returns (left: nat, right: nat)
    requires lo <= hi <= |entries|
    ensures left <= lo && hi + right <= |entries| && left + right == Min(limit, lo + (|entries| - hi))
    ensures left < limit / 2 ==> left == lo
    ensures right < limit - limit / 2 ==> right == |entries| - hi
    ensures Around(entries[0..lo], entries[hi..|entries|], limit) ==
            Page(entries[lo - left..lo] + entries[hi..hi + right], lo + (|entries| - hi) <= limit)
  {
    left, right := AroundShape(entries[0..lo], entries[hi..|entries|], limit);
    assert entries[0..lo][lo - left..] == entries[lo - left..lo];
    assert entries[hi..|entries|][..right] == entries[hi..hi + right];
  }

  // ---------------------------------------------------------------------
  // Two references
  // ---------------------------------------------------------------------

  lemma BetweenBy(entries: seq<Entry>, m: Mark, lo: nat, hi: nat, m': Mark, lo': nat, hi': nat)
    requires (m.ById? ==> m.i < |entries| && entries[m.i].msgid != "") && Cuts(entries, m, lo, hi)
    requires (m'.ById? ==> m'.i < |entries| && entries[m'.i].msgid != "") && Cuts(entries, m', lo', hi')
    ensures EntriesBetween(entries, RefOf(entries, m), RefOf(entries, m')) == if hi < lo' then entries[hi..lo'] else []
  {
    var a, b := RefOf(entries, m), RefOf(entries, m');
    forall i | 0 <= i < |entries|
      ensures IsAfter(entries[i], i, a) && IsBefore(entries[i], i, b) <==> hi <= i < lo'
    {
      Sides(entries, i, m);
      Sides(entries, i, m');
    }
    FilterRange(entries, (e, i) => IsAfter(e, i, a) && IsBefore(e, i, b), if hi < lo' then hi else lo', lo');
  }

  // An entry between two marks says which of them comes first.
  lemma InOrder(entries: seq<Entry>, m: Mark, lo: nat, hi: nat, m': Mark, lo': nat, hi': nat)
    requires Ascending(entries) && hi < lo'
    requires (m.ById? ==> m.i < |entries| && entries[m.i].msgid != "") && Cuts(entries, m, lo, hi)
    requires (m'.ById? ==> m'.i < |entries| && entries[m'.i].msgid != "") && Cuts(entries, m', lo', hi')
    ensures Forward(RefOf(entries, m), RefOf(entries, m')) && !Forward(RefOf(entries, m'), RefOf(entries, m))
  {
    assert Succeeds(entries, hi, m) && Precedes(entries, hi, m');
  }

  lemma BetweenChosen(entries: seq<Entry>, sub: string, x: string, a: Reference, y: string, b: Reference, limit: int, clock: Clock)
    requires Upper(sub) == "BETWEEN" && limit > 0 && x != "*" && a.found && b.found
    requires ParseReference(entries, x, clock) == Ref(a) && ParseReference(entries, y, clock) == Ref(b)
    ensures Select(entries, sub, [x, y], limit, clock) == Between(entries, a, b, limit)
  {
  }

  // Strictly between: from the earlier mark on when it is named first, up to the later
  // one when that is.
  function Strictly(entries: seq<Entry>, lo: nat, hi: nat, lo': nat, hi': nat, limit: nat): Answer
    requires lo <= hi <= |entries| && lo' <= hi' <= |entries|
  {
    if hi < lo' then Page(entries[hi..hi + Min(limit, lo' - hi)], lo' - hi <= limit)
    else if hi' < lo then Page(entries[lo - Min(limit, lo - hi')..lo], lo - hi' <= limit)
    else Page([], true)
  }

  lemma BetweenSlices(entries: seq<Entry>, m: Mark, lo: nat, hi: nat, m': Mark, lo': nat, hi': nat, limit: nat)
    requires Ascending(entries) && limit > 0
    requires (m.ById? ==> m.i < |entries| && entries[m.i].msgid != "") && Cuts(entries, m, lo, hi)
    requires (m'.ById? ==> m'.i < |entries| && entries[m'.i].msgid != "") && Cuts(entries, m', lo', hi')
    ensures Between(entries, RefOf(entries, m), RefOf(entries, m'), limit) == Strictly(entries, lo, hi, lo', hi', limit)
  {
    BetweenBy(entries, m, lo, hi, m', lo', hi');
    BetweenBy(entries, m', lo', hi', m, lo, hi);
    if hi < lo' {
      InOrder(entries, m, lo, hi, m', lo', hi');
      FirstSlice(entries, hi, lo', limit);
    } else if hi' < lo {
      InOrder(entries, m', lo', hi', m, lo, hi);
      LastSlice(entries, hi', lo, limit);
    }
  }

  // BETWEEN any two marks.
  lemma BetweenOf(entries: seq<Entry>, sub: string, x: string, m: Mark, lo: nat, hi: nat,
                  y: string, m': Mark, lo': nat, hi': nat, limit: int, clock: Clock)
    requires Upper(sub) == "BETWEEN" && limit > 0 && Ascending(entries)
    requires PointsAt(entries, x, m, clock) && Cuts(entries, m, lo, hi)
    requires PointsAt(entries, y, m', clock) && Cuts(entries, m', lo', hi')
    ensures Select(entries, sub, [x, y], limit, clock) == Strictly(entries, lo, hi, lo', hi', limit)
  {
    Refers(entries, x, m, clock);
    Refers(entries, y, m', clock);
    BetweenChosen(entries, sub, x, RefOf(entries, m), y, RefOf(entries, m'), limit, clock);
    BetweenSlices(entries, m, lo, hi, m', lo', hi', limit);
  }

  // ---------------------------------------------------------------------
  // No reference, and no answer
  // ---------------------------------------------------------------------

  // An id that no entry has.
  predicate PointsNowhere(entries: seq<Entry>, sel: string) {
    BY_ID < sel && forall j :: 0 <= j < |entries| ==> entries[j].msgid != sel[|BY_ID|..]
  }

  // A reference by id that is not there selects nothing, and says that this is all.
  lemma NotFound(entries: seq<Entry>, sub: string, sel: string, limit: int, clock: Clock)
    requires limit > 0 && PointsNowhere(entries, sel)
    ensures Select(entries, sub, [sel], limit, clock) == Page([], true)
  {
    SelectorShape(sel);
    assert sel[|BY_ID|..] != "";
  }

  // A selector that can be read, whether or not its id is there.
  predicate Readable(sel: string, clock: Clock) {
    (BY_TIME <= sel && clock(sel[|BY_TIME|..]).Some?) || BY_ID < sel
  }

  lemma ReadableIff(entries: seq<Entry>, sel: string, clock: Clock)
    ensures ParseReference(entries, sel, clock).Ref? <==> Readable(sel, clock)
  {
    SelectorShape(sel);
    assert HasPrefix(sel, "timestamp=") ==> BY_TIME <= sel;
    assert HasPrefix(sel, "msgid=") ==> BY_ID <= sel;
  }

  predicate KnownCommand(sub: string) {
    Upper(sub) in ["LATEST", "AFTER", "BEFORE", "AROUND", "BETWEEN"]
  }

  // The errors with one selector, which is all there is outside BETWEEN: no room, a
  // star outside LATEST, a selector that cannot be read, or a command that is not
  // known and whose reference is found.
  lemma RefusedIff(entries: seq<Entry>, sub: string, sel: string, limit: int, clock: Clock)
    ensures Select(entries, sub, [sel], limit, clock).Invalid? <==>
            || limit <= 0
            || (sel == "*" && Upper(sub) != "LATEST")
            || (sel != "*" && !Readable(sel, clock))
            || (sel != "*" && !KnownCommand(sub) && !PointsNowhere(entries, sel))
  {
    ReadableIff(entries, sel, clock);
    SelectorShape(sel);
    if BY_ID < sel { assert sel[|BY_ID|..] != ""; }
  }
}
