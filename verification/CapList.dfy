/**
 The multi-line CAP LS reply: the server packs capability tokens into lines of
 at most 400 characters, the client merges the lines into one table.

 Main results
   GroupsConcatenate, GroupsObey   nothing is lost and every line fits
   GreedyIsOptimal                 no other way of cutting uses fewer lines
   MergeRestoresTable              the client ends with the server's table
 */
module CapList {
  import opened Text

  const MAX_LINE := 400

  // Characters a group takes, each token counted with one separator.
  function Weight(caps: seq<string>): nat {
    if caps == [] then 0 else |caps[0]| + 1 + Weight(caps[1..])
  }

  // A line may hold this group: it fits, or it is one token too long to split.
  predicate Obeys(group: seq<string>) {
    |group| == 1 || (|group| >= 1 && Weight(group) <= MAX_LINE)
  }

  function Flatten(groups: seq<seq<string>>): seq<string> {
    if groups == [] then [] else groups[0] + Flatten(groups[1..])
  }

  // How many tokens fit after size characters.
  function Fit(caps: seq<string>, size: nat): (n: nat)
    ensures n <= |caps|
  {
    if caps != [] && size + |caps[0]| + 1 <= MAX_LINE then 1 + Fit(caps[1..], size + |caps[0]| + 1) else 0
  }

  function LineLength(caps: seq<string>): (n: nat)
    requires caps != []
    ensures 1 <= n <= |caps|
  {
    if Fit(caps, 0) == 0 then 1 else Fit(caps, 0)
  }

  function Groups(caps: seq<string>): seq<seq<string>>
    decreases |caps|
  {
    if caps == [] then [] else [caps[..LineLength(caps)]] + Groups(caps[LineLength(caps)..])
  }

  // ---------------------------------------------------------------------
  // Nothing lost, every line fits
  // ---------------------------------------------------------------------

  lemma {:induction false} GroupsConcatenate(caps: seq<string>)
    ensures Flatten(Groups(caps)) == caps
    decreases |caps|
  {
    if caps != [] {
      var n := LineLength(caps);
      GroupsConcatenate(caps[n..]);
      assert Groups(caps)[1..] == Groups(caps[n..]);
      assert caps == caps[..n] + caps[n..];
    }
  }

  lemma {:induction false} FitIsMaximal(caps: seq<string>, size: nat, n: nat)
    requires n <= |caps|
    ensures size <= MAX_LINE || n > 0 ==> (size + Weight(caps[..n]) <= MAX_LINE <==> n <= Fit(caps, size))
  {
    if n > 0 {
      assert caps[..n][0] == caps[0] && caps[..n][1..] == caps[1..][..n - 1];
      FitIsMaximal(caps[1..], size + |caps[0]| + 1, n - 1);
    }
  }

  lemma {:induction false} GroupsObey(caps: seq<string>)
    ensures forall i :: 0 <= i < |Groups(caps)| ==> Obeys(Groups(caps)[i])
    decreases |caps|
  {
    if caps != [] {
      var n := LineLength(caps);
      FitIsMaximal(caps, 0, n);
      GroupsObey(caps[n..]);
    }
  }

  // ---------------------------------------------------------------------
  // No fewer lines
  // ---------------------------------------------------------------------

  lemma {:induction false} WeightSuffix(caps: seq<string>, k: nat)
    requires k <= |caps|
    ensures Weight(caps[k..]) <= Weight(caps)
  {
    if k > 0 {
      WeightSuffix(caps[1..], k - 1);
      assert caps[1..][k - 1..] == caps[k..];
    }
  }

  // The first greedy line of what is left after k tokens reaches at least as
  // far as the first group of any other cut.
  lemma FirstLineReaches(group: seq<string>, rest: seq<string>, k: nat)
    requires Obeys(group) && k < |group|
    ensures k + LineLength((group + rest)[k..]) >= |group|
  {
    var s := (group + rest)[k..];
    var m := |group| - k;
    assert s[..m] == group[k..];
    WeightSuffix(group, k);
    FitIsMaximal(s, 0, m);
  }

  lemma {:induction false} GreedyNeverBehind(groups: seq<seq<string>>, k: nat)
    requires forall i :: 0 <= i < |groups| ==> Obeys(groups[i])
    requires k <= |Flatten(groups)|
    ensures |Groups(Flatten(groups)[k..])| <= |groups|
    decreases |groups|, |Flatten(groups)| - k
  {
    if groups != [] {
      var g, tail := groups[0], groups[1..];
      var all, rest := Flatten(groups), Flatten(tail);
      assert all == g + rest;
      if k >= |g| {
        assert all[k..] == rest[k - |g|..];
        GreedyNeverBehind(tail, k - |g|);
      } else {
        var n := LineLength(all[k..]);
        FirstLineReaches(g, rest, k);
        assert all[k..][n..] == rest[k + n - |g|..];
        GreedyNeverBehind(tail, k + n - |g|);
      }
    }
  }

  // Every cut of the tokens into lines that obey the limit has at least as many
  // lines as the server sends.
  lemma GreedyIsOptimal(caps: seq<string>, groups: seq<seq<string>>)
    requires Flatten(groups) == caps && forall i :: 0 <= i < |groups| ==> Obeys(groups[i])
    ensures |Groups(caps)| <= |groups|
  {
    GreedyNeverBehind(groups, 0);
    assert caps[0..] == caps;
  }

  // ---------------------------------------------------------------------
  // The lines
  // ---------------------------------------------------------------------

  // One reply line; more stands for the "*" that announces another.
  datatype Line = Line(more: bool, value: string)

  function LinesOf(groups: seq<seq<string>>): (r: seq<Line>)
    ensures |r| == |groups|
    ensures forall i :: 0 <= i < |r| ==> r[i] == Line(i < |r| - 1, Join(groups[i], ' '))
  {
    seq(|groups|, i requires 0 <= i < |groups| => Line(i < |groups| - 1, Join(groups[i], ' ')))
  }

  function ReplyLines(caps: seq<string>): seq<Line> {
    if caps == [] then [Line(false, "")] else LinesOf(Groups(caps))
  }

  lemma ReplyShape(caps: seq<string>)
    ensures var r := ReplyLines(caps);
            |r| >= 1 && forall i :: 0 <= i < |r| ==> (r[i].more <==> i < |r| - 1)
  {
  }

  // A line that fits by weight is at most that long on the wire.
  lemma {:induction false} JoinLength(group: seq<string>)
    requires group != []
    ensures |Join(group, ' ')| + 1 == Weight(group)
  {
    if |group| > 1 { JoinLength(group[1..]); }
  }

  lemma GroupsStep(caps: seq<string>, end: nat)
    requires caps != [] && end == if Fit(caps, 0) == 0 then 1 else Fit(caps, 0)
    ensures 0 < end <= |caps| && Groups(caps) == [caps[..end]] + Groups(caps[end..])
  {
  }

  // The lines of the groups so far, when more are to come or not.
  predicate Written(lines: seq<Line>, done: seq<seq<string>>, more: bool) {
    |lines| == |done| && forall i :: 0 <= i < |lines| ==> lines[i] == Line(i < |done| - 1 || more, Join(done[i], ' '))
  }

  lemma WrittenStep(lines: seq<Line>, done: seq<seq<string>>, group: seq<string>, more: bool)
    requires Written(lines, done, true)
    ensures Written(lines + [Line(more, Join(group, ' '))], done + [group], more)
  {
  }

  lemma WrittenAll(lines: seq<Line>, groups: seq<seq<string>>)
    requires Written(lines, groups, false)
    ensures lines == LinesOf(groups)
  {
  }

  method SendList(tokens: seq<string>) returns (lines: seq<Line>)
    ensures lines == ReplyLines(tokens)
  {
    if |tokens| == 0 { return [Line(false, "")]; }
    var caps := tokens;
    lines := [];
    ghost var done: seq<seq<string>> := [];
    ghost var left, all := Groups(tokens), Groups(tokens);
    NothingLeft(all);
    while |caps| > 0
      invariant done + left == all && left == Groups(caps)
      invariant Written(lines, done, caps != [])
      decreases |caps|
    {
      var end := CountFitting(caps);
      if end == 0 { end := 1; }
      GroupsStep(caps, end);
      WrittenStep(lines, done, caps[..end], end < |caps|);
      Moved(done, caps[..end], Groups(caps[end..]), left, all);
      lines := lines + [Line(end < |caps|, Join(caps[..end], ' '))];
      done := done + [caps[..end]];
      caps := caps[end..];
      left := Groups(caps);
    }
    NothingLeft(done);
    WrittenAll(lines, done);
  }

  // The inner loop: how many tokens fit on one line.
  method CountFitting(caps: seq<string>) returns (end: nat)
    ensures end == Fit(caps, 0)
  {
    end := 0;
    var size: nat := 0;
    while end < |caps| && size + |caps[end]| + 1 <= MAX_LINE
      invariant end <= |caps|
      invariant end + Fit(caps[end..], size) == Fit(caps, 0)
    {
      assert caps[end..][1..] == caps[end + 1..];
      size := size + |caps[end]| + 1;
      end := end + 1;
    }
  }

  // ---------------------------------------------------------------------
  // Merging
  // ---------------------------------------------------------------------

  type Table = map<string, string>

  // The client's loop over the tokens of one line.
  function MergeTokens(t: Table, tokens: seq<string>): Table
    decreases tokens
  {
    if tokens == [] then t
    else MergeTokens(t[Cut(tokens[0], '=').0 := Cut(tokens[0], '=').1], tokens[1..])
  }

  function MergeLine(t: Table, value: string): Table {
    MergeTokens(t, Fields(value))
  }

  function MergeLines(t: Table, lines: seq<Line>): Table
    decreases lines
  {
    if lines == [] then t else MergeLines(MergeLine(t, lines[0].value), lines[1..])
  }

  lemma {:induction false} MergeTokensAppend(t: Table, a: seq<string>, b: seq<string>)
    ensures MergeTokens(t, a + b) == MergeTokens(MergeTokens(t, a), b)
    decreases a
  {
    if a == [] {
      assert a + b == b;
    } else {
      assert (a + b)[1..] == a[1..] + b;
      MergeTokensAppend(t[Cut(a[0], '=').0 := Cut(a[0], '=').1], a[1..], b);
    }
  }

  predicate AllFields(caps: seq<string>) {
    forall i :: 0 <= i < |caps| ==> IsField(caps[i])
  }

  // Merging the values of any lines is merging the tokens they were made of.
  lemma {:induction false} MergeValues(t: Table, groups: seq<seq<string>>, lines: seq<Line>)
    requires |lines| == |groups|
    requires forall i :: 0 <= i < |groups| ==> lines[i].value == Join(groups[i], ' ') && AllFields(groups[i])
    ensures MergeLines(t, lines) == MergeTokens(t, Flatten(groups))
    decreases |groups|
  {
    if groups != [] {
      assert forall p :: p in groups[0] ==> IsField(p);
      FieldsJoin(groups[0]);
      MergeTokensAppend(t, groups[0], Flatten(groups[1..]));
      MergeValues(MergeTokens(t, groups[0]), groups[1..], lines[1..]);
    }
  }

  lemma {:induction false} FlattenFields(groups: seq<seq<string>>, i: nat)
    requires AllFields(Flatten(groups)) && i < |groups|
    ensures AllFields(groups[i])
  {
    var g, rest := groups[0], Flatten(groups[1..]);
    var all := g + rest;
    assert Flatten(groups) == all;
    assert forall k :: 0 <= k < |g| ==> all[k] == g[k];
    assert forall k :: 0 <= k < |rest| ==> all[|g| + k] == rest[k];
    if i > 0 {
      FlattenFields(groups[1..], i - 1);
    }
  }

  lemma MergeReply(t: Table, caps: seq<string>)
    requires AllFields(caps)
    ensures MergeLines(t, ReplyLines(caps)) == MergeTokens(t, caps)
  {
    if caps == [] {
      assert Fields("") == [];
      assert [Line(false, "")][1..] == [];
    } else {
      var groups := Groups(caps);
      GroupsConcatenate(caps);
      forall i | 0 <= i < |groups| ensures AllFields(groups[i]) { FlattenFields(groups, i); }
      MergeValues(t, groups, LinesOf(groups));
    }
  }

  // --- the server's table ---

  // The token of a capability, with its value for clients that asked for values.
  function Token(name: string, value: string, values: bool): string {
    if values && value != "" then name + "=" + value else name
  }

  function Tokens(names: seq<string>, t: Table, values: bool): (r: seq<string>)
    requires forall n :: n in names ==> n in t
    ensures |r| == |names|
    ensures forall i :: 0 <= i < |names| ==> r[i] == Token(names[i], t[names[i]], values)
  {
    seq(|names|, i requires 0 <= i < |names| => Token(names[i], t[names[i]], values))
  }

  // Names and values that survive a token: no white space, and no = in a name.
  predicate CleanTable(t: Table) {
    forall n :: n in t ==> IsField(n) && '=' !in n && (t[n] != "" ==> IsField(t[n]))
  }

  lemma TokenCut(name: string, value: string, values: bool)
    requires IsField(name) && '=' !in name && (value != "" ==> IsField(value))
    ensures IsField(Token(name, value, values))
    ensures Cut(Token(name, value, values), '=') == (name, if values then value else "")
  {
    if values && value != "" {
      CutFirst(name, '=', value);
      assert IsField(name + "=" + value) by {
        var s := name + "=" + value;
        assert forall i :: 0 <= i < |s| ==> s[i] in name || s[i] == '=' || s[i] in value;
      }
    }
  }

  lemma {:induction false} MergeTable(acc: Table, names: seq<string>, t: Table, values: bool)
    requires CleanTable(t) && forall n :: n in names ==> n in t
    ensures MergeTokens(acc, Tokens(names, t, values)) == acc + Seen(names, t, values)
    decreases names
  {
    var tokens := Tokens(names, t, values);
    if names == [] {
      assert acc + Seen(names, t, values) == acc;
    } else {
      var n := names[0];
      TokenCut(n, t[n], values);
      assert tokens[1..] == Tokens(names[1..], t, values);
      MergeTable(acc[n := if values then t[n] else ""], names[1..], t, values);
      SeenStep(acc, names, t, values);
    }
  }

  // What a client learns from the tokens of these names.
  function Seen(names: seq<string>, t: Table, values: bool): Table {
    map n | n in t && n in names :: if values then t[n] else ""
  }

  lemma SeenStep(acc: Table, names: seq<string>, t: Table, values: bool)
    requires names != [] && names[0] in t
    ensures acc[names[0] := if values then t[names[0]] else ""] + Seen(names[1..], t, values) == acc + Seen(names, t, values)
  {
    assert names == [names[0]] + names[1..];
  }

  lemma TokensFields(names: seq<string>, t: Table, values: bool)
    requires CleanTable(t) && forall n :: n in names ==> n in t
    ensures AllFields(Tokens(names, t, values))
  {
    var tokens := Tokens(names, t, values);
    forall i | 0 <= i < |tokens| ensures IsField(tokens[i]) {
      assert names[i] in names;
      TokenCut(names[i], t[names[i]], values);
    }
  }

  // What a client is told of a whole table.
  function Told(t: Table, values: bool): Table {
    map n | n in t :: if values then t[n] else ""
  }

  lemma SeenAll(names: seq<string>, t: Table, values: bool)
    requires forall n :: n in names <==> n in t
    ensures map[] + Seen(names, t, values) == Told(t, values)
  {
  }

  // Whatever order the server lists its capabilities in, the client that merges
  // the reply lines into an empty table has exactly the server's table.
  lemma MergeRestoresTable(names: seq<string>, t: Table, values: bool)
    requires CleanTable(t) && forall n :: n in names <==> n in t
    ensures AllFields(Tokens(names, t, values))
    ensures MergeLines(map[], ReplyLines(Tokens(names, t, values))) == Told(t, values)
  {
    TokensFields(names, t, values);
    MergeReply(map[], Tokens(names, t, values));
    MergeTable(map[], names, t, values);
    SeenAll(names, t, values);
  }
}
