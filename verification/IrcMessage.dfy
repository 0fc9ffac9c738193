/**
 The IRC message (section 2.3.1 of RFC 1459) with IRCv3 message tags: Parse and
 Format as functions, tag escaping, and the exact set of messages that survive
 a trip over the wire.

 Tags of a message form a map; Format writes them in whatever order the map is
 iterated, server tags before client-only tags, so the order is a parameter. A
 nil map and an empty map are the same here, as they are for Tags.Get.
 */
module IrcMessage {
  import opened Text

  type Tags = map<string, string>

  datatype Prefix = Prefix(nick: string, user: string, host: string)

  datatype Message = Message(tags: Tags, prefix: Option<Prefix>, command: string, params: seq<string>)

  datatype Error = EmptyMessage | NoSpaceAfterTags | NoSpaceAfterPrefix | EmptyCommand

  datatype Result = Ok(msg: Message) | Err(why: Error)

  // ---------------------------------------------------------------------
  // Tag values
  // ---------------------------------------------------------------------

  function EscapeChar(c: char): (r: string)
    ensures r != [] && ';' !in r && ' ' !in r && '\r' !in r && '\n' !in r
  {
    if c == ';' then "\\:"
    else if c == ' ' then "\\s"
    else if c == '\\' then "\\\\"
    else if c == '\r' then "\\r"
    else if c == '\n' then "\\n"
    else [c]
  }

  function Escape(s: string): (r: string)
    ensures s != [] ==> r != []
    ensures ';' !in r && ' ' !in r && '\r' !in r && '\n' !in r
  {
    if s == [] then [] else EscapeChar(s[0]) + Escape(s[1..])
  }

  function UnescapeChar(c: char): char {
    if c == ':' then ';' else if c == 's' then ' ' else if c == 'r' then '\r' else if c == 'n' then '\n' else c
  }

  // A lone backslash at the end is dropped, an unknown escape stands for itself.
  function Unescape(s: string): string {
    if s == [] then []
    else if s[0] != '\\' then [s[0]] + Unescape(s[1..])
    else if |s| == 1 then []
    else [UnescapeChar(s[1])] + Unescape(s[2..])
  }

  lemma {:induction false} UnescapeEscape(s: string)
    ensures Unescape(Escape(s)) == s
  {
    if s != [] {
      UnescapeEscape(s[1..]);
      UnescapeStep(s[0], Escape(s[1..]));
      assert s == [s[0]] + s[1..];
    }
  }

  lemma UnescapeStep(c: char, rest: string)
    ensures Unescape(EscapeChar(c) + rest) == [c] + Unescape(rest)
  {
    var e := EscapeChar(c);
    assert (e + rest)[|e|..] == rest;
  }

  // ---------------------------------------------------------------------
  // Parse
  // ---------------------------------------------------------------------

  // One part of the tag section: key, key= or key=value.
  function TagOf(part: string): (kv: (string, string)) {
    var i := IndexOf(part, '=');
    if i < 0 then (part, "") else (part[..i], Unescape(part[i + 1..]))
  }

  // The tags of the parts in order; empty parts are skipped, later parts win.
  function TagsOf(parts: seq<string>): Tags {
    if parts == [] then map[]
    else
      var m, part := TagsOf(parts[..|parts| - 1]), parts[|parts| - 1];
      if part == "" then m else m[TagOf(part).0 := TagOf(part).1]
  }

  function ParseTags(s: string): Tags {
    TagsOf(Split(s, ';'))
  }

  function ParsePrefix(s: string): Prefix {
    var at := IndexOf(s, '@');
    var host := if at < 0 then "" else s[at + 1..];
    var left := if at < 0 then s else s[..at];
    var bang := IndexOf(left, '!');
    if bang < 0 then Prefix(left, "", host) else Prefix(left[..bang], left[bang + 1..], host)
  }

  function ParseParams(s: string): (r: seq<string>)
    ensures s != [] ==> r != []
    decreases |s|
  {
    if s == [] then []
    else if s[0] == ':' then [s[1..]]
    else
      var i := IndexOf(s, ' ');
      if i < 0 then [s] else [s[..i]] + ParseParams(TrimLeft(s[i + 1..], ' '))
  }

  function ParseBody(tags: Tags, prefix: Option<Prefix>, s: string): Result {
    if s == [] then Err(EmptyCommand)
    else Ok(Message(tags, prefix, Upper(ParseParams(s)[0]), ParseParams(s)[1..]))
  }

  function ParseSource(tags: Tags, s: string): Result {
    if s != [] && s[0] == ':' then
      var i := IndexOf(s, ' ');
      if i < 0 then Err(NoSpaceAfterPrefix)
      else ParseBody(tags, Some(ParsePrefix(s[1..i])), TrimLeft(s[i + 1..], ' '))
    else ParseBody(tags, None, s)
  }

  function ParseTrimmed(s: string): Result {
    if s == [] then Err(EmptyMessage)
    else if s[0] == '@' then
      var i := IndexOf(s, ' ');
      if i < 0 then Err(NoSpaceAfterTags)
      else ParseSource(ParseTags(s[1..i]), TrimLeft(s[i + 1..], ' '))
    else ParseSource(map[], s)
  }

  function Parse(raw: string): Result {
    ParseTrimmed(TrimEol(raw))
  }

  // ---------------------------------------------------------------------
  // Format
  // ---------------------------------------------------------------------

  // An order in which Format may visit the tags.
  ghost predicate TagOrder(order: seq<string>, tags: Tags) {
    && (forall k :: k in order <==> k in tags)
    && (forall i, j :: 0 <= i < j < |order| ==> order[i] != order[j])
    && (forall i, j :: 0 <= i < j < |order| && HasPrefix(order[i], "+") ==> HasPrefix(order[j], "+"))
  }

  function FormatTag(key: string, value: string): string {
    if value == "" then key else key + "=" + Escape(value)
  }

  function TagParts(order: seq<string>, tags: Tags): (parts: seq<string>)
    requires forall k :: k in order ==> k in tags
    ensures |parts| == |order|
    ensures forall i :: 0 <= i < |order| ==> parts[i] == FormatTag(order[i], tags[order[i]])
  {
    seq(|order|, i requires 0 <= i < |order| => FormatTag(order[i], tags[order[i]]))
  }

  function FormatPrefix(p: Prefix): string {
    if p.host != "" then p.nick + "!" + p.user + "@" + p.host else p.nick
  }

  predicate NeedsColon(p: string) {
    ' ' in p || ':' in p || p == ""
  }

  // The last parameter gets a colon when it would not be read back without it.
  function LastText(p: string): string {
    if NeedsColon(p) then ":" + p else p
  }

  function ParamsText(ps: seq<string>): string
    requires ps != []
  {
    if |ps| == 1 then LastText(ps[0]) else ps[0] + " " + ParamsText(ps[1..])
  }

  function FormatParams(ps: seq<string>): string {
    if ps == [] then "" else " " + ParamsText(ps)
  }

  function FormatBody(command: string, params: seq<string>): string {
    command + FormatParams(params)
  }

  function FormatSource(prefix: Option<Prefix>, body: string): string {
    if prefix.None? then body else ":" + FormatPrefix(prefix.value) + " " + body
  }

  function Format(m: Message, order: seq<string>): string
    requires forall k :: k in order ==> k in m.tags
  {
    var source := FormatSource(m.prefix, FormatBody(m.command, m.params));
    if order == [] then source else "@" + Join(TagParts(order, m.tags), ';') + " " + source
  }

  // ---------------------------------------------------------------------
  // The messages that survive
  // ---------------------------------------------------------------------

  predicate StartsWith(s: string, c: char) {
    s != [] && s[0] == c
  }

  predicate EndsInEol(s: string) {
    s != [] && (s[|s| - 1] == '\r' || s[|s| - 1] == '\n')
  }

  ghost predicate GoodKey(k: string) {
    ';' !in k && '=' !in k && ' ' !in k
  }

  // The one key Format prints as nothing at all is the empty key without a value.
  ghost predicate GoodTags(tags: Tags) {
    && (forall k :: k in tags ==> GoodKey(k))
    && ("" in tags ==> tags[""] != "")
  }

  // A user is only printed together with a host.
  predicate GoodPrefix(p: Prefix) {
    && ' ' !in p.nick && '@' !in p.nick && '!' !in p.nick
    && ' ' !in p.user && '@' !in p.user
    && ' ' !in p.host
    && (p.host == "" ==> p.user == "")
  }

  predicate GoodMiddle(p: string) {
    p != "" && ' ' !in p && p[0] != ':'
  }

  predicate GoodParams(ps: seq<string>) {
    forall i :: 0 <= i < |ps| - 1 ==> GoodMiddle(ps[i])
  }

  ghost predicate GoodCommand(m: Message) {
    var bare := m.tags == map[] && m.prefix.None?;
    && Upper(m.command) == m.command
    && ' ' !in m.command
    && !StartsWith(m.command, ':')
    && (bare ==> !StartsWith(m.command, '@'))
    && (m.command == "" ==> bare && m.params != [])
  }

  predicate GoodEnd(m: Message) {
    !EndsInEol(if m.params == [] then m.command else m.params[|m.params| - 1])
  }

  ghost predicate WellFormed(m: Message) {
    && GoodTags(m.tags)
    && (m.prefix.Some? ==> GoodPrefix(m.prefix.value))
    && GoodCommand(m)
    && GoodParams(m.params)
    && GoodEnd(m)
  }

  // ---------------------------------------------------------------------
  // Parsing what was formatted
  // ---------------------------------------------------------------------

  lemma TrimLeftNothing(s: string, c: char)
    requires !StartsWith(s, c)
    ensures TrimLeft(s, c) == s
  {
  }

  lemma {:induction false} TrimEolNothing(s: string)
    requires !EndsInEol(s)
    ensures TrimEol(s) == s
  {
  }

  // What follows the first space of head + " " + tail.
  lemma SpaceAfter(head: string, tail: string)
    requires ' ' !in head
    ensures IndexOf(head + " " + tail, ' ') == |head|
    ensures (head + " " + tail)[..|head|] == head
    ensures (head + " " + tail)[|head| + 1..] == tail
  {
    IndexOfFirst(head, ' ', tail);
  }

  lemma BetweenMarks(mark: char, p: string, rest: string)
    ensures ([mark] + p + " " + rest)[1..|p| + 1] == p
  {
  }

  // --- parameters ---

  lemma ParamsTextStart(ps: seq<string>)
    requires GoodParams(ps) && ps != []
    ensures ParamsText(ps) != [] && ParamsText(ps)[0] != ' '
  {
    assert |ps| > 1 ==> GoodMiddle(ps[0]);
  }

  lemma ParseParamsStep(head: string, tail: string)
    requires ' ' !in head && !StartsWith(head, ':') && !StartsWith(tail, ' ')
    ensures ParseParams(head + " " + tail) == [head] + ParseParams(tail)
  {
    SpaceAfter(head, tail);
    TrimLeftNothing(tail, ' ');
    assert head != [] ==> (head + " " + tail)[0] == head[0];
  }

  lemma GoodParamsTail(ps: seq<string>)
    requires GoodParams(ps) && |ps| > 1
    ensures GoodMiddle(ps[0]) && GoodParams(ps[1..])
  {
    assert forall i :: 0 <= i < |ps[1..]| - 1 ==> ps[1..][i] == ps[i + 1];
  }

  lemma {:induction false} ParseParamsText(ps: seq<string>)
    requires GoodParams(ps) && ps != []
    ensures ParseParams(ParamsText(ps)) == ps
  {
    if |ps| > 1 {
      var tail := ParamsText(ps[1..]);
      GoodParamsTail(ps);
      ParamsTextStart(ps[1..]);
      ParseParamsStep(ps[0], tail);
      ParseParamsText(ps[1..]);
      assert ps == [ps[0]] + ps[1..];
    }
  }

  lemma ParseFormatBody(m: Message)
    requires GoodCommand(m) && GoodParams(m.params)
    ensures ParseBody(m.tags, m.prefix, FormatBody(m.command, m.params)) == Ok(m)
  {
    var c, ps := m.command, m.params;
    var s := FormatBody(c, ps);
    if ps == [] {
      assert s == c;
    } else {
      ParamsTextStart(ps);
      ParseParamsText(ps);
      var tail := ParamsText(ps);
      assert s == c + " " + tail;
      ParseParamsStep(c, tail);
      assert ParseParams(s) == [c] + ps;
    }
  }

  // --- prefix ---

  lemma ParseFormatPrefix(p: Prefix)
    requires GoodPrefix(p)
    ensures ParsePrefix(FormatPrefix(p)) == p
    ensures ' ' !in FormatPrefix(p)
  {
    if p.host != "" {
      var left := p.nick + "!" + p.user;
      assert FormatPrefix(p) == left + "@" + p.host;
      IndexOfFirst(left, '@', p.host);
      assert (left + "@" + p.host)[..|left|] == left;
      assert (left + "@" + p.host)[|left| + 1..] == p.host;
      IndexOfFirst(p.nick, '!', p.user);
      assert left[..|p.nick|] == p.nick && left[|p.nick| + 1..] == p.user;
    }
  }

  lemma ParseFormatSource(m: Message)
    requires m.prefix.Some? ==> GoodPrefix(m.prefix.value)
    requires GoodCommand(m) && GoodParams(m.params)
    ensures ParseSource(m.tags, FormatSource(m.prefix, FormatBody(m.command, m.params))) == Ok(m)
  {
    var body := FormatBody(m.command, m.params);
    ParseFormatBody(m);
    if m.prefix.Some? {
      var p := FormatPrefix(m.prefix.value);
      ParseFormatPrefix(m.prefix.value);
      SpaceAfter(":" + p, body);
      BetweenMarks(':', p, body);
      assert !StartsWith(body, ' ');
      TrimLeftNothing(body, ' ');
    } else {
      BodyStart(m);
    }
  }

  // How the body of a message without a prefix begins.
  lemma BodyStart(m: Message)
    requires GoodCommand(m)
    ensures FormatBody(m.command, m.params) != []
    ensures !StartsWith(FormatBody(m.command, m.params), ':')
    ensures m.tags == map[] && m.prefix.None? ==> !StartsWith(FormatBody(m.command, m.params), '@')
    ensures m.command != "" ==> !StartsWith(FormatBody(m.command, m.params), ' ')
  {
    var s := FormatBody(m.command, m.params);
    if m.command == "" {
      assert s == FormatParams(m.params) && s[0] == ' ';
    } else {
      assert s[0] == m.command[0];
    }
  }

  // --- tags ---

  lemma FormatTagShape(k: string, v: string)
    requires GoodKey(k)
    ensures ';' !in FormatTag(k, v) && ' ' !in FormatTag(k, v)
    ensures TagOf(FormatTag(k, v)) == (k, v)
    ensures FormatTag(k, v) == "" <==> k == "" && v == ""
  {
    if v != "" {
      IndexOfFirst(k, '=', Escape(v));
      var t := k + "=" + Escape(v);
      assert t[..|k|] == k && t[|k| + 1..] == Escape(v);
      UnescapeEscape(v);
    }
  }

  // An empty key without a value leaves no trace on the wire.
  predicate LeavesTrace(k: string, v: string) {
    k != "" || v != ""
  }

  function Kept(tags: Tags): Tags {
    map k | k in tags && LeavesTrace(k, tags[k]) :: tags[k]
  }

  function KeptOf(order: seq<string>, tags: Tags): Tags {
    map k | k in tags && k in order && LeavesTrace(k, tags[k]) :: tags[k]
  }

  lemma KeptSnoc(init: seq<string>, last: string, tags: Tags)
    requires last in tags
    ensures KeptOf(init + [last], tags) ==
            if LeavesTrace(last, tags[last]) then KeptOf(init, tags)[last := tags[last]] else KeptOf(init, tags)
  {
  }

  lemma TagsSnoc(parts: seq<string>, part: string)
    ensures TagsOf(parts + [part]) ==
            if part == "" then TagsOf(parts) else TagsOf(parts)[TagOf(part).0 := TagOf(part).1]
  {
    assert (parts + [part])[..|parts|] == parts;
  }

  lemma TagPartsAppend(order: seq<string>, k: string, tags: Tags)
    requires (forall x :: x in order ==> x in tags) && k in tags
    ensures TagParts(order + [k], tags) == TagParts(order, tags) + [FormatTag(k, tags[k])]
  {
    var parts := TagParts(order + [k], tags);
    assert forall i :: 0 <= i < |order| ==> (order + [k])[i] == order[i];
  }

  // The parts written in some order read back as the tags named in it, except
  // that an empty key without a value leaves no trace.
  lemma {:induction false} TagsOfParts(order: seq<string>, tags: Tags)
    requires forall k :: k in order ==> k in tags && GoodKey(k)
    ensures TagsOf(TagParts(order, tags)) == KeptOf(order, tags)
  {
    if order == [] {
      assert TagParts(order, tags) == [];
    } else {
      var init, last := order[..|order| - 1], order[|order| - 1];
      assert order == init + [last];
      TagsOfParts(init, tags);
      FormatTagShape(last, tags[last]);
      TagPartsAppend(init, last, tags);
      TagsSnoc(TagParts(init, tags), FormatTag(last, tags[last]));
      KeptSnoc(init, last, tags);
    }
  }

  lemma {:induction false} JoinFree(parts: seq<string>, sep: char, c: char)
    requires c != sep && forall p :: p in parts ==> c !in p
    ensures c !in Join(parts, sep)
  {
    if |parts| > 1 {
      JoinFree(parts[1..], sep, c);
    }
  }

  lemma PartsFree(order: seq<string>, tags: Tags)
    requires forall k :: k in order ==> k in tags && GoodKey(k)
    ensures forall p :: p in TagParts(order, tags) ==> ';' !in p && ' ' !in p
  {
    var parts := TagParts(order, tags);
    forall i | 0 <= i < |parts| ensures ';' !in parts[i] && ' ' !in parts[i] {
      assert order[i] in order;
      FormatTagShape(order[i], tags[order[i]]);
    }
  }

  // Reading back the tag section, whatever the order it was written in.
  lemma ParseFormatTags(order: seq<string>, tags: Tags)
    requires TagOrder(order, tags) && order != []
    requires forall k :: k in tags ==> GoodKey(k)
    ensures ' ' !in Join(TagParts(order, tags), ';')
    ensures ParseTags(Join(TagParts(order, tags), ';')) == Kept(tags)
  {
    PartsFree(order, tags);
    JoinFree(TagParts(order, tags), ';', ' ');
    SplitJoin(TagParts(order, tags), ';');
    TagsOfParts(order, tags);
    KeptWhole(order, tags);
  }

  lemma KeptWhole(order: seq<string>, tags: Tags)
    requires TagOrder(order, tags)
    ensures KeptOf(order, tags) == Kept(tags)
  {
  }

  lemma TaggedText(t: string, source: string)
    requires ' ' !in t
    ensures ParseTrimmed("@" + t + " " + source) == ParseSource(ParseTags(t), TrimLeft(source, ' '))
  {
    SpaceAfter("@" + t, source);
    BetweenMarks('@', t, source);
  }

  // A message with tags, read up to the end of its tag section.
  lemma ParseTagged(order: seq<string>, tags: Tags, source: string)
    requires TagOrder(order, tags) && order != []
    requires forall k :: k in tags ==> GoodKey(k)
    ensures ParseTrimmed("@" + Join(TagParts(order, tags), ';') + " " + source) ==
            ParseSource(Kept(tags), TrimLeft(source, ' '))
  {
    ParseFormatTags(order, tags);
    TaggedText(Join(TagParts(order, tags), ';'), source);
  }

  lemma FormatSourceStart(m: Message)
    requires GoodCommand(m)
    ensures FormatSource(m.prefix, FormatBody(m.command, m.params)) != []
    ensures m.tags != map[] ==> !StartsWith(FormatSource(m.prefix, FormatBody(m.command, m.params)), ' ')
    ensures m.tags == map[] ==> !StartsWith(FormatSource(m.prefix, FormatBody(m.command, m.params)), '@')
  {
    BodyStart(m);
  }

  // The line ends as its last piece does.
  lemma {:induction false} ParamsTextEnd(ps: seq<string>)
    requires ps != []
    ensures EndsInEol(ParamsText(ps)) <==> EndsInEol(ps[|ps| - 1])
  {
    if |ps| > 1 {
      ParamsTextEnd(ps[1..]);
      var tail := ParamsText(ps[1..]);
      if tail != [] { assert ParamsText(ps)[|ParamsText(ps)| - 1] == tail[|tail| - 1]; }
    }
  }

  lemma BodyEnd(c: string, ps: seq<string>)
    requires FormatBody(c, ps) != []
    ensures EndsInEol(FormatBody(c, ps)) <==> EndsInEol(if ps == [] then c else ps[|ps| - 1])
  {
    if ps == [] {
      assert FormatBody(c, ps) == c;
    } else {
      ParamsTextEnd(ps);
      assert FormatBody(c, ps) == (c + " ") + ParamsText(ps);
      if ParamsText(ps) != [] { EndOfSuffix(c + " ", ParamsText(ps)); }
    }
  }

  lemma EndOfSuffix(a: string, b: string)
    requires b != []
    ensures EndsInEol(a + b) <==> EndsInEol(b)
  {
    assert (a + b)[|a + b| - 1] == b[|b| - 1];
  }

  // What stands before the body of a message.
  function Head(m: Message, order: seq<string>): string
    requires forall k :: k in order ==> k in m.tags
  {
    (if order == [] then "" else "@" + Join(TagParts(order, m.tags), ';') + " ")
    + (if m.prefix.None? then "" else ":" + FormatPrefix(m.prefix.value) + " ")
  }

  lemma HeadAndBody(m: Message, order: seq<string>)
    requires forall k :: k in order ==> k in m.tags
    ensures Format(m, order) == Head(m, order) + FormatBody(m.command, m.params)
  {
    var a := if order == [] then "" else "@" + Join(TagParts(order, m.tags), ';') + " ";
    var b := if m.prefix.None? then "" else ":" + FormatPrefix(m.prefix.value) + " ";
    var body := FormatBody(m.command, m.params);
    Associate(a, b, body);
    NothingLeft(body);
    NothingLeft(b + body);
  }

  lemma FormatEnd(m: Message, order: seq<string>)
    requires (forall k :: k in order ==> k in m.tags) && FormatBody(m.command, m.params) != []
    ensures EndsInEol(Format(m, order)) <==> !GoodEnd(m)
  {
    HeadAndBody(m, order);
    EndOfSuffix(Head(m, order), FormatBody(m.command, m.params));
    BodyEnd(m.command, m.params);
  }

  // Formatting a well-formed message, in any tag order, and parsing the line
  // gives the message back.
  lemma FormatThenParse(m: Message, order: seq<string>)
    requires WellFormed(m) && TagOrder(order, m.tags)
    ensures Parse(Format(m, order)) == Ok(m)
  {
    ParseFormatSource(m);
    FormatSourceStart(m);
    FormatEnd(m, order) by { BodyStart(m); }
    TrimEolNothing(Format(m, order));
    OrderEmpty(order, m.tags);
    if order != [] {
      ReadTagged(m, order);
    }
  }

  lemma ReadTagged(m: Message, order: seq<string>)
    requires TagOrder(order, m.tags) && order != [] && GoodTags(m.tags)
    requires var source := FormatSource(m.prefix, FormatBody(m.command, m.params));
             !StartsWith(source, ' ') && ParseSource(m.tags, source) == Ok(m)
    ensures ParseTrimmed(Format(m, order)) == Ok(m)
  {
    var source := FormatSource(m.prefix, FormatBody(m.command, m.params));
    ParseTagged(order, m.tags, source);
    TrimLeftNothing(source, ' ');
    KeepsAll(m.tags);
  }

  lemma KeepsAll(tags: Tags)
    requires GoodTags(tags)
    ensures Kept(tags) == tags
  {
  }

  lemma OrderEmpty(order: seq<string>, tags: Tags)
    requires TagOrder(order, tags)
    ensures order == [] <==> tags == map[]
  {
    if order != [] {
      assert order[0] in order;
    } else {
      assert forall k :: k !in tags;
      assert tags.Keys == {};
    }
  }

  // ---------------------------------------------------------------------
  // Only well-formed messages survive
  // ---------------------------------------------------------------------

  lemma {:induction false} TrimEolAppend(a: string, b: string)
    requires !EndsInEol(a)
    ensures TrimEol(a + b) == a + TrimEol(b)
  {
    if EndsInEol(b) {
      assert (a + b)[|a + b| - 1] == b[|b| - 1];
      assert (a + b)[..|a + b| - 1] == a + b[..|b| - 1];
      TrimEolAppend(a, b[..|b| - 1]);
    } else if b == [] {
      assert a + b == a;
    } else {
      assert (a + b)[|a + b| - 1] == b[|b| - 1];
    }
  }

  // What the parameter loop takes off the text in one turn.
  lemma ParamsColon(s: string)
    requires s != "" && s[0] == ':'
    ensures ParseParams(s) == [s[1..]]
  {
  }

  lemma ParamsLast(s: string)
    requires s != "" && s[0] != ':' && IndexOf(s, ' ') < 0
    ensures ParseParams(s) == [s]
  {
  }

  lemma ParamsMore(s: string, i: nat, rest: string)
    requires s != "" && s[0] != ':' && i == IndexOf(s, ' ') && rest == TrimLeft(s[i + 1..], ' ')
    ensures ParseParams(s) == [s[..i]] + ParseParams(rest) && |rest| < |s|
  {
    ParamsUnfold(s);
  }

  lemma ParamsUnfold(s: string)
    requires s != "" && s[0] != ':' && IndexOf(s, ' ') >= 0
    ensures ParseParams(s) == [s[..IndexOf(s, ' ')]] + ParseParams(TrimLeft(s[IndexOf(s, ' ') + 1..], ' '))
  {
  }

  lemma GoodCons(x: string, r: seq<string>)
    requires GoodMiddle(x) && GoodParams(r)
    ensures GoodParams([x] + r)
  {
  }

  // The parser's view of what it returns: no space and, after the first, no
  // empty text in anything but the last parameter.
  lemma {:induction false} ParseParamsImage(s: string)
    requires s != [] && s[0] != ' '
    ensures GoodParams(ParseParams(s))
    ensures s[0] != ':' ==> ParseParams(s)[0] != "" && ' ' !in ParseParams(s)[0]
    decreases |s|
  {
    var i := IndexOf(s, ' ');
    if s[0] == ':' {
      ParamsColon(s);
    } else if i < 0 {
      ParamsLast(s);
    } else {
      var p, rest := s[..i], TrimLeft(s[i + 1..], ' ');
      ParamsMore(s, i, rest);
      FirstMiddle(s, i);
      if rest == [] {
        NothingLeft([p]);
      } else {
        ParseParamsImage(rest);
        GoodCons(p, ParseParams(rest));
      }
    }
  }

  lemma FirstMiddle(s: string, i: nat)
    requires s != [] && s[0] != ' ' && s[0] != ':' && i == IndexOf(s, ' ')
    ensures GoodMiddle(s[..i])
  {
    IndexOfLeast(s, ' ');
  }

  // The same for a body that may begin with a space, as one without a command does.
  lemma ParseBodyImage(s: string)
    requires s != []
    ensures GoodParams(ParseParams(s)[1..])
    ensures s[0] != ':' ==> ' ' !in ParseParams(s)[0]
  {
    if s[0] != ' ' {
      ParseParamsImage(s);
      var r := ParseParams(s);
      assert forall k :: 0 <= k < |r| - 2 ==> r[1..][k] == r[k + 1];
    } else {
      assert IndexOf(s, ' ') == 0;
      var rest := TrimLeft(s[1..], ' ');
      assert ParseParams(s) == [""] + ParseParams(rest);
      if rest != [] { ParseParamsImage(rest); }
    }
  }

  // What is left of the parameters when line endings are trimmed off the last.
  lemma ParseTrimmedLast(last: string)
    requires !StartsWith(last, ' ') || NeedsColon(last)
    ensures var r := ParseParams(TrimEol(LastText(last)));
            |r| <= 1 && (r == [last] ==> !EndsInEol(last))
  {
    if NeedsColon(last) {
      TrimEolAppend(":", last);
      assert TrimEol(":" + last)[1..] == TrimEol(last);
    } else {
      var s := TrimEol(last);
      if s != [] && s[0] != ':' { assert ' ' !in s; }
    }
    if EndsInEol(last) { TrimEolShorter(last); }
  }

  lemma TrimmedMore(ps: seq<string>)
    requires GoodParams(ps) && |ps| > 1
    ensures ParseParams(TrimEol(ParamsText(ps))) == [ps[0]] + ParseParams(TrimEol(ParamsText(ps[1..])))
  {
    var tail := ParamsText(ps[1..]);
    GoodParamsTail(ps);
    ParamsTextStart(ps[1..]);
    TrimEolAppend(ps[0] + " ", tail);
    ParseParamsStep(ps[0], TrimEol(tail));
  }

  // A reading that takes the parameters one by one and does well on the last
  // does well on all.
  lemma {:induction false} OneByOne(read: seq<string> -> seq<string>, ps: seq<string>)
    requires GoodParams(ps) && ps != []
    requires forall q :: GoodParams(q) && |q| > 1 ==> read(q) == [q[0]] + read(q[1..])
    requires forall q :: |q| == 1 && GoodParams(q) ==> |read(q)| <= 1 && (read(q) == q ==> !EndsInEol(q[0]))
    ensures |read(ps)| <= |ps| && (read(ps) == ps ==> !EndsInEol(ps[|ps| - 1]))
  {
    if |ps| > 1 {
      GoodParamsTail(ps);
      OneByOne(read, ps[1..]);
      assert ([ps[0]] + read(ps[1..]))[1..] == read(ps[1..]);
    }
  }

  lemma ParseTrimmedParams(ps: seq<string>)
    requires GoodParams(ps) && ps != []
    ensures var r := ParseParams(TrimEol(ParamsText(ps)));
            |r| <= |ps| && (r == ps ==> !EndsInEol(ps[|ps| - 1]))
  {
    var read := (q: seq<string>) => if q == [] then [] else ParseParams(TrimEol(ParamsText(q)));
    forall q | GoodParams(q) && |q| > 1 ensures read(q) == [q[0]] + read(q[1..]) {
      TrimmedMore(q);
    }
    forall q | |q| == 1 && GoodParams(q) ensures |read(q)| <= 1 && (read(q) == q ==> !EndsInEol(q[0])) {
      TrimmedOne(q);
    }
    OneByOne(read, ps);
  }

  lemma TrimmedOne(q: seq<string>)
    requires |q| == 1 && GoodParams(q)
    ensures var r := ParseParams(TrimEol(ParamsText(q)));
            |r| <= 1 && (r == q ==> !EndsInEol(q[0]))
  {
    ParseTrimmedLast(q[0]);
    assert q == [q[0]];
  }

  // The body as the parser meets it: line endings trimmed, and leading spaces
  // too when tags or a prefix came before it.
  function SeenBody(c: string, ps: seq<string>, spaced: bool): string {
    var b := TrimEol(FormatBody(c, ps));
    if spaced then TrimLeft(b, ' ') else b
  }

  lemma SeenCommand(c: string, spaced: bool)
    requires var x := SeenBody(c, [], spaced);
             x != [] && Upper(ParseParams(x)[0]) == c
    ensures c != "" && !EndsInEol(c) && !StartsWith(c, ':') && ' ' !in c
  {
    var x := SeenBody(c, [], spaced);
    assert FormatBody(c, []) == c;
    FirstParamLength(x);
    assert |x| >= |c|;
    assert x == c;
    ParseBodyImage(x);
    UpperImage(ParseParams(x)[0]);
    if EndsInEol(c) { TrimEolShorter(c); }
  }

  lemma SeenText(c: string, ps: seq<string>)
    requires ps != []
    ensures TrimEol(FormatBody(c, ps)) == (c + " ") + TrimEol(ParamsText(ps))
  {
    assert FormatBody(c, ps) == (c + " ") + ParamsText(ps);
    TrimEolAppend(c + " ", ParamsText(ps));
  }

  lemma SeenWhole(c: string, t: string, spaced: bool, x: string)
    requires ' ' !in c && x == if spaced then TrimLeft((c + " ") + t, ' ') else (c + " ") + t
    requires x != [] && x[0] != ':' && (x[0] != ' ' ==> c != "")
    ensures x == (c + " ") + t && !StartsWith(c, ':')
  {
    var b := (c + " ") + t;
    if c != "" {
      assert b[0] == c[0] && c[0] in c;
      TrimLeftNothing(b, ' ');
    }
  }

  lemma SeenParams(c: string, ps: seq<string>, spaced: bool)
    requires ps != [] && GoodParams(ps) && ' ' !in c
    requires var x := SeenBody(c, ps, spaced);
             x != [] && x[0] != ':' && ParseParams(x)[1..] == ps
             && (x[0] != ' ' ==> c != "")
    ensures !StartsWith(c, ':') && !EndsInEol(ps[|ps| - 1])
  {
    var t, x := TrimEol(ParamsText(ps)), SeenBody(c, ps, spaced);
    SeenText(c, ps);
    SeenWhole(c, t, spaced, x);
    EndNecessary(c, ps, x);
  }

  // What a body that was read back tells about its message.
  predicate GoodBody(m: Message, spaced: bool) {
    && GoodParams(m.params) && GoodEnd(m)
    && Upper(m.command) == m.command && ' ' !in m.command && !StartsWith(m.command, ':')
    && (m.command == "" ==> !spaced && m.params != [])
  }

  // Reading the body of a message back to the same command and parameters is
  // possible only for a good command and a good end.
  lemma BodyNecessary(m: Message, spaced: bool)
    requires ParseBody(m.tags, m.prefix, SeenBody(m.command, m.params, spaced)) == Ok(m)
    ensures GoodBody(m, spaced)
  {
    var x := SeenBody(m.command, m.params, spaced);
    var r := ParseParams(x);
    ParseBodyImage(x);
    UpperImage(r[0]);
    FirstParamLength(x);
    if m.params == [] {
      SeenCommand(m.command, spaced);
    } else {
      if x[0] != ' ' { ParseParamsImage(x); }
      SeenParams(m.command, m.params, spaced);
    }
  }

  lemma UpperImage(s: string)
    ensures Upper(Upper(s)) == Upper(s)
    ensures ' ' in Upper(s) <==> ' ' in s
    ensures ':' in Upper(s) <==> ':' in s
  {
    forall c | c == ' ' || c == ':' ensures c in Upper(s) <==> c in s {
      if c in s {
        var i :| 0 <= i < |s| && s[i] == c;
        assert Upper(s)[i] == c;
      }
    }
  }

  lemma FirstParamLength(s: string)
    requires s != []
    ensures |ParseParams(s)[0]| <= |s|
    ensures s[0] == ':' ==> |ParseParams(s)| == 1 && |ParseParams(s)[0]| == |s| - 1
  {
  }

  lemma TrimEolShorter(s: string)
    requires EndsInEol(s)
    ensures |TrimEol(s)| < |s|
  {
  }

  lemma EndNecessary(c: string, ps: seq<string>, x: string)
    requires ps != [] && GoodParams(ps) && ' ' !in c && !StartsWith(c, ':')
    requires x == (c + " ") + TrimEol(ParamsText(ps))
    requires ParseParams(x)[1..] == ps
    ensures !EndsInEol(ps[|ps| - 1])
  {
    var t := TrimEol(ParamsText(ps));
    ParamsTextStart(ps);
    assert !StartsWith(t, ' ');
    ParseParamsStep(c, t);
    ParseTrimmedParams(ps);
  }

  // --- prefix ---

  lemma ParsePrefixImage(s: string)
    requires ' ' !in s
    ensures var p := ParsePrefix(s);
            ' ' !in p.nick && ' ' !in p.user && ' ' !in p.host
            && '@' !in p.nick && '@' !in p.user && '!' !in p.nick
    ensures |ParsePrefix(s).nick| <= |s|
    ensures ParsePrefix(s).user != "" ==> |ParsePrefix(s).nick| < |s|
  {
    var at := IndexOf(s, '@');
    IndexOfLeast(s, '@');
    IndexOfLeast(if at < 0 then s else s[..at], '!');
  }

  lemma PrefixSelfRead(p: Prefix)
    requires ' ' !in p.nick && ' ' !in p.user && ' ' !in p.host
    requires ParsePrefix(FormatPrefix(p)) == p
    ensures GoodPrefix(p)
  {
    ParsePrefixImage(FormatPrefix(p));
  }

  lemma PrefixedSource(tags: Tags, s: string, i: nat)
    requires StartsWith(s, ':') && i == IndexOf(s, ' ')
    ensures i > 0
    ensures ParseSource(tags, s) == ParseBody(tags, Some(ParsePrefix(s[1..i])), TrimLeft(s[i + 1..], ' '))
  {
  }

  lemma ParseBodyPrefix(tags: Tags, prefix: Option<Prefix>, s: string)
    ensures ParseBody(tags, prefix, s).Ok? ==> ParseBody(tags, prefix, s).msg.prefix == prefix
  {
  }

  // The prefix read from a source that has one.
  lemma PrefixRead(m: Message, s: string, i: nat)
    requires StartsWith(s, ':') && ParseSource(m.tags, s) == Ok(m) && i == IndexOf(s, ' ')
    ensures i > 0 && m.prefix == Some(ParsePrefix(s[1..i])) && ' ' !in s[1..i]
  {
    PrefixedSource(m.tags, s, i);
    ParseBodyPrefix(m.tags, Some(ParsePrefix(s[1..i])), TrimLeft(s[i + 1..], ' '));
    IndexOfLeast(s, ' ');
    assert s[1..i] == s[..i][1..];
  }

  lemma NoSpaces(p: Prefix)
    requires ' ' !in p.nick && ' ' !in p.user && ' ' !in p.host
    ensures ' ' !in ":" + FormatPrefix(p)
  {
  }

  lemma HasSpace(head: string, tail: string)
    ensures IndexOf(head + " " + tail, ' ') >= 0
  {
    assert (head + " " + tail)[|head|] == ' ';
  }

  lemma PrefixNecessary(m: Message, body: string)
    requires m.prefix.Some?
    requires ParseSource(m.tags, ":" + FormatPrefix(m.prefix.value) + " " + body) == Ok(m)
    ensures GoodPrefix(m.prefix.value)
    ensures ParseBody(m.tags, m.prefix, TrimLeft(body, ' ')) == Ok(m)
  {
    var p := m.prefix.value;
    var head := ":" + FormatPrefix(p);
    var x := head + " " + body;
    HasSpace(head, body);
    var i := IndexOf(x, ' ');
    assert x[0] == ':';
    PrefixRead(m, x, i);
    ParsePrefixImage(x[1..i]);
    NoSpaces(p);
    SpaceAfter(head, body);
    BetweenMarks(':', FormatPrefix(p), body);
    PrefixedSource(m.tags, x, i);
    PrefixSelfRead(p);
  }

  // The source as the parser meets it.
  function SeenSource(m: Message, spaced: bool): string {
    var s := TrimEol(FormatSource(m.prefix, FormatBody(m.command, m.params)));
    if spaced then TrimLeft(s, ' ') else s
  }

  lemma SeenPrefixed(m: Message, spaced: bool)
    requires m.prefix.Some?
    ensures SeenSource(m, spaced) ==
            ":" + FormatPrefix(m.prefix.value) + " " + TrimEol(FormatBody(m.command, m.params))
  {
    var head := ":" + FormatPrefix(m.prefix.value);
    var body := FormatBody(m.command, m.params);
    TrimEolAppend(head + " ", body);
    TrimLeftNothing(head + " " + TrimEol(body), ' ');
  }

  lemma SourceNecessary(m: Message, spaced: bool)
    requires ParseSource(m.tags, SeenSource(m, spaced)) == Ok(m)
    ensures m.prefix.Some? ==> GoodPrefix(m.prefix.value)
    ensures GoodBody(m, spaced || m.prefix.Some?)
  {
    if m.prefix.Some? {
      SeenPrefixed(m, spaced);
      PrefixNecessary(m, TrimEol(FormatBody(m.command, m.params)));
      BodyNecessary(m, true);
    } else {
      BodyNecessary(m, spaced);
    }
  }

  // --- tags ---

  lemma TagOfImage(part: string)
    requires ';' !in part && ' ' !in part
    ensures GoodKey(TagOf(part).0)
  {
    IndexOfLeast(part, '=');
  }

  lemma {:induction false} TagsOfImage(parts: seq<string>)
    requires forall p :: p in parts ==> ';' !in p && ' ' !in p
    ensures forall k :: k in TagsOf(parts) ==> GoodKey(k)
  {
    if parts != [] {
      var init, last := parts[..|parts| - 1], parts[|parts| - 1];
      assert forall p :: p in init ==> p in parts;
      TagsOfImage(init);
      assert last in parts;
      TagOfImage(last);
    }
  }

  lemma {:induction false} SplitFree(s: string, sep: char, c: char)
    requires c !in s
    ensures forall p :: p in Split(s, sep) ==> c !in p
    decreases |s|
  {
    var i := IndexOf(s, sep);
    if i >= 0 {
      SplitAt(s, sep, i);
      FreeParts(s, c, i);
      SplitFree(s[i + 1..], sep, c);
    } else {
      SplitWhole(s, sep);
    }
  }

  lemma FreeParts(s: string, c: char, i: nat)
    requires c !in s && i < |s|
    ensures c !in s[..i] && c !in s[i + 1..]
  {
  }

  lemma ParseTagsImage(s: string)
    requires ' ' !in s
    ensures forall k :: k in ParseTags(s) ==> GoodKey(k)
  {
    SplitFree(s, ';', ' ');
    SplitParts(s, ';');
    TagsOfImage(Split(s, ';'));
  }

  lemma ParseSourceTags(tags: Tags, s: string)
    ensures ParseSource(tags, s).Ok? ==> ParseSource(tags, s).msg.tags == tags
  {
  }

  lemma TaggedSource(s: string, i: nat)
    requires StartsWith(s, '@') && i == IndexOf(s, ' ')
    ensures i > 0 && ' ' !in s[1..i]
    ensures ParseTrimmed(s) == ParseSource(ParseTags(s[1..i]), TrimLeft(s[i + 1..], ' '))
  {
    IndexOfLeast(s, ' ');
    assert s[1..i] == s[..i][1..];
  }

  // The keys read from a line with tags.
  lemma KeysRead(m: Message, s: string)
    requires StartsWith(s, '@') && ' ' in s && ParseTrimmed(s) == Ok(m)
    ensures forall k :: k in m.tags ==> GoodKey(k)
  {
    var i := IndexOf(s, ' ');
    TaggedSource(s, i);
    ParseTagsImage(s[1..i]);
    ParseSourceTags(ParseTags(s[1..i]), TrimLeft(s[i + 1..], ' '));
  }

  lemma TaggedNecessary(m: Message, order: seq<string>)
    requires TagOrder(order, m.tags) && order != []
    requires Parse(Format(m, order)) == Ok(m)
    ensures GoodTags(m.tags)
    ensures ParseSource(m.tags, SeenSource(m, true)) == Ok(m)
  {
    var source := FormatSource(m.prefix, FormatBody(m.command, m.params));
    var t := Join(TagParts(order, m.tags), ';');
    TrimEolAppend("@" + t + " ", source);
    TaggedLine(m, order, t, TrimEol(source));
  }

  lemma TaggedLine(m: Message, order: seq<string>, t: string, rest: string)
    requires TagOrder(order, m.tags) && order != [] && t == Join(TagParts(order, m.tags), ';')
    requires ParseTrimmed("@" + t + " " + rest) == Ok(m)
    ensures GoodTags(m.tags) && ParseSource(m.tags, TrimLeft(rest, ' ')) == Ok(m)
  {
    var s := "@" + t + " " + rest;
    HasSpace("@" + t, rest);
    assert s[0] == '@';
    KeysRead(m, s);
    ParseTagged(order, m.tags, rest);
    ParseSourceTags(Kept(m.tags), TrimLeft(rest, ' '));
  }

  // A line that starts with @ is read as having tags, so a bare command that
  // starts so is lost.
  lemma BareNecessary(m: Message)
    requires m.tags == map[] && m.prefix.None? && StartsWith(m.command, '@')
    ensures Parse(FormatBody(m.command, m.params)) != Ok(m)
  {
    BareStart(m.command, m.params);
    if ' ' !in m.command && GoodParams(m.params) { BareCount(m.command, m.params); }
    BareLost(m, TrimEol(FormatBody(m.command, m.params)));
  }

  predicate FewerPieces(s: string, n: nat) {
    var i := IndexOf(s, ' ');
    i >= 0 ==> |ParseParams(TrimLeft(s[i + 1..], ' '))| <= n
  }

  lemma BareLost(m: Message, s: string)
    requires m.prefix.None? && StartsWith(s, '@')
    requires ' ' !in m.command && GoodParams(m.params) ==> FewerPieces(s, |m.params|)
    ensures ParseTrimmed(s) != Ok(m)
  {
    if ParseTrimmed(s) == Ok(m) { BareRead(m, s); }
  }

  lemma BareStart(c: string, ps: seq<string>)
    requires StartsWith(c, '@')
    ensures StartsWith(TrimEol(FormatBody(c, ps)), '@')
  {
    var f := FormatBody(c, ps);
    assert f == "@" + f[1..];
    TrimEolAppend("@", f[1..]);
  }

  lemma BareRead(m: Message, s: string)
    requires m.prefix.None? && StartsWith(s, '@') && ParseTrimmed(s) == Ok(m)
    ensures var i := IndexOf(s, ' ');
            && i >= 0 && ' ' !in m.command && GoodParams(m.params)
            && |ParseParams(TrimLeft(s[i + 1..], ' '))| == 1 + |m.params|
  {
    var i := IndexOf(s, ' ');
    TaggedSource(s, i);
    RemainderCommand(m, ParseTags(s[1..i]), TrimLeft(s[i + 1..], ' '));
  }

  lemma RemainderCommand(m: Message, tags: Tags, y: string)
    requires m.prefix.None? && ParseSource(tags, y) == Ok(m)
    ensures ' ' !in m.command && GoodParams(m.params) && |ParseParams(y)| == 1 + |m.params|
  {
    ParseBodyImage(y);
    UpperImage(ParseParams(y)[0]);
  }

  // After the cut at the first space fewer pieces are left than the message had.
  lemma BareCount(c: string, ps: seq<string>)
    requires c != [] && ' ' !in c && GoodParams(ps)
    ensures FewerPieces(TrimEol(FormatBody(c, ps)), |ps|)
  {
    var s := TrimEol(FormatBody(c, ps));
    if ps == [] {
      assert FormatBody(c, ps) == c;
      assert ' ' !in s;
    } else {
      assert FormatBody(c, ps) == (c + " ") + ParamsText(ps);
      TrimEolAppend(c + " ", ParamsText(ps));
      var t := TrimEol(ParamsText(ps));
      assert s == c + " " + t;
      SpaceAfter(c, t);
      ParamsTextStart(ps);
      TrimLeftNothing(t, ' ');
      ParseTrimmedParams(ps);
    }
  }

  // Exactly the well-formed messages come back from the wire unchanged.
  lemma SurvivesIffWellFormed(m: Message, order: seq<string>)
    requires TagOrder(order, m.tags)
    ensures Parse(Format(m, order)) == Ok(m) <==> WellFormed(m)
  {
    OrderEmpty(order, m.tags);
    if WellFormed(m) {
      FormatThenParse(m, order);
    }
    if Parse(Format(m, order)) == Ok(m) {
      if order != [] {
        TaggedNecessary(m, order);
        SourceNecessary(m, true);
      } else {
        UntaggedNecessary(m, order);
      }
    }
  }

  lemma SeenStart(m: Message)
    requires m.prefix.None? ==> !StartsWith(m.command, '@')
    ensures !StartsWith(SeenSource(m, false), '@')
  {
    var source := FormatSource(m.prefix, FormatBody(m.command, m.params));
    assert TrimEol(source) != [] ==> TrimEol(source)[0] == source[0];
    assert m.prefix.None? && m.command != "" ==> source[0] == m.command[0];
    assert m.prefix.None? && m.command == "" ==> source == FormatParams(m.params);
  }

  lemma UntaggedNecessary(m: Message, order: seq<string>)
    requires order == [] && m.tags == map[]
    requires Parse(Format(m, order)) == Ok(m)
    ensures WellFormed(m)
  {
    if m.prefix.None? && StartsWith(m.command, '@') {
      BareNecessary(m);
    } else {
      SeenStart(m);
      SourceNecessary(m, false);
    }
  }
}
