/**
 The line parser and formatter in the form the library has them: a string that
 shrinks from the left, a buffer that grows, and a map ranged over in no
 particular order. Each is proved equal to its counterpart in IrcMessage.
 */
module IrcMessageCodec {
  import opened Text
  import opened IrcMessage

  // ---------------------------------------------------------------------
  // Reading
  // ---------------------------------------------------------------------

  lemma UnescapePlain(s: string, i: nat)
    requires i < |s| && s[i] != '\\'
    ensures Unescape(s[i..]) == [s[i]] + Unescape(s[i + 1..])
  {
    assert s[i..][0] == s[i] && s[i..][1..] == s[i + 1..];
  }

  lemma UnescapePair(s: string, i: nat)
    requires i + 1 < |s| && s[i] == '\\'
    ensures Unescape(s[i..]) == [UnescapeChar(s[i + 1])] + Unescape(s[i + 2..])
  {
    assert s[i..][0] == s[i] && s[i..][1] == s[i + 1] && s[i..][2..] == s[i + 2..];
  }

  method UnescapeTag(s: string) returns (out: string)
    ensures out == Unescape(s)
  {
    out := "";
    var i := 0;
    ghost var left, all := Unescape(s), Unescape(s);
    assert s[0..] == s;
    NothingLeft(all);
    while i < |s|
      invariant 0 <= i <= |s| && left == Unescape(s[i..]) && out + left == all
    {
      if s[i] != '\\' {
        UnescapePlain(s, i);
        Moved(out, s[i], Unescape(s[i + 1..]), left, all);
        out := out + [s[i]];
        i := i + 1;
      } else if i + 1 == |s| {
        assert s[i..] == [s[i]];
        NothingLeft(out);
        return;
      } else {
        UnescapePair(s, i);
        Moved(out, UnescapeChar(s[i + 1]), Unescape(s[i + 2..]), left, all);
        out := out + [UnescapeChar(s[i + 1])];
        i := i + 2;
      }
      left := Unescape(s[i..]);
    }
    NothingLeft(out);
  }

  method ReadTags(s: string) returns (tags: Tags)
    ensures tags == ParseTags(s)
  {
    tags := map[];
    var parts := Split(s, ';');
    for n := 0 to |parts|
      invariant tags == TagsOf(parts[..n])
    {
      var part := parts[n];
      assert parts[..n + 1][..n] == parts[..n];
      if part != "" {
        var eq := IndexOf(part, '=');
        if eq >= 0 {
          var value := UnescapeTag(part[eq + 1..]);
          tags := tags[part[..eq] := value];
        } else {
          tags := tags[part := ""];
        }
      }
    }
    assert parts[..|parts|] == parts;
  }

  // The loop over the parameters, the command being the first of them.
  method ReadParams(text: string) returns (params: seq<string>)
    ensures params == ParseParams(text)
  {
    params := [];
    var raw := text;
    ghost var all, now := ParseParams(text), ParseParams(text);
    NothingLeft(all);
    while raw != ""
      invariant params + now == all && now == ParseParams(raw)
      decreases |raw|
    {
      if raw[0] == ':' {
        ParamsColon(raw);
        return params + [raw[1..]];
      }
      var i := IndexOf(raw, ' ');
      if i < 0 {
        ParamsLast(raw);
        return params + [raw];
      }
      var rest := TrimLeft(raw[i + 1..], ' ');
      ParamsMore(raw, i, rest);
      Moved(params, raw[..i], ParseParams(rest), now, all);
      params := params + [raw[..i]];
      raw := rest;
      now := ParseParams(rest);
    }
    NothingLeft(params);
  }

  method ReadBody(tags: Tags, prefix: Option<Prefix>, raw: string) returns (r: Result)
    ensures r == ParseBody(tags, prefix, raw)
  {
    if raw == "" { return Err(EmptyCommand); }
    var params := ReadParams(raw);
    r := Ok(Message(tags, prefix, Upper(params[0]), params[1..]));
  }

  method ReadSource(tags: Tags, raw: string) returns (r: Result)
    ensures r == ParseSource(tags, raw)
  {
    if |raw| > 0 && raw[0] == ':' {
      var i := IndexOf(raw, ' ');
      if i < 0 { return Err(NoSpaceAfterPrefix); }
      r := ReadBody(tags, Some(ParsePrefix(raw[1..i])), TrimLeft(raw[i + 1..], ' '));
    } else {
      r := ReadBody(tags, None, raw);
    }
  }

  method ReadTrimmed(raw: string) returns (r: Result)
    ensures r == ParseTrimmed(raw)
  {
    if raw == "" { return Err(EmptyMessage); }
    if raw[0] == '@' {
      var i := IndexOf(raw, ' ');
      if i < 0 { return Err(NoSpaceAfterTags); }
      TaggedSource(raw, i);
      var tags := ReadTags(raw[1..i]);
      r := ReadSource(tags, TrimLeft(raw[i + 1..], ' '));
    } else {
      r := ReadSource(map[], raw);
    }
  }

  method ReadMessage(line: string) returns (r: Result)
    ensures r == Parse(line)
  {
    r := ReadTrimmed(TrimEol(line));
  }

  // ---------------------------------------------------------------------
  // Writing
  // ---------------------------------------------------------------------

  lemma {:induction false} JoinAppend(parts: seq<string>, p: string, c: char)
    requires parts != []
    ensures Join(parts + [p], c) == Join(parts, c) + [c] + p
  {
    if |parts| > 1 {
      JoinAppend(parts[1..], p, c);
      assert (parts + [p])[1..] == parts[1..] + [p];
      RegroupJoin(parts[0], [c], Join(parts[1..], c), [c] + p);
    } else {
      assert (parts + [p])[1..] == [p];
    }
  }

  lemma RegroupJoin(a: string, b: string, c: string, d: string)
    ensures a + b + (c + d) == (a + b + c) + d
  {
  }

  lemma JoinTag(order: seq<string>, k: string, tags: Tags)
    requires (forall x :: x in order ==> x in tags) && k in tags
    ensures Join(TagParts(order + [k], tags), ';') ==
            (if order == [] then "" else Join(TagParts(order, tags), ';') + ";") + FormatTag(k, tags[k])
  {
    TagPartsAppend(order, k, tags);
    if order != [] {
      JoinAppend(TagParts(order, tags), FormatTag(k, tags[k]), ';');
    }
  }

  // Distinct keys of the map.
  ghost predicate Listed(order: seq<string>, tags: Tags) {
    && (forall k :: k in order ==> k in tags)
    && (forall i, j :: 0 <= i < j < |order| ==> order[i] != order[j])
  }

  lemma ListedAppend(order: seq<string>, tags: Tags, k: string)
    requires Listed(order, tags) && k in tags && k !in order
    ensures Listed(order + [k], tags)
  {
    assert forall i :: 0 <= i < |order| ==> order[i] in order;
  }

  // One pass over the map: the tags of one kind, in any order, written after
  // those already there.
  method WriteTags(text: string, tags: Tags, clientOnly: bool, blank: bool, ghost before: seq<string>)
      returns (buf: string, first: bool, ghost order: seq<string>)
    requires Listed(before, tags) && text == Join(TagParts(before, tags), ';')
    requires blank <==> before == []
    requires forall k :: k in before ==> HasPrefix(k, "+") != clientOnly
    ensures Listed(order, tags) && buf == Join(TagParts(order, tags), ';')
    ensures first <==> order == []
    ensures before <= order
    ensures forall k :: k in order <==> k in before || (k in tags && HasPrefix(k, "+") == clientOnly)
  {
    buf, first, order := text, blank, before;
    var left := tags.Keys;
    while left != {}
      invariant left <= tags.Keys && before <= order && Listed(order, tags)
      invariant forall k :: k in order <==>
                            k in before || (k in tags && k !in left && HasPrefix(k, "+") == clientOnly)
      invariant buf == Join(TagParts(order, tags), ';')
      invariant first <==> order == []
      decreases left
    {
      var k :| k in left;
      left := left - {k};
      if HasPrefix(k, "+") == clientOnly {
        JoinTag(order, k, tags);
        ListedAppend(order, tags, k);
        if !first {
          buf := buf + ";";
        }
        first := false;
        buf := buf + FormatTag(k, tags[k]);
        order := order + [k];
      }
    }
  }

  lemma TwoPasses(server: seq<string>, order: seq<string>, tags: Tags)
    requires Listed(order, tags) && server <= order
    requires forall k :: k in server <==> k in tags && !HasPrefix(k, "+")
    requires forall k :: k in order <==> k in tags
    ensures TagOrder(order, tags)
  {
    assert forall i :: 0 <= i < |server| ==> server[i] in server && order[i] == server[i];
    forall i | |server| <= i < |order| ensures HasPrefix(order[i], "+") {
      assert order[i] in order;
      assert forall j :: 0 <= j < |server| ==> server[j] == order[j] != order[i];
    }
  }

  lemma FormatParamsStep(ps: seq<string>)
    requires ps != []
    ensures FormatParams(ps) ==
            (" " + if |ps| == 1 then LastText(ps[0]) else ps[0]) + FormatParams(ps[1..])
  {
    if |ps| > 1 {
      var tail := ParamsText(ps[1..]);
      assert " " + (ps[0] + " " + tail) == (" " + ps[0]) + (" " + tail);
    } else {
      assert " " + LastText(ps[0]) == (" " + LastText(ps[0])) + "";
    }
  }

  method WriteParams(text: string, params: seq<string>) returns (buf: string)
    ensures buf == text + FormatParams(params)
  {
    buf := text;
    for i := 0 to |params|
      invariant buf + FormatParams(params[i..]) == text + FormatParams(params)
    {
      var p := params[i];
      assert params[i..][1..] == params[i + 1..];
      FormatParamsStep(params[i..]);
      var piece := " " + if i == |params| - 1 then LastText(p) else p;
      Associate(buf, piece, FormatParams(params[i + 1..]));
      buf := buf + piece;
    }
  }

  // The tag section, written in two passes over the map, and the order this run
  // happened to use.
  method WriteTagSection(tags: Tags) returns (buf: string, ghost order: seq<string>)
    ensures TagOrder(order, tags)
    ensures buf == if order == [] then "" else "@" + Join(TagParts(order, tags), ';') + " "
  {
    buf, order := "", [];
    if |tags| > 0 {
      var text, first;
      ghost var server;
      text, first, server := WriteTags("", tags, false, true, []);
      text, first, order := WriteTags(text, tags, true, first, server);
      TwoPasses(server, order, tags);
      buf := "@" + text + " ";
    } else {
      assert tags == map[];
    }
    OrderEmpty(order, tags);
  }

  // The line of a message is its format in some order of its tags, and whatever
  // that order, the line parses back to the message exactly if it is well formed.
  method WriteMessage(m: Message) returns (line: string)
    ensures exists order :: TagOrder(order, m.tags) && line == Format(m, order)
    ensures Parse(line) == Ok(m) <==> WellFormed(m)
  {
    var head;
    ghost var order;
    head, order := WriteTagSection(m.tags);
    var buf := head;
    if m.prefix.Some? {
      buf := buf + ":" + FormatPrefix(m.prefix.value) + " ";
    }
    buf := buf + m.command;
    line := WriteParams(buf, m.params);
    RegroupLine(head, m);
    assert line == Format(m, order);
    SurvivesIffWellFormed(m, order);
  }

  lemma RegroupLine(head: string, m: Message)
    ensures var prefix := if m.prefix.Some? then head + ":" + FormatPrefix(m.prefix.value) + " " else head;
            prefix + m.command + FormatParams(m.params)
            == head + FormatSource(m.prefix, FormatBody(m.command, m.params))
  {
    var body := FormatBody(m.command, m.params);
    if m.prefix.Some? {
      var p := FormatPrefix(m.prefix.value);
      assert (head + ":" + p + " ") + m.command + FormatParams(m.params) == head + (":" + p + " " + body);
    } else {
      assert head + m.command + FormatParams(m.params) == head + body;
    }
  }
}
