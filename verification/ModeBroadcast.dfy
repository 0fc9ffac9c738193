/**
 Mode replication from line to line: a MODE line is received, applied and
 broadcast as a line, which a replica parses and applies.

 Main results
   BroadcastReadBack    what a replica reads from any broadcast line
   ReplicaAgreesOnWire  exactly when the message comes through whole, and exactly
                        when the replica ends in the server's state
   StrayReturnDiverges  a line after which it does not
 */
module ModeBroadcast {
  import opened Text
  import opened IrcMessage
  import opened Modes
  import opened ModeReplica
  import LabeledResponse

  // Of two changes with arguments, the earlier one's can stand in the middle of a line.
  predicate Middles(cs: seq<Change>) {
    forall i, j :: 0 <= i < j < |cs| && cs[i].arg != "" && cs[j].arg != "" ==> GoodMiddle(cs[i].arg)
  }

  lemma MiddlesCons(c: Change, cs: seq<Change>)
    requires Middles(cs)
    requires (exists x :: x in cs && x.arg != "") && c.arg != "" ==> GoodMiddle(c.arg)
    ensures Middles([c] + cs)
  {
    assert forall i :: 0 <= i < |cs| ==> cs[i] in cs;
  }

  lemma {:induction false} ParseMiddles(modes: string, args: seq<string>, add: bool)
    requires GoodParams(args)
    ensures Middles(ParseFrom(modes, args, add))
    ensures forall c :: c in ParseFrom(modes, args, add) && c.arg != "" ==> c.arg in args
  {
    if modes != "" {
      if modes[0] == '+' || modes[0] == '-' {
        ParseMiddles(modes[1..], args, modes[0] == '+');
      } else if args != [] && NeedsArg(modes[0], add) {
        assert |args| > 1 ==> GoodMiddle(args[0]);
        assert GoodParams(args[1..]) by {
          assert forall i :: 0 <= i < |args[1..]| - 1 ==> args[1..][i] == args[i + 1];
        }
        ParseMiddles(modes[1..], args[1..], add);
        MiddlesCons(Change(add, modes[0], args[0]), ParseFrom(modes[1..], args[1..], add));
      } else {
        ParseMiddles(modes[1..], args, add);
        MiddlesCons(Change(add, modes[0], ""), ParseFrom(modes[1..], args, add));
      }
    }
  }

  lemma FirstMiddles(cs: seq<Change>, rest: seq<Change>)
    requires cs != [] && Middles(cs) && forall c :: c in rest ==> c in cs[1..]
    ensures (exists x :: x in rest && x.arg != "") && cs[0].arg != "" ==> GoodMiddle(cs[0].arg)
  {
    if x :| x in rest && x.arg != "" {
      var j :| 0 <= j < |cs[1..]| && cs[1..][j] == x;
      assert cs[j + 1] == x;
    }
  }

  lemma {:induction false} ReportedMiddles(ch: Channel, cs: seq<Change>)
    requires Middles(cs)
    ensures Middles(SetModes(ch, cs).1)
    ensures forall c :: c in SetModes(ch, cs).1 ==> c in cs
    decreases cs
  {
    if cs != [] {
      var (ch1, done) := ApplyToChannel(ch, cs[0]);
      assert forall i :: 0 <= i < |cs[1..]| ==> cs[1..][i] == cs[i + 1];
      ReportedMiddles(ch1, cs[1..]);
      var rest := SetModes(ch1, cs[1..]).1;
      assert forall c :: c in cs[1..] ==> c in cs;
      if done {
        FirstMiddles(cs, rest);
        MiddlesCons(cs[0], rest);
      } else {
        assert [] + rest == rest;
      }
    }
  }

  lemma {:induction false} FormatMiddles(cs: seq<Change>)
    requires Middles(cs)
    ensures GoodParams(FormatArgs(cs))
    ensures forall a :: a in FormatArgs(cs) ==> exists i :: 0 <= i < |cs| && cs[i].arg == a
  {
    if cs != [] {
      assert forall i :: 0 <= i < |cs[1..]| ==> cs[1..][i] == cs[i + 1];
      FormatMiddles(cs[1..]);
      var rest := FormatArgs(cs[1..]);
      assert FormatArgs(cs) == if cs[0].arg == "" then rest else [cs[0].arg] + rest;
      if cs[0].arg != "" && rest != [] {
        assert rest[0] in rest;
        assert GoodMiddle(cs[0].arg);
      }
      assert cs[0].arg != "" ==> forall k :: 0 < k < |FormatArgs(cs)| ==> FormatArgs(cs)[k] == rest[k - 1];
    }
  }

  lemma KnownMode(ch: Channel, c: Change)
    requires ApplyToChannel(ch, c).1
    ensures c.mode != ' ' && NoEol([c.mode])
  {
  }

  lemma FormatFree(c: Change, rest: seq<Change>, add: bool)
    requires c.mode != ' ' && NoEol([c.mode])
    requires ' ' !in FormatFrom(rest, c.add) && NoEol(FormatFrom(rest, c.add))
    ensures ' ' !in FormatFrom([c] + rest, add) && NoEol(FormatFrom([c] + rest, add))
  {
    assert ([c] + rest)[1..] == rest;
  }

  // Only known modes are ever reported; none is a space or a line ending.
  lemma {:induction false} ReportedModes(ch: Channel, cs: seq<Change>, add: bool)
    ensures ' ' !in FormatFrom(SetModes(ch, cs).1, add) && NoEol(FormatFrom(SetModes(ch, cs).1, add))
    decreases cs
  {
    if cs != [] {
      var (ch1, done) := ApplyToChannel(ch, cs[0]);
      ReportedModes(ch1, cs[1..], if done then cs[0].add else add);
      var rest := SetModes(ch1, cs[1..]).1;
      if done {
        KnownMode(ch, cs[0]);
        FormatFree(cs[0], rest, add);
      } else {
        assert [] + rest == rest;
      }
    }
  }

  predicate NoEol(s: string) {
    '\r' !in s && '\n' !in s
  }

  // The rest of a text after position i and its leading spaces.
  function After(s: string, i: nat): (r: string)
    requires i < |s|
    ensures |r| < |s|
    ensures forall c :: c !in s ==> c !in r
  {
    assert forall c :: c !in s ==> c !in s[i + 1..];
    TrimLeftSuffix(s[i + 1..], ' ');
    TrimLeft(s[i + 1..], ' ')
  }

  lemma {:induction false} ParamsFree(s: string, c: char)
    requires c !in s
    ensures forall p :: p in ParseParams(s) ==> c !in p
    decreases |s|
  {
    if s != [] && s[0] != ':' {
      var i := IndexOf(s, ' ');
      if i >= 0 {
        ParamsFree(After(s, i), c);
        assert ParseParams(s) == [s[..i]] + ParseParams(After(s, i));
      }
    }
  }

  // The parameters read from a body, a source and a line: only the last can be
  // empty or hold a space, and none holds a character that was not there.
  predicate FromText(r: Result, s: string, c: char) {
    r.Ok? ==> GoodParams(r.msg.params) && (c !in s ==> forall p :: p in r.msg.params ==> c !in p)
  }

  lemma BodyParams(tags: Tags, prefix: Option<Prefix>, s: string, c: char)
    ensures FromText(ParseBody(tags, prefix, s), s, c)
  {
    if s != [] {
      ParseBodyImage(s);
      if c !in s { ParamsFree(s, c); }
    }
  }

  lemma FromWhole(r: Result, part: string, s: string, c: char)
    requires FromText(r, part, c) && (c !in s ==> c !in part)
    ensures FromText(r, s, c)
  {
  }

  lemma PrefixedParams(tags: Tags, s: string, c: char, i: nat)
    requires StartsWith(s, ':') && i == IndexOf(s, ' ')
    ensures FromText(ParseSource(tags, s), s, c)
  {
    PrefixedSource(tags, s, i);
    var prefix, rest := Some(ParsePrefix(s[1..i])), After(s, i);
    BodyParams(tags, prefix, rest, c);
    FromWhole(ParseBody(tags, prefix, rest), rest, s, c);
  }

  lemma OnlySource(tags: Tags, s: string)
    requires StartsWith(s, ':') && IndexOf(s, ' ') < 0
    ensures ParseSource(tags, s).Err?
  {
  }

  lemma NoSource(tags: Tags, s: string)
    requires !StartsWith(s, ':')
    ensures ParseSource(tags, s) == ParseBody(tags, None, s)
  {
  }

  lemma SourceParams(tags: Tags, s: string, c: char)
    ensures FromText(ParseSource(tags, s), s, c)
  {
    if !StartsWith(s, ':') {
      NoSource(tags, s);
      BodyParams(tags, None, s, c);
    } else if IndexOf(s, ' ') >= 0 {
      PrefixedParams(tags, s, c, IndexOf(s, ' '));
    } else {
      OnlySource(tags, s);
    }
  }

  lemma TaggedParams(s: string, c: char, i: nat)
    requires StartsWith(s, '@') && i == IndexOf(s, ' ')
    ensures FromText(ParseTrimmed(s), s, c)
  {
    TaggedSource(s, i);
    var tags, rest := ParseTags(s[1..i]), After(s, i);
    SourceParams(tags, rest, c);
    FromWhole(ParseSource(tags, rest), rest, s, c);
  }

  lemma ParsedParams(line: string, c: char)
    ensures FromText(Parse(line), TrimEol(line), c)
  {
    var s := TrimEol(line);
    if StartsWith(s, '@') {
      if IndexOf(s, ' ') >= 0 { TaggedParams(s, c, IndexOf(s, ' ')); }
    } else {
      SourceParams(map[], s, c);
    }
  }

  // The message the server broadcasts to the channel, with the tags one receiver gets.
  function BroadcastMessage(tags: Tags, source: Prefix, chan: string, modes: string, args: seq<string>): Message {
    Message(tags, Some(source), "MODE", [chan, modes] + args)
  }

  // ---------------------------------------------------------------------
  // The broadcast line as it is read
  // ---------------------------------------------------------------------

  lemma LastRead(last: string)
    requires last != ""
    ensures ParseParams(TrimEol(LastText(last))) == SeenArgs([last])
  {
    var t := TrimEol(last);
    assert [last][..0] == [];
    if NeedsColon(last) {
      TrimEolAppend(":", last);
      ParamsColon(":" + t);
      assert (":" + t)[1..] == t;
      NotAllEol(last);
    } else if t != "" {
      assert t[0] in last && ' ' !in t;
      ParamsLast(t);
    }
  }

  lemma {:induction false} NotAllEol(s: string)
    requires ' ' in s || ':' in s
    ensures TrimEol(s) != ""
  {
    if EndsInEol(s) {
      assert s == s[..|s| - 1] + [s[|s| - 1]];
      NotAllEol(s[..|s| - 1]);
    }
  }

  lemma {:induction false} ParamsReadBack(ps: seq<string>)
    requires ps != [] && GoodParams(ps) && ps[|ps| - 1] != ""
    ensures ParseParams(TrimEol(ParamsText(ps))) == SeenArgs(ps)
  {
    if |ps| == 1 {
      LastRead(ps[0]);
      assert ps == [ps[0]];
    } else {
      TrimmedMore(ps);
      GoodParamsTail(ps);
      ParamsReadBack(ps[1..]);
      SeenArgsCons(ps[0], ps[1..]);
      assert ps == [ps[0]] + ps[1..];
    }
  }

  predicate PlainCommand(c: string) {
    c != "" && ' ' !in c && c[0] != ':' && Upper(c) == c
  }

  lemma CommandReadBack(c: string, ps: seq<string>)
    requires PlainCommand(c) && ps != [] && GoodParams(ps) && ps[|ps| - 1] != ""
    ensures var t := TrimEol(FormatBody(c, ps));
            t != "" && t[0] == c[0] && ParseParams(t) == [c] + SeenArgs(ps)
  {
    SeenText(c, ps);
    ParamsTextStart(ps);
    StartKept(ParamsText(ps));
    ParseParamsStep(c, TrimEol(ParamsText(ps)));
    ParamsReadBack(ps);
  }

  lemma StartKept(s: string)
    requires !StartsWith(s, ' ')
    ensures !StartsWith(TrimEol(s), ' ')
  {
  }

  lemma BodyReadBack(tags: Tags, c: string, prefix: Option<Prefix>, ps: seq<string>)
    requires PlainCommand(c) && ps != [] && GoodParams(ps) && ps[|ps| - 1] != ""
    ensures ParseBody(tags, prefix, TrimEol(FormatBody(c, ps))) == Ok(Message(tags, prefix, c, SeenArgs(ps)))
    ensures !StartsWith(TrimEol(FormatBody(c, ps)), ' ')
  {
    CommandReadBack(c, ps);
    assert ([c] + SeenArgs(ps))[1..] == SeenArgs(ps);
  }

  lemma PrefixedLine(tags: Tags, p: string, body: string)
    requires ' ' !in p && !StartsWith(body, ' ')
    ensures ParseSource(tags, ":" + p + " " + body) == ParseBody(tags, Some(ParsePrefix(p)), body)
  {
    var s := ":" + p + " " + body;
    SpaceAfter(":" + p, body);
    BetweenMarks(':', p, body);
    PrefixedSource(tags, s, |p| + 1);
    TrimLeftNothing(body, ' ');
    assert s[0] == ':';
  }

  // Tags in front of a line, or none.
  function TagSection(order: seq<string>, tags: Tags): string
    requires forall k :: k in order ==> k in tags
  {
    if order == [] then "" else "@" + Join(TagParts(order, tags), ';') + " "
  }

  lemma KeptGood(tags: Tags)
    requires GoodTags(tags)
    ensures Kept(tags) == tags
  {
  }

  lemma NoTags(order: seq<string>, tags: Tags)
    requires TagOrder(order, tags) && order == []
    ensures tags == map[]
  {
    assert forall k :: k !in tags;
  }

  // A line whose source comes first behind the tags, if there are any.
  lemma TagsReadBack(order: seq<string>, tags: Tags, source: string)
    requires TagOrder(order, tags) && GoodTags(tags) && StartsWith(source, ':')
    ensures ParseTrimmed(TagSection(order, tags) + source) == ParseSource(tags, source)
  {
    if order == [] {
      NoTags(order, tags);
      NothingLeft(source);
    } else {
      KeptGood(tags);
      ParseTagged(order, tags, source);
      TrimLeftNothing(source, ' ');
    }
  }

  lemma SectionEnd(order: seq<string>, tags: Tags, t: string)
    requires forall k :: k in order ==> k in tags
    requires t != "" && !EndsInEol(t)
    ensures !EndsInEol(TagSection(order, tags) + t)
  {
    var a := TagSection(order, tags);
    assert (a + t)[|a + t| - 1] == t[|t| - 1];
  }

  // Only the end of the line is cut.
  lemma LineTrimmed(a: string, source: string, body: string)
    requires !EndsInEol(a + source)
    ensures TrimEol(a + (source + body)) == a + (source + TrimEol(body))
  {
    Associate(a, source, body);
    TrimEolAppend(a + source, body);
    Associate(a, source, TrimEol(body));
  }

  lemma LineReadBack(order: seq<string>, tags: Tags, p: string, body: string)
    requires TagOrder(order, tags) && GoodTags(tags) && ' ' !in p && !StartsWith(TrimEol(body), ' ')
    ensures Parse(TagSection(order, tags) + (":" + p + " " + body)) ==
            ParseBody(tags, Some(ParsePrefix(p)), TrimEol(body))
  {
    var source := ":" + p + " ";
    SectionEnd(order, tags, source);
    LineTrimmed(TagSection(order, tags), source, body);
    SourceReadBack(order, tags, p, TrimEol(body));
  }

  lemma SourceReadBack(order: seq<string>, tags: Tags, p: string, body: string)
    requires TagOrder(order, tags) && GoodTags(tags) && ' ' !in p && !StartsWith(body, ' ')
    ensures ParseTrimmed(TagSection(order, tags) + (":" + p + " " + body)) == ParseBody(tags, Some(ParsePrefix(p)), body)
  {
    var source := ":" + p + " " + body;
    assert source[0] == ':';
    TagsReadBack(order, tags, source);
    PrefixedLine(tags, p, body);
  }

  lemma FormattedLine(m: Message, order: seq<string>)
    requires (forall k :: k in order ==> k in m.tags) && m.prefix.Some?
    ensures Format(m, order) ==
            TagSection(order, m.tags) + (":" + FormatPrefix(m.prefix.value) + " " + FormatBody(m.command, m.params))
  {
    NothingLeft(":" + FormatPrefix(m.prefix.value) + " " + FormatBody(m.command, m.params));
  }

  // A replica reads any such message with the last parameter's line endings cut,
  // and the prefix as it is printed, whatever tags it gets and in whatever order.
  lemma BroadcastReadBack(tags: Tags, order: seq<string>, source: Prefix, ps: seq<string>)
    requires GoodTags(tags) && TagOrder(order, tags)
    requires ' ' !in FormatPrefix(source) && ps != [] && GoodParams(ps) && ps[|ps| - 1] != ""
    ensures Parse(Format(Message(tags, Some(source), "MODE", ps), order)) ==
            Ok(Message(tags, Some(ParsePrefix(FormatPrefix(source))), "MODE", SeenArgs(ps)))
  {
    var p := FormatPrefix(source);
    assert PlainCommand("MODE");
    BodyReadBack(tags, "MODE", Some(ParsePrefix(p)), ps);
    FormattedLine(Message(tags, Some(source), "MODE", ps), order);
    LineReadBack(order, tags, p, FormatBody("MODE", ps));
  }

  // What the server adds for a receiver to a message without tags is of that kind.
  lemma DressedGood(m: Message, c: LabeledResponse.Context)
    requires m.tags == map[]
    ensures GoodTags(LabeledResponse.Dress(m, c).tags)
    ensures LabeledResponse.Dress(m, c) == m.(tags := LabeledResponse.Dress(m, c).tags)
  {
    var d := LabeledResponse.Dress(m, c);
    forall k | k in d.tags
      ensures k == "time" || k == "account"
    {
      if k != "time" && k != "account" { LabeledResponse.DressTag(m, c, k); }
    }
    assert GoodKey("time") && GoodKey("account");
  }

  // ---------------------------------------------------------------------
  // From line to line
  // ---------------------------------------------------------------------

  // The last argument, if there is one, does not end in a line ending.
  predicate EndsClean(args: seq<string>) {
    args == [] || !EndsInEol(args[|args| - 1])
  }

  lemma SeenCleanIff(args: seq<string>)
    requires args == [] || args[|args| - 1] != ""
    ensures SeenArgs(args) == args <==> EndsClean(args)
  {
    if args != [] {
      var last := args[|args| - 1];
      TrimEolSame(last);
      assert args == args[..|args| - 1] + [last];
    }
  }

  lemma SeenBroadcast(chan: string, modes: string, args: seq<string>)
    requires NoEol(modes) && modes != ""
    ensures SeenArgs([chan, modes] + args) == [chan, modes] + SeenArgs(args)
  {
    Associate([chan], [modes], args);
    Associate([chan], [modes], SeenArgs(args));
    assert [chan] + [modes] == [chan, modes];
    SeenArgsCons(chan, [modes] + args);
    if args == [] {
      SeenAlone(modes);
      NothingLeft([modes]);
    } else {
      SeenArgsCons(modes, args);
    }
  }

  lemma SeenAlone(modes: string)
    requires NoEol(modes) && modes != ""
    ensures SeenArgs([modes]) == [modes]
  {
    TrimEolSame(modes);
    assert modes[|modes| - 1] in modes;
    assert [modes][..0] == [];
  }

  // A received MODE line, what the server makes of it, and the line it broadcasts.
  datatype Exchange = Exchange(after: Channel, applied: seq<Change>, sent: Message, read: Result)

  function Broadcast(ch: Channel, ps: seq<string>, source: Prefix, tags: Tags, order: seq<string>): Exchange
    requires |ps| >= 2 && forall k :: k in order ==> k in tags
  {
    var (after, bm, ba) := ServerMode(ch, ps[1], ps[2..]);
    var sent := BroadcastMessage(tags, source, ps[0], bm, ba);
    Exchange(after, Applied(ch, ps[1], ps[2..]), sent, Parse(Format(sent, order)))
  }

  lemma ReceivedParams(line: string)
    requires Parse(line).Ok? && |Parse(line).msg.params| >= 2
    ensures var ps := Parse(line).msg.params;
            && GoodMiddle(ps[0]) && GoodParams(ps[2..])
            && forall i :: 0 <= i < |ps[2..]| - 1 ==> ps[2..][i] != ""
  {
    var ps := Parse(line).msg.params;
    ParsedParams(line, ' ');
    assert forall i :: 0 <= i < |ps[2..]| - 1 ==> ps[2..][i] == ps[i + 2];
  }

  lemma BroadcastShape(ch: Channel, ps: seq<string>, source: Prefix, tags: Tags, order: seq<string>)
    requires forall k :: k in order ==> k in tags
    requires |ps| >= 2 && GoodMiddle(ps[0]) && GoodParams(ps[2..]) && Applied(ch, ps[1], ps[2..]) != []
    ensures var x := Broadcast(ch, ps, source, tags, order).sent.params;
            && GoodParams(x) && x[|x| - 1] != "" && NoEol(x[1]) && x[1] != ""
  {
    var (_, bm, ba) := ServerMode(ch, ps[1], ps[2..]);
    BroadcastArgs(ch, ps[1], ps[2..]);
    BroadcastModes(ch, ps[1], ps[2..]);
    ParamsShape(ps[0], bm, ba);
  }

  lemma ParamsShape(chan: string, modes: string, args: seq<string>)
    requires GoodMiddle(chan) && GoodMiddle(modes) && GoodParams(args) && forall a :: a in args ==> a != ""
    ensures var x := [chan, modes] + args;
            GoodParams(x) && x[|x| - 1] != "" && x[1] == modes
  {
    var x := [chan, modes] + args;
    assert forall i :: 2 <= i < |x| ==> x[i] == args[i - 2];
    assert args != [] ==> args[|args| - 1] in args;
  }

  // What a broadcast comes to at a replica.
  ghost predicate Settled(ch: Channel, x: Exchange, source: Prefix) {
    if x.applied == [] then x.after == ch
    else
      && x.read.Ok? && |x.read.msg.params| >= 2 && |x.sent.params| >= 2
      && (x.read.msg == x.sent.(prefix := Some(ParsePrefix(FormatPrefix(source)))) <==> EndsClean(x.sent.params[2..]))
      && (ReplicaMode(ch, x.read.msg.params[1], x.read.msg.params[2..]) == x.after <==> !Spoilt(x.applied))
      && (EndsClean(x.sent.params[2..]) ==> !Spoilt(x.applied))
  }

  lemma BroadcastSettles(ch: Channel, ps: seq<string>, source: Prefix, tags: Tags, order: seq<string>)
    requires |ps| >= 2 && GoodMiddle(ps[0]) && GoodParams(ps[2..])
    requires forall i :: 0 <= i < |ps[2..]| - 1 ==> ps[2..][i] != ""
    requires ' ' !in FormatPrefix(source) && ListsDistinct(ch.modes) && GoodTags(tags) && TagOrder(order, tags)
    ensures Settled(ch, Broadcast(ch, ps, source, tags, order), source)
  {
    var x := Broadcast(ch, ps, source, tags, order);
    ReplayApplied(ch, ps[1], ps[2..]);
    if x.applied != [] {
      BroadcastShape(ch, ps, source, tags, order);
      BroadcastReadBack(tags, order, source, x.sent.params);
      var bm, ba := x.sent.params[1], FormatArgs(x.applied);
      assert x.sent.params == [ps[0], bm] + ba;
      SeenBroadcast(ps[0], bm, ba);
      assert ba != [] ==> ba[|ba| - 1] in ba;
      SeenCleanIff(ba);
      assert x.sent.params[2..] == ba && ([ps[0], bm] + SeenArgs(ba))[2..] == SeenArgs(ba);
      AppliedAligned(ch, ps[1], ps[2..]);
      ReplicaOutcome(ch, x.applied, x.after);
      if EndsClean(ba) { CleanNotSpoilt(x.applied); }
    }
  }

  // For every received MODE line that changes something, from a source whose prefix
  // holds no space, and every receiver, whatever tags it gets: what the replica reads is the message sent, up to how its prefix
  // reads, exactly when the last argument broadcast does not end in a line ending;
  // and the replica ends in the server's state exactly when no argument that shows
  // was cut. In particular it does whenever the message comes through whole.
  lemma ReplicaAgreesOnWire(ch: Channel, line: string, source: Prefix, tags: Tags, order: seq<string>)
    requires Parse(line).Ok? && |Parse(line).msg.params| >= 2
    requires ' ' !in FormatPrefix(source) && ListsDistinct(ch.modes) && GoodTags(tags) && TagOrder(order, tags)
    ensures Settled(ch, Broadcast(ch, Parse(line).msg.params, source, tags, order), source)
  {
    ReceivedParams(line);
    BroadcastSettles(ch, Parse(line).msg.params, source, tags, order);
  }

  // On the received line alone: without a line ending behind an argument the replica
  // agrees, for every channel.
  lemma CleanLineAgrees(ch: Channel, line: string, source: Prefix, tags: Tags, order: seq<string>)
    requires Parse(line).Ok? && |Parse(line).msg.params| >= 2
    requires forall i :: 2 <= i < |Parse(line).msg.params| ==> !EndsInEol(Parse(line).msg.params[i])
    requires ' ' !in FormatPrefix(source) && ListsDistinct(ch.modes) && GoodTags(tags) && TagOrder(order, tags)
    ensures var e := Broadcast(ch, Parse(line).msg.params, source, tags, order);
            if e.applied == [] then e.after == ch
            else
              && e.read == Ok(e.sent.(prefix := Some(ParsePrefix(FormatPrefix(source)))))
              && ReplicaMode(ch, e.sent.params[1], e.sent.params[2..]) == e.after
  {
    var ps := Parse(line).msg.params;
    ReplicaAgreesOnWire(ch, line, source, tags, order);
    ReceivedParams(line);
    CleanArgs(ch, ps[1], ps[2..]);
    assert Broadcast(ch, ps, source, tags, order).sent.params[2..] == ServerMode(ch, ps[1], ps[2..]).2;
  }

  lemma CleanArgs(ch: Channel, modes: string, args: seq<string>)
    requires GoodParams(args) && forall i :: 0 <= i < |args| ==> !EndsInEol(args[i])
    ensures EndsClean(ServerMode(ch, modes, args).2)
  {
    BroadcastArgs(ch, modes, args);
    var ba := ServerMode(ch, modes, args).2;
    if ba != [] { assert ba[|ba| - 1] in args; }
  }

  lemma ReplicaOutcome(ch: Channel, applied: seq<Change>, after: Channel)
    requires Aligned(applied) && SetModes(ch, applied) == (after, applied) && ListsDistinct(ch.modes)
    ensures ReplicaMode(ch, FormatModes(applied), SeenArgs(FormatArgs(applied))) == after <==> !Spoilt(applied)
  {
    ReadsTrimmed(applied);
    RunIsSet(ch, applied);
    RunIsSet(ch, Trimmed(applied));
    ReportedAll(ch, applied);
    TrimmedAgreesIff(ch, applied);
  }

  lemma {:induction false} ReportedFewer(ch: Channel, cs: seq<Change>)
    ensures |SetModes(ch, cs).1| <= |cs|
    decreases cs
  {
    if cs != [] { ReportedFewer(ApplyToChannel(ch, cs[0]).0, cs[1..]); }
  }

  lemma {:induction false} ReportedAll(ch: Channel, cs: seq<Change>)
    requires SetModes(ch, cs).1 == cs
    ensures AllReported(ch, cs)
    decreases cs
  {
    if cs != [] {
      var (ch1, done) := ApplyToChannel(ch, cs[0]);
      var rest := SetModes(ch1, cs[1..]).1;
      ReportedFewer(ch1, cs[1..]);
      assert done;
      assert ([cs[0]] + rest)[1..] == rest;
      ReportedAll(ch1, cs[1..]);
    }
  }

  lemma {:induction false} CleanNotSpoilt(cs: seq<Change>)
    requires EndsClean(FormatArgs(cs))
    ensures !Spoilt(cs)
  {
    if cs != [] {
      assert cs == [cs[0]] + cs[1..];
      FormatArgsCons(cs[0], cs[1..]);
      var rest := FormatArgs(cs[1..]);
      if rest != [] {
        assert FormatArgs(cs)[|FormatArgs(cs)| - 1] == rest[|rest| - 1];
        CleanNotSpoilt(cs[1..]);
      }
    }
  }

  // ---------------------------------------------------------------------
  // A line after which they differ
  // ---------------------------------------------------------------------

  function Banned(list: seq<string>): Channel {
    Channel(ModeState({}, map[], map['b' := list]), map[])
  }

  // Two bans of which the second stands already.
  lemma SecondStands(x: string, y: string)
    requires x != y
    ensures ServerMode(Banned([y]), "+bb", [x, y]).0 == Banned([y, x])
    ensures Applied(Banned([y]), "+bb", [x, y]) == [Change(true, 'b', x)]
  {
    var ch, c, d := Banned([y]), Change(true, 'b', x), Change(true, 'b', y);
    ParseBans([x, y]);
    Ban(ch, x);
    var ch1 := ApplyToChannel(ch, c).0;
    assert [y] + [x] == [y, x] && map['b' := [y]]['b' := [y, x]] == map['b' := [y, x]];
    assert ch1 == Banned([y, x]);
    assert 'b' !in PREFIX_MODES;
    assert ApplyToChannel(ch1, d) == (ch1, false);
    SetTwo(ch, ch1, c, d);
  }

  lemma SetTwo(ch: Channel, ch1: Channel, c: Change, d: Change)
    requires ApplyToChannel(ch, c) == (ch1, true) && ApplyToChannel(ch1, d) == (ch1, false)
    ensures SetModes(ch, [c, d]) == (ch1, [c])
  {
    var none: seq<Change> := [];
    assert [c, d][1..] == [d] && [d][1..] == none;
    NothingLeft(none);
    NothingLeft([c]);
    assert SetModes(ch1, [d]) == (ch1, none);
  }

  lemma BanLine(chan: string, x: string, y: string)
    requires GoodMiddle(chan) && GoodMiddle(x) && y != "" && !EndsInEol(y)
    ensures var m := Message(map[], None, "MODE", [chan, "+bb", x, y]);
            Parse(Format(m, [])) == Ok(m)
  {
    var m := Message(map[], None, "MODE", [chan, "+bb", x, y]);
    assert Upper("MODE") == "MODE";
    assert GoodMiddle("+bb");
    FormatThenParse(m, []);
  }

  // The first ban, if it ends in a carriage return, is then the last argument
  // broadcast. The server has banned it as received, the replica without the
  // carriage return.
  lemma StrayReturnDiverges(chan: string, x: string, y: string, source: Prefix,
                            tags: Tags, order: seq<string>)
    requires GoodTags(tags) && TagOrder(order, tags)
    requires ' ' !in FormatPrefix(source) && GoodMiddle(chan) && GoodMiddle(x) && EndsInEol(x)
    requires y != "" && !EndsInEol(y)
    ensures var m := Message(map[], None, "MODE", [chan, "+bb", x, y]);
            var e := Broadcast(Banned([y]), m.params, source, tags, order);
            && Parse(Format(m, [])) == Ok(m) && e.after == Banned([y, x])
            && e.read.Ok? && |e.read.msg.params| >= 2
            && ReplicaMode(Banned([y]), e.read.msg.params[1], e.read.msg.params[2..]) != e.after
  {
    BanLine(chan, x, y);
    var ps := [chan, "+bb", x, y];
    var e := Broadcast(Banned([y]), ps, source, tags, order);
    SecondSpoils(chan, x, y, source, tags, order);
    Diverged(Banned([y]), e, source);
  }

  lemma SecondSpoils(chan: string, x: string, y: string, source: Prefix,
                     tags: Tags, order: seq<string>)
    requires GoodTags(tags) && TagOrder(order, tags)
    requires ' ' !in FormatPrefix(source) && GoodMiddle(chan) && GoodMiddle(x) && EndsInEol(x) && x != y
    ensures var e := Broadcast(Banned([y]), [chan, "+bb", x, y], source, tags, order);
            Settled(Banned([y]), e, source) && e.after == Banned([y, x]) && e.applied != [] && Spoilt(e.applied)
  {
    SecondStands(x, y);
    SpoiltBan(x);
    BanSettles(chan, "+bb", x, y, source, tags, order);
    assert [chan, "+bb", x, y][2..] == [x, y];
  }

  lemma BanSettles(chan: string, modes: string, x: string, y: string, source: Prefix,
                   tags: Tags, order: seq<string>)
    requires GoodTags(tags) && TagOrder(order, tags)
    requires ' ' !in FormatPrefix(source) && GoodMiddle(chan) && GoodMiddle(x)
    ensures Settled(Banned([y]), Broadcast(Banned([y]), [chan, modes, x, y], source, tags, order), source)
  {
    var ps := [chan, modes, x, y];
    assert ps[2..] == [x, y];
    BroadcastSettles(Banned([y]), ps, source, tags, order);
  }

  lemma SpoiltBan(x: string)
    requires EndsInEol(x)
    ensures Spoilt([Change(true, 'b', x)])
  {
    assert [Change(true, 'b', x)][1..] == [];
    assert TypeOf(ChannelValidator, 'b') == ListMode;
  }

  lemma Diverged(ch: Channel, e: Exchange, source: Prefix)
    requires Settled(ch, e, source) && e.applied != [] && Spoilt(e.applied)
    ensures e.read.Ok? && |e.read.msg.params| >= 2
    ensures ReplicaMode(ch, e.read.msg.params[1], e.read.msg.params[2..]) != e.after
  {
  }

  lemma BroadcastArgs(ch: Channel, modes: string, args: seq<string>)
    requires GoodParams(args)
    ensures var ba := ServerMode(ch, modes, args).2;
            GoodParams(ba) && forall a :: a in ba ==> a in args
  {
    if !ListQuery(modes, args) {
      var cs := ParseModes(modes, args);
      ParseMiddles(modes, args, true);
      ReportedMiddles(ch, cs);
      var applied := SetModes(ch, cs).1;
      FormatMiddles(applied);
      forall a | a in FormatArgs(applied) ensures a in args {
        var i :| 0 <= i < |applied| && applied[i].arg == a;
        assert applied[i] in applied;
      }
    }
  }

  lemma BroadcastModes(ch: Channel, modes: string, args: seq<string>)
    requires Applied(ch, modes, args) != []
    ensures GoodMiddle(ServerMode(ch, modes, args).1) && NoEol(ServerMode(ch, modes, args).1)
  {
    var cs := ParseModes(modes, args);
    var applied := SetModes(ch, cs).1;
    ReportedModes(ch, cs, applied[0].add);
  }
}
