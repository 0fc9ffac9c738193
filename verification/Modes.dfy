/**
 Channel modes as replicated state. A MODE command is parsed, applied change by
 change, and what was applied is printed and broadcast; a replica that parses
 the broadcast must end in the state of the server.

 Main results
   FormatParseIff      exactly which change lists survive printing and parsing
   ReplicaAgrees       the replica's state equals the server's
 */
module Modes {
  import opened Text

  datatype Change = Change(add: bool, mode: char, arg: string)

  // ---------------------------------------------------------------------
  // Mode strings
  // ---------------------------------------------------------------------

  predicate NeedsArg(m: char, add: bool) {
    m in {'o', 'O', 'h', 'v', 'b', 'e', 'I', 'q', 'a', 'k'} || (m == 'l' && add)
  }

  // The changes in modes, read in direction add with args still to consume.
  function ParseFrom(modes: string, args: seq<string>, add: bool): seq<Change> {
    if modes == "" then []
    else if modes[0] == '+' then ParseFrom(modes[1..], args, true)
    else if modes[0] == '-' then ParseFrom(modes[1..], args, false)
    else if args != [] && NeedsArg(modes[0], add) then
      [Change(add, modes[0], args[0])] + ParseFrom(modes[1..], args[1..], add)
    else [Change(add, modes[0], "")] + ParseFrom(modes[1..], args, add)
  }

  function ParseModes(modes: string, args: seq<string>): seq<Change> {
    ParseFrom(modes, args, true)
  }

  function Sign(add: bool): char {
    if add then '+' else '-'
  }

  function FormatFrom(cs: seq<Change>, add: bool): string {
    if cs == [] then ""
    else (if cs[0].add == add then [] else [Sign(cs[0].add)]) + [cs[0].mode] + FormatFrom(cs[1..], cs[0].add)
  }

  function FormatArgs(cs: seq<Change>): (args: seq<string>)
    ensures forall a :: a in args ==> a != ""
  {
    if cs == [] then []
    else (if cs[0].arg == "" then [] else [cs[0].arg]) + FormatArgs(cs[1..])
  }

  function FormatModes(cs: seq<Change>): string {
    if cs == [] then "" else [Sign(cs[0].add)] + FormatFrom(cs, cs[0].add)
  }

  // No sign among the modes, arguments only where the parser reads one, and no
  // argument after a change that should have had one and has none.
  ghost predicate Aligned(cs: seq<Change>) {
    && (forall i :: 0 <= i < |cs| ==> Plain(cs[i]))
    && (forall i, j :: 0 <= i < j < |cs| && Bare(cs[i]) ==> cs[j].arg == "")
  }

  predicate Plain(c: Change) {
    c.mode != '+' && c.mode != '-' && (c.arg != "" ==> NeedsArg(c.mode, c.add))
  }

  predicate Bare(c: Change) {
    NeedsArg(c.mode, c.add) && c.arg == ""
  }

  lemma {:induction false} NoArgs(cs: seq<Change>)
    requires forall i :: 0 <= i < |cs| ==> cs[i].arg == ""
    ensures FormatArgs(cs) == []
  {
    if cs != [] { NoArgs(cs[1..]); }
  }

  lemma AlignedTail(cs: seq<Change>)
    requires Aligned(cs) && cs != []
    ensures Plain(cs[0]) && Aligned(cs[1..])
    ensures Bare(cs[0]) ==> FormatArgs(cs[1..]) == []
  {
    assert forall i :: 0 <= i < |cs[1..]| ==> cs[1..][i] == cs[i + 1];
    if Bare(cs[0]) { NoArgs(cs[1..]); }
  }

  lemma ParseSign(s: string, add: bool, args: seq<string>, dir: bool)
    ensures ParseFrom([Sign(add)] + s, args, dir) == ParseFrom(s, args, add)
  {
    assert ([Sign(add)] + s)[1..] == s;
  }

  lemma ParseMode(c: Change, s: string, args: seq<string>)
    requires Plain(c) && (Bare(c) ==> args == [])
    ensures ParseFrom([c.mode] + s, (if c.arg == "" then [] else [c.arg]) + args, c.add)
            == [c] + ParseFrom(s, args, c.add)
  {
    assert ([c.mode] + s)[1..] == s;
    if c.arg == "" {
      assert [] + args == args;
    } else {
      assert ([c.arg] + args)[1..] == args;
    }
  }

  lemma FormatStep(cs: seq<Change>, add: bool)
    requires cs != []
    ensures FormatFrom(cs, add) ==
            (if cs[0].add == add then [] else [Sign(cs[0].add)]) + ([cs[0].mode] + FormatFrom(cs[1..], cs[0].add))
    ensures cs[0].add == add ==> FormatFrom(cs, add) == [cs[0].mode] + FormatFrom(cs[1..], cs[0].add)
  {
    var sign := if cs[0].add == add then [] else [Sign(cs[0].add)];
    Associate(sign, [cs[0].mode], FormatFrom(cs[1..], cs[0].add));
    NothingLeft([cs[0].mode] + FormatFrom(cs[1..], cs[0].add));
  }

  lemma {:induction false} ParseFormatFrom(cs: seq<Change>, add: bool)
    requires Aligned(cs)
    ensures ParseFrom(FormatFrom(cs, add), FormatArgs(cs), add) == cs
  {
    if cs != [] {
      var c, rest := cs[0], FormatFrom(cs[1..], cs[0].add);
      AlignedTail(cs);
      ParseFormatFrom(cs[1..], c.add);
      ParseMode(c, rest, FormatArgs(cs[1..]));
      assert cs == [c] + cs[1..];
      FormatStep(cs, add);
      if c.add != add {
        ParseSign([c.mode] + rest, c.add, FormatArgs(cs), add);
      }
    }
  }

  // Whatever the parser yields is aligned, if only the last argument can be empty.
  lemma {:induction false} ParseAligned(modes: string, args: seq<string>, add: bool)
    requires forall i :: 0 <= i < |args| - 1 ==> args[i] != ""
    ensures Aligned(ParseFrom(modes, args, add))
    ensures args == [] ==> forall c :: c in ParseFrom(modes, args, add) ==> c.arg == ""
  {
    if modes != "" {
      var takes := args != [] && NeedsArg(modes[0], add);
      var later := if takes then args[1..] else args;
      var dir := if modes[0] == '+' then true else if modes[0] == '-' then false else add;
      if modes[0] == '+' || modes[0] == '-' {
        ParseAligned(modes[1..], args, dir);
      } else {
        ParseAligned(modes[1..], later, add);
        var c := Change(add, modes[0], if takes then args[0] else "");
        AlignedCons(c, ParseFrom(modes[1..], later, add));
      }
    }
  }

  lemma AlignedCons(c: Change, cs: seq<Change>)
    requires Plain(c) && Aligned(cs) && (Bare(c) ==> forall x :: x in cs ==> x.arg == "")
    ensures Aligned([c] + cs)
  {
    assert forall i :: 0 <= i < |cs| ==> cs[i] in cs;
  }

  // A change list comes back from its printed form if and only if it is aligned.
  lemma FormatParseIff(cs: seq<Change>)
    ensures ParseModes(FormatModes(cs), FormatArgs(cs)) == cs <==> Aligned(cs)
  {
    ParseAligned(FormatModes(cs), FormatArgs(cs), true) by {
      assert forall i :: 0 <= i < |FormatArgs(cs)| ==> FormatArgs(cs)[i] in FormatArgs(cs);
    }
    if Aligned(cs) && cs != [] {
      ParseFormatFrom(cs, cs[0].add);
      ParseSign(FormatFrom(cs, cs[0].add), cs[0].add, FormatArgs(cs), true);
    }
  }

  // ---------------------------------------------------------------------
  // Mode sets
  // ---------------------------------------------------------------------

  datatype ModeType = FlagMode | ArgAlways | ArgSet | ListMode | Unknown

  datatype Validator = ChannelValidator | UserValidator

  function TypeOf(v: Validator, m: char): ModeType {
    if v.UserValidator? then
      if m in {'i', 'o', 'w', 'r', 'x', 'z', 'W', 'g', 'B'} then FlagMode else Unknown
    else if m in {'i', 'm', 'n', 's', 'p', 't', 'r', 'z', 'c', 'C', 'S', 'G', 'N', 'u', 'f', 'j', 'Q', 'K', 'L',
                  'P', 'O', 'A', 'R', 'T'} then FlagMode
    else if m in {'k', 'l'} then ArgSet
    else if m in {'o', 'h', 'v', 'a', 'q'} then ArgAlways
    else if m in {'b', 'e', 'I'} then ListMode
    else Unknown
  }

  // A letter takes an argument by its type: a list or a member always, a value when it
  // is set. There are two exceptions: removing the key takes one too, and so does O,
  // which is a flag.
  lemma ArgumentByType(m: char, add: bool)
    ensures NeedsArg(m, add) <==>
            || TypeOf(ChannelValidator, m) == ListMode || TypeOf(ChannelValidator, m) == ArgAlways
            || (TypeOf(ChannelValidator, m) == ArgSet && (add || m == 'k'))
            || m == 'O'
  {
  }

  datatype ModeState = ModeState(flags: set<char>, args: map<char, string>, lists: map<char, seq<string>>)

  function ListOf(s: ModeState, m: char): seq<string> {
    if m in s.lists then s.lists[m] else []
  }

  function RemoveFirst(list: seq<string>, x: string): seq<string> {
    if list == [] then [] else if list[0] == x then list[1..] else [list[0]] + RemoveFirst(list[1..], x)
  }

  // One change: the new state and whether it is reported as applied.
  function ApplyChange(s: ModeState, v: Validator, c: Change): (r: (ModeState, bool)) {
    match TypeOf(v, c.mode)
    case FlagMode =>
      if c.add && c.mode !in s.flags then (s.(flags := s.flags + {c.mode}), true)
      else if !c.add && c.mode in s.flags then (s.(flags := s.flags - {c.mode}), true)
      else (s, false)
    case ArgAlways | ArgSet =>
      if c.add then (s.(args := s.args[c.mode := c.arg]), true)
      else if c.mode in s.args then (s.(args := s.args - {c.mode}), true)
      else (s, false)
    case ListMode =>
      var list := ListOf(s, c.mode);
      if c.add && c.arg !in list then (s.(lists := s.lists[c.mode := list + [c.arg]]), true)
      else if !c.add && c.arg in list then (s.(lists := s.lists[c.mode := RemoveFirst(list, c.arg)]), true)
      else (s, false)
    case Unknown => (s, false)
  }

  function ApplyChanges(s: ModeState, v: Validator, cs: seq<Change>): (ModeState, seq<Change>)
    decreases cs
  {
    if cs == [] then (s, [])
    else
      var (s1, done) := ApplyChange(s, v, cs[0]);
      var (s2, rest) := ApplyChanges(s1, v, cs[1..]);
      (s2, (if done then [cs[0]] else []) + rest)
  }

  ghost predicate Distinct(list: seq<string>) {
    forall i, j :: 0 <= i < j < |list| ==> list[i] != list[j]
  }

  ghost predicate ListsDistinct(s: ModeState) {
    forall m :: m in s.lists ==> Distinct(s.lists[m])
  }

  lemma {:induction false} RemoveFirstDistinct(list: seq<string>, x: string)
    requires Distinct(list)
    ensures Distinct(RemoveFirst(list, x))
    ensures forall y :: y in RemoveFirst(list, x) <==> y in list && y != x
  {
    if list != [] {
      assert list == [list[0]] + list[1..];
      assert list[0] !in list[1..] by {
        assert forall i :: 0 <= i < |list[1..]| ==> list[1..][i] == list[i + 1];
      }
      RemoveFirstDistinct(list[1..], x);
      var rest := RemoveFirst(list[1..], x);
      assert forall i :: 0 <= i < |rest| ==> rest[i] in rest;
    }
  }

  // Every list mode stays a list without duplicates, a change does to it what
  // it does to a set, and it leaves every other mode alone.
  lemma ApplyChangeOnLists(s: ModeState, v: Validator, c: Change, m: char)
    requires ListsDistinct(s)
    ensures ListsDistinct(ApplyChange(s, v, c).0)
    ensures m != c.mode || TypeOf(v, m) != ListMode ==> ListOf(ApplyChange(s, v, c).0, m) == ListOf(s, m)
    ensures m == c.mode && TypeOf(v, m) == ListMode ==>
              forall x :: x in ListOf(ApplyChange(s, v, c).0, m) <==>
                          if x == c.arg then c.add else x in ListOf(s, m)
  {
    var list := ListOf(s, c.mode);
    RemoveFirstDistinct(list, c.arg);
    assert c.arg !in list ==> Distinct(list + [c.arg]) by {
      assert forall i :: 0 <= i < |list| ==> list[i] in list;
    }
  }

  // A flag is set exactly when it was set last, and no other mode touches it.
  lemma ApplyChangeOnFlags(s: ModeState, v: Validator, c: Change, m: char)
    ensures m in ApplyChange(s, v, c).0.flags <==>
            if m == c.mode && TypeOf(v, m) == FlagMode then c.add else m in s.flags
  {
  }

  predicate TakesArg(v: Validator, m: char) {
    TypeOf(v, m) == ArgSet || TypeOf(v, m) == ArgAlways
  }

  // A mode with an argument has the argument it was set with last, or none, and no
  // other mode touches it.
  lemma ApplyChangeOnArgs(s: ModeState, v: Validator, c: Change, m: char)
    ensures var args := ApplyChange(s, v, c).0.args;
            if m == c.mode && TakesArg(v, m)
            then (m in args <==> c.add) && (c.add ==> args[m] == c.arg)
            else (m in args <==> m in s.args) && (m in args ==> args[m] == s.args[m])
  {
  }

  // A change is reported exactly when it makes a difference or sets an argument.
  lemma ReportedIff(s: ModeState, v: Validator, c: Change)
    requires ListsDistinct(s)
    ensures ApplyChange(s, v, c).1 <==>
            match TypeOf(v, c.mode)
            case FlagMode => c.add != (c.mode in s.flags)
            case ArgAlways | ArgSet => c.add || c.mode in s.args
            case ListMode => c.add != (c.arg in ListOf(s, c.mode))
            case Unknown => false
    ensures ApplyChange(s, v, c).1 <==> ApplyChange(s, v, c).0 != s || (c.add && TakesArg(v, c.mode))
  {
    ApplyChangeOnFlags(s, v, c, c.mode);
    ApplyChangeOnArgs(s, v, c, c.mode);
    ApplyChangeOnLists(s, v, c, c.mode);
  }

  // Applying a change again changes nothing more, and only setting an argument
  // is reported again.
  lemma ApplyTwice(s: ModeState, v: Validator, c: Change)
    requires ListsDistinct(s)
    ensures var once := ApplyChange(s, v, c).0;
            ApplyChange(once, v, c) == (once, c.add && (TypeOf(v, c.mode) == ArgSet || TypeOf(v, c.mode) == ArgAlways))
  {
    RemoveFirstDistinct(ListOf(s, c.mode), c.arg);
    var set1 := s.args[c.mode := c.arg];
    assert set1[c.mode := c.arg] == set1;
  }

  // ---------------------------------------------------------------------
  // Member prefixes
  // ---------------------------------------------------------------------

  const PREFIX_MODES := "qaohv"
  const PREFIX_CHARS := "~&@%+"

  function PrefixChar(m: char): char
    requires m in PREFIX_MODES
  {
    if m == 'q' then '~' else if m == 'a' then '&' else if m == 'o' then '@' else if m == 'h' then '%' else '+'
  }

  // The prefix characters held, highest first.
  function Ordered(held: set<char>, chars: string): string {
    if chars == [] then []
    else (if chars[0] in held then [chars[0]] else []) + Ordered(held, chars[1..])
  }

  function NewPrefix(prefix: string, c: Change): string
    requires c.mode in PREFIX_MODES
  {
    var held := (set x | x in prefix) - {PrefixChar(c.mode)};
    Ordered(if c.add then held + {PrefixChar(c.mode)} else held, PREFIX_CHARS)
  }

  lemma {:induction false} OrderedMeaning(held: set<char>, chars: string)
    ensures forall x :: x in Ordered(held, chars) <==> x in chars && x in held
  {
    if chars != [] {
      OrderedMeaning(held, chars[1..]);
      assert chars == [chars[0]] + chars[1..];
    }
  }

  predicate Ranked(s: string, chars: string) {
    s == [] || (chars != [] && if s[0] == chars[0] then Ranked(s[1..], chars[1..]) else Ranked(s, chars[1..]))
  }

  lemma {:induction false} OrderedRanked(held: set<char>, chars: string)
    requires forall i, j :: 0 <= i < j < |chars| ==> chars[i] != chars[j]
    ensures Ranked(Ordered(held, chars), chars)
  {
    if chars != [] {
      var rest := chars[1..];
      OrderedRanked(held, rest);
      OrderedMeaning(held, rest);
      var o := Ordered(held, chars);
      if chars[0] in held {
        assert o[1..] == Ordered(held, rest);
      } else {
        assert o == Ordered(held, rest);
        assert o != [] ==> o[0] in o;
        assert chars[0] !in rest;
      }
    }
  }

  // The letter and the sign stand at the same place.
  lemma PrefixCharAt(i: nat)
    requires i < |PREFIX_MODES|
    ensures |PREFIX_CHARS| == |PREFIX_MODES| && PrefixChar(PREFIX_MODES[i]) == PREFIX_CHARS[i]
  {
  }

  // After a change of the mode at position i the member holds exactly the prefixes
  // held before with the one at that position added or removed, and they stand in
  // rank order.
  lemma PrefixMeaning(prefix: string, c: Change, i: nat)
    requires i < |PREFIX_MODES| && c.mode == PREFIX_MODES[i]
    ensures |PREFIX_CHARS| == |PREFIX_MODES|
    ensures forall x :: x in NewPrefix(prefix, c) <==>
                        x in PREFIX_CHARS && if x == PREFIX_CHARS[i] then c.add else x in prefix
    ensures Ranked(NewPrefix(prefix, c), PREFIX_CHARS)
  {
    PrefixCharAt(i);
    var held := (set x | x in prefix) - {PrefixChar(c.mode)};
    OrderedMeaning(if c.add then held + {PrefixChar(c.mode)} else held, PREFIX_CHARS);
    OrderedRanked(if c.add then held + {PrefixChar(c.mode)} else held, PREFIX_CHARS);
    assert PREFIX_CHARS[i] in PREFIX_CHARS;
  }

  // ---------------------------------------------------------------------
  // Channels
  // ---------------------------------------------------------------------

  // Members by lower-case nick, each with its prefix.
  datatype Channel = Channel(modes: ModeState, members: map<string, string>)

  function ApplyMember(ch: Channel, c: Change): (Channel, bool)
    requires c.mode in PREFIX_MODES
  {
    var nick := Lower(c.arg);
    if c.arg == "" || nick !in ch.members || NewPrefix(ch.members[nick], c) == ch.members[nick] then (ch, false)
    else (ch.(members := ch.members[nick := NewPrefix(ch.members[nick], c)]), true)
  }

  function ApplyToChannel(ch: Channel, c: Change): (Channel, bool) {
    if c.mode in PREFIX_MODES then ApplyMember(ch, c)
    else
      var (modes, done) := ApplyChange(ch.modes, ChannelValidator, c);
      (ch.(modes := modes), done)
  }

  // The state after all changes and the changes reported as applied.
  function SetModes(ch: Channel, cs: seq<Change>): (Channel, seq<Change>)
    decreases cs
  {
    if cs == [] then (ch, [])
    else
      var (ch1, done) := ApplyToChannel(ch, cs[0]);
      var (ch2, rest) := SetModes(ch1, cs[1..]);
      (ch2, (if done then [cs[0]] else []) + rest)
  }

  // A change that is not reported changed nothing.
  lemma Unreported(ch: Channel, c: Change)
    ensures !ApplyToChannel(ch, c).1 ==> ApplyToChannel(ch, c).0 == ch
  {
  }

  // Replaying what was reported, from the same state, leads to the same state
  // and reports the same changes.
  lemma {:induction false} ReplayReported(ch: Channel, cs: seq<Change>)
    ensures SetModes(ch, SetModes(ch, cs).1) == SetModes(ch, cs)
    decreases cs
  {
    if cs != [] {
      var (ch1, done) := ApplyToChannel(ch, cs[0]);
      Unreported(ch, cs[0]);
      ReplayReported(ch1, cs[1..]);
      var rest := SetModes(ch1, cs[1..]).1;
      if done {
        assert ([cs[0]] + rest)[1..] == rest;
      } else {
        assert [] + rest == rest;
      }
    }
  }

  lemma {:induction false} ReportedAligned(ch: Channel, cs: seq<Change>)
    requires Aligned(cs)
    ensures Aligned(SetModes(ch, cs).1)
    ensures forall c :: c in SetModes(ch, cs).1 ==> c in cs
    decreases cs
  {
    if cs != [] {
      var (ch1, done) := ApplyToChannel(ch, cs[0]);
      AlignedTail(cs);
      ReportedAligned(ch1, cs[1..]);
      var rest := SetModes(ch1, cs[1..]).1;
      assert forall c :: c in cs[1..] ==> c in cs;
      if done {
        forall x | x in rest && Bare(cs[0]) ensures x.arg == "" {
          var j :| 0 <= j < |cs[1..]| && cs[1..][j] == x;
          assert cs[j + 1] == x;
        }
        AlignedCons(cs[0], rest);
      } else {
        assert [] + rest == rest;
      }
    }
  }

  // A list mode alone asks for the list.
  predicate ListQuery(modes: string, args: seq<string>) {
    args == [] && |modes| == 1 && TypeOf(ChannelValidator, modes[0]) == ListMode
  }

  // The changes a MODE command makes, as the server reports them.
  function Applied(ch: Channel, modes: string, args: seq<string>): seq<Change> {
    if ListQuery(modes, args) then [] else SetModes(ch, ParseModes(modes, args)).1
  }

  // What the server does with a MODE command, and the broadcast it sends.
  function ServerMode(ch: Channel, modes: string, args: seq<string>): (Channel, string, seq<string>) {
    var after := if ListQuery(modes, args) then ch else SetModes(ch, ParseModes(modes, args)).0;
    (after, FormatModes(Applied(ch, modes, args)), FormatArgs(Applied(ch, modes, args)))
  }

  // What a replica does with a broadcast.
  function ReplicaMode(ch: Channel, modes: string, args: seq<string>): Channel {
    SetModes(ch, ParseModes(modes, args)).0
  }

  // The letter of a list mode alone, without a sign, asks for the list and changes
  // nothing; every other command sets what it says and broadcasts what was applied.
  lemma QueryOrSet(ch: Channel, modes: string, args: seq<string>)
    ensures var cs := ParseModes(modes, args);
            ServerMode(ch, modes, args) ==
            if args == [] && (modes == "b" || modes == "e" || modes == "I") then (ch, "", [])
            else (SetModes(ch, cs).0, FormatModes(SetModes(ch, cs).1), FormatArgs(SetModes(ch, cs).1))
  {
    if |modes| == 1 { assert modes == [modes[0]]; }
  }

  // A replica in the state the server was in ends in the state the server is in.
  lemma ReplicaAgrees(ch: Channel, modes: string, args: seq<string>)
    requires forall i :: 0 <= i < |args| - 1 ==> args[i] != ""
    ensures var (after, bm, ba) := ServerMode(ch, modes, args);
            ReplicaMode(ch, bm, ba) == after && (bm == "" ==> after == ch)
  {
    AppliedAligned(ch, modes, args);
    FormatParseIff(Applied(ch, modes, args));
    ReplayApplied(ch, modes, args);
  }

  lemma AppliedAligned(ch: Channel, modes: string, args: seq<string>)
    requires forall i :: 0 <= i < |args| - 1 ==> args[i] != ""
    ensures Aligned(Applied(ch, modes, args))
  {
    ParseAligned(modes, args, true);
    ReportedAligned(ch, ParseModes(modes, args));
  }

  lemma ReplayApplied(ch: Channel, modes: string, args: seq<string>)
    ensures SetModes(ch, Applied(ch, modes, args)) == (ServerMode(ch, modes, args).0, Applied(ch, modes, args))
  {
    ReplayReported(ch, ParseModes(modes, args));
  }

  // The condition on the arguments is needed of these functions, though no parsed
  // line breaks it: an empty argument followed by another is dropped from the
  // broadcast and the replica shifts the rest.
  lemma EmptyArgumentDiverges()
    ensures var ch := Channel(ModeState({}, map[], map[]), map[]);
            var (after, bm, ba) := ServerMode(ch, "+bb", ["", "x"]);
            after.modes.lists == map['b' := ["", "x"]]
            && bm == "+bb" && ba == ["x"]
            && ReplicaMode(ch, bm, ba).modes.lists == map['b' := ["x", ""]]
  {
    var ch := Channel(ModeState({}, map[], map[]), map[]);
    var c1, c2 := Change(true, 'b', ""), Change(true, 'b', "x");
    BanPair(ch, "", "x");
    BanPair(ch, "x", "");
    assert [c1, c2][1..] == [c2] && [c2][1..] == [];
    assert FormatArgs([c2]) == ["x"];
    assert FormatArgs([c1, c2]) == ["x"];
    assert FormatFrom([c2], true) == "b";
    assert FormatFrom([c1, c2], true) == "bb";
    ParseBans(["", "x"]);
    ParseBans(["x"]);
  }

  lemma ParseBans(args: seq<string>)
    requires 1 <= |args| <= 2
    ensures ParseModes("+bb", args) ==
            [Change(true, 'b', args[0]), Change(true, 'b', if |args| == 2 then args[1] else "")]
  {
    assert "+bb"[1..] == "bb" && "bb"[1..] == "b" && "b"[1..] == "";
    assert ParseModes("+bb", args) == ParseFrom("bb", args, true);
    assert ParseFrom("bb", args, true) == [Change(true, 'b', args[0])] + ParseFrom("b", args[1..], true);
    assert ParseFrom("b", args[1..], true) == [Change(true, 'b', if |args| == 2 then args[1] else "")];
  }

  lemma Ban(ch: Channel, x: string)
    requires x !in ListOf(ch.modes, 'b')
    ensures ApplyToChannel(ch, Change(true, 'b', x)) ==
            (ch.(modes := ch.modes.(lists := ch.modes.lists['b' := ListOf(ch.modes, 'b') + [x]])), true)
  {
    assert 'b' !in PREFIX_MODES;
  }

  lemma BanPair(ch: Channel, x: string, y: string)
    requires ch == Channel(ModeState({}, map[], map[]), map[]) && x != y
    ensures var cs := [Change(true, 'b', x), Change(true, 'b', y)];
            SetModes(ch, cs).1 == cs && SetModes(ch, cs).0.modes.lists == map['b' := [x, y]]
  {
    var c1, c2 := Change(true, 'b', x), Change(true, 'b', y);
    Ban(ch, x);
    var ch1 := ApplyToChannel(ch, c1).0;
    assert ListOf(ch1.modes, 'b') == [x];
    Ban(ch1, y);
    var ch2 := ApplyToChannel(ch1, c2).0;
    assert ListOf(ch2.modes, 'b') == [x, y] && ch2.modes.lists == map['b' := [x, y]];
    assert [c1, c2][1..] == [c2] && [c2][1..] == [];
    assert SetModes(ch2, []) == (ch2, []) && [c2] + [] == [c2];
    assert SetModes(ch1, [c2]).0 == ch2 && SetModes(ch1, [c2]).1 == [c2];
  }
}
