/**
 What happens to a replica when the last argument of a broadcast loses its line
 endings on the way, as the parser makes it.

 Main result
   TrimmedAgreesIff   the replica still agrees with the server exactly when no
                      argument that shows was cut
 */
module ModeReplica {
  import opened Text
  import opened IrcMessage
  import opened Modes

  // ---------------------------------------------------------------------
  // The changes as the replica reads them
  // ---------------------------------------------------------------------

  // The arguments without the line endings of the last, which vanishes when there is
  // nothing else to it.
  function SeenArgs(args: seq<string>): seq<string> {
    if args == [] then []
    else
      var init, last := args[..|args| - 1], TrimEol(args[|args| - 1]);
      if last == "" then init else init + [last]
  }

  // The same on the changes that carry them.
  function Trimmed(cs: seq<Change>): seq<Change> {
    if cs == [] then []
    else if FormatArgs(cs[1..]) != [] then [cs[0]] + Trimmed(cs[1..])
    else [cs[0].(arg := TrimEol(cs[0].arg))] + cs[1..]
  }

  lemma FormatArgsCons(c: Change, cs: seq<Change>)
    ensures FormatArgs([c] + cs) == (if c.arg == "" then [] else [c.arg]) + FormatArgs(cs)
  {
    assert ([c] + cs)[1..] == cs;
  }

  lemma SeenArgsCons(a: string, args: seq<string>)
    requires args != []
    ensures SeenArgs([a] + args) == [a] + SeenArgs(args)
  {
    var all := [a] + args;
    assert all[..|all| - 1] == [a] + args[..|args| - 1];
    assert all[|all| - 1] == args[|args| - 1];
  }

  lemma {:induction false} TrimmedArgs(cs: seq<Change>)
    ensures FormatArgs(Trimmed(cs)) == SeenArgs(FormatArgs(cs))
  {
    if cs != [] {
      var c, rest := cs[0], cs[1..];
      assert cs == [c] + rest;
      FormatArgsCons(c, rest);
      if FormatArgs(rest) != [] {
        TrimmedArgs(rest);
        FormatArgsCons(c, Trimmed(rest));
        if c.arg == "" {
          NothingLeft(FormatArgs(rest));
          NothingLeft(FormatArgs(Trimmed(rest)));
        } else {
          SeenArgsCons(c.arg, FormatArgs(rest));
        }
      } else {
        FormatArgsCons(c.(arg := TrimEol(c.arg)), rest);
        LoneArg(c.arg);
      }
    }
  }

  lemma LoneArg(a: string)
    ensures SeenArgs(if a == "" then [] else [a]) == if TrimEol(a) == "" then [] else [TrimEol(a)]
  {
    if a != "" { assert [a][..0] == []; }
  }

  lemma {:induction false} TrimmedModes(cs: seq<Change>, add: bool)
    ensures FormatFrom(Trimmed(cs), add) == FormatFrom(cs, add)
    ensures |Trimmed(cs)| == |cs| && (cs != [] ==> Trimmed(cs)[0].add == cs[0].add)
  {
    if cs != [] {
      if FormatArgs(cs[1..]) != [] {
        TrimmedModes(cs[1..], cs[0].add);
        assert Trimmed(cs)[1..] == Trimmed(cs[1..]);
      } else {
        assert Trimmed(cs)[1..] == cs[1..];
      }
    }
  }

  lemma {:induction false} ArgIn(cs: seq<Change>, i: nat)
    requires i < |cs| && cs[i].arg != ""
    ensures FormatArgs(cs) != []
  {
    if i > 0 { ArgIn(cs[1..], i - 1); }
  }

  lemma BareTail(cs: seq<Change>)
    requires FormatArgs(cs) == []
    ensures forall x :: x in cs ==> x.arg == ""
  {
    forall i | 0 <= i < |cs| ensures cs[i].arg == "" {
      if cs[i].arg != "" { ArgIn(cs, i); }
    }
  }

  lemma {:induction false} TrimmedAligned(cs: seq<Change>)
    requires Aligned(cs)
    ensures Aligned(Trimmed(cs))
  {
    if cs != [] {
      AlignedTail(cs);
      if FormatArgs(cs[1..]) != [] {
        TrimmedAligned(cs[1..]);
        AlignedCons(cs[0], Trimmed(cs[1..]));
      } else {
        BareTail(cs[1..]);
        AlignedCons(cs[0].(arg := TrimEol(cs[0].arg)), cs[1..]);
      }
    }
  }

  // A replica that is given the printed changes with the last argument cut reads
  // the changes with that argument cut.
  lemma ReadsTrimmed(cs: seq<Change>)
    requires Aligned(cs)
    ensures ParseModes(FormatModes(cs), SeenArgs(FormatArgs(cs))) == Trimmed(cs)
  {
    TrimmedArgs(cs);
    TrimmedAligned(cs);
    if cs != [] { TrimmedModes(cs, cs[0].add); }
    FormatParseIff(Trimmed(cs));
  }

  // ---------------------------------------------------------------------
  // Running changes
  // ---------------------------------------------------------------------

  function Run(ch: Channel, cs: seq<Change>): Channel
    decreases cs
  {
    if cs == [] then ch else Run(ApplyToChannel(ch, cs[0]).0, cs[1..])
  }

  lemma {:induction false} RunIsSet(ch: Channel, cs: seq<Change>)
    ensures SetModes(ch, cs).0 == Run(ch, cs)
    decreases cs
  {
    if cs != [] { RunIsSet(ApplyToChannel(ch, cs[0]).0, cs[1..]); }
  }

  ghost predicate AllBare(cs: seq<Change>) {
    forall x :: x in cs ==> x.arg == ""
  }

  // Changes without arguments leave members alone, and of the lists everything but
  // the empty entry.
  lemma BareStep(ch: Channel, c: Change, m: char, x: string)
    requires c.arg == "" && x != "" && ListsDistinct(ch.modes)
    ensures var ch1 := ApplyToChannel(ch, c).0;
            && ListsDistinct(ch1.modes) && ch1.members == ch.members
            && (x in ListOf(ch1.modes, m) <==> x in ListOf(ch.modes, m))
            && (c.mode != m ==> Arg(ch1, m) == Arg(ch, m))
  {
    if c.mode !in PREFIX_MODES {
      ApplyChangeOnLists(ch.modes, ChannelValidator, c, m);
    }
  }

  function Arg(ch: Channel, m: char): Option<string> {
    if m in ch.modes.args then Some(ch.modes.args[m]) else None
  }

  lemma {:induction false} BareRun(ch: Channel, cs: seq<Change>, m: char, x: string)
    requires AllBare(cs) && x != "" && ListsDistinct(ch.modes)
    ensures var ch1 := Run(ch, cs);
            && ch1.members == ch.members
            && (x in ListOf(ch1.modes, m) <==> x in ListOf(ch.modes, m))
            && ((forall c :: c in cs ==> c.mode != m) ==> Arg(ch1, m) == Arg(ch, m))
    decreases cs
  {
    if cs != [] {
      BareStep(ch, cs[0], m, x);
      assert forall c :: c in cs[1..] ==> c in cs;
      BareRun(ApplyToChannel(ch, cs[0]).0, cs[1..], m, x);
    }
  }

  // Two channels that differ in the argument of one mode only.
  predicate DifferIn(a: Channel, b: Channel, m: char) {
    && a.members == b.members && a.modes.flags == b.modes.flags && a.modes.lists == b.modes.lists
    && m in a.modes.args && m in b.modes.args && a.modes.args - {m} == b.modes.args - {m}
  }

  predicate ArgMode(m: char) {
    m !in PREFIX_MODES && TypeOf(ChannelValidator, m) == ArgSet
  }

  lemma DifferStep(a: Channel, b: Channel, m: char, c: Change)
    requires ArgMode(m) && DifferIn(a, b, m)
    ensures var (a1, b1) := (ApplyToChannel(a, c).0, ApplyToChannel(b, c).0);
            if c.mode == m then a1 == b1 else DifferIn(a1, b1, m)
  {
    var (a1, b1) := (ApplyToChannel(a, c).0, ApplyToChannel(b, c).0);
    if c.mode == m {
      SameAt(a.modes.args, b.modes.args, m, c.arg);
    } else if c.mode !in PREFIX_MODES {
      SameElsewhere(a.modes.args, b.modes.args, m, c.mode, c.arg);
    }
  }

  lemma SameAt(a: map<char, string>, b: map<char, string>, m: char, v: string)
    requires a - {m} == b - {m}
    ensures a[m := v] == b[m := v]
  {
    assert a[m := v] == (a - {m})[m := v] && b[m := v] == (b - {m})[m := v];
  }

  lemma SameElsewhere(a: map<char, string>, b: map<char, string>, m: char, k: char, v: string)
    requires m in a && m in b && a - {m} == b - {m} && k != m
    ensures a[k := v] - {m} == b[k := v] - {m} && (a - {k}) - {m} == (b - {k}) - {m}
    ensures k in a <==> k in b
  {
    assert a[k := v] - {m} == (a - {m})[k := v] && b[k := v] - {m} == (b - {m})[k := v];
    assert (a - {k}) - {m} == (a - {m}) - {k} && (b - {k}) - {m} == (b - {m}) - {k};
    assert k in a <==> k in a - {m};
  }

  // The difference is gone once the mode is changed again.
  lemma {:induction false} DifferRun(a: Channel, b: Channel, m: char, cs: seq<Change>)
    requires ArgMode(m) && DifferIn(a, b, m) && exists c :: c in cs && c.mode == m
    ensures Run(a, cs) == Run(b, cs)
    decreases cs
  {
    DifferStep(a, b, m, cs[0]);
    if cs[0].mode != m {
      var c :| c in cs && c.mode == m;
      assert c in cs[1..];
      DifferRun(ApplyToChannel(a, cs[0]).0, ApplyToChannel(b, cs[0]).0, m, cs[1..]);
    }
  }

  // ---------------------------------------------------------------------
  // When a cut argument shows
  // ---------------------------------------------------------------------

  // The argument of a change is part of the state after it and the changes behind it.
  ghost predicate Shows(c: Change, later: seq<Change>) {
    || c.mode in PREFIX_MODES
    || TypeOf(ChannelValidator, c.mode) == ListMode
    || (ArgMode(c.mode) && c.add && forall d :: d in later ==> d.mode != c.mode)
  }

  // The last change with an argument has one that ends in a line ending and shows.
  ghost predicate Spoilt(cs: seq<Change>) {
    cs != [] &&
    if FormatArgs(cs[1..]) != [] then Spoilt(cs[1..]) else EndsInEol(cs[0].arg) && Shows(cs[0], cs[1..])
  }

  lemma TrimEolSame(a: string)
    ensures EndsInEol(a) <==> TrimEol(a) != a
    ensures |TrimEol(a)| <= |a|
  {
    if EndsInEol(a) { TrimEolShorter(a); }
  }

  lemma LowerLength(a: string, b: string)
    requires |a| < |b|
    ensures Lower(a) != Lower(b)
  {
  }

  lemma CutMember(ch: Channel, c: Change, a: string, later: seq<Change>)
    requires c.mode in PREFIX_MODES && ApplyToChannel(ch, c).1 && |a| < |c.arg| && AllBare(later)
    requires ListsDistinct(ch.modes)
    ensures Run(ApplyToChannel(ch, c).0, later) != Run(ApplyToChannel(ch, c.(arg := a)).0, later)
  {
    var s, r := ApplyToChannel(ch, c).0, ApplyToChannel(ch, c.(arg := a)).0;
    LowerLength(a, c.arg);
    assert s.members[Lower(c.arg)] != ch.members[Lower(c.arg)] == r.members[Lower(c.arg)];
    BareRun(s, later, 'b', "x");
    BareRun(r, later, 'b', "x");
  }

  lemma CutListed(ch: Channel, c: Change, a: string, later: seq<Change>)
    requires c.mode !in PREFIX_MODES && TypeOf(ChannelValidator, c.mode) == ListMode && ApplyToChannel(ch, c).1
    requires a != c.arg && c.arg != "" && AllBare(later) && ListsDistinct(ch.modes)
    ensures Run(ApplyToChannel(ch, c).0, later) != Run(ApplyToChannel(ch, c.(arg := a)).0, later)
  {
    ApplyChangeOnLists(ch.modes, ChannelValidator, c, c.mode);
    ApplyChangeOnLists(ch.modes, ChannelValidator, c.(arg := a), c.mode);
    BareRun(ApplyToChannel(ch, c).0, later, c.mode, c.arg);
    BareRun(ApplyToChannel(ch, c.(arg := a)).0, later, c.mode, c.arg);
  }

  lemma CutSetting(ch: Channel, c: Change, a: string, later: seq<Change>)
    requires ArgMode(c.mode) && c.add && a != c.arg && AllBare(later) && ListsDistinct(ch.modes)
    ensures Run(ApplyToChannel(ch, c).0, later) == Run(ApplyToChannel(ch, c.(arg := a)).0, later)
            <==> exists d :: d in later && d.mode == c.mode
  {
    var s, r := ApplyToChannel(ch, c).0, ApplyToChannel(ch, c.(arg := a)).0;
    assert s.modes.args - {c.mode} == ch.modes.args - {c.mode} == r.modes.args - {c.mode};
    if exists d :: d in later && d.mode == c.mode {
      DifferRun(s, r, c.mode, later);
    } else {
      BareRun(s, later, c.mode, "x");
      BareRun(r, later, c.mode, "x");
    }
  }

  // Where the argument is no part of the state, cutting it changes nothing.
  lemma CutUnseen(ch: Channel, c: Change, a: string)
    requires c.mode !in PREFIX_MODES && TypeOf(ChannelValidator, c.mode) != ListMode && !(ArgMode(c.mode) && c.add)
    ensures ApplyToChannel(ch, c).0 == ApplyToChannel(ch, c.(arg := a)).0
  {
  }

  lemma CutIff(ch: Channel, c: Change, later: seq<Change>)
    requires ApplyToChannel(ch, c).1 && AllBare(later) && ListsDistinct(ch.modes)
    ensures Run(ApplyToChannel(ch, c).0, later) == Run(ApplyToChannel(ch, c.(arg := TrimEol(c.arg))).0, later)
            <==> !(EndsInEol(c.arg) && Shows(c, later))
  {
    var a := TrimEol(c.arg);
    TrimEolSame(c.arg);
    if EndsInEol(c.arg) {
      TrimEolShorter(c.arg);
      if c.mode in PREFIX_MODES {
        CutMember(ch, c, a, later);
      } else if TypeOf(ChannelValidator, c.mode) == ListMode {
        CutListed(ch, c, a, later);
      } else if ArgMode(c.mode) && c.add {
        CutSetting(ch, c, a, later);
      } else {
        CutUnseen(ch, c, a);
      }
    } else {
      assert c.(arg := a) == c;
    }
  }

  // Every change of a list is reported when it is run from this channel.
  predicate AllReported(ch: Channel, cs: seq<Change>)
    decreases cs
  {
    cs == [] || (ApplyToChannel(ch, cs[0]).1 && AllReported(ApplyToChannel(ch, cs[0]).0, cs[1..]))
  }

  lemma DistinctKept(ch: Channel, c: Change)
    requires ListsDistinct(ch.modes)
    ensures ListsDistinct(ApplyToChannel(ch, c).0.modes)
  {
    if c.mode !in PREFIX_MODES { ApplyChangeOnLists(ch.modes, ChannelValidator, c, 'b'); }
  }

  // Cutting the last argument of reported changes is harmless exactly when that
  // argument does not show.
  lemma {:induction false} TrimmedAgreesIff(ch: Channel, cs: seq<Change>)
    requires AllReported(ch, cs) && ListsDistinct(ch.modes)
    ensures Run(ch, Trimmed(cs)) == Run(ch, cs) <==> !Spoilt(cs)
    decreases cs
  {
    if cs != [] {
      var ch1 := ApplyToChannel(ch, cs[0]).0;
      DistinctKept(ch, cs[0]);
      if FormatArgs(cs[1..]) != [] {
        assert Trimmed(cs)[1..] == Trimmed(cs[1..]);
        TrimmedAgreesIff(ch1, cs[1..]);
      } else {
        assert Trimmed(cs)[1..] == cs[1..];
        BareTail(cs[1..]);
        CutIff(ch, cs[0], cs[1..]);
      }
    }
  }
}
