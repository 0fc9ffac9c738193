/**
 Mode strings, mode sets and the channel's MODE handler in the form the server
 has them: loops that carry the direction and the next argument, maps updated in
 place. Each is proved equal to its counterpart in Modes.
 */
module ModeHandlers {
  import opened Text
  import opened Modes

  method ParseModeString(modes: string, args: seq<string>) returns (changes: seq<Change>)
    ensures changes == ParseModes(modes, args)
  {
    changes := [];
    var add := true;
    var argIdx := 0;
    for i := 0 to |modes|
      invariant 0 <= argIdx <= |args|
      invariant changes + ParseFrom(modes[i..], args[argIdx..], add) == ParseModes(modes, args)
    {
      var ch := modes[i];
      assert modes[i..][1..] == modes[i + 1..];
      if ch == '+' {
        add := true;
      } else if ch == '-' {
        add := false;
      } else {
        var arg := "";
        if argIdx < |args| && NeedsArg(ch, add) {
          arg := args[argIdx];
          assert args[argIdx..][1..] == args[argIdx + 1..];
          argIdx := argIdx + 1;
        }
        Regroup(changes, Change(add, ch, arg), ParseFrom(modes[i + 1..], args[argIdx..], add));
        changes := changes + [Change(add, ch, arg)];
      }
    }
  }

  lemma Regroup<T>(a: seq<T>, x: T, b: seq<T>)
    ensures a + ([x] + b) == (a + [x]) + b
  {
  }

  method FormatModeChanges(changes: seq<Change>) returns (modeStr: string, args: seq<string>)
    ensures modeStr == FormatModes(changes) && args == FormatArgs(changes)
  {
    if |changes| == 0 { return "", []; }
    var add := changes[0].add;
    modeStr := [Sign(add)];
    args := [];
    for i := 0 to |changes|
      invariant modeStr + FormatFrom(changes[i..], add) == FormatModes(changes)
      invariant args + FormatArgs(changes[i..]) == FormatArgs(changes)
    {
      var mc := changes[i];
      assert changes[i..][1..] == changes[i + 1..];
      var piece := "";
      if mc.add != add {
        add := mc.add;
        piece := [Sign(add)];
      }
      piece := piece + [mc.mode];
      Associate(modeStr, piece, FormatFrom(changes[i + 1..], add));
      modeStr := modeStr + piece;
      if mc.arg != "" {
        Regroup(args, mc.arg, FormatArgs(changes[i + 1..]));
        args := args + [mc.arg];
      }
    }
  }

  lemma {:induction false} RemoveAt(list: seq<string>, i: nat)
    requires i < |list| && list[i] !in list[..i]
    ensures RemoveFirst(list, list[i]) == list[..i] + list[i + 1..]
  {
    if i > 0 {
      assert list[..i][0] == list[0] && list[1..][..i - 1] == list[..i][1..];
      RemoveAt(list[1..], i - 1);
      assert list[1..][i..] == list[i + 1..] && [list[0]] + list[1..][..i - 1] == list[..i];
    }
  }

  // The modes of a channel or a user.
  class ModeSet {
    var flags: set<char>
    var args: map<char, string>
    var lists: map<char, seq<string>>

    ghost function View(): ModeState
      reads this
    {
      ModeState(flags, args, lists)
    }

    constructor ()
      ensures View() == ModeState({}, map[], map[])
    {
      flags, args, lists := {}, map[], map[];
    }

    // Position of the first entry equal to x in a list mode, or -1.
    method Find(m: char, x: string) returns (at: int)
      ensures -1 <= at < |ListOf(View(), m)|
      ensures at >= 0 ==> ListOf(View(), m)[at] == x && x !in ListOf(View(), m)[..at]
      ensures at < 0 ==> x !in ListOf(View(), m)
    {
      if m !in lists { return -1; }
      var list := lists[m];
      for i := 0 to |list|
        invariant x !in list[..i]
      {
        if list[i] == x { return i; }
      }
      return -1;
    }

    method ApplyOne(mc: Change, v: Validator) returns (done: bool)
      modifies this
      ensures (View(), done) == ApplyChange(old(View()), v, mc)
    {
      done := false;
      match TypeOf(v, mc.mode)
      case FlagMode =>
        if mc.add && mc.mode !in flags {
          flags := flags + {mc.mode};
          done := true;
        } else if !mc.add && mc.mode in flags {
          flags := flags - {mc.mode};
          done := true;
        }
      case ArgAlways | ArgSet =>
        if mc.add {
          args := args[mc.mode := mc.arg];
          done := true;
        } else if mc.mode in args {
          args := args - {mc.mode};
          done := true;
        }
      case ListMode =>
        var at := Find(mc.mode, mc.arg);
        var list := if mc.mode in lists then lists[mc.mode] else [];
        if mc.add && at < 0 {
          lists := lists[mc.mode := list + [mc.arg]];
          done := true;
        } else if !mc.add && at >= 0 {
          RemoveAt(list, at);
          lists := lists[mc.mode := list[..at] + list[at + 1..]];
          done := true;
        }
      case Unknown =>
    }

    method Apply(changes: seq<Change>, v: Validator) returns (applied: seq<Change>)
      modifies this
      ensures (View(), applied) == ApplyChanges(old(View()), v, changes)
    {
      applied := [];
      ghost var start := View();
      for i := 0 to |changes|
        invariant ApplyChanges(start, v, changes).0 == ApplyChanges(View(), v, changes[i..]).0
        invariant ApplyChanges(start, v, changes).1 == applied + ApplyChanges(View(), v, changes[i..]).1
      {
        assert changes[i..][1..] == changes[i + 1..];
        var done := ApplyOne(changes[i], v);
        if done {
          Regroup(applied, changes[i], ApplyChanges(View(), v, changes[i + 1..]).1);
          applied := applied + [changes[i]];
        }
      }
      assert changes[|changes|..] == [] && applied + [] == applied;
    }
  }

  // The characters of chars that are held, in the order of chars.
  method WriteOrdered(held: set<char>, chars: string) returns (ordered: string)
    ensures ordered == Ordered(held, chars)
  {
    ordered := "";
    for i := 0 to |chars|
      invariant ordered + Ordered(held, chars[i..]) == Ordered(held, chars)
    {
      assert chars[i..][1..] == chars[i + 1..];
      if chars[i] in held {
        Regroup(ordered, chars[i], Ordered(held, chars[i + 1..]));
        ordered := ordered + [chars[i]];
      }
    }
  }

  // The part of a channel that MODE changes.
  class ChannelState {
    const modes: ModeSet
    var members: map<string, string>

    ghost function View(): Channel
      reads this, modes
    {
      Channel(modes.View(), members)
    }

    constructor ()
      ensures View() == Channel(ModeState({}, map[], map[]), map[]) && fresh(modes)
    {
      modes := new ModeSet();
      members := map[];
    }

    method ApplyMembershipMode(change: Change) returns (done: bool)
      requires change.mode in PREFIX_MODES
      modifies this
      ensures (View(), done) == ApplyMember(old(View()), change)
    {
      var nick := Lower(change.arg);
      if change.arg == "" || nick !in members { return false; }
      var prefix := PrefixChar(change.mode);
      var current := (set x | x in members[nick]) - {prefix};
      if change.add {
        current := current + {prefix};
      }
      var ordered := WriteOrdered(current, PREFIX_CHARS);
      if members[nick] == ordered { return false; }
      members := members[nick := ordered];
      return true;
    }

    // The setting half of the MODE handler: what is applied and what is broadcast.
    method HandleMode(modeParam: string, argParams: seq<string>) returns (modeStr: string, args: seq<string>)
      modifies this, modes
      ensures (View(), modeStr, args) == ServerMode(old(View()), modeParam, argParams)
    {
      if |argParams| == 0 && |modeParam| == 1 && TypeOf(ChannelValidator, modeParam[0]) == ListMode {
        return "", [];
      }
      var changes := ParseModeString(modeParam, argParams);
      var applied: seq<Change> := [];
      ghost var all := Modes.SetModes(View(), changes);
      assert changes[0..] == changes;
      NothingLeft(all.1);
      for i := 0 to |changes|
        invariant all.0 == Modes.SetModes(View(), changes[i..]).0
        invariant all.1 == applied + Modes.SetModes(View(), changes[i..]).1
      {
        SetStep(View(), changes, i, applied);
        var done := ApplyChange(changes[i]);
        if done {
          applied := applied + [changes[i]];
        }
      }
      assert changes[|changes|..] == [];
      NothingLeft(applied);
      modeStr, args := FormatModeChanges(applied);
    }

    method ApplyChange(change: Change) returns (done: bool)
      modifies this, modes
      ensures (View(), done) == Modes.ApplyToChannel(old(View()), change)
    {
      if change.mode in PREFIX_MODES {
        done := ApplyMembershipMode(change);
      } else {
        done := modes.ApplyOne(change, ChannelValidator);
      }
    }
  }

  lemma SetStep(ch: Channel, changes: seq<Change>, i: nat, applied: seq<Change>)
    requires i < |changes|
    ensures var (ch1, done) := Modes.ApplyToChannel(ch, changes[i]);
            && Modes.SetModes(ch, changes[i..]).0 == Modes.SetModes(ch1, changes[i + 1..]).0
            && applied + Modes.SetModes(ch, changes[i..]).1
               == (if done then applied + [changes[i]] else applied) + Modes.SetModes(ch1, changes[i + 1..]).1
  {
    var (ch1, done) := Modes.ApplyToChannel(ch, changes[i]);
    assert changes[i..][0] == changes[i] && changes[i..][1..] == changes[i + 1..];
    Regroup(applied, changes[i], Modes.SetModes(ch1, changes[i + 1..]).1);
  }
}
