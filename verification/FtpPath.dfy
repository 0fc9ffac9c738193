/**
 FTP path normalisation and the working directory it protects.

 Main results
   CleanPath          the string-buffer loop computes the fold over a stack of
                      segments
   CleanIdempotent, CleanAbsorbs   cleaning twice, and cleaning in two steps
   ChangeTwice        two relative changes of directory are one
   CwdNormal          every reachable working directory is absolute and has no
                      empty, "." or ".." segment
 */
module FtpPath {
  import opened Text

  const SLASH := '/'

  // ---------------------------------------------------------------------
  // The specification: a stack of segments
  // ---------------------------------------------------------------------

  function Push(stack: seq<string>, seg: string): seq<string> {
    if seg == "" || seg == "." then stack
    else if seg == ".." then (if stack == [] then [] else stack[..|stack| - 1])
    else stack + [seg]
  }

  function Fold(stack: seq<string>, segs: seq<string>): seq<string> {
    if segs == [] then stack else Push(Fold(stack, segs[..|segs| - 1]), segs[|segs| - 1])
  }

  function Render(stack: seq<string>): string {
    if stack == [] then "" else Render(stack[..|stack| - 1]) + [SLASH] + stack[|stack| - 1]
  }

  function Shown(stack: seq<string>): string {
    if stack == [] then [SLASH] else Render(stack)
  }

  function Clean(p: string): string {
    Shown(Fold([], Split(p, SLASH)))
  }

  predicate NormalSegment(seg: string) {
    seg != "" && seg != "." && seg != ".." && SLASH !in seg
  }

  predicate Normal(stack: seq<string>) {
    forall i :: 0 <= i < |stack| ==> NormalSegment(stack[i])
  }

  // ---------------------------------------------------------------------
  // Facts
  // ---------------------------------------------------------------------

  lemma {:induction false} FoldNormal(stack: seq<string>, segs: seq<string>)
    requires Normal(stack) && forall s :: s in segs ==> SLASH !in s
    ensures Normal(Fold(stack, segs))
  {
    if segs != [] {
      FoldNormal(stack, segs[..|segs| - 1]);
    }
  }

  lemma {:induction false} FoldAppend(stack: seq<string>, a: seq<string>, b: seq<string>)
    ensures Fold(stack, a + b) == Fold(Fold(stack, a), b)
    decreases b
  {
    if b == [] {
      assert a + b == a;
    } else {
      var init := b[..|b| - 1];
      FoldAppend(stack, a, init);
      assert (a + b)[..|a + b| - 1] == a + init;
    }
  }

  // Normal segments pile up as they are.
  lemma {:induction false} FoldNormalSegments(stack: seq<string>, segs: seq<string>)
    requires Normal(segs)
    ensures Fold(stack, segs) == stack + segs
  {
    if segs == [] {
      assert stack + segs == stack;
    } else {
      var init := segs[..|segs| - 1];
      FoldNormalSegments(stack, init);
      assert segs == init + [segs[|segs| - 1]];
      assert stack + init + [segs[|segs| - 1]] == stack + segs;
    }
  }

  lemma SplitSnoc(head: string, last: string, parts: seq<string>)
    requires SLASH !in last && Split(head, SLASH) == parts
    ensures Split(head + [SLASH] + last, SLASH) == parts + [last]
  {
    SplitAppend(head, SLASH, last);
    SplitWhole(last, SLASH);
  }

  lemma InitLast<T>(x: T, s: seq<T>)
    requires s != []
    ensures [x] + s[..|s| - 1] + [s[|s| - 1]] == [x] + s
  {
  }

  lemma {:induction false} SplitRender(stack: seq<string>)
    requires Normal(stack)
    ensures Split(Render(stack), SLASH) == [""] + stack
  {
    if stack == [] {
      assert [""] + stack == [""];
    } else {
      var init, last := stack[..|stack| - 1], stack[|stack| - 1];
      SplitRender(init);
      SplitSnoc(Render(init), last, [""] + init);
      InitLast("", stack);
    }
  }

  // The segments of a cleaned path fold to the stack it shows.
  lemma FoldShown(stack: seq<string>)
    requires Normal(stack)
    ensures Fold([], Split(Shown(stack), SLASH)) == stack
  {
    if stack == [] {
      SplitAppend("", SLASH, "");
      assert "" + [SLASH] + "" == [SLASH];
      var segs := ["", ""];
      assert Split([SLASH], SLASH) == segs;
      assert segs[..1] == [""] && [""][..0] == [];
    } else {
      SplitRender(stack);
      FoldAppend([], [""], stack);
      assert [""][..0] == [];
      assert Fold([], [""]) == [];
      FoldNormalSegments([], stack);
      assert [] + stack == stack;
    }
  }

  lemma CleanStack(p: string)
    ensures Normal(Fold([], Split(p, SLASH)))
    ensures Fold([], Split(Clean(p), SLASH)) == Fold([], Split(p, SLASH))
  {
    SplitParts(p, SLASH);
    FoldNormal([], Split(p, SLASH));
    FoldShown(Fold([], Split(p, SLASH)));
  }

  lemma CleanIdempotent(p: string)
    ensures Clean(Clean(p)) == Clean(p)
  {
    CleanStack(p);
  }

  lemma CleanAbsorbs(a: string, b: string)
    ensures Clean(Clean(a) + [SLASH] + b) == Clean(a + [SLASH] + b)
  {
    CleanStack(a);
    SplitAppend(Clean(a), SLASH, b);
    SplitAppend(a, SLASH, b);
    FoldAppend([], Split(Clean(a), SLASH), Split(b, SLASH));
    FoldAppend([], Split(a, SLASH), Split(b, SLASH));
  }

  // An absolute path without empty, "." or ".." segments: the root, or a slash
  // before each of its segments.
  predicate NormalPath(p: string) {
    p == [SLASH] || (|Split(p, SLASH)| >= 2 && Split(p, SLASH)[0] == "" && Normal(Split(p, SLASH)[1..]))
  }

  lemma CleanNormal(p: string)
    ensures NormalPath(Clean(p)) && HasPrefix(Clean(p), [SLASH])
  {
    var stack := Fold([], Split(p, SLASH));
    SplitParts(p, SLASH);
    FoldNormal([], Split(p, SLASH));
    ShownAbsolute(stack);
    if stack != [] {
      SplitRender(stack);
      assert ([""] + stack)[1..] == stack;
    }
  }

  lemma {:induction false} ShownAbsolute(stack: seq<string>)
    ensures HasPrefix(Shown(stack), [SLASH])
  {
    if |stack| > 1 {
      ShownAbsolute(stack[..|stack| - 1]);
    } else if |stack| == 1 {
      assert Render([]) + [SLASH] == [SLASH];
    }
  }

  // Exactly the normal paths are left alone.
  lemma CleanFixedIff(p: string)
    ensures Clean(p) == p <==> NormalPath(p)
  {
    if NormalPath(p) {
      if p == [SLASH] {
        FoldShown([]);
      } else {
        var segs := Split(p, SLASH);
        assert segs == [""] + segs[1..];
        FoldAppend([], [""], segs[1..]);
        assert [""][..0] == [];
        assert Fold([], [""]) == [];
        FoldNormalSegments([], segs[1..]);
        assert [] + segs[1..] == segs[1..];
        SplitRender(segs[1..]);
        SplitInjective(Render(segs[1..]), p, SLASH);
      }
    }
    CleanNormal(p);
  }

  lemma JoinCons(x: string, rest: seq<string>, c: char)
    requires rest != []
    ensures Join([x] + rest, c) == x + [c] + Join(rest, c)
  {
    assert ([x] + rest)[1..] == rest;
  }

  lemma {:induction false} JoinSplit(s: string, c: char)
    ensures Join(Split(s, c), c) == s
    decreases |s|
  {
    var i := IndexOf(s, c);
    if i >= 0 {
      JoinSplit(s[i + 1..], c);
      SplitAt(s, c, i);
      JoinCons(s[..i], Split(s[i + 1..], c), c);
      TakenApart(s, i);
    } else {
      SplitWhole(s, c);
    }
  }

  lemma SplitInjective(a: string, b: string, c: char)
    requires Split(a, c) == Split(b, c)
    ensures a == b
  {
    JoinSplit(a, c);
    JoinSplit(b, c);
  }

  // ---------------------------------------------------------------------
  // The loop over a string buffer
  // ---------------------------------------------------------------------

  lemma {:induction false} LastAt(s: string, c: char, k: nat)
    requires k < |s| && s[k] == c && c !in s[k + 1..]
    ensures LastIndexOf(s, c) == k
  {
    if k < |s| - 1 {
      assert s[k + 1..][|s| - k - 2] == s[|s| - 1];
      assert s[..|s| - 1][k + 1..] == s[k + 1..][..|s| - k - 2];
      LastAt(s[..|s| - 1], c, k);
    }
  }

  lemma LastCut(head: string, last: string)
    requires SLASH !in last
    ensures LastIndexOf(head + [SLASH] + last, SLASH) == |head|
    ensures (head + [SLASH] + last)[..|head|] == head
  {
    CutParts(head, last);
    LastAt(head + [SLASH] + last, SLASH, |head|);
  }

  lemma CutParts(head: string, last: string)
    ensures var s := head + [SLASH] + last;
            s[..|head|] == head && s[|head|] == SLASH && s[|head| + 1..] == last
  {
  }

  lemma RenderSnoc(stack: seq<string>, seg: string)
    ensures Render(stack + [seg]) == Render(stack) + [SLASH] + seg
  {
    assert (stack + [seg])[..|stack|] == stack;
  }

  // Folding one more segment, and what it does to the text.
  lemma FoldStep(segs: seq<string>, i: nat)
    requires i < |segs| && forall s :: s in segs ==> SLASH !in s
    ensures Fold([], segs[..i + 1]) == Push(Fold([], segs[..i]), segs[i])
    ensures Normal(Fold([], segs[..i])) && Normal(Fold([], segs[..i + 1]))
  {
    assert segs[..i + 1][..i] == segs[..i];
    FoldNormal([], segs[..i]);
    FoldNormal([], segs[..i + 1]);
  }

  // One turn of the loop on the text alone.
  function PushText(out: string, seg: string): string {
    if seg == "" || seg == "." then out
    else if seg == ".." then
      var j := LastIndexOf(out, SLASH);
      if j >= 0 then out[..j] else out
    else out + [SLASH] + seg
  }

  lemma PushTextRenders(stack: seq<string>, seg: string)
    requires Normal(stack)
    ensures PushText(Render(stack), seg) == Render(Push(stack, seg))
  {
    if seg == ".." && stack != [] {
      LastCut(Render(stack[..|stack| - 1]), stack[|stack| - 1]);
    } else {
      RenderSnoc(stack, seg);
    }
  }

  lemma TurnRenders(segs: seq<string>, i: nat)
    requires i < |segs| && forall s :: s in segs ==> SLASH !in s
    ensures Render(Fold([], segs[..i + 1])) == PushText(Render(Fold([], segs[..i])), segs[i])
  {
    FoldStep(segs, i);
    PushTextRenders(Fold([], segs[..i]), segs[i]);
  }

  lemma CleanRenders(p: string)
    ensures var out := Render(Fold([], Split(p, SLASH)));
            Clean(p) == if |out| == 0 then [SLASH] else out
  {
    RenderEmptyIff(Fold([], Split(p, SLASH)));
  }

  method CleanPath(p: string) returns (r: string)
    ensures r == Clean(p) && NormalPath(r)
  {
    var out := "";
    var segs := Split(p, SLASH);
    SplitParts(p, SLASH);
    var i := 0;
    while i < |segs|
      invariant 0 <= i <= |segs|
      invariant out == Render(Fold([], segs[..i]))
    {
      TurnRenders(segs, i);
      var seg := segs[i];
      if seg == "" || seg == "." {
      } else if seg == ".." {
        var j := LastIndexOf(out, SLASH);
        if j >= 0 {
          out := out[..j];
        }
      } else {
        out := out + [SLASH];
        out := out + seg;
      }
      i := i + 1;
    }
    assert segs[..i] == segs;
    CleanRenders(p);
    CleanNormal(p);
    if |out| == 0 {
      return [SLASH];
    }
    return out;
  }

  lemma RenderEmptyIff(stack: seq<string>)
    ensures Render(stack) == "" <==> stack == []
  {
  }

  // ---------------------------------------------------------------------
  // The working directory
  // ---------------------------------------------------------------------

  function Resolve(cwd: string, arg: string): Option<string> {
    if arg == "" then Some(cwd)
    else
      var clean := Clean(if HasPrefix(arg, [SLASH]) then arg else cwd + [SLASH] + arg);
      if HasPrefix(clean, [SLASH]) then Some(clean) else None
  }

  // Resolving never fails, and from a normal directory ends in one.
  lemma ResolveNormal(cwd: string, arg: string)
    requires NormalPath(cwd)
    ensures Resolve(cwd, arg).Some? && NormalPath(Resolve(cwd, arg).value)
  {
    CleanNormal(arg);
    CleanNormal(cwd + [SLASH] + arg);
  }

  // The path that is cleaned.
  function Base(cwd: string, arg: string): string {
    if HasPrefix(arg, [SLASH]) then arg else cwd + [SLASH] + arg
  }

  lemma ResolveIs(cwd: string, arg: string)
    requires arg != ""
    ensures Resolve(cwd, arg) == Some(Clean(Base(cwd, arg)))
  {
    CleanNormal(Base(cwd, arg));
  }

  lemma BaseJoins(cwd: string, a: string, b: string)
    requires a != ""
    ensures Base(cwd, a + [SLASH] + b) == Base(cwd, a) + [SLASH] + b
  {
    var ab := a + [SLASH] + b;
    assert ab[0] == a[0];
    assert HasPrefix(ab, [SLASH]) == HasPrefix(a, [SLASH]) == (a[0] == SLASH);
    assert cwd + [SLASH] + ab == cwd + [SLASH] + a + [SLASH] + b;
  }

  // Changing to a and then to b is changing to a/b.
  lemma ChangeTwice(cwd: string, a: string, b: string)
    requires a != "" && b != "" && !HasPrefix(b, [SLASH])
    ensures Resolve(cwd, a).Some? && Resolve(Resolve(cwd, a).value, b) == Resolve(cwd, a + [SLASH] + b)
  {
    ResolveIs(cwd, a);
    ResolveIs(Clean(Base(cwd, a)), b);
    ResolveIs(cwd, a + [SLASH] + b);
    BaseJoins(cwd, a, b);
    CleanAbsorbs(Base(cwd, a), b);
  }

  datatype Stat = Missing | File | Directory

  // The commands that matter to the working directory, with what the
  // authenticator and the file system answer.
  datatype Command =
    | User(name: string)
    | Pass(accepted: bool)
    | Cwd(arg: string, stat: Stat)
    | Cdup(stat: Stat)

  class Session {
    var user: string
    var logged: bool
    var cwd: string

    constructor ()
      ensures user == "" && !logged && cwd == [SLASH] && NormalPath(cwd)
    {
      user, logged, cwd := "", false, [SLASH];
    }

    method ChangeDirectory(arg: string, stat: Stat) returns (ok: bool)
      requires NormalPath(cwd)
      modifies `cwd
      ensures NormalPath(cwd) && ok == stat.Directory?
      ensures Resolve(old(cwd), arg).Some? && cwd == if ok then Resolve(old(cwd), arg).value else old(cwd)
    {
      ResolveNormal(cwd, arg);
      var target := Resolve(cwd, arg);
      if target.None? || stat != Directory {
        return false;
      }
      cwd := target.value;
      return true;
    }

    method Dispatch(c: Command) returns (ok: bool)
      requires NormalPath(cwd)
      modifies this
      ensures NormalPath(cwd)
      ensures State(user, logged, cwd) == Step(old(State(user, logged, cwd)), c)
    {
      if !logged && !c.User? && !c.Pass? {
        return false;
      }
      match c {
        case User(name) =>
          user, logged := name, false;
          return true;
        case Pass(accepted) =>
          if user == "" || !accepted {
            return false;
          }
          logged, cwd := true, [SLASH];
          return true;
        case Cwd(arg, stat) => ok := ChangeDirectory(arg, stat);
        case Cdup(stat) => ok := ChangeDirectory("..", stat);
      }
    }
  }

  datatype State = State(user: string, logged: bool, cwd: string)

  const START := State("", false, [SLASH])

  function Change(s: State, arg: string, stat: Stat): State {
    match Resolve(s.cwd, arg)
    case None => s
    case Some(target) => if stat.Directory? then s.(cwd := target) else s
  }

  function Step(s: State, c: Command): State {
    match c
    case User(name) => s.(user := name, logged := false)
    case Pass(accepted) => if s.user == "" || !accepted then s else s.(logged := true, cwd := [SLASH])
    case Cwd(arg, stat) => if s.logged then Change(s, arg, stat) else s
    case Cdup(stat) => if s.logged then Change(s, "..", stat) else s
  }

  function After(s: State, cs: seq<Command>): State
    decreases cs
  {
    if cs == [] then s else After(Step(s, cs[0]), cs[1..])
  }

  lemma {:induction false} CwdKept(s: State, cs: seq<Command>)
    requires NormalPath(s.cwd)
    ensures NormalPath(After(s, cs).cwd)
    decreases cs
  {
    if cs != [] {
      match cs[0] {
        case Cwd(arg, _) => ResolveNormal(s.cwd, arg);
        case Cdup(_) => ResolveNormal(s.cwd, "..");
        case _ =>
      }
      CwdKept(Step(s, cs[0]), cs[1..]);
    }
  }

  lemma {:induction false} AfterSnoc(s: State, cs: seq<Command>, c: Command)
    ensures After(s, cs + [c]) == Step(After(s, cs), c)
    decreases cs
  {
    if cs == [] {
      NothingLeft([c]);
      assert [c][1..] == [];
    } else {
      AfterSnoc(Step(s, cs[0]), cs[1..], c);
      assert (cs + [c])[1..] == cs[1..] + [c];
    }
  }

  // The position of the last USER command.
  predicate LastUser(cs: seq<Command>, i: nat) {
    i < |cs| && cs[i].User? && forall j :: i < j < |cs| ==> !cs[j].User?
  }

  // A password was accepted, and no other user was named since.
  predicate AcceptedAt(cs: seq<Command>, i: nat) {
    i < |cs| && cs[i] == Pass(true) && forall j :: i < j < |cs| ==> !cs[j].User?
  }

  // Who a session belongs to after any commands: the user named last; and it is logged
  // in exactly when that name is not empty and a password has been accepted for it.
  lemma {:induction false} LoggedInIff(cs: seq<Command>)
    ensures var s := After(START, cs);
            && (forall i: nat :: LastUser(cs, i) ==> s.user == cs[i].name)
            && ((forall i :: 0 <= i < |cs| ==> !cs[i].User?) ==> s.user == "")
            && (s.logged <==> s.user != "" && exists i: nat :: AcceptedAt(cs, i))
  {
    if cs != [] {
      var n := |cs| - 1;
      var init, c := cs[..n], cs[n];
      assert cs == init + [c];
      AfterSnoc(START, init, c);
      LoggedInIff(init);
      if !c.User? {
        forall i: nat | LastUser(cs, i) ensures LastUser(init, i) {}
        forall i: nat | AcceptedAt(init, i) ensures AcceptedAt(cs, i) {}
        forall i: nat | i < n && AcceptedAt(cs, i) ensures AcceptedAt(init, i) {}
      }
      if c == Pass(true) { assert AcceptedAt(cs, n); }
    }
  }

  // The working directory after one more command: a login starts at the root; a session
  // that is logged in moves to a directory that is there; nothing else moves it.
  lemma CwdAfter(s: State, c: Command)
    requires NormalPath(s.cwd)
    ensures Step(s, c).cwd ==
            match c
            case User(_) => s.cwd
            case Pass(accepted) => if s.user != "" && accepted then "/" else s.cwd
            case Cwd(arg, stat) =>
              if s.logged && stat == Directory then (if arg == "" then s.cwd else Clean(Base(s.cwd, arg))) else s.cwd
            case Cdup(stat) => if s.logged && stat == Directory then Clean(Base(s.cwd, "..")) else s.cwd
  {
    ResolveIs(s.cwd, "..");
    if c.Cwd? && c.arg != "" { ResolveIs(s.cwd, c.arg); }
  }

  lemma CwdNormal(cs: seq<Command>)
    ensures var cwd := After(START, cs).cwd; HasPrefix(cwd, [SLASH]) && NormalPath(cwd) && Clean(cwd) == cwd
  {
    CwdKept(START, cs);
    var cwd := After(START, cs).cwd;
    CleanFixedIff(cwd);
    CleanNormal(cwd);
  }
}
