/**
 Registration at the end of the capability negotiation: in every fair run in which
 no nick is refused as taken, whether the session is registered in the end.

 Main result
   RegisteredIff   from some point on the session is registered if and only if the
                   nick is valid, something is left of the user name, and the
                   client does not panic; and never otherwise
 */
module CapRegistration {
  import opened Text
  import opened CapClient
  import opened CapServer
  import opened CapSession
  import opened CapProgress
  import Sasl
  import IrcMessage

  // ---------------------------------------------------------------------
  // The messages that name the user
  // ---------------------------------------------------------------------

  predicate IsReg(m: Msg) {
    m.Nick? || m.User?
  }

  function Regs(q: seq<Msg>): seq<Msg> {
    if q == [] then [] else (if IsReg(q[0]) then [q[0]] else []) + Regs(q[1..])
  }

  lemma {:induction false} RegsAppend(a: seq<Msg>, b: seq<Msg>)
    ensures Regs(a + b) == Regs(a) + Regs(b)
  {
    if a == [] {
      NothingLeft(b);
    } else {
      RegsAppend(a[1..], b);
      assert (a + b)[1..] == a[1..] + b;
      Associate(if IsReg(a[0]) then [a[0]] else [], Regs(a[1..]), Regs(b));
    }
  }

  lemma {:induction false} RegsNone(q: seq<Msg>)
    requires forall i :: 0 <= i < |q| ==> !IsReg(q[i])
    ensures Regs(q) == []
  {
    if q != [] { RegsNone(q[1..]); }
  }

  lemma RegsHead(q: seq<Msg>)
    requires q != []
    ensures IsReg(q[0]) ==> Regs(q) != [] && Regs(q)[0] == q[0] && Regs(q)[1..] == Regs(q[1..])
    ensures !IsReg(q[0]) ==> Regs(q) == Regs(q[1..])
  {
  }

  // Nothing that names the user joins the link.
  lemma RegsKept(q: seq<Msg>, out: seq<Msg>)
    requires forall i :: 0 <= i < |out| ==> !IsReg(out[i])
    ensures Regs(q + out) == Regs(q)
  {
    RegsAppend(q, out);
    RegsNone(out);
    assert Regs(q) + [] == Regs(q);
  }

  // ---------------------------------------------------------------------
  // Runs without a dispute about the nick
  // ---------------------------------------------------------------------

  predicate Refusal(m: Msg) {
    m.Numeric? && m.code == 433
  }

  predicate NoRefusal(q: seq<Msg>) {
    forall i :: 0 <= i < |q| ==> !Refusal(q[i])
  }

  predicate NoReg(q: seq<Msg>) {
    forall i :: 0 <= i < |q| ==> !IsReg(q[i])
  }

  // The nick is free whenever the server looks, and the program using the client
  // leaves NICK and USER to it.
  predicate Calm(step: Step) {
    match step
    case ClientReads(_) => true
    case ServerReads(env) => !env.taken && !env.addFails
    case AppSends(m) => !IsReg(m)
    case ServerSays(m) => !Refusal(m)
  }

  ghost predicate Undisputed(act: nat -> Step) {
    forall i: nat :: Calm(act(i))
  }

  function NickMsg(w: World): Msg {
    Nick([w.client.nick])
  }

  function UserMsg(w: World): Msg {
    User([w.client.user, "0", "*", w.client.realName])
  }

  // What the server makes of them.
  function NickOf(w: World): string {
    if IsValidNick(w.client.nick) then w.client.nick else ""
  }

  function UserOf(w: World): string {
    CleanUsername(w.client.user)
  }

  // What is still on its way to the server, and what has arrived.
  predicate Arriving(w: World, s: Session, regs: seq<Msg>) {
    || (regs == [NickMsg(w), UserMsg(w)] && s.nick == "" && s.user == "")
    || (regs == [UserMsg(w)] && s.nick == NickOf(w) && s.user == "")
    || (regs == [] && s.nick == NickOf(w) && s.user == UserOf(w))
  }

  // A session with both names does not wait for anything but the negotiation, and a
  // registered one has both.
  predicate Tried(s: Session) {
    && (s.nick != "" && s.user != "" ==> s.state != PreReg)
    && (s.state == Registered ==> s.nick != "" && s.user != "")
  }

  predicate Names(w: World, y: System) {
    NoRefusal(y.down) && Tried(y.session) && Arriving(w, y.session, Regs(y.up))
  }

  lemma RegsTwo(a: Msg, b: Msg)
    requires IsReg(a) && IsReg(b)
    ensures Regs([a, b]) == [a, b]
  {
    assert [a, b][1..] == [b] && [b][1..] == [];
    assert Regs([b]) == [b];
  }

  lemma StartNames(w: World)
    ensures Names(w, Start(w))
  {
    var pass := if w.client.password == "" then [] else [Pass([w.client.password])];
    var front, names := [LIST_MSG] + pass, [NickMsg(w), UserMsg(w)];
    assert Opening(w.client) == front + names;
    RegsAppend(front, names);
    RegsNone(front);
    RegsTwo(NickMsg(w), UserMsg(w));
    NothingLeft(names);
  }

  // ---------------------------------------------------------------------
  // One step
  // ---------------------------------------------------------------------

  lemma TryRegisterTried(s: Session, env: Env)
    requires !env.addFails && (s.state == Registered ==> s.nick != "" && s.user != "")
    ensures var (s1, out) := TryRegister(s, env);
            Tried(s1) && s1.nick == s.nick && s1.user == s.user && NoRefusal(out)
  {
  }

  lemma ExchangeCodes(x: Sasl.Exchange, offered: bool, params: seq<string>, login: Sasl.Login)
    ensures forall r :: r in Sasl.Authenticate(x, offered, params, login).1 ==> !(r.Numeric? && r.code == 433)
    ensures forall r :: r in Sasl.AbortExchange(x).1 ==> !(r.Numeric? && r.code == 433)
  {
  }

  lemma SaslNoRefusal(s: Session, replies: seq<Sasl.Reply>)
    requires forall r :: r in replies ==> !(r.Numeric? && r.code == 433)
    ensures NoRefusal(SaslReplies(s, replies))
  {
    var q := SaslReplies(s, replies);
    forall i | 0 <= i < |q| ensures !Refusal(q[i]) { assert replies[i] in replies; }
  }

  lemma EndNames(s: Session, env: Env)
    requires Tried(s) && !env.addFails
    ensures var (s1, out) := HandleEnd(s, env);
            Tried(s1) && s1.nick == s.nick && s1.user == s.user && NoRefusal(out)
  {
    var (x, replies) := Sasl.AbortExchange(s.sasl);
    ExchangeCodes(s.sasl, true, [], env.login);
    SaslNoRefusal(s, replies);
    TryRegisterTried(s.(sasl := x, state := if s.state == CapNeg then PreReg else s.state), env);
  }

  lemma ListNames(cfg: ServerConfig, s: Session, arg: string, env: Env)
    requires Tried(s) && forall n :: n in env.names ==> n in Supported(cfg, AfterList(s, arg).version)
    ensures var (s1, out) := HandleList(cfg, s, arg, env);
            Tried(s1) && s1.nick == s.nick && s1.user == s.user && NoRefusal(out)
  {
  }

  lemma RequestNames(cfg: ServerConfig, s: Session, arg: string)
    requires Tried(s)
    ensures var (s1, out) := HandleRequest(cfg, s, arg);
            Tried(s1) && s1.nick == s.nick && s1.user == s.user && NoRefusal(out)
  {
  }

  lemma CapNames(cfg: ServerConfig, s: Session, params: seq<string>, env: Env)
    requires EnvOk(cfg, s, Cap(params), env) && Tried(s) && !env.addFails
    ensures var (s1, out) := HandleCap(cfg, s, params, env);
            Tried(s1) && s1.nick == s.nick && s1.user == s.user && NoRefusal(out)
  {
    if params != [] {
      match SubOf(params[0])
      case LS => ListNames(cfg, s, SecondParam(params), env);
      case REQ => RequestNames(cfg, s, SecondParam(params));
      case END => EndNames(s, env);
      case _ =>
    }
  }

  lemma AuthNames(s: Session, params: seq<string>, env: Env)
    requires Tried(s)
    ensures var (s1, out) := HandleAuth(s, params, env);
            Tried(s1) && s1.nick == s.nick && s1.user == s.user && NoRefusal(out)
  {
    ExchangeCodes(s.sasl, SASL in s.caps, params, env.login);
    SaslNoRefusal(s, Sasl.Authenticate(s.sasl, SASL in s.caps, params, env.login).1);
  }

  // A message that names nobody leaves the names alone.
  lemma ServerOtherNames(cfg: ServerConfig, s: Session, m: Msg, env: Env)
    requires EnvOk(cfg, s, m, env) && Tried(s) && !env.addFails && !IsReg(m)
    ensures var (s1, out) := Serve(cfg, s, m, env);
            Tried(s1) && s1.nick == s.nick && s1.user == s.user && NoRefusal(out)
  {
    match m
    case Cap(params) => CapNames(cfg, s, params, env);
    case Auth(params) => AuthNames(s, params, env);
    case _ =>
  }

  lemma ServerNick(s: Session, nick: string, env: Env)
    requires Tried(s) && !env.taken && !env.addFails
    ensures var (s1, out) := HandleNick(s, [nick], env);
            Tried(s1) && s1.nick == (if IsValidNick(nick) then nick else s.nick) && s1.user == s.user && NoRefusal(out)
  {
    if IsValidNick(nick) { TryRegisterTried(s.(nick := nick), env); }
  }

  lemma ServerUser(s: Session, params: seq<string>, env: Env)
    requires Tried(s) && s.state != Registered && |params| == 4 && !env.addFails
    ensures var (s1, out) := HandleUser(s, params, env);
            Tried(s1) && s1.nick == s.nick && s1.user == CleanUsername(params[0]) && NoRefusal(out)
  {
    TryRegisterTried(s.(user := CleanUsername(params[0])), env);
  }

  lemma JoinNoRefusal(q: seq<Msg>, out: seq<Msg>)
    requires NoRefusal(q) && NoRefusal(out)
    ensures NoRefusal(q + out)
  {
  }

  lemma ServerNames(w: World, y: System, env: Env)
    requires Names(w, y) && y.up != [] && EnvOk(w.server, y.session, y.up[0], env) && !env.taken && !env.addFails
    ensures Names(w, AfterServer(w, y, env))
  {
    var m, s := y.up[0], y.session;
    var out := Serve(w.server, s, m, env).1;
    RegsHead(y.up);
    if !IsReg(m) {
      ServerOtherNames(w.server, s, m, env);
    } else if m.Nick? {
      assert Regs(y.up) == [NickMsg(w), UserMsg(w)];
      ServerNick(s, w.client.nick, env);
    } else {
      assert Regs(y.up) == [UserMsg(w)];
      ServerUser(s, UserMsg(w).params, env);
    }
    JoinNoRefusal(y.down, out);
  }

  lemma ClientNoReg(cfg: Config, c: Client, m: Msg, respond: Mechanism)
    requires !Refusal(m)
    ensures var r := Handle(cfg, c, m, respond); r.Ran? ==> NoReg(r.sent)
  {
  }

  lemma ClientNames(w: World, y: System, respond: Mechanism)
    requires Names(w, y) && y.down != []
    ensures Names(w, AfterClient(w, y, respond))
  {
    ClientNoReg(w.client, y.client, y.down[0], respond);
    match Handle(w.client, y.client, y.down[0], respond)
    case Panic =>
    case Ran(_, out) => RegsKept(y.up, out);
  }

  lemma NamesKept(w: World, y: System, step: Step)
    requires Names(w, y) && Enabled(w, y, step) && Calm(step)
    ensures Names(w, Apply(w, y, step))
  {
    match step
    case ClientReads(respond) => ClientNames(w, y, respond);
    case ServerReads(env) => ServerNames(w, y, env);
    case AppSends(m) => RegsKept(y.up, [m]);
    case ServerSays(m) => JoinNoRefusal(y.down, [m]);
  }

  lemma {:induction false} NamesAlong(w: World, path: nat -> System, act: nat -> Step, i: nat)
    requires Path(w, path, act) && path(0) == Start(w) && Undisputed(act)
    ensures Names(w, path(i))
  {
    if i == 0 {
      StartNames(w);
    } else {
      NamesAlong(w, path, act, i - 1);
      assert Follows(w, path, act, i - 1);
      assert Calm(act(i - 1));
      NamesKept(w, path(i - 1), act(i - 1));
    }
  }

  lemma AtMoment(w: World, path: nat -> System, act: nat -> Step, i: nat)
    requires Path(w, path, act) && path(0) == Start(w) && Undisputed(act)
    ensures Names(w, path(i)) && Calm(act(i))
    ensures Enabled(w, path(i), act(i)) && path(i + 1) == Apply(w, path(i), act(i))
  {
    NamesAlong(w, path, act, i);
    assert Follows(w, path, act, i);
  }

  // ---------------------------------------------------------------------
  // Both arrive
  // ---------------------------------------------------------------------

  // How many messages stand before the first that names the user.
  function Before(q: seq<Msg>): nat {
    if q == [] || IsReg(q[0]) then 0 else 1 + Before(q[1..])
  }

  lemma {:induction false} BeforeAppend(q: seq<Msg>, out: seq<Msg>)
    requires Regs(q) != []
    ensures Before(q + out) == Before(q)
  {
    RegsHead(q);
    assert (q + out)[0] == q[0] && (q + out)[1..] == q[1..] + out;
    if !IsReg(q[0]) { BeforeAppend(q[1..], out); }
  }

  // One step on the way of those messages: only the server's reading brings them on.
  lemma RegsStep(w: World, y: System, step: Step)
    requires Names(w, y) && Enabled(w, y, step) && Calm(step) && Regs(y.up) != []
    ensures var q := Apply(w, y, step).up;
            if step.ServerReads? then
              |Regs(q)| < |Regs(y.up)| || (Regs(q) == Regs(y.up) && Before(q) < Before(y.up))
            else Regs(q) == Regs(y.up) && Before(q) == Before(y.up)
  {
    match step
    case ServerReads(_) => RegsHead(y.up);
    case ClientReads(respond) =>
      ClientNoReg(w.client, y.client, y.down[0], respond);
      var r := Handle(w.client, y.client, y.down[0], respond);
      if r.Ran? {
        RegsKept(y.up, r.sent);
        BeforeAppend(y.up, r.sent);
      }
    case AppSends(m) =>
      RegsKept(y.up, [m]);
      BeforeAppend(y.up, [m]);
    case ServerSays(_) =>
  }

  lemma RegsMoment(w: World, path: nat -> System, act: nat -> Step, i: nat)
    requires Path(w, path, act) && path(0) == Start(w) && Undisputed(act) && Regs(path(i).up) != []
    ensures var (q, q1) := (path(i).up, path(i + 1).up);
            if act(i).ServerReads? then |Regs(q1)| < |Regs(q)| || (Regs(q1) == Regs(q) && Before(q1) < Before(q))
            else Regs(q1) == Regs(q) && Before(q1) == Before(q)
  {
    AtMoment(w, path, act, i);
    RegsStep(w, path(i), act(i));
  }

  lemma {:induction false} Arrive(w: World, path: nat -> System, act: nat -> Step, i: nat, j: nat) returns (n: nat)
    requires Path(w, path, act) && Fair(path, act) && path(0) == Start(w) && Undisputed(act)
    requires Regs(path(i).up) != [] && j >= i && act(j).ServerReads?
    ensures Regs(path(n).up) == []
    decreases |Regs(path(i).up)|, Before(path(i).up), j - i
  {
    RegsMoment(w, path, act, i);
    if Regs(path(i + 1).up) == [] {
      n := i + 1;
    } else if act(i).ServerReads? {
      assert ServerReadsLater(act, i + 1);
      var j': nat :| j' >= i + 1 && act(j').ServerReads?;
      n := Arrive(w, path, act, i + 1, j');
    } else {
      n := Arrive(w, path, act, i + 1, j);
    }
  }

  lemma StayArrived(w: World, y: System, step: Step)
    requires Names(w, y) && Enabled(w, y, step) && Calm(step) && Regs(y.up) == []
    ensures Regs(Apply(w, y, step).up) == []
  {
    match step
    case ServerReads(_) => RegsHead(y.up);
    case ClientReads(respond) =>
      ClientNoReg(w.client, y.client, y.down[0], respond);
      var r := Handle(w.client, y.client, y.down[0], respond);
      if r.Ran? { RegsKept(y.up, r.sent); }
    case AppSends(m) => RegsKept(y.up, [m]);
    case ServerSays(_) =>
  }

  lemma StayMoment(w: World, path: nat -> System, act: nat -> Step, i: nat)
    requires Path(w, path, act) && path(0) == Start(w) && Undisputed(act) && Regs(path(i).up) == []
    ensures Regs(path(i + 1).up) == []
  {
    AtMoment(w, path, act, i);
    StayArrived(w, path(i), act(i));
  }

  lemma {:induction false} ArrivedAlong(w: World, path: nat -> System, act: nat -> Step, n: nat, i: nat)
    requires Path(w, path, act) && path(0) == Start(w) && Undisputed(act) && n <= i && Regs(path(n).up) == []
    ensures Regs(path(i).up) == []
    decreases i
  {
    if n < i {
      ArrivedAlong(w, path, act, n, i - 1);
      StayMoment(w, path, act, i - 1);
    }
  }

  lemma BothArrive(w: World, path: nat -> System, act: nat -> Step) returns (n: nat)
    requires Path(w, path, act) && Fair(path, act) && path(0) == Start(w) && Undisputed(act)
    ensures forall i: nat :: i >= n ==> path(i).session.nick == NickOf(w) && path(i).session.user == UserOf(w)
  {
    n := 0;
    if Regs(path(0).up) != [] {
      assert ServerReadsLater(act, 0);
      var j: nat :| j >= 0 && act(j).ServerReads?;
      n := Arrive(w, path, act, 0, j);
    }
    forall i: nat | i >= n ensures path(i).session.nick == NickOf(w) && path(i).session.user == UserOf(w) {
      NamesAlong(w, path, act, i);
      ArrivedAlong(w, path, act, n, i);
    }
  }

  // ---------------------------------------------------------------------
  // In the end
  // ---------------------------------------------------------------------

  lemma PanickedNotRegistered(w: World, y: System, stage: Stage)
    requires Inv(KnownOf(w), y, stage) && Panics(w)
    ensures y.session.state != Registered
  {
    PanicsIff(w);
  }

  lemma SettledIff(w: World, y: System, stage: Stage)
    requires Inv(KnownOf(w), y, stage) && Over(y) && (y.crashed <==> Panics(w))
    requires Tried(y.session) && y.session.nick == NickOf(w) && y.session.user == UserOf(w)
    ensures y.session.state == Registered <==>
            IsValidNick(w.client.nick) && CleanUsername(w.client.user) != "" && !Panics(w)
  {
    if Panics(w) { PanickedNotRegistered(w, y, stage); }
  }

  // In every fair run without a dispute about the nick the session is registered
  // from some point on exactly when the nick is valid, the user name is not empty
  // once it is cleaned, and the client does not panic; otherwise it never is again.
  lemma RegisteredIff(w: World, path: nat -> System, act: nat -> Step) returns (n: nat)
    requires GoodConfig(w.server) && Path(w, path, act) && Fair(path, act) && path(0) == Start(w) && Undisputed(act)
    ensures forall i: nat :: i >= n ==>
              (path(i).session.state == Registered <==>
               IsValidNick(w.client.nick) && CleanUsername(w.client.user) != "" && !Panics(w))
  {
    var a := FairRunEnds(w, path, act);
    var b := BothArrive(w, path, act);
    n := if a > b then a else b;
    StartInv(w);
    forall i: nat | i >= n
      ensures path(i).session.state == Registered <==>
              IsValidNick(w.client.nick) && CleanUsername(w.client.user) != "" && !Panics(w)
    {
      var stage := Along(w, KnownOf(w), path, act, 0, i, Asking);
      NamesAlong(w, path, act, i);
      SettledIff(w, path(i), stage);
    }
  }

  // And at no moment of any such run, fair or not, is it registered otherwise.
  lemma RegisteredOnlyIf(w: World, path: nat -> System, act: nat -> Step, i: nat)
    requires Path(w, path, act) && path(0) == Start(w) && Undisputed(act) && path(i).session.state == Registered
    ensures IsValidNick(w.client.nick) && CleanUsername(w.client.user) != ""
    ensures path(i).session.nick == w.client.nick && path(i).session.user == CleanUsername(w.client.user)
  {
    NamesAlong(w, path, act, i);
  }

  // A user name of one tilde is cleaned away, so its client is never registered.
  lemma TildeNeverRegisters(w: World, path: nat -> System, act: nat -> Step, i: nat)
    requires Path(w, path, act) && path(0) == Start(w) && Undisputed(act) && w.client.user == "~"
    ensures path(i).session.state != Registered
  {
    assert CleanUsername("~") == "";
    if path(i).session.state == Registered { RegisteredOnlyIf(w, path, act, i); }
  }

  // ---------------------------------------------------------------------
  // What the two sides make of each other's names
  // ---------------------------------------------------------------------

  // A session that registers is welcomed under its nick, which the client takes for
  // its own.
  lemma WelcomeTaken(s: Session, env: Env, cfg: Config, c: Client, respond: Mechanism)
    requires s.state == PreReg
    ensures var (s1, out) := TryRegister(s, env);
            && (s1.state == Registered <==> s.nick != "" && s.user != "" && !env.addFails)
            && (s1.state == Registered ==>
                  |out| == 1 && Handle(cfg, c, out[0], respond) == Ran(c.(nick := s.nick, loggedIn := true), []))
  {
  }

  // A nick that is taken, when it is sent or when it comes to registering, is refused in
  // a way the client answers with another nick; a session that lost its nick has none.
  lemma RefusalRetried(s: Session, nick: string, env: Env, cfg: Config, c: Client, respond: Mechanism)
    requires IsValidNick(nick) && (if env.taken then !EqualFold(nick, s.nick) else env.addFails && s.state == PreReg && s.user != "")
    ensures var (s1, out) := HandleNick(s, [nick], env);
            && s1 == (if env.taken then s else s.(nick := ""))
            && |out| == 1 && Handle(cfg, c, out[0], respond) == Ran(c, [Nick([c.nick + "_"])])
  {
  }

  // A valid nick of up to thirty characters passes through a line as a parameter and as
  // a source.
  lemma ValidNickTravels(nick: string)
    requires IsValidNick(nick)
    ensures 1 <= |nick| <= 30 && IrcMessage.GoodMiddle(nick) && IrcMessage.GoodPrefix(IrcMessage.Prefix(nick, "", ""))
  {
  }

  lemma LettersValid(nick: string)
    requires 1 <= |nick| <= 30 && forall i :: 0 <= i < |nick| ==> 'a' <= nick[i] <= 'z' || 'A' <= nick[i] <= 'Z'
    ensures IsValidNick(nick) && forall d :: '0' <= d <= '9' ==> !IsValidNick([d] + nick)
  {
  }
}
