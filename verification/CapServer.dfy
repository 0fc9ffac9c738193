/**
 Capability negotiation and registration, the server's half: what one session
 does with the messages a client sends before and after registration.

 The order in which a map is listed, whether a nick is taken, and the outcome
 of a login are inputs. Only the reply numerics a client reacts to carry their
 meaning; their texts, and the banner after 001, are left out.
 */
module CapServer {
  import opened Text
  import opened CapList
  import opened CapClient
  import Bytes
  import Sasl

  // sts is the policy this connection is told about, if any.
  datatype ServerConfig = ServerConfig(secure: bool, hasAccounts: bool, sts: Option<string>)

  datatype RegState = PreReg | CapNeg | Registered

  datatype Session = Session(
    state: RegState,
    nick: string,
    user: string,
    caps: set<string>,
    version: int,
    sasl: Sasl.Exchange)

  const NEW_SESSION := Session(PreReg, "", "", {}, 0, Sasl.Exchange(false, "", ""))

  // What the rest of the server decides for one message.
  datatype Env = Env(names: seq<string>, taken: bool, addFails: bool, login: Sasl.Login)

  // ---------------------------------------------------------------------
  // Supported capabilities
  // ---------------------------------------------------------------------

  const BASE_CAPS := [
    "server-time", "message-tags", "batch", "draft/chathistory", "echo-message", "multi-prefix", "away-notify",
    "extended-join", "setname", "cap-notify", "invite-notify", "userhost-in-names", "no-implicit-names",
    "standard-replies", "account-tag", "account-notify", "chghost", "extended-monitor", "labeled-response"
  ]

  function Supported(cfg: ServerConfig, version: int): Table {
    var base := map n | n in BASE_CAPS :: "";
    var withSasl := if cfg.secure && cfg.hasAccounts then base[SASL := "PLAIN"] else base;
    if version >= 302 && cfg.sts.Some? then withSasl[STS := cfg.sts.value] else withSasl
  }

  // Only sasl and sts have values.
  lemma SupportedValues(cfg: ServerConfig, version: int, n: string)
    requires n in Supported(cfg, version)
    ensures Supported(cfg, version)[n] ==
            if n == SASL then "PLAIN" else if n == STS && cfg.sts.Some? then cfg.sts.value else ""
  {
    assert SASL !in BASE_CAPS && STS !in BASE_CAPS;
    assert SASL[1] != STS[1];
  }

  // strconv.Atoi on the version argument.
  function Atoi(s: string): Option<int> {
    if forall i :: 0 <= i < |s| ==> s[i] as int < 256
    then Bytes.ParseInt64(seq(|s|, i requires 0 <= i < |s| => if s[i] as int < 256 then s[i] as int else 0))
    else None
  }

  // ---------------------------------------------------------------------
  // Replies
  // ---------------------------------------------------------------------

  function Target(s: Session): string {
    if s.nick == "" then "*" else s.nick
  }

  function Reply(s: Session, code: nat): Msg {
    Numeric(code, [Target(s)])
  }

  function CapReply(s: Session, sub: string, value: string): Msg {
    Cap([Target(s), sub, value])
  }

  function CapLine(s: Session, sub: string, line: Line): Msg {
    if line.more then Cap([Target(s), sub, "*", line.value]) else CapReply(s, sub, line.value)
  }

  function CapLines(s: Session, sub: string, lines: seq<Line>): (r: seq<Msg>)
    ensures |r| == |lines| && forall i :: 0 <= i < |r| ==> r[i] == CapLine(s, sub, lines[i])
  {
    seq(|lines|, i requires 0 <= i < |lines| => CapLine(s, sub, lines[i]))
  }

  function SaslReplies(s: Session, replies: seq<Sasl.Reply>): (r: seq<Msg>)
    ensures |r| == |replies|
    ensures forall i :: 0 <= i < |r| ==>
              r[i] == if replies[i].Challenge? then Auth(["+"]) else Reply(s, replies[i].code)
  {
    seq(|replies|, i requires 0 <= i < |replies| =>
      if replies[i].Challenge? then Auth(["+"]) else Reply(s, replies[i].code))
  }

  // ---------------------------------------------------------------------
  // Registration
  // ---------------------------------------------------------------------

  function TryRegister(s: Session, env: Env): (Session, seq<Msg>) {
    if s.state == Registered || s.state == CapNeg || s.nick == "" || s.user == "" then (s, [])
    else if env.addFails then (s.(nick := ""), [Reply(s, 433)])
    else (s.(state := Registered), [Reply(s, 1)])
  }

  predicate IsLetter(c: char) {
    'a' <= c <= 'z' || 'A' <= c <= 'Z'
  }

  predicate IsNickSpecial(c: char) {
    c in {'_', '\\', '[', ']', '{', '}', '|', '^', '`'}
  }

  predicate IsValidNick(nick: string) {
    && 0 < |nick| <= 30
    && (IsLetter(nick[0]) || IsNickSpecial(nick[0]))
    && forall i :: 0 < i < |nick| ==> IsLetter(nick[i]) || '0' <= nick[i] <= '9' || nick[i] == '-' || IsNickSpecial(nick[i])
  }

  function CleanUsername(u: string): string {
    var t := TrimPrefix(u, "~");
    if |t| > 10 then t[..10] else t
  }

  // A user name without one leading tilde, and of that no more than ten characters.
  lemma CleanUsernameMeaning(u: string)
    ensures var rest := if u != "" && u[0] == '~' then u[1..] else u;
            |CleanUsername(u)| == (if |rest| < 10 then |rest| else 10) && CleanUsername(u) <= rest
  {
    if u != "" && u[0] == '~' { assert u[..1] == "~"; }
  }

  function HandleNick(s: Session, params: seq<string>, env: Env): (Session, seq<Msg>) {
    if params == [] then (s, [Reply(s, 431)])
    else if !IsValidNick(params[0]) then (s, [Reply(s, 432)])
    else if env.taken && !EqualFold(params[0], s.nick) then (s, [Reply(s, 433)])
    else TryRegister(s.(nick := params[0]), env)
  }

  function HandleUser(s: Session, params: seq<string>, env: Env): (Session, seq<Msg>) {
    if s.state == Registered then (s, [Reply(s, 462)])
    else if |params| < 4 then (s, [Reply(s, 461)])
    else TryRegister(s.(user := CleanUsername(params[0])), env)
  }

  // ---------------------------------------------------------------------
  // CAP
  // ---------------------------------------------------------------------

  function Negotiating(s: Session): Session {
    if s.state == Registered then s else s.(state := CapNeg)
  }

  // Every listed name is one of the table's, and every one of the table's is listed.
  ghost predicate ListsAll(names: seq<string>, t: Table) {
    forall n :: n in names <==> n in t
  }

  function HandleList(cfg: ServerConfig, s: Session, arg: string, env: Env): (Session, seq<Msg>)
    requires forall n :: n in env.names ==> n in Supported(cfg, AfterList(s, arg).version)
  {
    var s1 := AfterList(s, arg);
    var tokens := Tokens(env.names, Supported(cfg, s1.version), s1.version >= 302);
    (s1, CapLines(s1, "LS", ReplyLines(tokens)))
  }

  function AfterList(s: Session, arg: string): Session {
    var s1 := Negotiating(s);
    var v := Atoi(arg);
    if v.Some? && v.value >= 302 then s1.(version := v.value, caps := s1.caps + {CAP_NOTIFY}) else s1
  }

  // A request is granted only as a whole.
  predicate Grantable(t: Table, caps: seq<string>) {
    forall i :: 0 <= i < |caps| ==> TrimPrefix(caps[i], "-") in t && TrimPrefix(caps[i], "-") != STS
  }

  function Grant(caps: set<string>, version: int, asked: seq<string>): set<string>
    decreases asked
  {
    if asked == [] then caps
    else
      var name := TrimPrefix(asked[0], "-");
      var after :=
        if !HasPrefix(asked[0], "-") then caps + {name}
        else if name != CAP_NOTIFY || version < 302 then caps - {name}
        else caps;
      Grant(after, version, asked[1..])
  }

  // Where a request last mentions a capability, with or without a minus.
  predicate LastMention(asked: seq<string>, name: string, i: nat) {
    && i < |asked| && TrimPrefix(asked[i], "-") == name
    && forall j :: i < j < |asked| ==> TrimPrefix(asked[j], "-") != name
  }

  lemma GrantOne(caps: set<string>, version: int, cap: string)
    ensures var name := TrimPrefix(cap, "-");
            Grant(caps, version, [cap]) ==
            if !HasPrefix(cap, "-") then caps + {name}
            else if name == CAP_NOTIFY && version >= 302 then caps
            else caps - {name}
  {
    assert [cap][1..] == [];
  }

  // The last mention of a name decides: without a minus it is enabled, with one it is
  // not, except that cap-notify stays as it was for a client of version 302. What is
  // not mentioned stays as it was.
  lemma {:induction false} GrantMeaning(caps: set<string>, version: int, asked: seq<string>, name: string)
    ensures (forall i :: 0 <= i < |asked| ==> TrimPrefix(asked[i], "-") != name) ==>
              (name in Grant(caps, version, asked) <==> name in caps)
    ensures !(name == CAP_NOTIFY && version >= 302) ==>
              forall i: nat :: LastMention(asked, name, i) ==>
                (name in Grant(caps, version, asked) <==> !HasPrefix(asked[i], "-"))
    ensures name == CAP_NOTIFY && version >= 302 ==>
              (name in Grant(caps, version, asked) <==>
               name in caps || exists i :: 0 <= i < |asked| && TrimPrefix(asked[i], "-") == name && !HasPrefix(asked[i], "-"))
    decreases asked
  {
    if asked != [] {
      var first := Grant(caps, version, [asked[0]]);
      GrantOne(caps, version, asked[0]);
      GrantMeaning(first, version, asked[1..], name);
      assert forall i :: 0 < i < |asked| ==> asked[i] == asked[1..][i - 1];
      forall i: nat | LastMention(asked, name, i) && i > 0
        ensures LastMention(asked[1..], name, i - 1)
      {
      }
    }
  }

  // The client's reading of an acknowledgement does what the server's grant of the same
  // words does, for every name but cap-notify, whatever both had before.
  lemma {:induction false} AckFollowsGrant(caps: set<string>, held: set<string>, version: int, asked: seq<string>, name: string)
    requires (name in caps <==> name in held) && name != CAP_NOTIFY
    ensures name in Acknowledge(caps, asked).0 <==> name in Grant(held, version, asked)
    decreases asked
  {
    if asked != [] {
      var word := asked[0];
      GrantOne(held, version, word);
      if HasPrefix(word, "-") {
        AckFollowsGrant(caps - {TrimPrefix(word, "-")}, Grant(held, version, [word]), version, asked[1..], name);
      } else {
        AckFollowsGrant(caps + {word}, Grant(held, version, [word]), version, asked[1..], name);
      }
    }
  }

  // Giving up cap-notify is acknowledged to a client of version 302 and not done.
  lemma NotifyKept(caps: set<string>)
    requires CAP_NOTIFY in caps
    ensures CAP_NOTIFY !in Acknowledge(caps, ["-cap-notify"]).0 && CAP_NOTIFY in Grant(caps, 302, ["-cap-notify"])
  {
    GrantOne(caps, 302, "-cap-notify");
    assert ["-cap-notify"][1..] == [] && "-cap-notify"[..1] == "-" && "-cap-notify"[1..] == CAP_NOTIFY;
  }

  function HandleRequest(cfg: ServerConfig, s: Session, arg: string): (Session, seq<Msg>) {
    var s1 := Negotiating(s);
    var req := TrimPrefix(arg, ":");
    if !Grantable(Supported(cfg, s.version), Fields(req)) then (s1, [CapReply(s1, "NAK", req)])
    else (s1.(caps := Grant(s1.caps, s1.version, Fields(req))), [CapReply(s1, "ACK", req)])
  }

  function HandleEnd(s: Session, env: Env): (Session, seq<Msg>) {
    var (x, replies) := Sasl.AbortExchange(s.sasl);
    var s1 := s.(sasl := x, state := if s.state == CapNeg then PreReg else s.state);
    var (s2, out) := TryRegister(s1, env);
    (s2, SaslReplies(s, replies) + out)
  }

  // The name a word of a request is about.
  function NameIn(word: string): string {
    if word != "" && word[0] == '-' then word[1..] else word
  }

  lemma NameInIs(word: string)
    ensures TrimPrefix(word, "-") == NameIn(word) && (HasPrefix(word, "-") <==> word != "" && word[0] == '-')
  {
    if word != "" && word[0] == '-' { assert word[..1] == "-"; }
  }

  // A request, from any client at any time: it is granted exactly when every name in it
  // is one of the server's and none is sts; the answer repeats it, to the nick or to the
  // star; one that is refused enables and disables nothing.
  lemma RequestMeaning(cfg: ServerConfig, s: Session, req: string)
    requires req != "" ==> req[0] != ':'
    ensures var (s1, out) := HandleRequest(cfg, s, req);
            var words := Fields(req);
            var granted := forall i :: 0 <= i < |words| ==> NameIn(words[i]) in Supported(cfg, s.version) && NameIn(words[i]) != "sts";
            && out == [Cap([if s.nick == "" then "*" else s.nick, if granted then "ACK" else "NAK", req])]
            && s1 == s.(caps := s1.caps, state := if s.state == Registered then Registered else CapNeg)
            && (!granted ==> s1.caps == s.caps)
            && (granted ==> s1.caps == Grant(s.caps, s.version, words))
    ensures HandleRequest(cfg, s, ":" + req) == HandleRequest(cfg, s, req)
  {
    forall w: string ensures TrimPrefix(w, "-") == NameIn(w) { NameInIs(w); }
    assert (":" + req)[..1] == ":" && (":" + req)[1..] == req;
    assert TrimPrefix(":" + req, ":") == req;
    assert TrimPrefix(req, ":") == req;
  }

  // CAP END leaves no exchange under way, tells about one that was, and no longer holds
  // registration back.
  lemma EndMeaning(s: Session, env: Env)
    requires s.sasl.active || s.sasl.buffer == ""
    ensures var (s1, out) := HandleEnd(s, env);
            && s1.sasl == Sasl.Exchange(false, "", s.sasl.account) && s1.state != CapNeg && s1.caps == s.caps
            && (s.sasl.active <==> exists m :: m in out && m.Numeric? && m.code == 906)
            && (s.state != Registered ==> (s1.state == Registered <==> s.nick != "" && s.user != "" && !env.addFails))
  {
    Sasl.AbortMeaning(s.sasl);
    var (x, replies) := Sasl.AbortExchange(s.sasl);
    var out := HandleEnd(s, env).1;
    if s.sasl.active { assert out[0] == SaslReplies(s, replies)[0]; }
  }

  // What the map listing must satisfy for this message.
  ghost predicate EnvOk(cfg: ServerConfig, s: Session, m: Msg, env: Env) {
    m.Cap? && m.params != [] && SubOf(m.params[0]) == LS ==>
      ListsAll(env.names, Supported(cfg, AfterList(s, SecondParam(m.params)).version))
  }

  function SecondParam(params: seq<string>): string {
    if |params| >= 2 then params[1] else ""
  }

  function HandleCap(cfg: ServerConfig, s: Session, params: seq<string>, env: Env): (Session, seq<Msg>)
    requires EnvOk(cfg, s, Cap(params), env)
  {
    if params == [] then (s, [Reply(s, 410)])
    else match SubOf(params[0])
         case LS => HandleList(cfg, s, SecondParam(params), env)
         case LIST => (s, CapLines(s, "LIST", ReplyLines(env.names)))
         case REQ => HandleRequest(cfg, s, SecondParam(params))
         case END => HandleEnd(s, env)
         case _ => (s, [Reply(s, 410)])
  }

  function HandleAuth(s: Session, params: seq<string>, env: Env): (Session, seq<Msg>) {
    var (x, replies) := Sasl.Authenticate(s.sasl, SASL in s.caps, params, env.login);
    (s.(sasl := x), SaslReplies(s, replies))
  }

  function Serve(cfg: ServerConfig, s: Session, m: Msg, env: Env): (Session, seq<Msg>)
    requires EnvOk(cfg, s, m, env)
  {
    match m
    case Cap(params) => HandleCap(cfg, s, params, env)
    case Auth(params) => HandleAuth(s, params, env)
    case Nick(params) => HandleNick(s, params, env)
    case User(params) => HandleUser(s, params, env)
    case Pass(_) => (s, if s.state == Registered then [Reply(s, 462)] else [])
    case Ping(params) => (s, [Pong(params)])
    case Pong(_) => (s, [])
    case _ => (s, if s.state == Registered then [] else [Reply(s, 451)])
  }

  // ---------------------------------------------------------------------
  // The supported names
  // ---------------------------------------------------------------------

  // A capability name that passes through lists and requests unchanged.
  predicate GoodName(n: string) {
    IsField(n) && '=' !in n && n[0] != '-' && n[0] != ':' && n[0] != '*'
  }

  // Lower-case letters, hyphens and slashes, beginning with a letter.
  predicate PlainName(n: string) {
    n != [] && n[0] != '-' && forall i :: 0 <= i < |n| ==> 'a' <= n[i] <= 'z' || n[i] == '-' || n[i] == '/'
  }

  lemma PlainIsGood(n: string)
    requires PlainName(n)
    ensures GoodName(n)
  {
    assert n[0] in n;
    assert forall i :: 0 <= i < |n| ==> n[i] != '=' && !IsSpace(n[i]);
  }

  lemma PlainNames1()
    ensures PlainName("server-time")
    ensures PlainName("message-tags")
    ensures PlainName("batch")
    ensures PlainName("draft/chathistory")
    ensures PlainName("echo-message")
  {
  }

  lemma PlainNames2()
    ensures PlainName("multi-prefix")
    ensures PlainName("away-notify")
    ensures PlainName("extended-join")
    ensures PlainName("setname")
    ensures PlainName("cap-notify")
  {
  }

  lemma PlainNames3()
    ensures PlainName("invite-notify")
    ensures PlainName("userhost-in-names")
    ensures PlainName("no-implicit-names")
    ensures PlainName("standard-replies")
    ensures PlainName("account-tag")
  {
  }

  lemma PlainNames4()
    ensures PlainName("account-notify")
    ensures PlainName("chghost")
    ensures PlainName("extended-monitor")
    ensures PlainName("labeled-response")
  {
  }

  lemma BaseNamesPlain()
    ensures forall i :: 0 <= i < |BASE_CAPS| ==> PlainName(BASE_CAPS[i])
  {
    PlainNames1();
    PlainNames2();
    PlainNames3();
    PlainNames4();
  }

  lemma BaseNamesGood(n: string)
    requires n in BASE_CAPS
    ensures GoodName(n)
  {
    BaseNamesPlain();
    PlainIsGood(n);
  }

  // The text of an STS policy holds no white space.
  predicate GoodConfig(cfg: ServerConfig) {
    cfg.sts.Some? && cfg.sts.value != "" ==> IsField(cfg.sts.value)
  }

  lemma BaseHas()
    ensures CAP_NOTIFY in BASE_CAPS && SASL !in BASE_CAPS && STS !in BASE_CAPS
  {
    assert BASE_CAPS[9] == CAP_NOTIFY;
  }

  // The names the server itself adds are as good as the fixed ones.
  lemma AddedNames()
    ensures PlainName(SASL) && PlainName(STS) && IsField("PLAIN")
  {
  }

  lemma SupportedEntry(cfg: ServerConfig, version: int, n: string)
    requires GoodConfig(cfg) && n in Supported(cfg, version)
    ensures GoodName(n) && (Supported(cfg, version)[n] != "" ==> IsField(Supported(cfg, version)[n]))
  {
    AddedNames();
    if n in BASE_CAPS { BaseNamesGood(n); } else { PlainIsGood(n); }
  }

  lemma SupportedClean(cfg: ServerConfig, version: int)
    requires GoodConfig(cfg)
    ensures CleanTable(Supported(cfg, version))
    ensures forall n :: n in Supported(cfg, version) ==> GoodName(n)
  {
    forall n | n in Supported(cfg, version)
      ensures GoodName(n) && (Supported(cfg, version)[n] != "" ==> IsField(Supported(cfg, version)[n]))
    {
      SupportedEntry(cfg, version, n);
    }
  }

  lemma SupportedSasl(cfg: ServerConfig, version: int)
    ensures SASL in Supported(cfg, version) <==> cfg.secure && cfg.hasAccounts
    ensures SASL in Supported(cfg, version) ==> Supported(cfg, version)[SASL] == "PLAIN"
  {
    BaseHas();
    assert SASL != STS;
  }

  lemma Version302()
    ensures Atoi("302") == Some(302)
  {
    var s: Bytes.bytes := [51, 48, 50];
    assert s[..2] == [51, 48] && [51, 48][..1] == [51] && [51][..0] == [];
    assert Bytes.NatValue([51]) == 3;
    assert Bytes.NatValue([51, 48]) == 30;
    assert Bytes.NatValue(s) == 302;
    assert seq(3, i requires 0 <= i < 3 => if "302"[i] as int < 256 then "302"[i] as int else 0) == s;
  }
}
