/**
 The CAP and AUTHENTICATE handlers of client and server in the form the code has
 them: objects whose fields the handlers update, loops over the tokens of a
 value. Each is proved equal to its counterpart in CapClient or CapServer.
 */
module CapHandlers {
  import opened Text
  import opened CapList
  import opened CapClient
  import opened CapServer
  import Sasl

  // A connected client. Handlers that can panic return false when they do.
  class Conn {
    const cfg: Config
    var phase: Phase
    var advertised: Table
    var enabled: set<string>
    var pending: seq<string>
    var mech: bool
    var buffer: string
    var nick: string
    var loggedIn: bool
    var sent: seq<Msg>

    ghost function View(): Client
      reads this
    {
      Client(phase, advertised, enabled, pending, mech, buffer, nick, loggedIn)
    }

    // This handler did what the outcome says, starting from before.
    ghost predicate Did(r: Outcome, ok: bool, before: seq<Msg>)
      reads this
    {
      match r
      case Panic => !ok
      case Ran(c, out) => ok && View() == c && sent == before + out
    }

    constructor (cfg: Config)
      ensures View() == Connected(cfg) && sent == Opening(cfg) && this.cfg == cfg
    {
      this.cfg := cfg;
      phase, advertised, enabled, pending := LsSent, map[], {}, [];
      mech, buffer, nick, loggedIn := false, "", cfg.nick, false;
      sent := Opening(cfg);
    }

    method Send(m: Msg)
      modifies this`sent
      ensures sent == old(sent) + [m]
    {
      sent := sent + [m];
    }

    method CapEnd()
      modifies this
      ensures Did(EndNegotiation(old(View())), true, old(sent))
    {
      phase := Done;
      Send(END_MSG);
    }

    method BeginSasl()
      requires cfg.sasl.Some?
      modifies this
      ensures Did(StartSasl(cfg, old(View())), true, old(sent))
    {
      if phase != Done { phase := InSasl; }
      mech := true;
      Send(Auth([cfg.sasl.value]));
    }

    method Names(value: string, name: string) returns (found: bool)
      ensures found == Lists(Split(value, ','), name)
    {
      var mechs := Split(value, ',');
      for i := 0 to |mechs|
        invariant forall j :: 0 <= j < i ==> !EqualFold(mechs[j], name)
      {
        if EqualFold(mechs[i], name) { return true; }
      }
      return false;
    }

    method CapWantList() returns (r: Option<seq<string>>)
      ensures r == WantList(cfg, enabled, advertised)
    {
      var wishes := Wishes(cfg);
      var seen: set<string> := {};
      var want: seq<string> := [];
      assert wishes[0..] == wishes;
      PrependedNone(WantList(cfg, enabled, advertised));
      for i := 0 to |wishes|
        invariant WantList(cfg, enabled, advertised) == Prepended(want, WantFrom(cfg, wishes[i..], seen, enabled, advertised))
      {
        var cap := wishes[i];
        assert wishes[i..][0] == cap && wishes[i..][1..] == wishes[i + 1..];
        ghost var rest := WantFrom(cfg, wishes[i + 1..], seen + {cap}, enabled, advertised);
        WantStep(cfg, wishes[i..], seen, enabled, advertised);
        PrependedStep(want, [], rest);
        assert want + [] == want;
        if cap !in seen && cap !in enabled {
          var ok := cap in advertised;
          if ok && cap == SASL && advertised[cap] != "" {
            if cfg.sasl.None? { return None; }
            ok := Names(advertised[cap], cfg.sasl.value);
          }
          PrependedStep(want, if ok then [cap] else [], rest);
          if ok { want := want + [cap]; }
        }
        seen := seen + {cap};
      }
      assert wishes[|wishes|..] == [] && want + [] == want;
      r := Some(want);
    }

    method MergeAdvertised(value: string) returns (names: set<string>)
      modifies this`advertised
      ensures advertised == MergeLine(old(advertised), value)
      ensures names == NamesIn(Fields(value))
    {
      var tokens := Fields(value);
      names := {};
      for i := 0 to |tokens|
        invariant MergeTokens(advertised, tokens[i..]) == MergeTokens(old(advertised), tokens)
        invariant names == set j | 0 <= j < i :: Cut(tokens[j], '=').0
      {
        var (k, v) := Cut(tokens[i], '=');
        assert tokens[i..][1..] == tokens[i + 1..];
        advertised := advertised[k := v];
        names := names + {k};
      }
    }

    method HandleList(params: seq<string>) returns (ok: bool)
      modifies this
      ensures Did(OnList(cfg, old(View()), ListLine(params)), ok, old(sent))
    {
      var line := ListLine(params);
      var _ := MergeAdvertised(line.value);
      if line.more { return true; }
      enabled := enabled + {CAP_NOTIFY};
      var want := CapWantList();
      if want.None? { return false; }
      if |want.value| > 0 {
        pending := want.value;
        phase := ReqSent;
        Send(Cap(["REQ", Join(want.value, ' ')]));
      } else {
        CapEnd();
      }
      ok := true;
    }

    method HandleAck(value: string)
      modifies this
      ensures Did(OnAck(cfg, old(View()), value), true, old(sent))
    {
      var start := false;
      var caps := Fields(TrimPrefix(value, ":"));
      for i := 0 to |caps|
        invariant View() == old(View()).(enabled := enabled) && sent == old(sent)
        invariant Acknowledge(old(enabled), caps).0 == Acknowledge(enabled, caps[i..]).0
        invariant Acknowledge(old(enabled), caps).1 == (start || Acknowledge(enabled, caps[i..]).1)
      {
        var cap := caps[i];
        assert caps[i..][1..] == caps[i + 1..];
        if HasPrefix(cap, "-") {
          enabled := enabled - {TrimPrefix(cap, "-")};
        } else {
          if cap == SASL && cap !in enabled { start := true; }
          enabled := enabled + {cap};
        }
      }
      pending := [];
      if phase == InSasl { return; }
      if start && cfg.sasl.Some? {
        BeginSasl();
      } else if phase != Done {
        CapEnd();
      }
    }

    method HandleNak()
      modifies this
      ensures Did(OnNak(old(View())), true, old(sent))
    {
      pending := [];
      if phase != Done && phase != InSasl { CapEnd(); }
    }

    method HandleNew(value: string) returns (ok: bool)
      modifies this
      ensures Did(OnNew(cfg, old(View()), value), ok, old(sent))
    {
      var names := MergeAdvertised(value);
      var all := CapWantList();
      if all.None? { return false; }
      var want := Kept(all.value, names);
      if |want| > 0 {
        pending := want;
        Send(Cap(["REQ", Join(want, ' ')]));
      }
      ok := true;
    }

    method HandleDel(value: string)
      modifies this
      ensures Did(OnDel(old(View()), value), true, old(sent))
    {
      var caps := Fields(value);
      for i := 0 to |caps|
        invariant View() == old(View()).(enabled := enabled, advertised := advertised) && sent == old(sent)
        invariant enabled == old(enabled) - set x | x in caps[..i]
        invariant advertised == old(advertised) - set x | x in caps[..i]
      {
        assert caps[..i + 1] == caps[..i] + [caps[i]];
        advertised := advertised - {caps[i]};
        enabled := enabled - {caps[i]};
      }
      assert caps[..|caps|] == caps;
    }

    method HandleCap(params: seq<string>) returns (ok: bool)
      modifies this
      ensures Did(OnCap(cfg, old(View()), params), ok, old(sent))
    {
      if |params| < 2 { return true; }
      ok := true;
      match SubOf(params[1])
      case LS => ok := HandleList(params);
      case ACK => HandleAck(ThirdParam(params));
      case NAK => HandleNak();
      case NEW => ok := HandleNew(ThirdParam(params));
      case DEL => HandleDel(ThirdParam(params));
      case _ =>
    }

    method HandleAuthenticate(params: seq<string>, respond: Mechanism)
      modifies this
      ensures Did(OnAuthenticate(old(View()), params, respond), true, old(sent))
    {
      if !mech || |params| == 0 { return; }
      var chunk := params[0];
      var answer := None;
      if |chunk| <= Sasl.CHUNK {
        if chunk != "+" { buffer := buffer + chunk; }
        if |chunk| == Sasl.CHUNK { return; }
        answer := respond(buffer);
      }
      buffer := "";
      if answer.None? {
        Send(Auth(["*"]));
        mech := false;
        return;
      }
      var chunks := Sasl.SendChunks(answer.value);
      sent := sent + AuthMessages(chunks);
    }

    // 902 to 907
    method HandleSaslEnd()
      modifies this
      ensures Did(OnSaslEnd(old(View())), true, old(sent))
    {
      mech := false;
      buffer := "";
      if phase != Done { CapEnd(); }
    }
  }

  ghost function Prepended(want: seq<string>, r: Option<seq<string>>): Option<seq<string>> {
    if r.None? then None else Some(want + r.value)
  }

  lemma PrependedNone(r: Option<seq<string>>)
    ensures Prepended([], r) == r
  {
    if r.Some? { assert [] + r.value == r.value; }
  }

  lemma PrependedStep(want: seq<string>, more: seq<string>, r: Option<seq<string>>)
    ensures r.Some? ==> want + (more + r.value) == (want + more) + r.value
  {
  }

  // The wanted capabilities that were just announced.
  method Kept(caps: seq<string>, names: set<string>) returns (want: seq<string>)
    ensures want == Keep(caps, names)
  {
    want := [];
    for i := 0 to |caps|
      invariant want + Keep(caps[i..], names) == Keep(caps, names)
    {
      assert caps[i..][1..] == caps[i + 1..];
      if caps[i] in names {
        assert want + ([caps[i]] + Keep(caps[i + 1..], names)) == (want + [caps[i]]) + Keep(caps[i + 1..], names);
        want := want + [caps[i]];
      }
    }
  }

  // A session of the server.
  class Peer {
    const cfg: ServerConfig
    var state: RegState
    var nick: string
    var user: string
    var caps: set<string>
    var version: int
    var saslActive: bool
    var saslBuffer: string
    var account: string
    var sent: seq<Msg>

    ghost function View(): Session
      reads this
    {
      Session(state, nick, user, caps, version, Sasl.Exchange(saslActive, saslBuffer, account))
    }

    // This handler did what the specification says, starting from before.
    ghost predicate Did(r: (Session, seq<Msg>), before: seq<Msg>)
      reads this
    {
      View() == r.0 && sent == before + r.1
    }

    constructor (cfg: ServerConfig)
      ensures View() == NEW_SESSION && sent == [] && this.cfg == cfg
    {
      this.cfg := cfg;
      state, nick, user, caps, version := PreReg, "", "", {}, 0;
      saslActive, saslBuffer, account := false, "", "";
      sent := [];
    }

    method SendNumeric(code: nat)
      modifies this`sent
      ensures sent == old(sent) + [Reply(View(), code)]
    {
      sent := sent + [Numeric(code, [if nick == "" then "*" else nick])];
    }

    method SendCap(sub: string, value: string)
      modifies this`sent
      ensures sent == old(sent) + [CapReply(View(), sub, value)]
    {
      sent := sent + [Cap([if nick == "" then "*" else nick, sub, value])];
    }

    method SendCapList(sub: string, caps: seq<string>)
      modifies this`sent
      ensures sent == old(sent) + CapLines(View(), sub, ReplyLines(caps))
    {
      var lines := SendList(caps);
      var to := if nick == "" then "*" else nick;
      for i := 0 to |lines|
        invariant sent == old(sent) + CapLines(View(), sub, ReplyLines(caps))[..i]
      {
        ghost var all := CapLines(View(), sub, ReplyLines(caps));
        assert all[..i + 1] == all[..i] + [all[i]];
        if lines[i].more {
          sent := sent + [Cap([to, sub, "*", lines[i].value])];
        } else {
          SendCap(sub, lines[i].value);
        }
      }
    }

    method Register(env: Env)
      modifies this
      ensures Did(TryRegister(old(View()), env), old(sent))
    {
      if state == Registered || state == CapNeg || nick == "" || user == "" { return; }
      if env.addFails {
        SendNumeric(433);
        nick := "";
        return;
      }
      state := Registered;
      SendNumeric(1);
    }

    method OnNick(params: seq<string>, env: Env)
      modifies this
      ensures Did(HandleNick(old(View()), params, env), old(sent))
    {
      if |params| == 0 { SendNumeric(431); return; }
      if !IsValidNick(params[0]) { SendNumeric(432); return; }
      if env.taken && !EqualFold(params[0], nick) { SendNumeric(433); return; }
      nick := params[0];
      Register(env);
    }

    method OnUser(params: seq<string>, env: Env)
      modifies this
      ensures Did(HandleUser(old(View()), params, env), old(sent))
    {
      if state == Registered { SendNumeric(462); return; }
      if |params| < 4 { SendNumeric(461); return; }
      user := CleanUsername(params[0]);
      Register(env);
    }

    method NoteVersion(arg: string)
      modifies this
      ensures View() == AfterList(old(View()), arg) && sent == old(sent)
    {
      if state != Registered { state := CapNeg; }
      var v := Atoi(arg);
      if v.Some? && v.value >= 302 {
        version := v.value;
        caps := caps + {CAP_NOTIFY};
      }
    }

    method OnList(arg: string, env: Env)
      requires forall n :: n in env.names ==> n in Supported(cfg, AfterList(View(), arg).version)
      modifies this
      ensures Did(HandleList(cfg, old(View()), arg, env), old(sent))
    {
      NoteVersion(arg);
      var parts := Tokens(env.names, Supported(cfg, version), version >= 302);
      SendCapList("LS", parts);
    }

    // Whether every name of a request can be had.
    method AllSupported(asked: seq<string>) returns (ok: bool)
      ensures ok == Grantable(Supported(cfg, version), asked)
    {
      var supported := Supported(cfg, version);
      for i := 0 to |asked|
        invariant forall j :: 0 <= j < i ==> TrimPrefix(asked[j], "-") in supported && TrimPrefix(asked[j], "-") != STS
      {
        var name := TrimPrefix(asked[i], "-");
        if name !in supported || name == STS { return false; }
      }
      return true;
    }

    method GrantEach(asked: seq<string>)
      modifies `caps
      ensures caps == Grant(old(caps), version, asked)
    {
      assert asked[0..] == asked;
      for i := 0 to |asked|
        invariant Grant(caps, version, asked[i..]) == Grant(old(caps), version, asked)
      {
        var disable, name := HasPrefix(asked[i], "-"), TrimPrefix(asked[i], "-");
        assert asked[i..][0] == asked[i] && asked[i..][1..] == asked[i + 1..];
        if disable && (name != CAP_NOTIFY || version < 302) {
          caps := caps - {name};
        } else if !disable {
          caps := caps + {name};
        }
      }
      assert asked[|asked|..] == [];
    }

    // Either every name of the request is refused or every one is granted.
    method OnRequest(arg: string)
      modifies this
      ensures Did(HandleRequest(cfg, old(View()), arg), old(sent))
    {
      if state != Registered { state := CapNeg; }
      var req := TrimPrefix(arg, ":");
      var asked := Fields(req);
      var ok := AllSupported(asked);
      if !ok {
        SendCap("NAK", req);
        return;
      }
      GrantEach(asked);
      SendCap("ACK", req);
    }

    method SaslFailure(code: nat)
      modifies this
      ensures View() == old(View()).(sasl := Sasl.Exchange(false, "", old(account)))
      ensures sent == old(sent) + [Reply(old(View()), code)]
    {
      saslActive := false;
      saslBuffer := "";
      SendNumeric(code);
    }

    method OnEnd(env: Env)
      modifies this
      ensures Did(HandleEnd(old(View()), env), old(sent))
    {
      ghost var replies := SaslReplies(View(), Sasl.AbortExchange(View().sasl).1);
      if saslActive {
        SaslFailure(906);
      }
      assert sent == old(sent) + replies;
      if state == CapNeg { state := PreReg; }
      ghost var out := TryRegister(View(), env).1;
      Register(env);
      assert old(sent) + replies + out == old(sent) + (replies + out);
    }

    method OnAuthenticate(params: seq<string>, env: Env)
      modifies this
      ensures Did(HandleAuth(old(View()), params, env), old(sent))
    {
      if SASL !in caps || |params| == 0 { SaslFailure(904); return; }
      var chunk := params[0];
      if !saslActive {
        if account != "" { SendNumeric(907); return; }
        if !EqualFold(chunk, "PLAIN") {
          SendNumeric(908);
          SaslFailure(904);
          return;
        }
        saslActive := true;
        saslBuffer := "";
        sent := sent + [Auth(["+"])];
        return;
      }
      if chunk == "*" { SaslFailure(906); return; }
      if |chunk| > Sasl.CHUNK || |saslBuffer| + |chunk| > Sasl.MAX_PAYLOAD { SaslFailure(905); return; }
      if chunk != "+" { saslBuffer := saslBuffer + chunk; }
      if |chunk| == Sasl.CHUNK { return; }
      var encoded := saslBuffer;
      saslActive := false;
      saslBuffer := "";
      var who := env.login(encoded);
      if who.None? { SendNumeric(904); return; }
      account := who.value;
      SendNumeric(900);
      SendNumeric(903);
    }
  }
}
