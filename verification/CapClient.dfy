/**
 Capability negotiation, the client's half (IRCv3 Capability Negotiation): the
 phase machine that reacts to what a server sends. Message parameters are the
 strings on the wire; what a SASL mechanism answers to a challenge is an input.

 Main results, against any server whatever
   ClientStepFacts   when CAP END is sent and when the done phase is left
   OneEndPerList     at most one CAP END between complete capability lists
   WantMeaning       which capabilities are requested, and when the client panics
 */
module CapClient {
  import opened Text
  import opened CapList
  import Sasl

  // A message by its command; the parameters are as on the wire.
  datatype Msg =
    | Cap(params: seq<string>)
    | Auth(params: seq<string>)
    | Numeric(code: nat, params: seq<string>)
    | Ping(params: seq<string>)
    | Pong(params: seq<string>)
    | Pass(params: seq<string>)
    | Nick(params: seq<string>)
    | User(params: seq<string>)
    | Other(command: string, params: seq<string>)

  datatype Sub = LS | LIST | REQ | ACK | NAK | END | NEW | DEL | Unknown

  // CAP subcommands are case-insensitive.
  function SubOf(s: string): Sub {
    var u := Upper(s);
    if u == "LS" then LS
    else if u == "LIST" then LIST
    else if u == "REQ" then REQ
    else if u == "ACK" then ACK
    else if u == "NAK" then NAK
    else if u == "END" then END
    else if u == "NEW" then NEW
    else if u == "DEL" then DEL
    else Unknown
  }

  lemma SubNames()
    ensures SubOf("LS") == LS && SubOf("REQ") == REQ && SubOf("ACK") == ACK && SubOf("NAK") == NAK && SubOf("END") == END
  {
    assert Upper("LS") == "LS" && Upper("REQ") == "REQ" && Upper("ACK") == "ACK" && Upper("NAK") == "NAK";
    assert Upper("END") == "END";
  }

  const CAP_NOTIFY := "cap-notify"
  const SASL := "sasl"
  const STS := "sts"

  const DEFAULT_CAPS := [
    "server-time", "message-tags", "batch", "echo-message", "multi-prefix", "away-notify", "extended-join", "chghost",
    "setname", "account-tag", "draft/chathistory", "labeled-response", "userhost-in-names", "invite-notify",
    "account-notify", "standard-replies", "extended-monitor"
  ]

  // sasl is the name of the configured mechanism, if there is one.
  datatype Config = Config(
    nick: string, user: string, realName: string, password: string,
    sasl: Option<string>, requested: seq<string>, noDefaults: bool)

  datatype Phase = LsSent | ReqSent | InSasl | Done

  datatype Client = Client(
    phase: Phase,
    advertised: Table,
    enabled: set<string>,
    pending: seq<string>,
    mech: bool,          // saslMech is set
    buffer: string,      // saslBuffer
    nick: string,
    loggedIn: bool)

  // Panic is a nil dereference, not a returned error.
  datatype Outcome = Ran(client: Client, sent: seq<Msg>) | Panic

  // ---------------------------------------------------------------------
  // What to request
  // ---------------------------------------------------------------------

  function Wishes(cfg: Config): seq<string> {
    (if cfg.noDefaults then [] else DEFAULT_CAPS) + (if cfg.sasl.Some? then [SASL] else []) + cfg.requested
  }

  // The mechanisms in a comma-separated value include this one.
  predicate Lists(mechs: seq<string>, name: string) {
    exists i :: 0 <= i < |mechs| && EqualFold(mechs[i], name)
  }

  // The advertised entry calls for the mechanism's name.
  predicate AsksName(cap: string, adv: Table) {
    cap == SASL && cap in adv && adv[cap] != ""
  }

  predicate Offered(cfg: Config, adv: Table, cap: string) {
    cap in adv && (AsksName(cap, adv) ==> cfg.sasl.Some? && Lists(Split(adv[cap], ','), cfg.sasl.value))
  }

  // What is advertised is offered, but for sasl with a value that does not list the
  // configured mechanism, in any letter case, among its comma-separated names.
  lemma OfferedMeaning(cfg: Config, adv: Table, cap: string)
    ensures cap in adv && (cap != "sasl" || adv[cap] == "") ==> Offered(cfg, adv, cap)
    ensures cap !in adv ==> !Offered(cfg, adv, cap)
    ensures "sasl" in adv && adv["sasl"] != "" ==>
              (Offered(cfg, adv, "sasl") <==>
               cfg.sasl.Some? && exists i :: 0 <= i < |Split(adv["sasl"], ',')| && EqualFold(Split(adv["sasl"], ',')[i], cfg.sasl.value))
  {
  }

  // The wishes in order, each once, that are not enabled yet and are offered;
  // None when the mechanism's name is needed and no mechanism is configured.
  function WantFrom(cfg: Config, wishes: seq<string>, seen: set<string>, enabled: set<string>, adv: Table): Option<seq<string>> {
    if wishes == [] then Some([])
    else
      var cap, rest := wishes[0], wishes[1..];
      if cap in seen || cap in enabled then WantFrom(cfg, rest, seen + {cap}, enabled, adv)
      else if AsksName(cap, adv) && cfg.sasl.None? then None
      else
        var more := WantFrom(cfg, rest, seen + {cap}, enabled, adv);
        if more.None? then None
        else Some((if Offered(cfg, adv, cap) then [cap] else []) + more.value)
  }

  function WantList(cfg: Config, enabled: set<string>, adv: Table): Option<seq<string>> {
    WantFrom(cfg, Wishes(cfg), {}, enabled, adv)
  }

  // Exactly the offered wishes, without repetition.
  lemma {:induction false} WantMeaning(cfg: Config, wishes: seq<string>, seen: set<string>, enabled: set<string>, adv: Table)
    ensures var w := WantFrom(cfg, wishes, seen, enabled, adv);
            && (w.None? <==> cfg.sasl.None? && SASL in wishes && SASL !in seen && SASL !in enabled && AsksName(SASL, adv))
            && (w.Some? ==>
                  && (forall c :: c in w.value <==> c in wishes && c !in seen && c !in enabled && Offered(cfg, adv, c))
                  && (forall i, j :: 0 <= i < j < |w.value| ==> w.value[i] != w.value[j]))
    decreases wishes
  {
    if wishes != [] {
      var cap, rest := wishes[0], wishes[1..];
      assert wishes == [cap] + rest;
      WantMeaning(cfg, rest, seen + {cap}, enabled, adv);
      WantStep(cfg, wishes, seen, enabled, adv);
    }
  }

  lemma WantStep(cfg: Config, wishes: seq<string>, seen: set<string>, enabled: set<string>, adv: Table)
    requires wishes != []
    ensures var cap, rest := wishes[0], wishes[1..];
            var more := WantFrom(cfg, rest, seen + {cap}, enabled, adv);
            var w := WantFrom(cfg, wishes, seen, enabled, adv);
            var unseen := cap !in seen && cap !in enabled;
            && (w.None? <==> more.None? || (unseen && AsksName(cap, adv) && cfg.sasl.None?))
            && (w.Some? ==> w.value == (if unseen && Offered(cfg, adv, cap) then [cap] else []) + more.value)
  {
    var more := WantFrom(cfg, wishes[1..], seen + {wishes[0]}, enabled, adv);
    if more.Some? { assert [] + more.value == more.value; }
  }

  // ---------------------------------------------------------------------
  // Handlers
  // ---------------------------------------------------------------------

  const END_MSG := Cap(["END"])

  function EndNegotiation(c: Client): Outcome {
    Ran(c.(phase := Done), [END_MSG])
  }

  function StartSasl(cfg: Config, c: Client): Outcome
    requires cfg.sasl.Some?
  {
    Ran(c.(phase := if c.phase == Done then Done else InSasl, mech := true), [Auth([cfg.sasl.value])])
  }

  function Request(c: Client, want: seq<string>): Outcome {
    Ran(c.(pending := want), [Cap(["REQ", Join(want, ' ')])])
  }

  // A capability list line as the client takes it apart.
  function ListLine(params: seq<string>): Line {
    if |params| >= 3 && params[2] == "*" then Line(true, if |params| >= 4 then params[3] else "")
    else Line(false, if |params| >= 3 then params[2] else "")
  }

  predicate IsList(m: Msg) {
    m.Cap? && |m.params| >= 2 && SubOf(m.params[1]) == LS
  }

  predicate IsCompleteList(m: Msg) {
    IsList(m) && !ListLine(m.params).more
  }

  function OnList(cfg: Config, c: Client, line: Line): Outcome {
    var c1 := c.(advertised := MergeLine(c.advertised, line.value));
    if line.more then Ran(c1, [])
    else
      var c2 := c1.(enabled := c1.enabled + {CAP_NOTIFY});
      match WantList(cfg, c2.enabled, c2.advertised)
      case None => Panic
      case Some(want) => if want == [] then EndNegotiation(c2) else Request(c2.(phase := ReqSent), want)
  }

  // The loop over an acknowledgement: what is enabled after it, and whether it
  // newly enabled SASL.
  function Acknowledge(enabled: set<string>, caps: seq<string>): (set<string>, bool)
    decreases caps
  {
    if caps == [] then (enabled, false)
    else if HasPrefix(caps[0], "-") then Acknowledge(enabled - {TrimPrefix(caps[0], "-")}, caps[1..])
    else
      var (after, start) := Acknowledge(enabled + {caps[0]}, caps[1..]);
      (after, start || (caps[0] == SASL && SASL !in enabled))
  }

  function ThirdParam(params: seq<string>): string {
    if |params| >= 3 then params[2] else ""
  }

  function OnAck(cfg: Config, c: Client, value: string): Outcome {
    var (enabled, isNew) := Acknowledge(c.enabled, Fields(TrimPrefix(value, ":")));
    var start := isNew && cfg.sasl.Some?;
    var c1 := c.(enabled := enabled, pending := []);
    if c.phase == InSasl then Ran(c1, [])
    else if start then StartSasl(cfg, c1)
    else if c.phase == Done then Ran(c1, [])
    else EndNegotiation(c1)
  }

  function OnNak(c: Client): Outcome {
    var c1 := c.(pending := []);
    if c.phase == Done || c.phase == InSasl then Ran(c1, []) else EndNegotiation(c1)
  }

  // The names in the tokens of a value.
  function NamesIn(tokens: seq<string>): set<string> {
    set i | 0 <= i < |tokens| :: Cut(tokens[i], '=').0
  }

  function Keep(caps: seq<string>, names: set<string>): seq<string> {
    if caps == [] then [] else (if caps[0] in names then [caps[0]] else []) + Keep(caps[1..], names)
  }

  function OnNew(cfg: Config, c: Client, value: string): Outcome {
    var c1 := c.(advertised := MergeLine(c.advertised, value));
    match WantList(cfg, c1.enabled, c1.advertised)
    case None => Panic
    case Some(all) =>
      var want := Keep(all, NamesIn(Fields(value)));
      if want == [] then Ran(c1, []) else Request(c1, want)
  }

  function OnDel(c: Client, value: string): Outcome {
    var gone := set x | x in Fields(value);
    Ran(c.(advertised := c.advertised - gone, enabled := c.enabled - gone), [])
  }

  function OnCap(cfg: Config, c: Client, params: seq<string>): Outcome {
    if |params| < 2 then Ran(c, [])
    else match SubOf(params[1])
         case LS => OnList(cfg, c, ListLine(params))
         case ACK => OnAck(cfg, c, ThirdParam(params))
         case NAK => OnNak(c)
         case NEW => OnNew(cfg, c, ThirdParam(params))
         case DEL => OnDel(c, ThirdParam(params))
         case _ => Ran(c, [])
  }

  function AuthMessages(chunks: seq<string>): (r: seq<Msg>)
    ensures |r| == |chunks| && forall i :: 0 <= i < |r| ==> r[i] == Auth([chunks[i]])
  {
    seq(|chunks|, i requires 0 <= i < |chunks| => Auth([chunks[i]]))
  }

  function AbortSasl(c: Client): Outcome {
    Ran(c.(mech := false, buffer := ""), [Auth(["*"])])
  }

  // respond maps a collected challenge to the encoded answer, or to nothing
  // when it does not decode or the mechanism fails.
  type Mechanism = string -> Option<string>

  function OnAuthenticate(c: Client, params: seq<string>, respond: Mechanism): Outcome {
    if !c.mech || params == [] then Ran(c, [])
    else if |params[0]| > Sasl.CHUNK then AbortSasl(c)
    else
      var text := if params[0] == "+" then c.buffer else c.buffer + params[0];
      if |params[0]| == Sasl.CHUNK then Ran(c.(buffer := text), [])
      else match respond(text)
           case None => AbortSasl(c)
           case Some(encoded) => Ran(c.(buffer := ""), AuthMessages(Sasl.Chunks(encoded)))
  }

  // A chunk the client cannot use ends the exchange on its side, and on the server's.
  lemma AbortTold(c: Client, params: seq<string>, respond: Mechanism, x: Sasl.Exchange, login: Sasl.Login)
    requires c.mech && params != [] && x.active
    requires if |params[0]| >= 400 then |params[0]| > 400
             else respond(if params[0] == "+" then c.buffer else c.buffer + params[0]).None?
    ensures var r := OnAuthenticate(c, params, respond);
            && r.Ran? && !r.client.mech && r.client.buffer == "" && r.client == c.(mech := false, buffer := "")
            && |r.sent| == 1 && r.sent[0].Auth?
            && Sasl.Authenticate(x, true, r.sent[0].params, login) == (x.(active := false, buffer := ""), [Sasl.Numeric(906)])
  {
  }

  lemma {:induction false} KeepMeaning(caps: seq<string>, names: set<string>)
    ensures forall x :: x in Keep(caps, names) <==> x in caps && x in names
  {
    if caps != [] {
      KeepMeaning(caps[1..], names);
      assert caps == [caps[0]] + caps[1..];
    }
  }

  // What a client makes of capabilities offered anew: it notes them, and asks for those
  // among them that it wishes for and does not have.
  lemma NewMeaning(cfg: Config, c: Client, value: string) returns (want: seq<string>)
    ensures var adv := MergeLine(c.advertised, value);
            var r := OnNew(cfg, c, value);
            && (r.Panic? <==> cfg.sasl.None? && SASL in Wishes(cfg) && SASL !in c.enabled && AsksName(SASL, adv))
            && (r.Ran? ==>
                  && (forall n :: n in want <==>
                        n in Wishes(cfg) && n !in c.enabled && Offered(cfg, adv, n)
                        && exists i :: 0 <= i < |Fields(value)| && Cut(Fields(value)[i], '=').0 == n)
                  && r == (if want == [] then Ran(c.(advertised := adv), [])
                           else Ran(c.(advertised := adv, pending := want), [Cap(["REQ", Join(want, ' ')])])))
  {
    var adv := MergeLine(c.advertised, value);
    WantMeaning(cfg, Wishes(cfg), {}, c.enabled, adv);
    var all := WantList(cfg, c.enabled, adv);
    want := [];
    if all.Some? {
      want := Keep(all.value, NamesIn(Fields(value)));
      KeepMeaning(all.value, NamesIn(Fields(value)));
    }
  }

  // Capabilities taken back are neither advertised nor enabled any more, and no others.
  lemma DelMeaning(c: Client, value: string, n: string)
    ensures var r := OnDel(c, value);
            && r.Ran? && r.sent == [] && r.client == c.(advertised := r.client.advertised, enabled := r.client.enabled)
            && (n in r.client.enabled <==> n in c.enabled && n !in Fields(value))
            && (n in r.client.advertised <==> n in c.advertised && n !in Fields(value))
            && (n in r.client.advertised ==> r.client.advertised[n] == c.advertised[n])
  {
  }

  // 902 to 907: the exchange is over, well or badly.
  function OnSaslEnd(c: Client): Outcome {
    var c1 := c.(mech := false, buffer := "");
    if c.phase == Done then Ran(c1, []) else EndNegotiation(c1)
  }

  predicate EndsSasl(m: Msg) {
    m.Numeric? && 902 <= m.code <= 907
  }

  // However an exchange ends, the client has no mechanism in hand and nothing collected,
  // and the negotiation is over.
  lemma SaslEndMeaning(c: Client)
    ensures var r := OnSaslEnd(c);
            && r.Ran? && r.client == c.(mech := false, buffer := "", phase := Done)
            && r.sent == if c.phase == Done then [] else [END_MSG]
  {
  }

  function Handle(cfg: Config, c: Client, m: Msg, respond: Mechanism): Outcome {
    match m
    case Cap(params) => OnCap(cfg, c, params)
    case Auth(params) => OnAuthenticate(c, params, respond)
    case Ping(params) => Ran(c, [Pong(params)])
    case Numeric(code, params) =>
      if EndsSasl(m) then OnSaslEnd(c)
      else if code == 1 && params != [] then Ran(c.(nick := params[0], loggedIn := true), [])
      else if code == 433 then Ran(c, [Nick([c.nick + "_"])])
      else Ran(c, [])
    case _ => Ran(c, [])
  }

  // The state after Connect, and what it sends at once.
  function Connected(cfg: Config): Client {
    Client(LsSent, map[], {}, [], false, "", cfg.nick, false)
  }

  const LIST_MSG := Cap(["LS", "302"])

  function Opening(cfg: Config): seq<Msg> {
    [LIST_MSG] + (if cfg.password == "" then [] else [Pass([cfg.password])])
    + [Nick([cfg.nick]), User([cfg.user, "0", "*", cfg.realName])]
  }

  // ---------------------------------------------------------------------
  // Against any server
  // ---------------------------------------------------------------------

  // How many of the messages are CAP END.
  function Ends(sent: seq<Msg>): nat {
    if sent == [] then 0 else (if sent[0] == END_MSG then 1 else 0) + Ends(sent[1..])
  }

  lemma {:induction false} NoEnds(sent: seq<Msg>)
    requires forall i :: 0 <= i < |sent| ==> sent[i] != END_MSG
    ensures Ends(sent) == 0
  {
    if sent != [] { NoEnds(sent[1..]); }
  }

  lemma EndsOne(m: Msg)
    ensures Ends([m]) == if m == END_MSG then 1 else 0
  {
    assert [m][1..] == [];
  }

  // One message from the server: CAP END is sent at most once and puts the
  // client in the done phase; the done phase is left, and CAP END sent from it,
  // only on a complete list; during SASL only on 902 to 907 or a complete list.
  lemma ClientStepFacts(cfg: Config, c: Client, m: Msg, respond: Mechanism)
    requires Handle(cfg, c, m, respond).Ran?
    ensures var r := Handle(cfg, c, m, respond);
            && Ends(r.sent) <= 1
            && (Ends(r.sent) == 1 ==> r.client.phase == Done)
            && (c.phase == Done && !IsCompleteList(m) ==> r.client.phase == Done && Ends(r.sent) == 0)
            && (c.phase == InSasl && Ends(r.sent) == 1 ==> EndsSasl(m) || IsCompleteList(m))
            && (c.phase == InSasl && !EndsSasl(m) && !IsCompleteList(m) ==> r.client.phase == InSasl)
  {
    var r := Handle(cfg, c, m, respond);
    EndingFacts(cfg, c, m, respond);
    if r.sent == [END_MSG] {
      EndsOne(END_MSG);
    } else {
      SentNoEnd(cfg, c, m, respond);
      NoEnds(r.sent);
    }
  }

  // The same about the one way to send CAP END.
  lemma EndingFacts(cfg: Config, c: Client, m: Msg, respond: Mechanism)
    requires Handle(cfg, c, m, respond).Ran?
    ensures var r := Handle(cfg, c, m, respond);
            && (r.sent == [END_MSG] ==> r.client.phase == Done)
            && (c.phase == Done && !IsCompleteList(m) ==> r.client.phase == Done && r.sent != [END_MSG])
            && (c.phase == InSasl && r.sent == [END_MSG] ==> EndsSasl(m) || IsCompleteList(m))
            && (c.phase == InSasl && !EndsSasl(m) && !IsCompleteList(m) ==> r.client.phase == InSasl)
  {
  }

  lemma SentNoEnd(cfg: Config, c: Client, m: Msg, respond: Mechanism)
    requires Handle(cfg, c, m, respond).Ran? && Handle(cfg, c, m, respond).sent != [END_MSG]
    ensures var r := Handle(cfg, c, m, respond); forall i :: 0 <= i < |r.sent| ==> r.sent[i] != END_MSG
  {
  }

  // A message together with what the mechanism would answer at that moment.
  datatype Input = Input(msg: Msg, respond: Mechanism)

  predicate Survives(cfg: Config, c: Client, inputs: seq<Input>)
    decreases inputs
  {
    inputs == [] ||
    (Handle(cfg, c, inputs[0].msg, inputs[0].respond).Ran?
     && Survives(cfg, Handle(cfg, c, inputs[0].msg, inputs[0].respond).client, inputs[1..]))
  }

  // How many CAP END a run sends.
  function EndsOver(cfg: Config, c: Client, inputs: seq<Input>): nat
    requires Survives(cfg, c, inputs)
    decreases inputs
  {
    if inputs == [] then 0
    else
      var r := Handle(cfg, c, inputs[0].msg, inputs[0].respond);
      Ends(r.sent) + EndsOver(cfg, r.client, inputs[1..])
  }

  lemma {:induction false} DoneStaysQuiet(cfg: Config, c: Client, inputs: seq<Input>)
    requires Survives(cfg, c, inputs) && c.phase == Done
    requires forall i :: 0 <= i < |inputs| ==> !IsCompleteList(inputs[i].msg)
    ensures EndsOver(cfg, c, inputs) == 0
    decreases inputs
  {
    if inputs != [] {
      ClientStepFacts(cfg, c, inputs[0].msg, inputs[0].respond);
      DoneStaysQuiet(cfg, Handle(cfg, c, inputs[0].msg, inputs[0].respond).client, inputs[1..]);
    }
  }

  // From any state and against any server: over messages of which at most the
  // first is a complete capability list, at most one CAP END is sent.
  lemma {:induction false} OneEndPerList(cfg: Config, c: Client, inputs: seq<Input>)
    requires Survives(cfg, c, inputs)
    requires forall i :: 0 < i < |inputs| ==> !IsCompleteList(inputs[i].msg)
    ensures EndsOver(cfg, c, inputs) <= 1
    decreases inputs
  {
    if inputs != [] {
      var r := Handle(cfg, c, inputs[0].msg, inputs[0].respond);
      ClientStepFacts(cfg, c, inputs[0].msg, inputs[0].respond);
      if Ends(r.sent) == 1 {
        DoneStaysQuiet(cfg, r.client, inputs[1..]);
      } else {
        OneEndPerList(cfg, r.client, inputs[1..]);
      }
    }
  }
}
