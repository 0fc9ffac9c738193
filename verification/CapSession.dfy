/**
 Client and server together: the two machines of CapClient and CapServer joined
 by two FIFO links, with whatever else the application sends up and the rest of
 the server sends down in between. A run is any interleaving of deliveries.

 Main results, for every configuration and every run (Negotiation):
   - the session is registered only after the server has processed the client's
     CAP END, and the client has then sent exactly one;
   - whenever no CAP message is in flight the two sides agree on what is enabled;
   - what is enabled in the end depends only on the two configurations;
   - the negotiation never gets stuck (NeverStuck);
   - the client panics exactly for one kind of configuration (CrashOnlyIf).
 */
module CapSession {
  import opened Text
  import opened CapList
  import opened CapClient
  import opened CapServer
  import Sasl

  datatype World = World(client: Config, server: ServerConfig)

  datatype System = System(
    client: Client,
    session: Session,
    up: seq<Msg>,       // client to server, oldest first
    down: seq<Msg>,     // server to client
    crashed: bool,      // the client panicked
    sent: nat,          // CAP END sent by the client
    seen: nat)          // CAP END processed by the server

  function Start(w: World): System {
    System(Connected(w.client), NEW_SESSION, Opening(w.client), [], false, 0, 0)
  }

  // The messages the negotiation is made of.
  predicate IsProto(m: Msg) {
    m.Cap? || m.Auth? || EndsSasl(m)
  }

  datatype Step =
    | ClientReads(respond: Mechanism)
    | ServerReads(env: Env)
    | AppSends(msg: Msg)       // the program using the client library
    | ServerSays(msg: Msg)     // the rest of the server

  ghost predicate Enabled(w: World, y: System, step: Step) {
    match step
    case ClientReads(_) => !y.crashed && y.down != []
    case ServerReads(env) => y.up != [] && EnvOk(w.server, y.session, y.up[0], env)
    case AppSends(m) => !y.crashed && !IsProto(m)
    case ServerSays(m) => !IsProto(m)
  }

  function AfterClient(w: World, y: System, respond: Mechanism): System
    requires y.down != []
  {
    var y1 := y.(down := y.down[1..]);
    match Handle(w.client, y.client, y.down[0], respond)
    case Panic => y1.(crashed := true)
    case Ran(c, out) => y1.(client := c, up := y.up + out, sent := y.sent + Ends(out))
  }

  function AfterServer(w: World, y: System, env: Env): System
    requires y.up != [] && EnvOk(w.server, y.session, y.up[0], env)
  {
    var (s, out) := Serve(w.server, y.session, y.up[0], env);
    y.(up := y.up[1..], session := s, down := y.down + out, seen := y.seen + if y.up[0] == END_MSG then 1 else 0)
  }

  function Apply(w: World, y: System, step: Step): System
    requires Enabled(w, y, step)
  {
    match step
    case ClientReads(respond) => AfterClient(w, y, respond)
    case ServerReads(env) => AfterServer(w, y, env)
    case AppSends(m) => y.(up := y.up + [m])
    case ServerSays(m) => y.(down := y.down + [m])
  }

  ghost predicate IsRun(w: World, y: System, steps: seq<Step>)
    decreases steps
  {
    steps == [] || (Enabled(w, y, steps[0]) && IsRun(w, Apply(w, y, steps[0]), steps[1..]))
  }

  ghost function After(w: World, y: System, steps: seq<Step>): System
    requires IsRun(w, y, steps)
    decreases steps
  {
    if steps == [] then y else After(w, Apply(w, y, steps[0]), steps[1..])
  }

  // ---------------------------------------------------------------------
  // What the two configurations lead to
  // ---------------------------------------------------------------------

  function TableOf(w: World): Table {
    Supported(w.server, 302)
  }

  function WantOf(w: World): Option<seq<string>> {
    WantList(w.client, {CAP_NOTIFY}, TableOf(w))
  }

  // What both sides have enabled when the negotiation is over. A wish for sts
  // spoils the whole request.
  function Agreed(w: World): set<string> {
    if WantOf(w).Some? && STS !in WantOf(w).value then {CAP_NOTIFY} + set c | c in WantOf(w).value else {CAP_NOTIFY}
  }

  // The three of them as plain values.
  datatype Known = Known(table: Table, want: Option<seq<string>>, agreed: set<string>)

  function KnownOf(w: World): Known {
    Known(TableOf(w), WantOf(w), Agreed(w))
  }

  // ---------------------------------------------------------------------
  // The messages of the negotiation in a link
  // ---------------------------------------------------------------------

  function Proto(q: seq<Msg>): seq<Msg> {
    if q == [] then [] else (if IsProto(q[0]) then [q[0]] else []) + Proto(q[1..])
  }

  lemma {:induction false} ProtoAppend(a: seq<Msg>, b: seq<Msg>)
    ensures Proto(a + b) == Proto(a) + Proto(b)
  {
    if a == [] {
      assert a + b == b;
    } else {
      ProtoAppend(a[1..], b);
      assert (a + b)[1..] == a[1..] + b;
      Associate(if IsProto(a[0]) then [a[0]] else [], Proto(a[1..]), Proto(b));
    }
  }

  lemma ProtoHead(q: seq<Msg>)
    requires q != []
    ensures IsProto(q[0]) ==> Proto(q) != [] && Proto(q)[0] == q[0] && Proto(q)[1..] == Proto(q[1..])
    ensures !IsProto(q[0]) ==> Proto(q) == Proto(q[1..])
  {
  }

  lemma {:induction false} ProtoAll(q: seq<Msg>)
    requires forall i :: 0 <= i < |q| ==> IsProto(q[i])
    ensures Proto(q) == q
  {
    if q != [] { ProtoAll(q[1..]); }
  }

  lemma {:induction false} ProtoNone(q: seq<Msg>)
    requires forall i :: 0 <= i < |q| ==> !IsProto(q[i])
    ensures Proto(q) == []
  {
    if q != [] { ProtoNone(q[1..]); }
  }

  lemma {:induction false} ProtoIn(q: seq<Msg>)
    ensures forall m :: m in Proto(q) ==> m in q
  {
    if q != [] { ProtoIn(q[1..]); }
  }

  // ---------------------------------------------------------------------
  // Stages
  // ---------------------------------------------------------------------

  predicate Negotiates(s: Session, caps: set<string>) {
    s.state == CapNeg && s.version == 302 && s.caps == caps
  }

  const IDLE := Sasl.Exchange(false, "", "")

  predicate AllAuth(q: seq<Msg>) {
    forall i :: 0 <= i < |q| ==> q[i].Auth?
  }

  // What a server still sends about an exchange.
  predicate AllSasl(q: seq<Msg>) {
    forall i :: 0 <= i < |q| ==> q[i].Auth? || EndsSasl(q[i])
  }

  function LinesIn(q: seq<Msg>): (r: seq<Line>)
    ensures |r| == |q| && forall i :: 0 <= i < |q| ==> r[i] == ListLine(q[i].params)
  {
    seq(|q|, i requires 0 <= i < |q| => ListLine(q[i].params))
  }

  // List lines in flight that complete what the client has so far.
  predicate ListQueue(q: seq<Msg>, have: Table, table: Table) {
    && q != []
    && (forall i :: 0 <= i < |q| ==> IsList(q[i]) && (ListLine(q[i].params).more <==> i < |q| - 1))
    && MergeLines(have, LinesIn(q)) == table
  }

  predicate IsAnswer(m: Msg, sub: string, want: seq<string>) {
    m.Cap? && |m.params| == 3 && m.params[1] == sub && m.params[2] == Join(want, ' ')
  }

  // Chunks on their way, the last of which completes the exchange.
  predicate ChunkQueue(q: seq<Msg>) {
    && q != []
    && (forall i :: 0 <= i < |q| ==> q[i].Auth? && |q[i].params| == 1)
    && |q[|q| - 1].params[0]| != Sasl.CHUNK
  }

  datatype Stage =
    | Asking | Listing | Requesting | Granted | Refused
    | SaslStart | SaslChallenge | SaslChunks | SaslOver
    | Ending | Ended | Dead

  // How far a stage is from the end; no message of the negotiation leads back.
  function Rank(stage: Stage): nat {
    match stage
    case Asking => 10
    case Listing => 9
    case Requesting => 8
    case Granted => 7
    case Refused => 7
    case SaslStart => 6
    case SaslChallenge => 5
    case SaslChunks => 4
    case SaslOver => 3
    case Ending => 2
    case Ended => 1
    case Dead => 0
  }

  // Where the client's reading of a message of the negotiation leads: through the
  // exchange exactly when sasl is agreed on.
  predicate ClientMoves(k: Known, stage: Stage, to: Stage) {
    match stage
    case Listing => to == Listing || to == Requesting || to == Dead || (to == Ending && SASL !in k.agreed)
    case Granted => to == if SASL in k.agreed then SaslStart else Ending
    case Refused => to == Ending && SASL !in k.agreed
    case SaslChallenge => to == SaslChunks
    case SaslOver => to == Ending
    case _ => to == stage && (stage == Ending || stage == Ended)
  }

  // And where the server's does.
  predicate ServerMoves(stage: Stage, m: Msg, to: Stage) {
    match stage
    case Asking => to == Listing
    case Requesting => to == Granted || to == Refused
    case SaslStart => to == SaslChallenge
    case SaslChunks => to == SaslChunks || to == SaslOver
    case SaslOver => to == SaslOver
    case _ => stage == Ending && to == if m == END_MSG then Ended else Ending
  }

  // No move leads back, and the client stays only where it reads on.
  lemma MovesOn(k: Known, stage: Stage, m: Msg, to: Stage)
    ensures ClientMoves(k, stage, to) ==>
              && stage != Asking && to != Asking
              && (Rank(to) < Rank(stage) || (to == stage && (stage == Listing || stage == Ending || stage == Ended)))
    ensures ServerMoves(stage, m, to) ==> to != Asking && to != Dead && (Rank(to) < Rank(stage) || to == stage)
  {
  }

  // The client is in its SASL phase with the agreed capabilities on both sides.
  predicate InExchange(c: Client, s: Session, agreed: set<string>) {
    c.phase == InSasl && c.enabled == agreed && SASL in agreed && Negotiates(s, agreed)
  }

  // Where a run is: what each side has and what is in flight between them.
  predicate At(k: Known, stage: Stage, c: Client, s: Session, up: seq<Msg>, down: seq<Msg>) {
    var base, agreed, want := {CAP_NOTIFY}, k.agreed, k.want;
    match stage
    case Asking =>
      c.phase == LsSent && c.advertised == map[] && c.enabled == {} && !c.mech && c.buffer == ""
      && s == NEW_SESSION && up == [LIST_MSG] && down == []
    case Listing =>
      c.phase == LsSent && c.enabled == {} && !c.mech && c.buffer == ""
      && Negotiates(s, base) && s.sasl == IDLE && up == [] && ListQueue(down, c.advertised, k.table)
    case Requesting =>
      c.phase == ReqSent && c.enabled == base && !c.mech && c.buffer == "" && Negotiates(s, base) && s.sasl == IDLE
      && want.Some? && want.value != [] && up == [Cap(["REQ", Join(want.value, ' ')])] && down == []
    case Granted =>
      c.phase == ReqSent && c.enabled == base && !c.mech && c.buffer == "" && Negotiates(s, agreed) && s.sasl == IDLE
      && want.Some? && STS !in want.value && up == [] && |down| == 1 && IsAnswer(down[0], "ACK", want.value)
    case Refused =>
      c.phase == ReqSent && c.enabled == base && !c.mech && c.buffer == "" && Negotiates(s, base) && s.sasl == IDLE
      && want.Some? && STS in want.value && up == [] && |down| == 1 && IsAnswer(down[0], "NAK", want.value)
    case SaslStart =>
      want.Some? && InExchange(c, s, agreed) && c.mech && c.buffer == "" && s.sasl == IDLE && down == []
      && |up| == 1 && up[0].Auth? && |up[0].params| == 1 && EqualFold(up[0].params[0], "PLAIN")
    case SaslChallenge =>
      want.Some? && InExchange(c, s, agreed) && c.mech && c.buffer == "" && s.sasl == Sasl.Exchange(true, "", "")
      && up == [] && down == [Auth(["+"])]
    case SaslChunks =>
      want.Some? && InExchange(c, s, agreed) && s.sasl.active && ChunkQueue(up) && down == []
    case SaslOver =>
      want.Some? && InExchange(c, s, agreed) && AllAuth(up) && AllSasl(down) && down != [] && EndsSasl(down[0])
    case Ending =>
      want.Some? && c.phase == Done && c.enabled == agreed && !c.mech && Negotiates(s, agreed)
      && up != [] && up[|up| - 1] == END_MSG && AllAuth(up[..|up| - 1]) && AllSasl(down)
    case Ended =>
      want.Some? && c.phase == Done && c.enabled == agreed && !c.mech && s.caps == agreed && s.state != CapNeg
      && up == [] && AllSasl(down)
    case Dead =>
      want.None? && c.phase == LsSent && Negotiates(s, base) && up == [] && down == []
  }

  predicate SentIn(stage: Stage, sent: nat, seen: nat) {
    sent == (if stage == Ending || stage == Ended then 1 else 0) && seen == (if stage == Ended then 1 else 0)
  }

  predicate Inv(k: Known, y: System, stage: Stage) {
    && At(k, stage, y.client, y.session, Proto(y.up), Proto(y.down))
    && SentIn(stage, y.sent, y.seen)
    && (y.crashed <==> stage == Dead)
    && (stage == Asking ==> y.up != [] && y.up[0] == LIST_MSG)
  }

  lemma StartInv(w: World)
    ensures Inv(KnownOf(w), Start(w), Asking)
  {
    var rest := Opening(w.client)[1..];
    assert Opening(w.client) == [LIST_MSG] + rest;
    ProtoAppend([LIST_MSG], rest);
    ProtoAll([LIST_MSG]);
    ProtoNone(rest);
  }

  // ---------------------------------------------------------------------
  // The request and its answer
  // ---------------------------------------------------------------------

  lemma WantGood(w: World)
    requires GoodConfig(w.server) && WantOf(w).Some?
    ensures forall c :: c in WantOf(w).value ==> c in TableOf(w) && GoodName(c)
    ensures SASL in WantOf(w).value ==> w.client.sasl.Some? && EqualFold(w.client.sasl.value, "PLAIN")
  {
    WantMeaning(w.client, Wishes(w.client), {}, {CAP_NOTIFY}, TableOf(w));
    SupportedClean(w.server, 302);
    if SASL in WantOf(w).value {
      SupportedSasl(w.server, 302);
      OnlyPlain("PLAIN");
    }
  }

  lemma OnlyPlain(name: string)
    requires name == "PLAIN"
    ensures Split(name, ',') == [name]
  {
    assert ',' !in name;
    SplitWhole(name, ',');
  }

  // A joined list of good names is taken apart into the same names.
  lemma JoinedNames(names: seq<string>)
    requires forall n :: n in names ==> GoodName(n)
    ensures TrimPrefix(Join(names, ' '), ":") == Join(names, ' ')
    ensures Fields(Join(names, ' ')) == names
  {
    FieldsJoin(names);
    if names != [] {
      assert names[0] in names;
      assert Join(names, ' ')[0] == names[0][0];
    }
  }

  lemma NoMinus(n: string)
    requires GoodName(n)
    ensures !HasPrefix(n, "-") && TrimPrefix(n, "-") == n
  {
  }

  lemma {:induction false} AcknowledgeAll(enabled: set<string>, caps: seq<string>)
    requires forall n :: n in caps ==> GoodName(n)
    ensures Acknowledge(enabled, caps) == (enabled + (set c | c in caps), SASL in caps && SASL !in enabled)
    decreases caps
  {
    if caps != [] {
      NoMinus(caps[0]);
      assert caps == [caps[0]] + caps[1..];
      AcknowledgeAll(enabled + {caps[0]}, caps[1..]);
      assert (enabled + {caps[0]}) + (set c | c in caps[1..]) == enabled + set c | c in caps;
    } else {
      assert enabled + (set c | c in caps) == enabled;
    }
  }

  lemma {:induction false} GrantAll(have: set<string>, version: int, asked: seq<string>)
    requires forall n :: n in asked ==> GoodName(n)
    ensures Grant(have, version, asked) == have + set c | c in asked
    decreases asked
  {
    if asked != [] {
      NoMinus(asked[0]);
      assert asked == [asked[0]] + asked[1..];
      GrantAll(have + {asked[0]}, version, asked[1..]);
      assert (have + {asked[0]}) + (set c | c in asked[1..]) == have + set c | c in asked;
    } else {
      assert have + (set c | c in asked) == have;
    }
  }

  lemma GrantableIff(table: Table, asked: seq<string>)
    requires forall n :: n in asked ==> n in table && GoodName(n)
    ensures Grantable(table, asked) <==> STS !in asked
  {
    forall i | 0 <= i < |asked| ensures TrimPrefix(asked[i], "-") == asked[i] && asked[i] in table {
      assert asked[i] in asked;
      NoMinus(asked[i]);
    }
  }

  // ---------------------------------------------------------------------
  // The client reads a message of the negotiation
  // ---------------------------------------------------------------------

  // What one reading leads to: the next stage, with everything sent in flight.
  ghost predicate Leads(k: Known, from: Stage, to: Stage, r: Outcome, c: Client, s: Session, up: seq<Msg>, down: seq<Msg>) {
    match r
    case Panic => from == Listing && to == Dead && At(k, Dead, c, s, up, down)
    case Ran(c1, out) =>
      && to != Dead
      && (forall i :: 0 <= i < |out| ==> IsProto(out[i]))
      && At(k, to, c1, s, up + out, down)
      && Ends(out) == (if (to == Ending || to == Ended) && from != Ending && from != Ended then 1 else 0)
      && (from == Ended <==> to == Ended) && (from == Ending ==> to == Ending)
  }

  // What the client does with a list line.
  lemma ListResult(w: World, k: Known, c: Client, s: Session, up: seq<Msg>, down: seq<Msg>, respond: Mechanism)
    requires k == KnownOf(w) && At(k, Listing, c, s, up, down)
    ensures var line := ListLine(down[0].params);
            var c1 := c.(advertised := MergeLine(c.advertised, line.value));
            var c2 := c1.(enabled := {CAP_NOTIFY});
            && (line.more <==> |down| > 1)
            && Handle(w.client, c, down[0], respond) ==
               if line.more then Ran(c1, [])
               else match k.want
                    case None => Panic
                    case Some(want) => if want == [] then EndNegotiation(c2) else Request(c2.(phase := ReqSent), want)
  {
    var line := ListLine(down[0].params);
    var have := MergeLine(c.advertised, line.value);
    if !line.more {
      assert LinesIn(down)[0] == line && LinesIn(down)[1..] == LinesIn(down[1..]);
      assert down[1..] == [] && MergeLines(have, []) == have;
      assert {} + {CAP_NOTIFY} == {CAP_NOTIFY};
    }
  }

  lemma ListedMore(k: Known, c: Client, s: Session, up: seq<Msg>, down: seq<Msg>)
    requires At(k, Listing, c, s, up, down) && |down| > 1
    ensures var c1 := c.(advertised := MergeLine(c.advertised, ListLine(down[0].params).value));
            Leads(k, Listing, Listing, Ran(c1, []), c, s, up, down[1..])
  {
    assert LinesIn(down)[0] == ListLine(down[0].params) && LinesIn(down)[1..] == LinesIn(down[1..]);
    NothingLeft(up);
  }

  lemma ListedEnd(k: Known, c: Client, c1: Client, s: Session)
    requires k.want == Some([]) && k.agreed == {CAP_NOTIFY} && Negotiates(s, {CAP_NOTIFY})
    requires c1.enabled == {CAP_NOTIFY} && !c1.mech
    ensures Leads(k, Listing, Ending, EndNegotiation(c1), c, s, [], [])
  {
    EndsOne(END_MSG);
    assert [] + [END_MSG] == [END_MSG] && [END_MSG][..0] == [];
  }

  lemma ListedRequest(k: Known, c: Client, c1: Client, s: Session, want: seq<string>)
    requires k.want == Some(want) && want != [] && Negotiates(s, {CAP_NOTIFY}) && s.sasl == IDLE
    requires c1.enabled == {CAP_NOTIFY} && !c1.mech && c1.buffer == "" && c1.phase == ReqSent
    ensures Leads(k, Listing, Requesting, Request(c1, want), c, s, [], [])
  {
    var m := Cap(["REQ", Join(want, ' ')]);
    EndsOne(m);
    assert m.params[0] != "END";
    assert [] + [m] == [m];
  }

  lemma AgreedOnNothing(w: World)
    requires WantOf(w) == Some([])
    ensures Agreed(w) == {CAP_NOTIFY}
  {
  }

  lemma ClientInListing(w: World, k: Known, c: Client, s: Session, up: seq<Msg>, down: seq<Msg>, respond: Mechanism)
      returns (to: Stage)
    requires GoodConfig(w.server) && k == KnownOf(w) && At(k, Listing, c, s, up, down)
    ensures ClientMoves(k, Listing, to)
    ensures Leads(k, Listing, to, Handle(w.client, c, down[0], respond), c, s, up, down[1..])
  {
    ListResult(w, k, c, s, up, down, respond);
    var c1 := c.(advertised := MergeLine(c.advertised, ListLine(down[0].params).value));
    var c2 := c1.(enabled := {CAP_NOTIFY});
    if |down| > 1 {
      to := Listing;
      ListedMore(k, c, s, up, down);
    } else {
      assert down[1..] == [];
      match k.want
      case None => to := Dead;
      case Some(want) =>
        if want == [] {
          to := Ending;
          AgreedOnNothing(w);
          ListedEnd(k, c, c2, s);
        } else {
          to := Requesting;
          ListedRequest(k, c, c2.(phase := ReqSent), s, want);
        }
    }
  }

  // What the client does with an acknowledgement of good names.
  lemma AckResult(cfg: Config, c: Client, params: seq<string>, want: seq<string>)
    requires |params| == 3 && params[1] == "ACK" && params[2] == Join(want, ' ')
    requires (forall n :: n in want ==> GoodName(n)) && c.phase == ReqSent && c.enabled == {CAP_NOTIFY}
    ensures var c1 := c.(enabled := {CAP_NOTIFY} + (set x | x in want), pending := []);
            OnCap(cfg, c, params) ==
            if SASL in want && cfg.sasl.Some? then StartSasl(cfg, c1) else EndNegotiation(c1)
  {
    SubNames();
    JoinedNames(want);
    AcknowledgeAll({CAP_NOTIFY}, want);
    assert SASL !in {CAP_NOTIFY};
  }

  lemma ClientInGranted(w: World, k: Known, c: Client, s: Session, up: seq<Msg>, down: seq<Msg>, respond: Mechanism)
      returns (to: Stage)
    requires GoodConfig(w.server) && k == KnownOf(w) && At(k, Granted, c, s, up, down)
    ensures ClientMoves(k, Granted, to)
    ensures Leads(k, Granted, to, Handle(w.client, c, down[0], respond), c, s, up, down[1..])
  {
    var want := k.want.value;
    WantGood(w);
    AckResult(w.client, c, down[0].params, want);
    assert down[1..] == [];
    if SASL in want && w.client.sasl.Some? {
      to := SaslStart;
      EndsOne(Auth([w.client.sasl.value]));
    } else {
      to := Ending;
      EndsOne(END_MSG);
      assert [END_MSG][..0] == [];
    }
  }

  lemma NakResult(cfg: Config, c: Client, params: seq<string>)
    requires |params| == 3 && params[1] == "NAK" && c.phase == ReqSent
    ensures OnCap(cfg, c, params) == EndNegotiation(c.(pending := []))
  {
    SubNames();
  }

  lemma ClientInRefused(w: World, k: Known, c: Client, s: Session, up: seq<Msg>, down: seq<Msg>, respond: Mechanism)
    requires GoodConfig(w.server) && k == KnownOf(w) && At(k, Refused, c, s, up, down)
    ensures Leads(k, Refused, Ending, Handle(w.client, c, down[0], respond), c, s, up, down[1..])
  {
    NakResult(w.client, c, down[0].params);
    EndsOne(END_MSG);
    assert [END_MSG][..0] == [];
  }

  // The answer to a challenge is a queue of chunks.
  lemma ChallengeResult(c: Client, respond: Mechanism)
    requires c.mech && c.buffer == ""
    ensures var r := OnAuthenticate(c, ["+"], respond);
            && r.Ran? && ChunkQueue(r.sent) && Ends(r.sent) == 0
            && r.client == c.(mech := r.client.mech)
  {
    var r := OnAuthenticate(c, ["+"], respond);
    NoEnds(r.sent);
  }

  lemma ChunksInFlight(k: Known, c: Client, s: Session, up: seq<Msg>, down: seq<Msg>, c1: Client, out: seq<Msg>)
    requires At(k, SaslChallenge, c, s, up, down)
    requires ChunkQueue(out) && Ends(out) == 0 && c1 == c.(mech := c1.mech)
    ensures Leads(k, SaslChallenge, SaslChunks, Ran(c1, out), c, s, up, down[1..])
  {
    assert up + out == out;
  }

  lemma ClientInChallenge(cfg: Config, k: Known, c: Client, s: Session, up: seq<Msg>, down: seq<Msg>, respond: Mechanism)
    requires At(k, SaslChallenge, c, s, up, down)
    ensures Leads(k, SaslChallenge, SaslChunks, Handle(cfg, c, down[0], respond), c, s, up, down[1..])
  {
    ChallengeResult(c, respond);
    var r := OnAuthenticate(c, ["+"], respond);
    ChunksInFlight(k, c, s, up, down, r.client, r.sent);
  }

  lemma ClientInOver(cfg: Config, k: Known, c: Client, s: Session, up: seq<Msg>, down: seq<Msg>, respond: Mechanism)
    requires At(k, SaslOver, c, s, up, down)
    ensures Leads(k, SaslOver, Ending, Handle(cfg, c, down[0], respond), c, s, up, down[1..])
  {
    EndsOne(END_MSG);
    assert (up + [END_MSG])[..|up|] == up;
  }

  lemma ClientAtEnd(cfg: Config, k: Known, stage: Stage, c: Client, s: Session, up: seq<Msg>, down: seq<Msg>, respond: Mechanism)
    requires stage == Ending || stage == Ended
    requires At(k, stage, c, s, up, down) && down != []
    ensures Leads(k, stage, stage, Handle(cfg, c, down[0], respond), c, s, up, down[1..])
  {
    assert up + [] == up;
  }

  // ---------------------------------------------------------------------
  // The server reads a message of the negotiation
  // ---------------------------------------------------------------------

  // --- the capability list ---

  lemma {:induction false} InFlatten(groups: seq<seq<string>>, i: nat, j: nat)
    requires i < |groups| && j < |groups[i]|
    ensures groups[i][j] in Flatten(groups)
  {
    if i > 0 { InFlatten(groups[1..], i - 1, j); }
  }

  lemma ValuesNotStar(tokens: seq<string>)
    requires forall x :: x in tokens ==> x != "" && x[0] != '*'
    ensures forall i :: 0 <= i < |ReplyLines(tokens)| ==> ReplyLines(tokens)[i].value != "*"
  {
    var groups := Groups(tokens);
    GroupsConcatenate(tokens);
    GroupsObey(tokens);
    forall i | 0 <= i < |groups| ensures Join(groups[i], ' ') != "*" {
      InFlatten(groups, i, 0);
      assert Join(groups[i], ' ')[0] == groups[i][0][0];
    }
  }

  // Lines sent as messages are the lines the client sees.
  lemma ListLinesSeen(s: Session, lines: seq<Line>)
    requires forall i :: 0 <= i < |lines| ==> lines[i].value != "*"
    ensures var q := CapLines(s, "LS", lines);
            LinesIn(q) == lines && forall i :: 0 <= i < |q| ==> IsList(q[i]) && IsProto(q[i])
  {
    SubNames();
    var q := CapLines(s, "LS", lines);
    forall i | 0 <= i < |lines| ensures IsList(q[i]) && ListLine(q[i].params) == lines[i] {
    }
  }

  lemma TokensGood(names: seq<string>, table: Table)
    requires (forall n :: n in names ==> n in table) && forall n :: n in table ==> GoodName(n)
    ensures forall x :: x in Tokens(names, table, true) ==> x != "" && x[0] != '*'
  {
    var tokens := Tokens(names, table, true);
    forall x | x in tokens ensures x != "" && x[0] != '*' {
      var i :| 0 <= i < |tokens| && tokens[i] == x;
      assert names[i] in names && GoodName(names[i]);
      assert x[0] == names[i][0];
    }
  }

  lemma LinesComplete(s: Session, lines: seq<Line>, table: Table)
    requires |lines| >= 1 && MergeLines(map[], lines) == table
    requires forall i :: 0 <= i < |lines| ==> lines[i].value != "*" && (lines[i].more <==> i < |lines| - 1)
    ensures var q := CapLines(s, "LS", lines);
            ListQueue(q, map[], table) && forall i :: 0 <= i < |q| ==> IsProto(q[i])
  {
    ListLinesSeen(s, lines);
    var q := CapLines(s, "LS", lines);
    assert forall i :: 0 <= i < |q| ==> LinesIn(q)[i] == ListLine(q[i].params);
  }

  lemma ToldValues(table: Table)
    ensures Told(table, true) == table
  {
  }

  lemma ReplyCompletes(s: Session, names: seq<string>, table: Table)
    requires CleanTable(table) && ListsAll(names, table) && forall n :: n in table ==> GoodName(n)
    ensures var q := CapLines(s, "LS", ReplyLines(Tokens(names, table, true)));
            ListQueue(q, map[], table) && forall i :: 0 <= i < |q| ==> IsProto(q[i])
  {
    var tokens := Tokens(names, table, true);
    TokensGood(names, table);
    ValuesNotStar(tokens);
    ReplyShape(tokens);
    MergeRestoresTable(names, table, true);
    ToldValues(table);
    LinesComplete(s, ReplyLines(tokens), table);
  }

  // What the server makes of the client's first message.
  lemma FirstMessage(arg: string)
    requires arg == "302"
    ensures AfterList(NEW_SESSION, arg) == NEW_SESSION.(state := CapNeg, version := 302, caps := {CAP_NOTIFY})
  {
    Version302();
    assert {} + {CAP_NOTIFY} == {CAP_NOTIFY};
  }

  const LISTED := NEW_SESSION.(state := CapNeg, version := 302, caps := {CAP_NOTIFY})

  lemma AskingResult(w: World, env: Env)
    requires EnvOk(w.server, NEW_SESSION, LIST_MSG, env)
    ensures ListsAll(env.names, TableOf(w))
    ensures Serve(w.server, NEW_SESSION, LIST_MSG, env) ==
            (LISTED, CapLines(LISTED, "LS", ReplyLines(Tokens(env.names, TableOf(w), true))))
  {
    SubNames();
    FirstMessage("302");
  }

  lemma ServerInAsking(w: World, k: Known, c: Client, s: Session, up: seq<Msg>, down: seq<Msg>, env: Env)
    requires GoodConfig(w.server) && k == KnownOf(w) && At(k, Asking, c, s, up, down)
    requires EnvOk(w.server, s, LIST_MSG, env)
    ensures var (s1, out) := Serve(w.server, s, LIST_MSG, env);
            At(k, Listing, c, s1, up[1..], down + Proto(out))
  {
    AskingResult(w, env);
    SupportedClean(w.server, 302);
    var out := CapLines(LISTED, "LS", ReplyLines(Tokens(env.names, k.table, true)));
    ReplyCompletes(LISTED, env.names, k.table);
    ProtoAll(out);
    NothingLeft(out);
    assert up[1..] == [];
  }

  // --- the request ---

  lemma RequestResult(cfg: ServerConfig, s: Session, want: seq<string>)
    requires Negotiates(s, {CAP_NOTIFY})
    requires forall n :: n in want ==> n in Supported(cfg, 302) && GoodName(n)
    ensures HandleRequest(cfg, s, Join(want, ' ')) ==
            if STS in want then (s, [CapReply(s, "NAK", Join(want, ' '))])
            else (s.(caps := {CAP_NOTIFY} + set c | c in want), [CapReply(s, "ACK", Join(want, ' '))])
  {
    JoinedNames(want);
    GrantableIff(Supported(cfg, 302), want);
    GrantAll({CAP_NOTIFY}, 302, want);
  }

  lemma ServerInRequesting(w: World, k: Known, c: Client, s: Session, up: seq<Msg>, down: seq<Msg>, env: Env)
      returns (to: Stage)
    requires GoodConfig(w.server) && k == KnownOf(w) && At(k, Requesting, c, s, up, down)
    requires EnvOk(w.server, s, up[0], env)
    ensures to == Granted || to == Refused
    ensures var (s1, out) := Serve(w.server, s, up[0], env);
            At(k, to, c, s1, up[1..], down + Proto(out))
  {
    var want := k.want.value;
    WantGood(w);
    RequestServed(w.server, s, want, env);
    to := if STS in want then Refused else Granted;
    var (s1, out) := Serve(w.server, s, up[0], env);
    ProtoAll(out);
    NothingLeft(out);
    assert up[1..] == [];
  }

  lemma RequestServed(cfg: ServerConfig, s: Session, want: seq<string>, env: Env)
    requires Negotiates(s, {CAP_NOTIFY}) && EnvOk(cfg, s, Cap(["REQ", Join(want, ' ')]), env)
    requires forall n :: n in want ==> n in Supported(cfg, 302) && GoodName(n)
    ensures Serve(cfg, s, Cap(["REQ", Join(want, ' ')]), env) ==
            if STS in want then (s, [CapReply(s, "NAK", Join(want, ' '))])
            else (s.(caps := {CAP_NOTIFY} + set c | c in want), [CapReply(s, "ACK", Join(want, ' '))])
  {
    SubNames();
    RequestResult(cfg, s, want);
  }

  // --- the exchange ---

  // The replies to an AUTHENTICATE message that belong to the negotiation: none
  // while chunks are outstanding, otherwise a challenge or a final numeric.
  lemma ExchangeReplies(s: Session, enabled: bool, params: seq<string>, login: Sasl.Login)
    ensures var (x, replies) := Sasl.Authenticate(s.sasl, enabled, params, login);
            var p := Proto(SaslReplies(s, replies));
            && AllSasl(p)
            && (s.sasl.active && enabled && params != [] && !Sasl.Feed(s.sasl.buffer, params[0]).More? ==>
                  p != [] && EndsSasl(p[0]))
            && (s.sasl.active && enabled && params != [] && Sasl.Feed(s.sasl.buffer, params[0]).More? ==>
                  replies == [] && x.active)
  {
    var (x, replies) := Sasl.Authenticate(s.sasl, enabled, params, login);
    var q := SaslReplies(s, replies);
    if |q| == 2 {
      assert q == [q[0]] + [q[1]];
      ProtoAppend([q[0]], [q[1]]);
      ProtoNone([q[0]]);
      ProtoAll([q[1]]);
    } else if |q| == 1 {
      assert q == [q[0]];
      ProtoAll([q[0]]);
    }
  }

  lemma StartResult(s: Session, params: seq<string>, env: Env)
    requires s.sasl == IDLE && SASL in s.caps && |params| == 1 && EqualFold(params[0], "PLAIN")
    ensures HandleAuth(s, params, env) == (s.(sasl := Sasl.Exchange(true, "", "")), [Auth(["+"])])
  {
    var r := SaslReplies(s, [Sasl.Challenge]);
    assert r == [Auth(["+"])];
  }

  lemma ServerInStart(cfg: ServerConfig, k: Known, c: Client, s: Session, up: seq<Msg>, down: seq<Msg>, env: Env)
    requires At(k, SaslStart, c, s, up, down)
    ensures var (s1, out) := Serve(cfg, s, up[0], env);
            At(k, SaslChallenge, c, s1, up[1..], down + Proto(out))
  {
    StartResult(s, up[0].params, env);
    ProtoAll([Auth(["+"])]);
    assert down + [Auth(["+"])] == [Auth(["+"])];
  }

  lemma ServerInChunks(cfg: ServerConfig, k: Known, c: Client, s: Session, up: seq<Msg>, down: seq<Msg>, env: Env)
      returns (to: Stage)
    requires At(k, SaslChunks, c, s, up, down)
    ensures to == SaslChunks || to == SaslOver
    ensures var (s1, out) := HandleAuth(s, up[0].params, env);
            At(k, to, c, s1, up[1..], down + Proto(out))
  {
    ExchangeReplies(s, true, up[0].params, env.login);
    var p := Proto(HandleAuth(s, up[0].params, env).1);
    assert down + p == p;
    to := if Sasl.Feed(s.sasl.buffer, up[0].params[0]).More? then SaslChunks else SaslOver;
  }

  lemma ServerReadsAuth(k: Known, stage: Stage, c: Client, s: Session, up: seq<Msg>, down: seq<Msg>, env: Env)
    requires stage == SaslOver || (stage == Ending && up != [] && up[0].Auth?)
    requires At(k, stage, c, s, up, down) && up != []
    ensures var (s1, out) := HandleAuth(s, up[0].params, env);
            At(k, stage, c, s1, up[1..], down + Proto(out))
  {
    ExchangeReplies(s, SASL in s.caps, up[0].params, env.login);
    var rest := up[1..];
    if stage == Ending {
      assert rest[..|rest| - 1] == up[..|up| - 1][1..];
    }
  }

  // --- the end ---

  // Registering, or failing to, concerns no message of the negotiation.
  lemma RegisterReplies(s: Session, env: Env)
    ensures var (s1, out) := TryRegister(s, env);
            && Proto(out) == [] && s1 == s.(state := s1.state, nick := s1.nick)
            && (s1.state == s.state || (s.state == PreReg && s1.state == Registered))
  {
    ProtoNone(TryRegister(s, env).1);
  }

  lemma AbortReplies(s: Session)
    ensures AllSasl(Proto(SaslReplies(s, Sasl.AbortExchange(s.sasl).1)))
  {
    ProtoAll(SaslReplies(s, Sasl.AbortExchange(s.sasl).1));
  }

  lemma EndReplies(s: Session, env: Env)
    ensures var (s1, out) := HandleEnd(s, env);
            && AllSasl(Proto(out)) && s1.caps == s.caps && s1.state != CapNeg
  {
    var (x, replies) := Sasl.AbortExchange(s.sasl);
    var s1 := s.(sasl := x, state := if s.state == CapNeg then PreReg else s.state);
    AbortReplies(s);
    RegisterReplies(s1, env);
    ProtoAppend(SaslReplies(s, replies), TryRegister(s1, env).1);
  }

  lemma ServerReadsEnd(cfg: ServerConfig, k: Known, c: Client, s: Session, up: seq<Msg>, down: seq<Msg>, env: Env)
    requires At(k, Ending, c, s, up, down) && up[0] == END_MSG && EnvOk(cfg, s, END_MSG, env)
    ensures var (s1, out) := Serve(cfg, s, END_MSG, env);
            At(k, Ended, c, s1, up[1..], down + Proto(out))
  {
    SubNames();
    EndReplies(s, env);
  }

  // ---------------------------------------------------------------------
  // Everything else
  // ---------------------------------------------------------------------

  // Two clients, and two sessions, that differ only in what the negotiation
  // does not look at.
  predicate SameClient(c: Client, d: Client) {
    d == c.(nick := d.nick, loggedIn := d.loggedIn)
  }

  predicate SameSession(s: Session, t: Session) {
    t == s.(nick := t.nick, user := t.user, state := t.state)
    && (t.state == s.state || (s.state == PreReg && t.state == Registered))
  }

  lemma OtherStays(k: Known, stage: Stage, c: Client, s: Session, c1: Client, s1: Session, up: seq<Msg>, down: seq<Msg>)
    requires At(k, stage, c, s, up, down) && SameClient(c, c1) && SameSession(s, s1)
    requires stage == Asking ==> s1 == s
    ensures At(k, stage, c1, s1, up, down)
  {
  }

  lemma ClientReadsOther(cfg: Config, c: Client, m: Msg, respond: Mechanism)
    requires !IsProto(m)
    ensures var r := Handle(cfg, c, m, respond);
            r.Ran? && SameClient(c, r.client) && Proto(r.sent) == [] && Ends(r.sent) == 0
  {
    var r := Handle(cfg, c, m, respond);
    ProtoNone(r.sent);
    NoEnds(r.sent);
  }

  lemma ServerReadsOther(cfg: ServerConfig, s: Session, m: Msg, env: Env)
    requires !IsProto(m)
    ensures var (s1, out) := Serve(cfg, s, m, env);
            SameSession(s, s1) && Proto(out) == []
  {
    var (s1, out) := Serve(cfg, s, m, env);
    match m
    case Nick(params) =>
      if params != [] { RegisterReplies(s.(nick := params[0]), env); }
      ProtoNone(out);
    case User(params) =>
      if |params| >= 4 { RegisterReplies(s.(user := CleanUsername(params[0])), env); }
      ProtoNone(out);
    case _ => ProtoNone(out);
  }

  // ---------------------------------------------------------------------
  // Every step keeps the invariant
  // ---------------------------------------------------------------------

  lemma ClientReadsProto(w: World, k: Known, y: System, stage: Stage, respond: Mechanism) returns (to: Stage)
    requires GoodConfig(w.server) && k == KnownOf(w) && Inv(k, y, stage) && !y.crashed && y.down != [] && IsProto(y.down[0])
    ensures Leads(k, stage, to, Handle(w.client, y.client, y.down[0], respond),
                  y.client, y.session, Proto(y.up), Proto(y.down[1..]))
    ensures ClientMoves(k, stage, to)
  {
    var c, s, up, down := y.client, y.session, Proto(y.up), Proto(y.down);
    ProtoHead(y.down);
    match stage {
      case Listing => to := ClientInListing(w, k, c, s, up, down, respond);
      case Granted => to := ClientInGranted(w, k, c, s, up, down, respond);
      case Refused => ClientInRefused(w, k, c, s, up, down, respond); to := Ending;
      case SaslChallenge => ClientInChallenge(w.client, k, c, s, up, down, respond); to := SaslChunks;
      case SaslOver => ClientInOver(w.client, k, c, s, up, down, respond); to := Ending;
      case Ending => ClientAtEnd(w.client, k, stage, c, s, up, down, respond); to := Ending;
      case Ended => ClientAtEnd(w.client, k, stage, c, s, up, down, respond); to := Ended;
      case _ => to := Dead; assert false;
    }
  }

  // The stage with its links as projections of the real ones.
  lemma Assemble(k: Known, y: System, stage: Stage, up: seq<Msg>, down: seq<Msg>)
    requires At(k, stage, y.client, y.session, up, down) && up == Proto(y.up) && down == Proto(y.down)
    requires SentIn(stage, y.sent, y.seen) && (y.crashed <==> stage == Dead)
    requires stage == Asking ==> y.up != [] && y.up[0] == LIST_MSG
    ensures Inv(k, y, stage)
  {
  }

  lemma ClientStep(w: World, k: Known, y: System, stage: Stage, respond: Mechanism) returns (to: Stage)
    requires GoodConfig(w.server) && k == KnownOf(w) && Inv(k, y, stage) && Enabled(w, y, ClientReads(respond))
    ensures Inv(k, AfterClient(w, y, respond), to)
    ensures if IsProto(y.down[0]) then ClientMoves(k, stage, to) else to == stage
  {
    if IsProto(y.down[0]) {
      to := ClientReadsProto(w, k, y, stage, respond);
      ClientJoin(w, k, y, stage, to, respond);
    } else {
      to := stage;
      ClientOther(w, k, y, stage, respond);
    }
  }

  lemma ClientJoin(w: World, k: Known, y: System, stage: Stage, to: Stage, respond: Mechanism)
    requires y.down != [] && !y.crashed && SentIn(stage, y.sent, y.seen) && to != Asking
    requires Leads(k, stage, to, Handle(w.client, y.client, y.down[0], respond),
                   y.client, y.session, Proto(y.up), Proto(y.down[1..]))
    ensures Inv(k, AfterClient(w, y, respond), to)
  {
    var y1 := AfterClient(w, y, respond);
    match Handle(w.client, y.client, y.down[0], respond)
    case Panic =>
      Assemble(k, y1, to, Proto(y.up), Proto(y.down[1..]));
    case Ran(c1, out) =>
      JoinSent(y.up, out);
      Assemble(k, y1, to, Proto(y.up) + out, Proto(y.down[1..]));
  }

  lemma JoinSent(up: seq<Msg>, out: seq<Msg>)
    requires forall i :: 0 <= i < |out| ==> IsProto(out[i])
    ensures Proto(up + out) == Proto(up) + out
  {
    ProtoAppend(up, out);
    ProtoAll(out);
  }

  lemma ClientOther(w: World, k: Known, y: System, stage: Stage, respond: Mechanism)
    requires Inv(k, y, stage) && !y.crashed && y.down != [] && !IsProto(y.down[0])
    ensures Inv(k, AfterClient(w, y, respond), stage)
  {
    var r := Handle(w.client, y.client, y.down[0], respond);
    var y1 := AfterClient(w, y, respond);
    ClientReadsOther(w.client, y.client, y.down[0], respond);
    ProtoAppend(y.up, r.sent);
    ProtoHead(y.down);
    assert Proto(y.up) + [] == Proto(y.up);
    OtherStays(k, stage, y.client, y.session, r.client, y.session, Proto(y.up), Proto(y.down));
    Assemble(k, y1, stage, Proto(y.up), Proto(y.down));
  }

  lemma ServerReadsProto(w: World, k: Known, y: System, stage: Stage, env: Env) returns (to: Stage)
    requires GoodConfig(w.server) && k == KnownOf(w) && Inv(k, y, stage) && Enabled(w, y, ServerReads(env)) && IsProto(y.up[0])
    ensures var (s1, out) := Serve(w.server, y.session, y.up[0], env);
            At(k, to, y.client, s1, Proto(y.up[1..]), Proto(y.down) + Proto(out))
    ensures SentIn(to, y.sent, y.seen + if y.up[0] == END_MSG then 1 else 0)
    ensures ServerMoves(stage, y.up[0], to)
  {
    var c, s, up, down := y.client, y.session, Proto(y.up), Proto(y.down);
    ProtoHead(y.up);
    match stage {
      case Asking => ServerInAsking(w, k, c, s, up, down, env); to := Listing;
      case Requesting => to := ServerInRequesting(w, k, c, s, up, down, env);
      case SaslStart => ServerInStart(w.server, k, c, s, up, down, env); to := SaslChallenge;
      case SaslChunks => to := ServerInChunks(w.server, k, c, s, up, down, env);
      case SaslOver => ServerReadsAuth(k, stage, c, s, up, down, env); to := SaslOver;
      case Ending => to := ServerInEnding(w.server, k, c, s, up, down, env);
      case _ => to := Dead; assert false;
    }
  }

  lemma ServerInEnding(cfg: ServerConfig, k: Known, c: Client, s: Session, up: seq<Msg>, down: seq<Msg>, env: Env)
      returns (to: Stage)
    requires At(k, Ending, c, s, up, down) && up != [] && EnvOk(cfg, s, up[0], env)
    ensures to == if up[0] == END_MSG then Ended else Ending
    ensures var (s1, out) := Serve(cfg, s, up[0], env);
            At(k, to, c, s1, up[1..], down + Proto(out))
  {
    if up[0].Auth? {
      ServerReadsAuth(k, Ending, c, s, up, down, env);
      to := Ending;
    } else {
      EndIsFirst(up);
      ServerReadsEnd(cfg, k, c, s, up, down, env);
      to := Ended;
    }
  }

  lemma EndIsFirst(up: seq<Msg>)
    requires up != [] && up[|up| - 1] == END_MSG && AllAuth(up[..|up| - 1]) && !up[0].Auth?
    ensures up[0] == END_MSG
  {
  }

  lemma ServerStep(w: World, k: Known, y: System, stage: Stage, env: Env) returns (to: Stage)
    requires GoodConfig(w.server) && k == KnownOf(w) && Inv(k, y, stage) && Enabled(w, y, ServerReads(env))
    ensures Inv(k, AfterServer(w, y, env), to)
    ensures if IsProto(y.up[0]) then ServerMoves(stage, y.up[0], to) else to == stage
  {
    if IsProto(y.up[0]) {
      to := ServerReadsProto(w, k, y, stage, env);
      var out := Serve(w.server, y.session, y.up[0], env).1;
      ProtoAppend(y.down, out);
      Assemble(k, AfterServer(w, y, env), to, Proto(y.up[1..]), Proto(y.down) + Proto(out));
    } else {
      to := stage;
      ServerOther(w, k, y, stage, env);
    }
  }

  lemma ServerOther(w: World, k: Known, y: System, stage: Stage, env: Env)
    requires Inv(k, y, stage) && Enabled(w, y, ServerReads(env)) && !IsProto(y.up[0])
    ensures Inv(k, AfterServer(w, y, env), stage)
  {
    var (s1, out) := Serve(w.server, y.session, y.up[0], env);
    ServerReadsOther(w.server, y.session, y.up[0], env);
    ProtoAppend(y.down, out);
    ProtoHead(y.up);
    assert Proto(y.down) + [] == Proto(y.down);
    OtherStays(k, stage, y.client, y.session, y.client, s1, Proto(y.up), Proto(y.down));
    Assemble(k, AfterServer(w, y, env), stage, Proto(y.up), Proto(y.down));
  }

  lemma QueueOther(k: Known, y: System, stage: Stage, m: Msg)
    requires Inv(k, y, stage) && !IsProto(m)
    ensures Inv(k, y.(up := y.up + [m]), stage) && Inv(k, y.(down := y.down + [m]), stage)
  {
    ProtoNone([m]);
    ProtoAppend(y.up, [m]);
    ProtoAppend(y.down, [m]);
    assert Proto(y.up) + [] == Proto(y.up) && Proto(y.down) + [] == Proto(y.down);
    Assemble(k, y.(up := y.up + [m]), stage, Proto(y.up), Proto(y.down));
    Assemble(k, y.(down := y.down + [m]), stage, Proto(y.up), Proto(y.down));
  }

  // Where a step leads.
  predicate Moves(k: Known, y: System, stage: Stage, step: Step, to: Stage) {
    match step
    case ClientReads(_) => y.down != [] && if IsProto(y.down[0]) then ClientMoves(k, stage, to) else to == stage
    case ServerReads(_) => y.up != [] && if IsProto(y.up[0]) then ServerMoves(stage, y.up[0], to) else to == stage
    case _ => to == stage
  }

  lemma StepKeepsInv(w: World, k: Known, y: System, stage: Stage, step: Step) returns (to: Stage)
    requires GoodConfig(w.server) && k == KnownOf(w) && Inv(k, y, stage) && Enabled(w, y, step)
    ensures Inv(k, Apply(w, y, step), to) && Moves(k, y, stage, step, to)
  {
    match step
    case ClientReads(respond) => to := ClientStep(w, k, y, stage, respond);
    case ServerReads(env) => to := ServerStep(w, k, y, stage, env);
    case AppSends(m) =>
      to := stage;
      QueueOther(k, y, stage, m);
    case ServerSays(m) =>
      to := stage;
      QueueOther(k, y, stage, m);
  }

  lemma {:induction false} RunKeepsInv(w: World, k: Known, y: System, stage: Stage, steps: seq<Step>) returns (to: Stage)
    requires GoodConfig(w.server) && k == KnownOf(w) && Inv(k, y, stage) && IsRun(w, y, steps)
    ensures Inv(k, After(w, y, steps), to)
    decreases steps
  {
    if steps == [] {
      to := stage;
    } else {
      var mid := StepKeepsInv(w, k, y, stage, steps[0]);
      to := RunKeepsInv(w, k, Apply(w, y, steps[0]), mid, steps[1..]);
    }
  }

  // ---------------------------------------------------------------------
  // The negotiation as a whole
  // ---------------------------------------------------------------------

  predicate NoCap(q: seq<Msg>) {
    forall m :: m in q ==> !m.Cap?
  }

  // A configuration that wants SASL by name only, from a server that offers it.
  predicate Panics(w: World) {
    w.client.sasl.None? && SASL in w.client.requested && w.server.secure && w.server.hasAccounts
  }

  lemma PanicsIff(w: World)
    ensures WantOf(w).None? <==> Panics(w)
  {
    WantMeaning(w.client, Wishes(w.client), {}, {CAP_NOTIFY}, TableOf(w));
    SupportedSasl(w.server, 302);
    assert SASL !in DEFAULT_CAPS;
  }

  // What the server has to offer to a client of version 302.
  predicate Has(cfg: ServerConfig, c: string) {
    || c in BASE_CAPS
    || (c == SASL && cfg.secure && cfg.hasAccounts)
    || (c == STS && cfg.sts.Some?)
  }

  // What the client would like: the defaults unless they are off, sasl when a
  // mechanism is configured, and whatever is requested by name.
  predicate Likes(cfg: Config, c: string) {
    || (c in DEFAULT_CAPS && !cfg.noDefaults)
    || (c == SASL && cfg.sasl.Some?)
    || c in cfg.requested
  }

  // What both sides hold in the end, by the two configurations alone: cap-notify, and
  // what is liked and offered, sasl only with the mechanism the server knows. A
  // client that likes an sts policy is refused everything.
  predicate Held(w: World, c: string) {
    || c == CAP_NOTIFY
    || (&& !(Likes(w.client, STS) && Has(w.server, STS))
        && Likes(w.client, c) && Has(w.server, c)
        && (c == SASL ==> w.client.sasl.Some? && EqualFold("PLAIN", w.client.sasl.value)))
  }

  lemma HasIsTable(w: World, c: string)
    ensures c in TableOf(w) <==> Has(w.server, c)
  {
  }

  lemma LikesIsWish(cfg: Config, c: string)
    ensures c in Wishes(cfg) <==> Likes(cfg, c)
  {
  }

  lemma ListsOne(mech: string, name: string)
    ensures Lists([mech], name) <==> EqualFold(mech, name)
  {
    if EqualFold(mech, name) { assert EqualFold([mech][0], name); }
  }

  lemma OfferedIff(w: World, c: string)
    ensures Offered(w.client, TableOf(w), c) <==>
            Has(w.server, c) && (c == SASL ==> w.client.sasl.Some? && EqualFold("PLAIN", w.client.sasl.value))
  {
    HasIsTable(w, c);
    SupportedSasl(w.server, 302);
    Sasl.SplitSingle("PLAIN", ',');
    if c == SASL && c in TableOf(w) && w.client.sasl.Some? { ListsOne("PLAIN", w.client.sasl.value); }
  }

  lemma WantIff(w: World, c: string)
    requires WantOf(w).Some?
    ensures c in WantOf(w).value <==>
            && c != CAP_NOTIFY && Likes(w.client, c) && Has(w.server, c)
            && (c == SASL ==> w.client.sasl.Some? && EqualFold("PLAIN", w.client.sasl.value))
  {
    WantMeaning(w.client, Wishes(w.client), {}, {CAP_NOTIFY}, TableOf(w));
    LikesIsWish(w.client, c);
    OfferedIff(w, c);
  }

  lemma AgreedIff(w: World, c: string)
    requires WantOf(w).Some?
    ensures c in Agreed(w) <==> Held(w, c)
  {
    WantIff(w, c);
    WantIff(w, STS);
    assert STS != SASL && STS != CAP_NOTIFY by { assert STS[1] != SASL[1] && STS[0] != CAP_NOTIFY[0]; }
  }

  lemma CapInFlight(k: Known, y: System, stage: Stage)
    requires Inv(k, y, stage)
    requires stage == Asking || stage == Listing || stage == Requesting || stage == Granted || stage == Refused
    ensures !NoCap(y.up) || !NoCap(y.down)
  {
    ProtoIn(y.up);
    ProtoIn(y.down);
    var up, down := Proto(y.up), Proto(y.down);
    if up != [] {
      assert up[0] in y.up;
    } else {
      assert down[0] in y.down;
    }
  }

  // After any run of client and server over their links:
  // a registered session has seen the one CAP END the client sent; the two
  // sides agree on the enabled capabilities whenever no CAP message is in
  // flight; and once the client is done both have what the configurations say.
  lemma Negotiation(w: World, steps: seq<Step>)
    requires GoodConfig(w.server) && IsRun(w, Start(w), steps)
    ensures var y := After(w, Start(w), steps);
            && y.seen <= y.sent <= 1
            && (y.session.state == Registered ==> y.seen == 1)
            && (!y.crashed && NoCap(y.up) && NoCap(y.down) ==> y.client.enabled == y.session.caps)
            && (y.client.phase == Done ==> y.client.enabled == y.session.caps == Agreed(w))
            && (y.client.phase == Done ==> forall c :: c in y.client.enabled <==> Held(w, c))
            && (y.sent == 1 <==> y.client.phase == Done)
  {
    StartInv(w);
    var stage := RunKeepsInv(w, KnownOf(w), Start(w), Asking, steps);
    var y := After(w, Start(w), steps);
    if y.client.phase == Done {
      forall c ensures c in Agreed(w) <==> Held(w, c) { AgreedIff(w, c); }
    }
    if stage == Asking || stage == Listing || stage == Requesting || stage == Granted || stage == Refused {
      CapInFlight(KnownOf(w), y, stage);
    }
  }

  // The client takes up its mechanism and names it to the server.
  predicate Begins(w: World, y: System, step: Step) {
    && step.ClientReads? && y.down != [] && !y.client.mech
    && var r := Handle(w.client, y.client, y.down[0], step.respond);
       r.Ran? && r.client.mech && |r.sent| == 1 && r.sent[0].Auth? && |r.sent[0].params| == 1
       && EqualFold(r.sent[0].params[0], "PLAIN")
  }

  // How often it does so in a run.
  ghost function Begun(w: World, y: System, steps: seq<Step>): nat
    requires IsRun(w, y, steps)
    decreases steps
  {
    if steps == [] then 0
    else (if Begins(w, y, steps[0]) then 1 else 0) + Begun(w, Apply(w, y, steps[0]), steps[1..])
  }

  // In these stages it has.
  predicate Started(k: Known, stage: Stage) {
    match stage
    case SaslStart => true
    case SaslChallenge => true
    case SaslChunks => true
    case SaslOver => true
    case Ending => SASL in k.agreed
    case Ended => SASL in k.agreed
    case _ => false
  }

  lemma StartsOnMove(k: Known, stage: Stage, m: Msg, to: Stage)
    ensures ClientMoves(k, stage, to) && stage != Granted && (stage != SaslOver || SASL in k.agreed) ==>
              (Started(k, to) <==> Started(k, stage))
    ensures ServerMoves(stage, m, to) ==> (Started(k, to) <==> Started(k, stage))
  {
  }

  // The mechanism is taken up exactly on the way from the grant to the exchange.
  lemma BeginsIff(w: World, k: Known, y: System, stage: Stage, respond: Mechanism) returns (to: Stage)
    requires GoodConfig(w.server) && k == KnownOf(w) && Inv(k, y, stage) && Enabled(w, y, ClientReads(respond))
    ensures Inv(k, AfterClient(w, y, respond), to)
    ensures Begins(w, y, ClientReads(respond)) <==> Started(k, to) && !Started(k, stage)
    ensures Started(k, stage) ==> Started(k, to)
  {
    to := ClientStep(w, k, y, stage, respond);
    if IsProto(y.down[0]) {
      StartsOnMove(k, stage, y.down[0], to);
      ProtoHead(y.down);
      if stage == Granted { BeginsFromGrant(w, k, y, respond); }
    } else {
      ClientReadsOther(w.client, y.client, y.down[0], respond);
    }
  }

  lemma BeginsFromGrant(w: World, k: Known, y: System, respond: Mechanism)
    requires GoodConfig(w.server) && k == KnownOf(w) && Inv(k, y, Granted) && y.down != [] && IsProto(y.down[0])
    ensures Begins(w, y, ClientReads(respond)) <==> SASL in k.agreed
  {
    ProtoHead(y.down);
    var to := ClientInGranted(w, k, y.client, y.session, Proto(y.up), Proto(y.down), respond);
    var r := Handle(w.client, y.client, y.down[0], respond);
    assert Proto(y.up) + r.sent == r.sent;
  }

  lemma {:induction false} BegunAlong(w: World, k: Known, y: System, stage: Stage, steps: seq<Step>) returns (to: Stage)
    requires GoodConfig(w.server) && k == KnownOf(w) && Inv(k, y, stage) && IsRun(w, y, steps)
    ensures Inv(k, After(w, y, steps), to) && (Started(k, stage) ==> Started(k, to))
    ensures Begun(w, y, steps) == if Started(k, to) && !Started(k, stage) then 1 else 0
    decreases steps
  {
    if steps == [] {
      to := stage;
    } else {
      var step, mid := steps[0], stage;
      if step.ClientReads? {
        mid := BeginsIff(w, k, y, stage, step.respond);
      } else {
        mid := StepKeepsInv(w, k, y, stage, step);
        if step.ServerReads? { StartsOnMove(k, stage, y.up[0], mid); }
      }
      to := BegunAlong(w, k, Apply(w, y, step), mid, steps[1..]);
    }
  }

  // The client authenticates exactly once in a negotiation that holds sasl in the end,
  // and never in one that does not.
  lemma AuthenticatesIff(w: World, steps: seq<Step>)
    requires GoodConfig(w.server) && IsRun(w, Start(w), steps)
    ensures Begun(w, Start(w), steps) <= 1
    ensures After(w, Start(w), steps).client.phase == Done ==>
              Begun(w, Start(w), steps) == if Held(w, SASL) then 1 else 0
  {
    StartInv(w);
    var stage := BegunAlong(w, KnownOf(w), Start(w), Asking, steps);
    if After(w, Start(w), steps).client.phase == Done { AgreedIff(w, SASL); }
  }

  // When nothing of the negotiation is in flight it is over: the client is done
  // and the server no longer waits, unless the client has panicked.
  lemma NeverStuck(w: World, steps: seq<Step>)
    requires GoodConfig(w.server) && IsRun(w, Start(w), steps)
    ensures var y := After(w, Start(w), steps);
            Proto(y.up) == [] && Proto(y.down) == [] && !y.crashed ==>
              y.client.phase == Done && y.session.state != CapNeg
  {
    StartInv(w);
    var stage := RunKeepsInv(w, KnownOf(w), Start(w), Asking, steps);
  }

  // The client panics only in that kind of configuration, and there the session
  // is never registered.
  lemma CrashOnlyIf(w: World, steps: seq<Step>)
    requires GoodConfig(w.server) && IsRun(w, Start(w), steps)
    ensures var y := After(w, Start(w), steps);
            && (y.crashed ==> Panics(w))
            && (Panics(w) ==> y.session.state != Registered && y.sent == 0)
            && (Panics(w) && Proto(y.up) == [] && Proto(y.down) == [] ==> y.crashed)
  {
    StartInv(w);
    var stage := RunKeepsInv(w, KnownOf(w), Start(w), Asking, steps);
    PanicsIff(w);
  }
}
