/**
 Progress of the capability negotiation: every delivery of one of its messages
 brings it nearer to its end, so it ends in every infinite run in which both
 sides keep reading.

 Main results
   DeliveryDecreases   a measure that every such delivery lowers and no other
                       step raises
   FairRunEnds         in every fair run the negotiation is over from some point on
   PanicReached        and in the configurations where the client can panic, it does
 */
module CapProgress {
  import opened Text
  import opened CapClient
  import opened CapServer
  import opened CapSession

  // ---------------------------------------------------------------------
  // The measure
  // ---------------------------------------------------------------------

  // The stage first, then what is in flight to the server, then to the client.
  datatype Distance = Distance(rank: nat, up: nat, down: nat)

  function Left(stage: Stage, y: System): Distance {
    Distance(Rank(stage), |Proto(y.up)|, |Proto(y.down)|)
  }

  predicate Nearer(a: Distance, b: Distance) {
    a.rank < b.rank || (a.rank == b.rank && (a.up < b.up || (a.up == b.up && a.down < b.down)))
  }

  // The step delivers a message of the negotiation.
  predicate Delivers(y: System, step: Step) {
    match step
    case ClientReads(_) => y.down != [] && IsProto(y.down[0])
    case ServerReads(_) => y.up != [] && IsProto(y.up[0])
    case _ => false
  }

  // --- the client reads ---

  lemma EndInside(up: seq<Msg>, out: seq<Msg>)
    requires up != [] && up[|up| - 1] == END_MSG && out != []
    ensures !AllAuth((up + out)[..|up + out| - 1])
  {
    var all := up + out;
    assert all[..|all| - 1][|up| - 1] == END_MSG;
  }

  // A client that stays in its stage sends nothing of the negotiation.
  lemma StaysQuiet(k: Known, stage: Stage, r: CapClient.Outcome, c: Client, s: Session, up: seq<Msg>, down: seq<Msg>)
    requires stage == Listing || stage == Ending || stage == Ended
    requires r.Ran? && Leads(k, stage, stage, r, c, s, up, down)
    requires stage == Ending ==> up != [] && up[|up| - 1] == END_MSG
    ensures r.sent == []
  {
    if stage == Ending && r.sent != [] { EndInside(up, r.sent); }
  }

  lemma ClientDelivery(w: World, k: Known, y: System, stage: Stage, respond: Mechanism) returns (to: Stage)
    requires GoodConfig(w.server) && k == KnownOf(w) && Inv(k, y, stage)
    requires Enabled(w, y, ClientReads(respond)) && IsProto(y.down[0])
    ensures Inv(k, AfterClient(w, y, respond), to)
    ensures Nearer(Left(to, AfterClient(w, y, respond)), Left(stage, y))
  {
    to := ClientReadsProto(w, k, y, stage, respond);
    MovesOn(k, stage, y.down[0], to);
    ClientJoin(w, k, y, stage, to, respond);
    if to == stage { QuietDelivery(w, k, y, stage, respond); }
  }

  lemma QuietDelivery(w: World, k: Known, y: System, stage: Stage, respond: Mechanism)
    requires y.down != [] && IsProto(y.down[0]) && (stage == Listing || stage == Ending || stage == Ended)
    requires stage == Ending ==> Proto(y.up) != [] && Proto(y.up)[|Proto(y.up)| - 1] == END_MSG
    requires Leads(k, stage, stage, Handle(w.client, y.client, y.down[0], respond),
                   y.client, y.session, Proto(y.up), Proto(y.down[1..]))
    ensures Nearer(Left(stage, AfterClient(w, y, respond)), Left(stage, y))
  {
    var r := Handle(w.client, y.client, y.down[0], respond);
    StaysQuiet(k, stage, r, y.client, y.session, Proto(y.up), Proto(y.down[1..]));
    NothingLeft(y.up);
    ProtoHead(y.down);
  }

  // --- the server reads ---

  lemma ServerDelivery(w: World, k: Known, y: System, stage: Stage, env: Env) returns (to: Stage)
    requires GoodConfig(w.server) && k == KnownOf(w) && Inv(k, y, stage)
    requires Enabled(w, y, ServerReads(env)) && IsProto(y.up[0])
    ensures Inv(k, AfterServer(w, y, env), to)
    ensures Nearer(Left(to, AfterServer(w, y, env)), Left(stage, y))
  {
    to := ServerReadsProto(w, k, y, stage, env);
    MovesOn(k, stage, y.up[0], to);
    var out := Serve(w.server, y.session, y.up[0], env).1;
    ProtoAppend(y.down, out);
    Assemble(k, AfterServer(w, y, env), to, Proto(y.up[1..]), Proto(y.down) + Proto(out));
    ProtoHead(y.up);
  }

  // --- every other step ---

  lemma OtherStep(w: World, k: Known, y: System, stage: Stage, step: Step)
    requires Inv(k, y, stage) && Enabled(w, y, step) && !Delivers(y, step)
    ensures Inv(k, Apply(w, y, step), stage)
    ensures Left(stage, Apply(w, y, step)) == Left(stage, y)
  {
    match step
    case ClientReads(respond) =>
      ClientOther(w, k, y, stage, respond);
      ClientReadsOther(w.client, y.client, y.down[0], respond);
      ProtoAppend(y.up, Handle(w.client, y.client, y.down[0], respond).sent);
      ProtoHead(y.down);
    case ServerReads(env) =>
      ServerOther(w, k, y, stage, env);
      ServerReadsOther(w.server, y.session, y.up[0], env);
      ProtoAppend(y.down, Serve(w.server, y.session, y.up[0], env).1);
      ProtoHead(y.up);
    case AppSends(m) =>
      QueueOther(k, y, stage, m);
      ProtoAppend(y.up, [m]);
      ProtoNone([m]);
    case ServerSays(m) =>
      QueueOther(k, y, stage, m);
      ProtoAppend(y.down, [m]);
      ProtoNone([m]);
  }

  // Every delivery of a message of the negotiation lowers the measure, whichever
  // side reads it and whatever it answers, and no other step changes it.
  lemma DeliveryDecreases(w: World, k: Known, y: System, stage: Stage, step: Step) returns (to: Stage)
    requires GoodConfig(w.server) && k == KnownOf(w) && Inv(k, y, stage) && Enabled(w, y, step)
    ensures Inv(k, Apply(w, y, step), to)
    ensures Delivers(y, step) ==> Nearer(Left(to, Apply(w, y, step)), Left(stage, y))
    ensures !Delivers(y, step) ==> to == stage && Left(to, Apply(w, y, step)) == Left(stage, y)
  {
    if !Delivers(y, step) {
      to := stage;
      OtherStep(w, k, y, stage, step);
    } else if step.ClientReads? {
      to := ClientDelivery(w, k, y, stage, step.respond);
    } else {
      to := ServerDelivery(w, k, y, stage, step.env);
    }
  }

  // ---------------------------------------------------------------------
  // Infinite runs
  // ---------------------------------------------------------------------

  // The states of a run that never stops, and the steps between them.
  ghost predicate Follows(w: World, path: nat -> System, act: nat -> Step, i: nat) {
    Enabled(w, path(i), act(i)) && path(i + 1) == Apply(w, path(i), act(i))
  }

  ghost predicate Path(w: World, path: nat -> System, act: nat -> Step) {
    forall i: nat :: Follows(w, path, act, i)
  }

  ghost predicate ServerReadsLater(act: nat -> Step, i: nat) {
    exists j: nat :: j >= i && act(j).ServerReads?
  }

  ghost predicate ClientReadsLater(act: nat -> Step, i: nat) {
    exists j: nat :: j >= i && act(j).ClientReads?
  }

  // Each side keeps reading as long as there is something to read.
  ghost predicate Fair(path: nat -> System, act: nat -> Step) {
    && (forall i: nat :: path(i).up != [] ==> ServerReadsLater(act, i))
    && (forall i: nat :: path(i).down != [] && !path(i).crashed ==> ClientReadsLater(act, i))
  }

  predicate NoFarther(a: Distance, b: Distance) {
    a == b || Nearer(a, b)
  }

  lemma {:induction false} Along(w: World, k: Known, path: nat -> System, act: nat -> Step, i: nat, j: nat, stage: Stage)
      returns (to: Stage)
    requires GoodConfig(w.server) && k == KnownOf(w) && Path(w, path, act) && i <= j && Inv(k, path(i), stage)
    ensures Inv(k, path(j), to) && NoFarther(Left(to, path(j)), Left(stage, path(i)))
    decreases j - i
  {
    if i == j {
      to := stage;
    } else {
      assert Follows(w, path, act, i);
      var mid := DeliveryDecreases(w, k, path(i), stage, act(i));
      to := Along(w, k, path, act, i + 1, j, mid);
    }
  }

  lemma NearerStill(a: Distance, b: Distance, c: Distance)
    requires Nearer(a, b) && NoFarther(b, c)
    ensures Nearer(a, c)
  {
  }

  // From some point on nothing of the negotiation is delivered.
  ghost predicate Silent(path: nat -> System, act: nat -> Step, n: nat) {
    forall i: nat :: i >= n ==> !Delivers(path(i), act(i))
  }

  // A place a run can be at a moment: a stage, and the distance left from there.
  ghost predicate Advances(good: (nat, Stage) -> bool, left: (nat, Stage) -> Distance, i: nat, stage: Stage, j: nat) {
    exists next :: Closer(good, left, i, stage, j, next)
  }

  predicate Closer(good: (nat, Stage) -> bool, left: (nat, Stage) -> Distance, i: nat, stage: Stage, j: nat, next: Stage) {
    good(j + 1, next) && Nearer(left(j + 1, next), left(i, stage))
  }

  // What only ever comes nearer happens only finitely often.
  lemma {:induction false} FinitelyOften(good: (nat, Stage) -> bool, left: (nat, Stage) -> Distance, happens: nat -> bool,
                                        i: nat, stage: Stage, d: Distance) returns (n: nat, to: Stage)
    requires good(i, stage) && d == left(i, stage)
    requires forall i: nat, stage, j: nat :: good(i, stage) && j >= i && happens(j) ==> Advances(good, left, i, stage, j)
    ensures n >= i && good(n, to) && forall j: nat :: j >= n ==> !happens(j)
    decreases d.rank, d.up, d.down
  {
    if j: nat :| j >= i && happens(j) {
      assert Advances(good, left, i, stage, j);
      var next :| Closer(good, left, i, stage, j, next);
      n, to := FinitelyOften(good, left, happens, j + 1, next, left(j + 1, next));
    } else {
      n, to := i, stage;
    }
  }

  lemma FallsSilent(w: World, k: Known, path: nat -> System, act: nat -> Step, stage: Stage) returns (n: nat, to: Stage)
    requires GoodConfig(w.server) && k == KnownOf(w) && Path(w, path, act) && Inv(k, path(0), stage)
    ensures Silent(path, act, n) && Inv(k, path(n), to)
  {
    var good := (i: nat, st: Stage) => Inv(k, path(i), st);
    var left := (i: nat, st: Stage) => Left(st, path(i));
    var happens := (i: nat) => Delivers(path(i), act(i));
    forall i: nat, st, j: nat | good(i, st) && j >= i && happens(j) ensures Advances(good, left, i, st, j) {
      var next := AfterDelivery(w, k, path, act, i, j, st);
      assert Closer(good, left, i, st, j, next);
    }
    n, to := FinitelyOften(good, left, happens, 0, stage, left(0, stage));
    forall i: nat | i >= n ensures !Delivers(path(i), act(i)) { assert !happens(i); }
  }

  lemma AfterDelivery(w: World, k: Known, path: nat -> System, act: nat -> Step, i: nat, j: nat, stage: Stage)
      returns (next: Stage)
    requires GoodConfig(w.server) && k == KnownOf(w) && Path(w, path, act) && Inv(k, path(i), stage)
    requires j >= i && Delivers(path(j), act(j))
    ensures Inv(k, path(j + 1), next) && Nearer(Left(next, path(j + 1)), Left(stage, path(i)))
  {
    var at := Along(w, k, path, act, i, j, stage);
    assert Follows(w, path, act, j);
    next := DeliveryDecreases(w, k, path(j), at, act(j));
    NearerStill(Left(next, path(j + 1)), Left(at, path(j)), Left(stage, path(i)));
  }

  // One moment of a link: a message that is read comes off the front and is none of
  // the negotiation; messages join at the end.
  predicate Moment(q: nat -> seq<Msg>, read: nat -> bool, i: nat) {
    if read(i) then q(i) != [] && !IsProto(q(i)[0]) && q(i)[1..] <= q(i + 1) else q(i) <= q(i + 1)
  }

  ghost predicate ReadLater(q: nat -> seq<Msg>, read: nat -> bool, i: nat) {
    q(i) != [] ==> exists j: nat :: j >= i && read(j)
  }

  // A link from n on, on which whatever waits is read some day.
  ghost predicate Link(q: nat -> seq<Msg>, read: nat -> bool, n: nat) {
    forall i: nat :: i >= n ==> Moment(q, read, i) && ReadLater(q, read, i)
  }

  lemma ShiftAt(now: seq<Msg>, later: seq<Msg>, p: nat)
    requires 0 < p < |now| && now[1..] <= later
    ensures p - 1 < |later| && later[p - 1] == now[p]
  {
    assert later[p - 1] == now[1..][p - 1];
  }

  // On such a link no message of the negotiation waits: it would come to the front.
  lemma {:induction false} NoneWaits(q: nat -> seq<Msg>, read: nat -> bool, n: nat, m: nat, p: nat, j: nat)
    requires Link(q, read, n) && n <= m <= j && read(j) && p < |q(m)|
    ensures !IsProto(q(m)[p])
    decreases p, j - m
  {
    assert Moment(q, read, m);
    if read(m) {
      if p > 0 {
        ShiftAt(q(m), q(m + 1), p);
        assert ReadLater(q, read, m + 1);
        var j': nat :| j' >= m + 1 && read(j');
        NoneWaits(q, read, n, m + 1, p - 1, j');
      }
    } else {
      assert q(m + 1)[p] == q(m)[p];
      NoneWaits(q, read, n, m + 1, p, j);
    }
  }

  lemma LinkIsEmpty(q: nat -> seq<Msg>, read: nat -> bool, n: nat)
    requires Link(q, read, n)
    ensures Proto(q(n)) == []
  {
    assert ReadLater(q, read, n);
    forall p | 0 <= p < |q(n)| ensures !IsProto(q(n)[p]) {
      var j: nat :| j >= n && read(j);
      NoneWaits(q, read, n, n, p, j);
    }
    ProtoNone(q(n));
  }

  lemma UpStep(w: World, y: System, step: Step)
    requires Enabled(w, y, step) && !Delivers(y, step)
    ensures step.ServerReads? ==> y.up != [] && !IsProto(y.up[0]) && Apply(w, y, step).up == y.up[1..]
    ensures !step.ServerReads? ==> y.up <= Apply(w, y, step).up
  {
  }

  lemma DownStep(w: World, y: System, step: Step)
    requires Enabled(w, y, step) && !Delivers(y, step)
    ensures step.ClientReads? ==> y.down != [] && !IsProto(y.down[0]) && Apply(w, y, step).down == y.down[1..]
    ensures !step.ClientReads? ==> y.down <= Apply(w, y, step).down
    ensures Apply(w, y, step).crashed == y.crashed
  {
    if step.ClientReads? { ClientReadsOther(w.client, y.client, y.down[0], step.respond); }
  }

  lemma UpIsEmpty(w: World, path: nat -> System, act: nat -> Step, n: nat)
    requires Path(w, path, act) && Fair(path, act) && Silent(path, act, n)
    ensures Proto(path(n).up) == []
  {
    var q := (i: nat) => path(i).up;
    var read := (i: nat) => act(i).ServerReads?;
    forall i: nat | i >= n ensures Moment(q, read, i) && ReadLater(q, read, i) {
      assert Follows(w, path, act, i);
      UpStep(w, path(i), act(i));
      if path(i).up != [] {
        assert ServerReadsLater(act, i);
        var j: nat :| j >= i && act(j).ServerReads?;
        assert read(j);
      }
    }
    LinkIsEmpty(q, read, n);
  }

  lemma {:induction false} StaysUp(w: World, path: nat -> System, act: nat -> Step, n: nat, i: nat)
    requires Path(w, path, act) && Silent(path, act, n) && !path(n).crashed && i >= n
    ensures !path(i).crashed
    decreases i
  {
    if i > n {
      StaysUp(w, path, act, n, i - 1);
      assert Follows(w, path, act, i - 1);
      DownStep(w, path(i - 1), act(i - 1));
    }
  }

  lemma DownIsEmpty(w: World, path: nat -> System, act: nat -> Step, n: nat)
    requires Path(w, path, act) && Fair(path, act) && Silent(path, act, n) && !path(n).crashed
    ensures Proto(path(n).down) == []
  {
    var q := (i: nat) => path(i).down;
    var read := (i: nat) => act(i).ClientReads?;
    forall i: nat | i >= n ensures Moment(q, read, i) && ReadLater(q, read, i) {
      assert Follows(w, path, act, i);
      DownStep(w, path(i), act(i));
      StaysUp(w, path, act, n, i);
      if path(i).down != [] {
        assert ClientReadsLater(act, i);
        var j: nat :| j >= i && act(j).ClientReads?;
        assert read(j);
      }
    }
    LinkIsEmpty(q, read, n);
  }

  // The negotiation is over: the client is done and the server no longer waits, or
  // the client has panicked.
  predicate Over(y: System) {
    y.crashed || (y.client.phase == Done && y.session.state != CapNeg)
  }

  lemma EmptyIsOver(k: Known, y: System, stage: Stage)
    requires Inv(k, y, stage) && Proto(y.up) == [] && (y.crashed || Proto(y.down) == [])
    ensures Rank(stage) <= 1
  {
  }

  lemma LowIsOver(k: Known, y: System, stage: Stage)
    requires Inv(k, y, stage) && Rank(stage) <= 1
    ensures Over(y) && (y.crashed <==> k.want.None?)
  {
  }

  // In every infinite run in which both sides keep reading, the negotiation is over
  // from some point on.
  lemma FairRunEnds(w: World, path: nat -> System, act: nat -> Step) returns (n: nat)
    requires GoodConfig(w.server) && Path(w, path, act) && Fair(path, act) && path(0) == Start(w)
    ensures forall i: nat :: i >= n ==> Over(path(i)) && (path(i).crashed <==> Panics(w))
  {
    var k := KnownOf(w);
    StartInv(w);
    var stage;
    n, stage := FallsSilent(w, k, path, act, Asking);
    UpIsEmpty(w, path, act, n);
    if !path(n).crashed { DownIsEmpty(w, path, act, n); }
    EmptyIsOver(k, path(n), stage);
    PanicsIff(w);
    forall i: nat | i >= n ensures Over(path(i)) && (path(i).crashed <==> Panics(w)) {
      var at := Along(w, k, path, act, n, i, stage);
      LowIsOver(k, path(i), at);
    }
  }

  // ---------------------------------------------------------------------
  // The panic
  // ---------------------------------------------------------------------

  lemma {:induction false} Listed(keys: set<string>) returns (names: seq<string>)
    ensures forall n :: n in names <==> n in keys
    decreases keys
  {
    if keys == {} {
      names := [];
    } else {
      var x :| x in keys;
      var rest := Listed(keys - {x});
      names := [x] + rest;
    }
  }

  lemma RunFirst(w: World, y: System, step: Step, rest: seq<Step>)
    requires Enabled(w, y, step) && IsRun(w, Apply(w, y, step), rest)
    ensures IsRun(w, y, [step] + rest) && After(w, y, [step] + rest) == After(w, Apply(w, y, step), rest)
  {
    assert ([step] + rest)[1..] == rest;
  }

  // Reading the list lines to the end, with nothing else on the way.
  lemma {:induction false} ReadsToPanic(w: World, k: Known, y: System, respond: Mechanism) returns (steps: seq<Step>)
    requires GoodConfig(w.server) && k == KnownOf(w) && k.want == None
    requires Inv(k, y, Listing) && Proto(y.down) == y.down
    ensures IsRun(w, y, steps) && After(w, y, steps).crashed
    decreases |y.down|
  {
    var step := ClientReads(respond);
    ProtoHead(y.down);
    ListResult(w, k, y.client, y.session, Proto(y.up), y.down, respond);
    var y1 := Apply(w, y, step);
    if |y.down| > 1 {
      ListedMore(k, y.client, y.session, Proto(y.up), y.down);
      ClientJoin(w, k, y, Listing, Listing, respond);
      var rest := ReadsToPanic(w, k, y1, respond);
      steps := [step] + rest;
      RunFirst(w, y, step, rest);
    } else {
      steps := [step];
      assert [step][1..] == [];
    }
  }

  // In every configuration in which the client can panic there is a run, of nothing
  // but deliveries, in which it does.
  lemma PanicRun(w: World, respond: Mechanism, env0: Env) returns (steps: seq<Step>)
    requires GoodConfig(w.server) && Panics(w)
    ensures IsRun(w, Start(w), steps) && After(w, Start(w), steps).crashed
  {
    var k := KnownOf(w);
    PanicsIff(w);
    StartInv(w);
    var names := Listed(TableOf(w).Keys);
    var env := env0.(names := names);
    var y := Start(w);
    FirstMessage("302");
    SubNames();
    AskingResult(w, env);
    var step := ServerReads(env);
    var out := Serve(w.server, y.session, y.up[0], env).1;
    var to := ServerDelivery(w, k, y, Asking, env);
    SupportedClean(w.server, 302);
    ReplyCompletes(LISTED, names, k.table);
    ProtoAll(out);
    NothingLeft(out);
    ServerStepListing(w, k, env);
    var rest := ReadsToPanic(w, k, Apply(w, y, step), respond);
    steps := [step] + rest;
    RunFirst(w, y, step, rest);
  }

  // A client that asks for sasl by name and has no mechanism, and a server with
  // accounts on a secure connection.
  const SASL_BY_NAME := World(Config("n", "u", "r", "", None, [SASL], false), ServerConfig(true, true, None))

  lemma PanicExample(respond: Mechanism, env: Env) returns (steps: seq<Step>)
    ensures IsRun(SASL_BY_NAME, Start(SASL_BY_NAME), steps)
    ensures After(SASL_BY_NAME, Start(SASL_BY_NAME), steps).crashed
  {
    steps := PanicRun(SASL_BY_NAME, respond, env);
  }

  lemma ServerStepListing(w: World, k: Known, env: Env)
    requires GoodConfig(w.server) && k == KnownOf(w) && EnvOk(w.server, NEW_SESSION, LIST_MSG, env)
    ensures Inv(k, AfterServer(w, Start(w), env), Listing)
  {
    var y := Start(w);
    StartInv(w);
    ServerInAsking(w, k, y.client, y.session, Proto(y.up), Proto(y.down), env);
    var out := Serve(w.server, y.session, LIST_MSG, env).1;
    ProtoAppend(y.down, out);
    ProtoHead(y.up);
    Assemble(k, AfterServer(w, y, env), Listing, Proto(y.up[1..]), Proto(y.down) + Proto(out));
  }

  // And every fair run of such a configuration panics.
  lemma PanicReached(w: World, path: nat -> System, act: nat -> Step) returns (n: nat)
    requires GoodConfig(w.server) && Panics(w) && Path(w, path, act) && Fair(path, act) && path(0) == Start(w)
    ensures path(n).crashed
  {
    n := FairRunEnds(w, path, act);
    assert path(n).crashed;
  }
}
