/**
 SASL over AUTHENTICATE: the client cuts its base64 text into chunks of 400
 characters, closing an exact multiple with "+"; the server collects them up to
 4096 characters. Base64 itself, the account table and the password hash are
 parameters.

 Main results
   ReassembledIff   exactly which payloads arrive whole, on the last chunk
   TooLongRejected  a longer payload is refused before it is complete
   FramedAlways     what the buffer can hold after any sequence of messages
   PlainFieldsIff   exactly which PLAIN credentials the server reads back
 */
module Sasl {
  import opened Text

  const CHUNK := 400
  const MAX_PAYLOAD := 4096

  // ---------------------------------------------------------------------
  // Client
  // ---------------------------------------------------------------------

  // The chunks the client sends for an encoded response.
  function Chunks(encoded: string): (r: seq<string>)
    ensures |r| >= 1
    ensures forall i :: 0 <= i < |r| - 1 ==> |r[i]| == CHUNK
    ensures |r[|r| - 1]| < CHUNK
    decreases |encoded|
  {
    if |encoded| >= CHUNK then [encoded[..CHUNK]] + Chunks(encoded[CHUNK..])
    else if encoded != "" then [encoded]
    else ["+"]
  }

  // What is left after the full chunks.
  function Remainder(encoded: string): (r: string)
    ensures |r| == |encoded| % CHUNK
    decreases |encoded|
  {
    if |encoded| >= CHUNK then Remainder(encoded[CHUNK..]) else encoded
  }

  lemma ChunksStep(text: string)
    requires |text| >= CHUNK
    ensures Chunks(text) == [text[..CHUNK]] + Chunks(text[CHUNK..])
  {
  }

  lemma ChunksLast(text: string)
    requires |text| < CHUNK
    ensures Chunks(text) == [if text != "" then text else "+"]
  {
  }

  method SendChunks(text: string) returns (sent: seq<string>)
    ensures sent == Chunks(text)
  {
    sent := [];
    if text == "" { return ["+"]; }
    var encoded := text;
    ghost var all, left := Chunks(text), Chunks(text);
    NothingLeft(all);
    while |encoded| >= CHUNK
      invariant sent + left == all && left == Chunks(encoded)
      decreases |encoded|
    {
      ChunksStep(encoded);
      Moved(sent, encoded[..CHUNK], Chunks(encoded[CHUNK..]), left, all);
      sent := sent + [encoded[..CHUNK]];
      encoded := encoded[CHUNK..];
      left := Chunks(encoded);
    }
    ChunksLast(encoded);
    sent := sent + if encoded != "" then [encoded] else ["+"];
  }

  // ---------------------------------------------------------------------
  // Server: framing
  // ---------------------------------------------------------------------

  datatype Verdict = More(buffer: string) | Complete(payload: string) | TooLong | Aborted

  // One chunk of an active exchange.
  function Feed(buffer: string, chunk: string): Verdict {
    if chunk == "*" then Aborted
    else if |chunk| > CHUNK || |buffer| + |chunk| > MAX_PAYLOAD then TooLong
    else
      var collected := if chunk == "+" then buffer else buffer + chunk;
      if |chunk| == CHUNK then More(collected) else Complete(collected)
  }

  // The exchange over a sequence of chunks, and the chunks left when it ended.
  datatype Delivery = Delivery(verdict: Verdict, unread: seq<string>)

  function Deliver(buffer: string, chunks: seq<string>): Delivery
    decreases chunks
  {
    if chunks == [] then Delivery(More(buffer), [])
    else match Feed(buffer, chunks[0])
         case More(b) => Deliver(b, chunks[1..])
         case v => Delivery(v, chunks[1..])
  }

  lemma RemainderMod4(encoded: string)
    requires |encoded| % 4 == 0
    ensures |Remainder(encoded)| % 4 == 0
    decreases |encoded|
  {
    if |encoded| >= CHUNK { RemainderMod4(encoded[CHUNK..]); }
  }

  // How an exchange that holds whole chunks ends when this text follows.
  function Expected(buffer: string, encoded: string): Verdict {
    var tail := Remainder(encoded);
    if |buffer| + |encoded| > MAX_PAYLOAD then TooLong
    else if tail == "*" then Aborted
    else if tail == "+" then Complete((buffer + encoded)[..|buffer + encoded| - 1])
    else Complete(buffer + encoded)
  }

  lemma ExpectedStep(buffer: string, encoded: string)
    requires |encoded| >= CHUNK
    ensures Expected(buffer + encoded[..CHUNK], encoded[CHUNK..]) == Expected(buffer, encoded)
  {
    assert (buffer + encoded[..CHUNK]) + encoded[CHUNK..] == buffer + encoded;
  }

  lemma DeliverFull(buffer: string, encoded: string)
    requires |encoded| >= CHUNK && |buffer| + CHUNK <= MAX_PAYLOAD
    ensures Deliver(buffer, Chunks(encoded)) == Deliver(buffer + encoded[..CHUNK], Chunks(encoded[CHUNK..]))
  {
    var head := encoded[..CHUNK];
    assert Chunks(encoded)[1..] == Chunks(encoded[CHUNK..]) && Chunks(encoded)[0] == head;
    assert |head| == CHUNK && head != "*" && head != "+";
    assert Feed(buffer, head) == More(buffer + head);
  }

  lemma {:induction false} DeliverChunks(buffer: string, encoded: string)
    requires |buffer| % CHUNK == 0 && |buffer| <= MAX_PAYLOAD
    ensures var d := Deliver(buffer, Chunks(encoded));
            d.verdict == Expected(buffer, encoded) && (d.verdict != TooLong ==> d.unread == [])
    decreases |encoded|
  {
    if |encoded| < CHUNK {
      LastChunk(buffer, encoded);
    } else if |buffer| + CHUNK <= MAX_PAYLOAD {
      DeliverFull(buffer, encoded);
      DeliverChunks(buffer + encoded[..CHUNK], encoded[CHUNK..]);
      ExpectedStep(buffer, encoded);
    } else {
      assert |Chunks(encoded)[0]| == CHUNK && Chunks(encoded)[0] != "*";
    }
  }

  lemma LastChunk(buffer: string, encoded: string)
    requires |encoded| < CHUNK && |buffer| % CHUNK == 0 && |buffer| <= MAX_PAYLOAD
    ensures var d := Deliver(buffer, Chunks(encoded));
            d.verdict == Expected(buffer, encoded) && (d.verdict != TooLong ==> d.unread == [])
  {
    var c := if encoded == "" then "+" else encoded;
    assert Chunks(encoded) == [c] && [c][1..] == [];
    assert buffer + "" == buffer;
    if encoded == "+" { assert (buffer + encoded)[..|buffer|] == buffer; }
  }

  // A payload arrives whole, completing the exchange exactly with its last
  // chunk, if and only if it fits and its last chunk is not one of the two
  // texts with a meaning of their own.
  lemma ReassembledIff(encoded: string)
    ensures Deliver("", Chunks(encoded)) == Delivery(Complete(encoded), []) <==>
            |encoded| <= MAX_PAYLOAD && Remainder(encoded) != "+" && Remainder(encoded) != "*"
  {
    DeliverChunks("", encoded);
    assert "" + encoded == encoded;
  }

  // Base64 text, whose length is a multiple of four, is never mistaken.
  lemma Base64Reassembled(encoded: string)
    requires |encoded| % 4 == 0 && |encoded| <= MAX_PAYLOAD
    ensures Deliver("", Chunks(encoded)) == Delivery(Complete(encoded), [])
  {
    RemainderMod4(encoded);
    ReassembledIff(encoded);
  }

  lemma TooLongRejected(encoded: string)
    requires |encoded| > MAX_PAYLOAD
    ensures Deliver("", Chunks(encoded)).verdict == TooLong
  {
    DeliverChunks("", encoded);
  }

  // ---------------------------------------------------------------------
  // Server: PLAIN credentials
  // ---------------------------------------------------------------------

  const NUL: char := '\0'

  // The user name and password in a PLAIN message (section 2 of RFC 4616).
  function PlainFields(payload: string): Option<(string, string)> {
    CheckFields(Split(payload, NUL))
  }

  function CheckFields(f: seq<string>): Option<(string, string)> {
    if |f| != 3 || f[1] == "" || f[2] == "" || (f[0] != "" && !EqualFold(f[0], f[1])) then None
    else Some((f[1], f[2]))
  }

  function PlainPayload(authz: string, user: string, password: string): string {
    authz + [NUL] + user + [NUL] + password
  }

  lemma PlainSplit(authz: string, user: string, password: string)
    ensures Split(PlainPayload(authz, user, password), NUL) ==
            Split(authz, NUL) + Split(user, NUL) + Split(password, NUL)
  {
    SplitAppend(authz + [NUL] + user, NUL, password);
    SplitAppend(authz, NUL, user);
  }

  lemma SplitSingle(s: string, c: char)
    ensures if c in s then |Split(s, c)| > 1 else Split(s, c) == [s]
  {
    if c in s { SplitAt(s, c, IndexOf(s, c)); } else { SplitWhole(s, c); }
  }

  predicate PlainOk(authz: string, user: string, password: string) {
    && NUL !in authz && NUL !in user && NUL !in password && user != "" && password != ""
    && (authz == "" || EqualFold(authz, user))
  }

  // The server reads back what the client meant exactly for these credentials, and
  // reads nothing from any others.
  lemma PlainFieldsIff(authz: string, user: string, password: string)
    ensures PlainFields(PlainPayload(authz, user, password)) == Some((user, password)) <==>
            PlainOk(authz, user, password)
    ensures PlainFields(PlainPayload(authz, user, password)) == None <==> !PlainOk(authz, user, password)
  {
    PlainSplit(authz, user, password);
    SplitSingle(authz, NUL);
    SplitSingle(user, NUL);
    SplitSingle(password, NUL);
    if NUL !in authz && NUL !in user && NUL !in password {
      assert [authz] + [user] + [password] == [authz, user, password];
    }
  }

  // ---------------------------------------------------------------------
  // Server: the exchange
  // ---------------------------------------------------------------------

  datatype Exchange = Exchange(active: bool, buffer: string, account: string)

  datatype Reply = Challenge | Numeric(code: nat)

  // What stands for base64, the account table and the password check: the
  // account that an encoded payload authenticates, if any.
  type Login = string -> Option<string>

  function Failed(x: Exchange, code: nat): (Exchange, seq<Reply>) {
    (x.(active := false, buffer := ""), [Numeric(code)])
  }

  function Finish(x: Exchange, payload: string, login: Login): (Exchange, seq<Reply>) {
    var idle := x.(active := false, buffer := "");
    match login(payload)
    case None => (idle, [Numeric(904)])
    case Some(account) => (idle.(account := account), [Numeric(900), Numeric(903)])
  }

  // One AUTHENTICATE message.
  function Authenticate(x: Exchange, enabled: bool, params: seq<string>, login: Login): (Exchange, seq<Reply>) {
    if !enabled || params == [] then Failed(x, 904)
    else if !x.active then
      if x.account != "" then (x, [Numeric(907)])
      else if !EqualFold(params[0], "PLAIN") then
        var (x1, r) := Failed(x, 904); (x1, [Numeric(908)] + r)
      else (x.(active := true, buffer := ""), [Challenge])
    else match Feed(x.buffer, params[0])
         case Aborted => Failed(x, 906)
         case TooLong => Failed(x, 905)
         case More(b) => (x.(buffer := b), [])
         case Complete(payload) => Finish(x, payload, login)
  }

  // CAP END gives up an exchange that is under way.
  function AbortExchange(x: Exchange): (Exchange, seq<Reply>) {
    if x.active then Failed(x, 906) else (x, [])
  }

  predicate Fails(replies: seq<Reply>) {
    Numeric(904) in replies || Numeric(905) in replies || Numeric(906) in replies
  }

  // What the replies to one message say of the exchange: success is told exactly when
  // an account is set, together with who is logged in; failure exactly when it ends
  // without one; silence exactly while it goes on; a challenge exactly when it begins.
  lemma RepliesMeaning(x: Exchange, enabled: bool, params: seq<string>, login: Login)
    ensures var (x1, replies) := Authenticate(x, enabled, params, login);
            && (Numeric(903) in replies ==> x.active && !x1.active && exists p :: login(p) == Some(x1.account))
            && (Numeric(903) !in replies ==> x1.account == x.account)
            && (Numeric(900) in replies <==> Numeric(903) in replies)
            && (Fails(replies) ==> !x1.active && x1.account == x.account && Numeric(903) !in replies)
            && (x.active && !x1.active ==> Fails(replies) || Numeric(903) in replies)
            && (replies == [] <==> x.active && x1.active)
            && (Challenge in replies <==> !x.active && x1.active)
            && (Numeric(908) in replies <==>
                  enabled && params != [] && !x.active && x.account == "" && !EqualFold(params[0], "PLAIN"))
            && (Numeric(907) in replies <==> enabled && params != [] && !x.active && x.account != "")
  {
  }

  // Giving up an exchange under way is told as an abort; there is nothing to give up
  // otherwise. The account stays.
  lemma AbortMeaning(x: Exchange)
    ensures var (x1, replies) := AbortExchange(x);
            && !x1.active && x1.account == x.account && (x.active ==> x1.buffer == "")
            && (if x.active then replies == [Numeric(906)] else replies == [] && x1 == x)
  {
  }

  // An exchange at rest has nothing buffered; one under way has whole chunks
  // and room for no more than the limit.
  predicate Framed(x: Exchange) {
    if x.active then |x.buffer| % CHUNK == 0 && |x.buffer| <= MAX_PAYLOAD else x.buffer == ""
  }

  datatype Event = Message(enabled: bool, params: seq<string>) | End

  function Exchanged(x: Exchange, events: seq<Event>, login: Login): Exchange
    decreases events
  {
    if events == [] then x
    else match events[0]
         case Message(enabled, params) => Exchanged(Authenticate(x, enabled, params, login).0, events[1..], login)
         case End => Exchanged(AbortExchange(x).0, events[1..], login)
  }

  lemma FramedKept(x: Exchange, enabled: bool, params: seq<string>, login: Login)
    requires Framed(x)
    ensures Framed(Authenticate(x, enabled, params, login).0)
  {
  }

  lemma {:induction false} FramedAlways(x: Exchange, events: seq<Event>, login: Login)
    requires Framed(x)
    ensures Framed(Exchanged(x, events, login))
    decreases events
  {
    if events != [] {
      match events[0] {
        case Message(enabled, params) =>
          FramedKept(x, enabled, params, login);
          FramedAlways(Authenticate(x, enabled, params, login).0, events[1..], login);
        case End =>
          FramedAlways(AbortExchange(x).0, events[1..], login);
      }
    }
  }

  // ---------------------------------------------------------------------
  // The client's chunks through the server's exchange
  // ---------------------------------------------------------------------

  function Messages(chunks: seq<string>): seq<Event> {
    if chunks == [] then [] else [Message(true, [chunks[0]])] + Messages(chunks[1..])
  }

  // No chunk is as long as the name of the mechanism.
  predicate NoneNamesPlain(chunks: seq<string>) {
    forall i :: 0 <= i < |chunks| ==> |chunks[i]| != 5
  }

  lemma NoneMore(x: string, chunks: seq<string>)
    requires |x| == CHUNK && NoneNamesPlain(chunks)
    ensures NoneNamesPlain([x] + chunks)
  {
  }

  lemma {:induction false} ChunksNotPlain(encoded: string)
    requires |encoded| % 4 == 0
    ensures NoneNamesPlain(Chunks(encoded))
    decreases |encoded|
  {
    if |encoded| >= CHUNK {
      ChunksNotPlain(encoded[CHUNK..]);
      ChunksStep(encoded);
      NoneMore(encoded[..CHUNK], Chunks(encoded[CHUNK..]));
    } else {
      ChunksLast(encoded);
    }
  }

  lemma {:induction false} IdleStays(x: Exchange, chunks: seq<string>, login: Login)
    requires !x.active && x.buffer == "" && NoneNamesPlain(chunks)
    ensures Exchanged(x, Messages(chunks), login) == x
    decreases chunks
  {
    if chunks != [] {
      assert !EqualFold(chunks[0], "PLAIN");
      assert Authenticate(x, true, [chunks[0]], login).0 == x;
      assert Messages(chunks)[1..] == Messages(chunks[1..]);
      IdleStays(x, chunks[1..], login);
    }
  }

  // Where the server's exchange ends when it is sent these chunks.
  lemma {:induction false} ExchangeFollows(buffer: string, chunks: seq<string>, login: Login)
    requires NoneNamesPlain(chunks)
    ensures var x := Exchange(true, buffer, "");
            Exchanged(x, Messages(chunks), login) ==
            match Deliver(buffer, chunks).verdict
            case More(b) => x.(buffer := b)
            case Complete(payload) => Finish(x, payload, login).0
            case _ => Exchange(false, "", "")
    decreases chunks
  {
    var x := Exchange(true, buffer, "");
    if chunks != [] {
      assert Messages(chunks)[0] == Message(true, [chunks[0]]) && Messages(chunks)[1..] == Messages(chunks[1..]);
      match Feed(buffer, chunks[0]) {
        case More(b) => ExchangeFollows(b, chunks[1..], login);
        case Complete(payload) => IdleStays(Finish(x, payload, login).0, chunks[1..], login);
        case _ => IdleStays(Exchange(false, "", ""), chunks[1..], login);
      }
    }
  }

  // A client's base64 response decides the login by exactly that text when it
  // fits; a longer one never logs anyone in, whatever its chunks contain.
  lemma ResponseDecidesLogin(encoded: string, login: Login)
    requires |encoded| % 4 == 0
    ensures Exchanged(Exchange(true, "", ""), Messages(Chunks(encoded)), login) ==
            if |encoded| <= MAX_PAYLOAD then Finish(Exchange(true, "", ""), encoded, login).0
            else Exchange(false, "", "")
  {
    ChunksNotPlain(encoded);
    ExchangeFollows("", Chunks(encoded), login);
    if |encoded| <= MAX_PAYLOAD { Base64Reassembled(encoded); } else { TooLongRejected(encoded); }
  }

  // Everything replied to a sequence of messages.
  function Replied(x: Exchange, events: seq<Event>, login: Login): seq<Reply>
    decreases events
  {
    if events == [] then []
    else
      var (x1, replies) := match events[0]
                           case Message(enabled, params) => Authenticate(x, enabled, params, login)
                           case End => AbortExchange(x);
      replies + Replied(x1, events[1..], login)
  }

  lemma RepliedFirst(x: Exchange, chunk: string, rest: seq<string>, login: Login)
    ensures var (x1, replies) := Authenticate(x, true, [chunk], login);
            Replied(x, Messages([chunk] + rest), login) == replies + Replied(x1, Messages(rest), login)
  {
    var ms := Messages([chunk] + rest);
    assert ([chunk] + rest)[1..] == rest;
    assert ms[0] == Message(true, [chunk]) && ms[1..] == Messages(rest);
  }

  // The replies to these chunks: none until they end the exchange, then what that
  // calls for, then whatever the rest provokes.
  lemma {:induction false} RepliesFollow(buffer: string, chunks: seq<string>, login: Login)
    ensures var x, d := Exchange(true, buffer, ""), Deliver(buffer, chunks);
            Replied(x, Messages(chunks), login) ==
            match d.verdict
            case More(_) => []
            case Complete(payload) =>
              Finish(x, payload, login).1 + Replied(Finish(x, payload, login).0, Messages(d.unread), login)
            case TooLong => [Numeric(905)] + Replied(Exchange(false, "", ""), Messages(d.unread), login)
            case Aborted => [Numeric(906)] + Replied(Exchange(false, "", ""), Messages(d.unread), login)
    decreases chunks
  {
    if chunks != [] {
      var x, rest := Exchange(true, buffer, ""), chunks[1..];
      assert chunks == [chunks[0]] + rest;
      RepliedFirst(x, chunks[0], rest, login);
      match Feed(buffer, chunks[0]) {
        case More(b) =>
          RepliesFollow(b, rest, login);
          NothingLeft(Replied(Exchange(true, b, ""), Messages(rest), login));
        case _ =>
      }
    }
  }

  // A client's base64 response that fits is answered once, by success or by failure;
  // a longer one is first of all told that it is too long.
  lemma ResponseReplies(encoded: string, login: Login)
    requires |encoded| % 4 == 0
    ensures var replies := Replied(Exchange(true, "", ""), Messages(Chunks(encoded)), login);
            if |encoded| <= MAX_PAYLOAD
            then replies == if login(encoded).Some? then [Numeric(900), Numeric(903)] else [Numeric(904)]
            else replies != [] && replies[0] == Numeric(905)
  {
    RepliesFollow("", Chunks(encoded), login);
    if |encoded| <= MAX_PAYLOAD {
      Base64Reassembled(encoded);
      assert Messages([]) == [];
    } else {
      TooLongRejected(encoded);
    }
  }

  // ---------------------------------------------------------------------
  // Who logs in
  // ---------------------------------------------------------------------

  datatype Account = Account(name: string, hash: string)

  // The server's side of a login: strict base64 decoding, the accounts by lower-case
  // name, and the password check.
  datatype Realm = Realm(decode: string -> Option<string>, accounts: map<string, Account>, check: (string, string) -> bool)

  function LoginAs(r: Realm, user: string, password: string): Option<string> {
    if Lower(user) in r.accounts && r.check(r.accounts[Lower(user)].hash, password)
    then Some(r.accounts[Lower(user)].name) else None
  }

  function LoginOf(r: Realm): Login {
    (encoded: string) =>
      match r.decode(encoded)
      case None => None
      case Some(payload) =>
        match PlainFields(payload)
        case None => None
        case Some(fields) => LoginAs(r, fields.0, fields.1)
  }

  // A client that sends these credentials, as base64 that the server's decoder
  // undoes, ends up logged in exactly when the encoding fits, the credentials are
  // ones PLAIN can carry, and the named account's password check accepts them; and
  // then as that account.
  lemma CredentialsLogIn(r: Realm, encoded: string, authz: string, user: string, password: string)
    requires r.decode(encoded) == Some(PlainPayload(authz, user, password)) && |encoded| % 4 == 0
    ensures Exchanged(Exchange(true, "", ""), Messages(Chunks(encoded)), LoginOf(r)) ==
            Exchange(false, "",
                     if |encoded| <= MAX_PAYLOAD && PlainOk(authz, user, password) && LoginAs(r, user, password).Some?
                     then LoginAs(r, user, password).value else "")
  {
    ResponseDecidesLogin(encoded, LoginOf(r));
    PlainFieldsIff(authz, user, password);
  }
}
