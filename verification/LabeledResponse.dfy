/**
 Labelled responses: what a session sends when a command carries a label. While
 the command runs, messages to the session are captured; at the end they go out
 as one answer marked with the label.

 The batch identifier, the clock and the accounts of message sources are inputs.

 Main results
   LabelOnce        the label is on exactly one message, right behind the
                    immediate messages
   StripIff         removing the wrapper gives back the immediate messages and
                    then the captured ones, exactly under a stated condition
   HistoryOneBatch  an answer that is a history batch stays one labelled batch
   Session.DispatchCommand  what a whole command sends, with password checks in
                    the middle of it
 */
module LabeledResponse {
  import opened Text
  import opened IrcMessage

  const LABEL := "label"
  const BATCH_TAG := "batch"
  const BATCH := "BATCH"
  const ACK := "ACK"
  const TAGMSG := "TAGMSG"
  const QUIT := "QUIT"
  const CAP_TIME := "server-time"
  const CAP_TAGS := "message-tags"
  const CAP_BATCH := "batch"
  const CAP_LABEL := "labeled-response"
  const CAP_ACCOUNT := "account-tag"
  const CAP_HISTORY := "draft/chathistory"
  const HISTORY_END := "draft/chathistory-end"

  // ---------------------------------------------------------------------
  // One message on its way to a session
  // ---------------------------------------------------------------------

  // What a send depends on: the receiver's capabilities, the clock, and the
  // account of the message's source ("" when there is none).
  datatype Context = Context(caps: set<string>, now: string, account: string)

  function CapFor(tag: string): string {
    if tag == "time" then CAP_TIME
    else if tag == BATCH_TAG then CAP_BATCH
    else if tag == "account" then CAP_ACCOUNT
    else if tag == LABEL then CAP_LABEL
    else if tag == HISTORY_END then CAP_HISTORY
    else CAP_TAGS
  }

  predicate Withheld(m: Message, c: Context) {
    m.command == TAGMSG && CAP_TAGS !in c.caps
  }

  function Stamped(m: Message, c: Context): Tags {
    if CAP_TIME in c.caps && "time" !in m.tags then m.tags["time" := c.now] else m.tags
  }

  function Attributed(m: Message, c: Context): Tags {
    var tags := Stamped(m, c);
    if CAP_ACCOUNT in c.caps && m.prefix.Some? && m.prefix.value.user != "" && c.account != "" && "account" !in tags
    then tags["account" := c.account] else tags
  }

  // The message with the tags this receiver gets.
  function Dress(m: Message, c: Context): Message {
    if m.tags == map[] && CAP_TIME !in c.caps && CAP_ACCOUNT !in c.caps then m
    else m.(tags := map k | k in Attributed(m, c) && CapFor(k) in c.caps :: Attributed(m, c)[k])
  }

  // A tag other than time and account is kept if and only if the receiver has
  // negotiated it, and never invented.
  lemma DressTag(m: Message, c: Context, tag: string)
    requires tag != "time" && tag != "account"
    ensures tag in Dress(m, c).tags <==> tag in m.tags && CapFor(tag) in c.caps
    ensures tag in Dress(m, c).tags ==> Dress(m, c).tags[tag] == m.tags[tag]
    ensures Dress(m, c) == m.(tags := Dress(m, c).tags)
  {
  }

  // The two tags the server supplies: the time for a receiver that has negotiated it,
  // and the account of a user's message, each unless the message brings its own.
  lemma DressSupplies(m: Message, c: Context)
    ensures var tags := Dress(m, c).tags;
            && ("time" in tags <==> "server-time" in c.caps)
            && ("time" in tags ==> tags["time"] == if "time" in m.tags then m.tags["time"] else c.now)
            && ("account" in tags <==>
                  "account-tag" in c.caps
                  && ("account" in m.tags || (m.prefix.Some? && m.prefix.value.user != "" && c.account != "")))
            && ("account" in tags ==> tags["account"] == if "account" in m.tags then m.tags["account"] else c.account)
  {
    assert "time"[0] != "account"[0];
  }

  type Sending = (Message, Context)

  function Dressed(ms: seq<Sending>): seq<Message> {
    if ms == [] then []
    else (if Withheld(ms[0].0, ms[0].1) then [] else [Dress(ms[0].0, ms[0].1)]) + Dressed(ms[1..])
  }

  // A message with nothing but tags reaches exactly the receivers that have negotiated
  // tags; every other message reaches all.
  lemma ReachesIff(m: Message, c: Context)
    ensures Dressed([(m, c)]) == if m.command == "TAGMSG" && "message-tags" !in c.caps then [] else [Dress(m, c)]
  {
    assert [(m, c)][1..] == [];
  }

  lemma {:induction false} DressedSnoc(ms: seq<Sending>, m: Sending)
    ensures Dressed(ms + [m]) == Dressed(ms) + Dressed([m])
  {
    if ms == [] {
      assert ms + [m] == [m];
    } else {
      DressedSnoc(ms[1..], m);
      assert (ms + [m])[1..] == ms[1..] + [m];
    }
  }

  // ---------------------------------------------------------------------
  // The answer
  // ---------------------------------------------------------------------

  // The server's side of an answer: its name, whether the receiver gets times,
  // the clock, and the identifier drawn for a new batch.
  datatype Closing = Closing(server: string, timed: bool, now: string, batchID: string)

  function Own(c: Closing, tags: Tags, command: string, params: seq<string>): Message {
    Message(if c.timed then tags["time" := c.now] else tags, Some(Prefix(c.server, "", "")), command, params)
  }

  function Param(m: Message, i: nat): string {
    if i < |m.params| then m.params[i] else ""
  }

  predicate OpensBatch(m: Message) {
    m.command == BATCH && HasPrefix(Param(m, 0), "+")
  }

  function Tagged(m: Message, tag: string, value: string): Message {
    m.(tags := m.tags[tag := value])
  }

  function AllTagged(ms: seq<Message>, tag: string, value: string): (r: seq<Message>)
    ensures |r| == |ms|
  {
    seq(|ms|, i requires 0 <= i < |ms| => Tagged(ms[i], tag, value))
  }

  function Opener(mark: string, c: Closing): Message {
    Own(c, map[LABEL := mark], BATCH, ["+" + c.batchID, CAP_LABEL])
  }

  function Closer(c: Closing): Message {
    Own(c, map[], BATCH, ["-" + c.batchID])
  }

  function Answer(mark: string, msgs: seq<Message>, c: Closing): seq<Message> {
    if msgs == [] then [Own(c, map[LABEL := mark], ACK, [])]
    else if |msgs| == 1 || OpensBatch(msgs[0]) then [Tagged(msgs[0], LABEL, mark)] + msgs[1..]
    else [Opener(mark, c)] + AllTagged(msgs, BATCH_TAG, c.batchID) + [Closer(c)]
  }

  function Finish(mark: string, immediate: seq<Message>, msgs: seq<Message>, c: Closing): seq<Message> {
    immediate + Answer(mark, msgs, c)
  }

  predicate Unlabelled(ms: seq<Message>) {
    forall i :: 0 <= i < |ms| ==> LABEL !in ms[i].tags
  }

  // The label is on the first message behind the immediate ones and on no other.
  lemma LabelOnce(mark: string, immediate: seq<Message>, msgs: seq<Message>, c: Closing)
    requires Unlabelled(immediate) && Unlabelled(msgs)
    ensures var out := Finish(mark, immediate, msgs, c);
            && |immediate| < |out| && out[..|immediate|] == immediate
            && LABEL in out[|immediate|].tags && out[|immediate|].tags[LABEL] == mark
            && forall i :: 0 <= i < |out| ==> (LABEL in out[i].tags <==> i == |immediate|)
  {
    var out := Finish(mark, immediate, msgs, c);
    AnswerLabel(mark, msgs, c);
    assert out[|immediate|] == Answer(mark, msgs, c)[0];
  }

  lemma AnswerLabel(mark: string, msgs: seq<Message>, c: Closing)
    requires Unlabelled(msgs)
    ensures var a := Answer(mark, msgs, c);
            && a != [] && LABEL in a[0].tags && a[0].tags[LABEL] == mark
            && forall i :: 1 <= i < |a| ==> LABEL !in a[i].tags
  {
    assert LABEL != "time";
    assert LABEL != BATCH_TAG by { assert LABEL[0] != BATCH_TAG[0]; }
    if |msgs| > 1 && !OpensBatch(msgs[0]) {
      var inner := AllTagged(msgs, BATCH_TAG, c.batchID);
      assert forall i :: 0 <= i < |inner| ==> LABEL !in inner[i].tags;
    }
  }

  // A message of the server itself: its name as the source, these parameters, and of
  // tags only those given and the time for a receiver that gets times.
  ghost predicate FromServer(m: Message, c: Closing, tags: Tags, command: string, params: seq<string>) {
    && m.prefix == Some(Prefix(c.server, "", "")) && m.command == command && m.params == params
    && (forall k :: k in m.tags <==> k in tags || (k == "time" && c.timed))
    && (forall k :: k in m.tags ==> m.tags[k] == if k == "time" && c.timed then c.now else tags[k])
  }

  // The four shapes of an answer, in full: nothing captured is acknowledged; one
  // message, or a batch of its own, is sent as it is with the label on its first
  // message; anything else stands in a new batch, whose opener carries the label,
  // whose members carry its identifier, and which is closed under that identifier.
  lemma AnswerShape(mark: string, msgs: seq<Message>, c: Closing)
    ensures var a := Answer(mark, msgs, c);
            if msgs == [] then |a| == 1 && FromServer(a[0], c, map["label" := mark], "ACK", [])
            else if |msgs| == 1 || (msgs[0].command == "BATCH" && HasPrefix(Param(msgs[0], 0), "+")) then
              && |a| == |msgs| && a[0] == msgs[0].(tags := msgs[0].tags["label" := mark])
              && a[1..] == msgs[1..]
            else
              && |a| == |msgs| + 2
              && FromServer(a[0], c, map["label" := mark], "BATCH", ["+" + c.batchID, "labeled-response"])
              && (forall i :: 0 <= i < |msgs| ==> a[i + 1] == msgs[i].(tags := msgs[i].tags["batch" := c.batchID]))
              && FromServer(a[|msgs| + 1], c, map[], "BATCH", ["-" + c.batchID])
  {
    var a := Answer(mark, msgs, c);
    if |msgs| > 1 && !OpensBatch(msgs[0]) {
      var inner := AllTagged(msgs, BATCH_TAG, c.batchID);
      assert a == [Opener(mark, c)] + inner + [Closer(c)];
    } else if msgs != [] {
      assert a[1..] == msgs[1..];
    }
  }

  // --- taking an answer apart again ---

  predicate IsAck(m: Message) {
    m.command == ACK && m.params == []
  }

  predicate OpensLabelled(m: Message) {
    OpensBatch(m) && Param(m, 1) == CAP_LABEL
  }

  function Without(m: Message, tag: string): Message {
    m.(tags := m.tags - {tag})
  }

  function AllWithout(ms: seq<Message>, tag: string): (r: seq<Message>)
    ensures |r| == |ms|
  {
    seq(|ms|, i requires 0 <= i < |ms| => Without(ms[i], tag))
  }

  // What a receiver makes of an answer, going by its first message alone: an
  // acknowledgement stands for nothing, a labelled batch for what is inside it,
  // anything else for itself without the label.
  function Unwrap(a: seq<Message>): seq<Message> {
    if a == [] then []
    else if IsAck(a[0]) then a[1..]
    else if OpensLabelled(a[0]) then (if |a| < 2 then [] else AllWithout(a[1..|a| - 1], BATCH_TAG))
    else [Without(a[0], LABEL)] + a[1..]
  }

  // Removing the wrapper from what was sent.
  function Strip(out: seq<Message>, immediates: nat): seq<Message>
    requires immediates <= |out|
  {
    out[..immediates] + Unwrap(out[immediates..])
  }

  // The captured messages a receiver can tell from the wrapping: an answer sent
  // as it is must not start with a label, an acknowledgement or a labelled batch
  // of its own, and messages about to be wrapped must not belong to a batch.
  predicate Recoverable(msgs: seq<Message>) {
    if msgs == [] then true
    else if |msgs| == 1 || OpensBatch(msgs[0]) then
      LABEL !in msgs[0].tags && !IsAck(msgs[0]) && !OpensLabelled(msgs[0])
    else forall i :: 0 <= i < |msgs| ==> BATCH_TAG !in msgs[i].tags
  }

  lemma WithoutTagged(m: Message, tag: string, value: string)
    ensures Without(Tagged(m, tag, value), tag) == m <==> tag !in m.tags
  {
  }

  lemma UnwrapWrapped(mark: string, msgs: seq<Message>, c: Closing)
    requires |msgs| > 1 && !OpensBatch(msgs[0])
    ensures Unwrap(Answer(mark, msgs, c)) == AllWithout(AllTagged(msgs, BATCH_TAG, c.batchID), BATCH_TAG)
  {
    var a, inner := Answer(mark, msgs, c), AllTagged(msgs, BATCH_TAG, c.batchID);
    assert a[0] == Opener(mark, c) && a[1..|a| - 1] == inner;
    var p := "+" + c.batchID;
    assert a[0].params[0] == p && p[..1] == "+";
    assert OpensLabelled(a[0]);
    assert BATCH[0] != ACK[0];
  }

  lemma UnwrapIff(mark: string, msgs: seq<Message>, c: Closing)
    ensures Unwrap(Answer(mark, msgs, c)) == msgs <==> Recoverable(msgs)
  {
    var a := Answer(mark, msgs, c);
    if msgs == [] {
    } else if |msgs| == 1 || OpensBatch(msgs[0]) {
      WithoutTagged(msgs[0], LABEL, mark);
      assert a[1..] == msgs[1..] && msgs == [msgs[0]] + msgs[1..];
    } else {
      UnwrapWrapped(mark, msgs, c);
      forall i | 0 <= i < |msgs|
        ensures AllWithout(AllTagged(msgs, BATCH_TAG, c.batchID), BATCH_TAG)[i] == msgs[i] <==> BATCH_TAG !in msgs[i].tags
      {
        WithoutTagged(msgs[i], BATCH_TAG, c.batchID);
      }
    }
  }

  // Taking the wrapper off gives the immediate messages and then the captured
  // ones, nothing lost and nothing moved, exactly for recoverable messages.
  lemma StripIff(mark: string, immediate: seq<Message>, msgs: seq<Message>, c: Closing)
    ensures Strip(Finish(mark, immediate, msgs, c), |immediate|) == immediate + msgs <==> Recoverable(msgs)
  {
    var out, a := Finish(mark, immediate, msgs, c), Answer(mark, msgs, c);
    UnwrapIff(mark, msgs, c);
    assert out[..|immediate|] == immediate && out[|immediate|..] == a;
    assert (immediate + Unwrap(a))[|immediate|..] == Unwrap(a) && (immediate + msgs)[|immediate|..] == msgs;
  }

  // Two captured messages of which one belongs to a batch of its own: the wrapper
  // overwrites that membership. No handler sends such a pair; only a history batch
  // sets the tag, and its opener comes first.
  lemma InnerBatchLost(mark: string, m: Message, n: Message, c: Closing)
    requires BATCH_TAG in n.tags && !OpensBatch(m)
    ensures Strip(Finish(mark, [], [m, n], c), 0) != [m, n]
  {
    var ms := [m, n];
    assert ms[1] == n;
    StripIff(mark, [], ms, c);
    assert [] + ms == ms;
  }

  // ---------------------------------------------------------------------
  // A history batch
  // ---------------------------------------------------------------------

  // The messages of a history batch, before they are sent.
  function HistoryOpener(server: string, id: string, kind: string, target: string, complete: bool): Message {
    Message(if complete then map[HISTORY_END := ""] else map[], Some(Prefix(server, "", "")), BATCH,
            ["+" + id, kind] + if target != "" then [target] else [])
  }

  function HistoryCloser(server: string, id: string): Message {
    Message(map[], Some(Prefix(server, "", "")), BATCH, ["-" + id])
  }

  function With<T>(ms: seq<T>, c: Context): (r: seq<(T, Context)>)
    ensures |r| == |ms|
  {
    seq(|ms|, i requires 0 <= i < |ms| => (ms[i], c))
  }

  function HistorySends(server: string, id: string, kind: string, target: string, entries: seq<Message>,
                        complete: bool, c: Context): seq<Sending>
  {
    if CAP_BATCH !in c.caps then With(entries, c)
    else [(HistoryOpener(server, id, kind, target, complete), c)]
         + (With(AllTagged(entries, BATCH_TAG, id), c) + [(HistoryCloser(server, id), c)])
  }

  predicate InBatch(ms: seq<Message>, id: string) {
    forall i :: 0 <= i < |ms| ==> BATCH_TAG in ms[i].tags && ms[i].tags[BATCH_TAG] == id
  }

  lemma {:induction false} DressedInBatch(entries: seq<Message>, id: string, c: Context)
    requires CAP_BATCH in c.caps && Unlabelled(entries)
    ensures var r := Dressed(With(AllTagged(entries, BATCH_TAG, id), c)); InBatch(r, id) && Unlabelled(r)
  {
    assert LABEL != BATCH_TAG by { assert LABEL[0] != BATCH_TAG[0]; }
    if entries != [] {
      var m := Tagged(entries[0], BATCH_TAG, id);
      var all := With(AllTagged(entries, BATCH_TAG, id), c);
      DressedInBatch(entries[1..], id, c);
      DressTag(m, c, BATCH_TAG);
      DressTag(m, c, LABEL);
      assert all[0] == (m, c) && all[1..] == With(AllTagged(entries[1..], BATCH_TAG, id), c);
    }
  }

  lemma DressedEnds(x: Sending, mid: seq<Sending>, y: Sending)
    requires !Withheld(x.0, x.1) && !Withheld(y.0, y.1)
    ensures Dressed([x] + (mid + [y])) == [Dress(x.0, x.1)] + (Dressed(mid) + [Dress(y.0, y.1)])
  {
    assert ([x] + (mid + [y]))[1..] == mid + [y];
    DressedSnoc(mid, y);
    assert [y][1..] == [];
    assert Dressed([y]) == [Dress(y.0, y.1)];
  }

  // The tags of a message of the server that brings none but these, for a receiver: of
  // them those negotiated, and the time.
  lemma DressServer(m: Message, c: Context, tag: string)
    requires (m.prefix.Some? ==> m.prefix.value.user == "") && "time" !in m.tags && "account" !in m.tags
    ensures tag in Dress(m, c).tags <==>
            if tag == "time" then CAP_TIME in c.caps else tag in m.tags && CapFor(tag) in c.caps
    ensures tag in Dress(m, c).tags ==> Dress(m, c).tags[tag] == if tag == "time" then c.now else m.tags[tag]
    ensures Dress(m, c) == m.(tags := Dress(m, c).tags)
  {
  }

  // The opener and the closer of a history batch as the receiver gets them: the same
  // identifier, what the batch is about, and the mark of a complete answer exactly when
  // it is complete and the receiver has negotiated history.
  lemma HistoryEnds(server: string, id: string, kind: string, target: string, complete: bool, c: Context)
    ensures var o := Dress(HistoryOpener(server, id, kind, target, complete), c);
            && o.command == "BATCH" && o.prefix == Some(Prefix(server, "", ""))
            && o.params == (if target == "" then ["+" + id, kind] else ["+" + id, kind, target])
            && ("draft/chathistory-end" in o.tags <==> complete && "draft/chathistory" in c.caps)
            && (forall k :: k in o.tags ==> k == "draft/chathistory-end" || k == "time")
    ensures var z := Dress(HistoryCloser(server, id), c);
            && z.command == "BATCH" && z.prefix == Some(Prefix(server, "", "")) && z.params == ["-" + id]
            && (forall k :: k in z.tags ==> k == "time")
  {
    var o, z := HistoryOpener(server, id, kind, target, complete), HistoryCloser(server, id);
    assert HISTORY_END != "time" && HISTORY_END != "account" && HISTORY_END != BATCH_TAG && HISTORY_END != LABEL by {
      assert HISTORY_END[0] == 'd';
    }
    forall k
      ensures k in Dress(o, c).tags <==> if k == "time" then CAP_TIME in c.caps else k in o.tags && CapFor(k) in c.caps
      ensures k in Dress(z, c).tags <==> if k == "time" then CAP_TIME in c.caps else k in z.tags && CapFor(k) in c.caps
    {
      DressServer(o, c, k);
      DressServer(z, c, k);
    }
    assert ["+" + id, kind] + [target] == ["+" + id, kind, target];
  }

  // A labelled answer that consists of one history batch is that batch: its
  // opener carries the mark, every message inside belongs to it, and its closer
  // comes last. There is no second wrapper.
  lemma HistoryOneBatch(mark: string, server: string, id: string, kind: string, target: string,
                        entries: seq<Message>, complete: bool, c: Context, closing: Closing)
    requires CAP_BATCH in c.caps && Unlabelled(entries)
    ensures var sends := HistorySends(server, id, kind, target, entries, complete, c);
            var inner := Dressed(With(AllTagged(entries, BATCH_TAG, id), c));
            var out := Finish(mark, [], Dressed(sends), closing);
            && |out| == |inner| + 2 && out[1..|out| - 1] == inner
            && InBatch(inner, id) && Unlabelled(inner)
            && out[0] == Tagged(Dress(HistoryOpener(server, id, kind, target, complete), c), LABEL, mark)
            && out[|out| - 1] == Dress(HistoryCloser(server, id), c)
            && out[0].command == "BATCH" && out[0].tags["label"] == mark
            && out[0].params == (if target == "" then ["+" + id, kind] else ["+" + id, kind, target])
            && ("draft/chathistory-end" in out[0].tags <==> complete && "draft/chathistory" in c.caps)
            && out[|out| - 1].command == "BATCH" && out[|out| - 1].params == ["-" + id]
  {
    HistoryWrapped(mark, server, id, kind, target, entries, complete, c, closing);
    HistoryEnds(server, id, kind, target, complete, c);
    var inner := Dressed(With(AllTagged(entries, BATCH_TAG, id), c));
    var o := Tagged(Dress(HistoryOpener(server, id, kind, target, complete), c), LABEL, mark);
    var z := Dress(HistoryCloser(server, id), c);
    FirstMiddleLast(o, inner, z);
    assert HISTORY_END[0] != LABEL[0];
  }

  lemma FirstMiddleLast(o: Message, inner: seq<Message>, z: Message)
    ensures var out := [o] + (inner + [z]);
            |out| == |inner| + 2 && out[0] == o && out[1..|out| - 1] == inner && out[|out| - 1] == z
  {
  }

  lemma HistoryWrapped(mark: string, server: string, id: string, kind: string, target: string,
                       entries: seq<Message>, complete: bool, c: Context, closing: Closing)
    requires CAP_BATCH in c.caps && Unlabelled(entries)
    ensures var sends := HistorySends(server, id, kind, target, entries, complete, c);
            var inner := Dressed(With(AllTagged(entries, BATCH_TAG, id), c));
            && Finish(mark, [], Dressed(sends), closing) ==
               [Tagged(Dress(HistoryOpener(server, id, kind, target, complete), c), LABEL, mark)]
               + (inner + [Dress(HistoryCloser(server, id), c)])
            && InBatch(inner, id) && Unlabelled(inner)
  {
    var o, z := HistoryOpener(server, id, kind, target, complete), HistoryCloser(server, id);
    var mid := With(AllTagged(entries, BATCH_TAG, id), c);
    assert BATCH != TAGMSG by { assert BATCH[0] != TAGMSG[0]; }
    DressedEnds((o, c), mid, (z, c));
    DressedInBatch(entries, id, c);
    DressTag(o, c, LABEL);
    var all := [Dress(o, c)] + (Dressed(mid) + [Dress(z, c)]);
    assert all[0] == Dress(o, c) && all[1..] == Dressed(mid) + [Dress(z, c)];
    var p := "+" + id;
    assert o.params[0] == p && p[..1] == "+";
    assert OpensBatch(all[0]);
    assert forall xs: seq<Message> {:trigger [] + xs} :: [] + xs == xs;
  }

  // ---------------------------------------------------------------------
  // The session
  // ---------------------------------------------------------------------

  // What happens at one session while a command runs: a message is sent to it, or
  // sent to it as an immediate message, or a password is checked, during which
  // other sessions' messages may arrive.
  datatype Event = Sent(sending: Sending) | Echoed(sending: Sending) | Checked(meanwhile: seq<Sending>)

  function Captured(es: seq<Event>): seq<Sending> {
    if es == [] then [] else (if es[0].Sent? then [es[0].sending] else []) + Captured(es[1..])
  }

  function Immediate(es: seq<Event>): seq<Sending> {
    if es == [] then [] else (if es[0].Echoed? then [es[0].sending] else []) + Immediate(es[1..])
  }

  function Foreign(es: seq<Event>): seq<Sending> {
    if es == [] then [] else (if es[0].Checked? then es[0].meanwhile else []) + Foreign(es[1..])
  }

  // Every message of the events, in order.
  function All(es: seq<Event>): seq<Sending> {
    if es == [] then []
    else (match es[0] case Sent(m) => [m] case Echoed(m) => [m] case Checked(ms) => ms) + All(es[1..])
  }

  lemma {:induction false} DressedAppend(a: seq<Sending>, b: seq<Sending>)
    ensures Dressed(a + b) == Dressed(a) + Dressed(b)
  {
    if a == [] {
      assert a + b == b;
    } else {
      DressedAppend(a[1..], b);
      assert (a + b)[1..] == a[1..] + b;
    }
  }

  predicate Labelled(m: Message, caps: set<string>) {
    && LABEL in m.tags && 0 < |m.tags[LABEL]| <= 64 && m.command != QUIT
    && CAP_LABEL in caps && CAP_BATCH in caps
  }

  // A label makes the answer a labelled one exactly when it has 1 to 64 characters, the
  // session has negotiated labels and batches, and the command does not end it.
  lemma LabelUsableIff(m: Message, caps: set<string>, mark: string)
    ensures Labelled(m.(tags := m.tags["label" := mark]), caps) <==>
            1 <= |mark| < 65 && "labeled-response" in caps && "batch" in caps && m.command != "QUIT"
    ensures !Labelled(m.(tags := m.tags - {"label"}), caps)
  {
  }

  datatype Suspended = Suspended(mark: string, messages: Option<seq<Message>>, immediate: seq<Message>)

  // What a session has sent, and the answer it is collecting.
  datatype Collected = Collected(out: seq<Message>, immediate: seq<Message>, messages: Option<seq<Message>>)

  function Collect(v: Collected, e: Event): Collected {
    match e
    case Checked(ms) => v.(out := v.out + Dressed(ms))
    case Sent(m) =>
      if v.messages.None? then v.(out := v.out + Dressed([m]))
      else v.(messages := Some(v.messages.value + Dressed([m])))
    case Echoed(m) =>
      if v.messages.None? then v.(out := v.out + Dressed([m]))
      else v.(immediate := v.immediate + Dressed([m]))
  }

  // Messages that are not immediate.
  function Put(v: Collected, ms: seq<Message>): Collected {
    if v.messages.None? then v.(out := v.out + ms) else v.(messages := Some(v.messages.value + ms))
  }

  lemma PutNothing(v: Collected)
    ensures Put(v, []) == v
  {
    assert v.out + [] == v.out && (v.messages.Some? ==> v.messages.value + [] == v.messages.value);
  }

  lemma PutSnoc(v: Collected, ms: seq<Sending>, m: Sending)
    ensures Put(Put(v, Dressed(ms)), Dressed([m])) == Put(v, Dressed(ms + [m]))
  {
    DressedAppend(ms, [m]);
    Joined(v.out, ms, [m]);
    if v.messages.Some? { Joined(v.messages.value, ms, [m]); }
  }

  function CollectAll(v: Collected, es: seq<Event>): Collected
    decreases es
  {
    if es == [] then v else CollectAll(Collect(v, es[0]), es[1..])
  }

  lemma Joined(out: seq<Message>, a: seq<Sending>, b: seq<Sending>)
    ensures out + Dressed(a + b) == out + Dressed(a) + Dressed(b)
  {
    DressedAppend(a, b);
  }

  // A run sorts its messages: with no answer being collected all of them go out
  // in order; otherwise the three kinds keep their own order and lose nothing.
  lemma {:induction false} CollectedMeans(v: Collected, es: seq<Event>)
    ensures v.messages.None? ==> CollectAll(v, es) == v.(out := v.out + Dressed(All(es)))
    ensures v.messages.Some? ==>
              CollectAll(v, es) == Collected(v.out + Dressed(Foreign(es)), v.immediate + Dressed(Immediate(es)),
                                             Some(v.messages.value + Dressed(Captured(es))))
    decreases es
  {
    if es == [] {
      assert v.out + [] == v.out && v.immediate + [] == v.immediate;
      assert v.messages.Some? ==> v.messages.value + [] == v.messages.value;
    } else {
      var e, rest := es[0], es[1..];
      CollectedMeans(Collect(v, e), rest);
      var head := match e case Sent(m) => [m] case Echoed(m) => [m] case Checked(ms) => ms;
      if v.messages.None? {
        Joined(v.out, head, All(rest));
      } else {
        NothingLeft(Foreign(rest));
        NothingLeft(Immediate(rest));
        NothingLeft(Captured(rest));
        match e
        case Checked(ms) => Joined(v.out, ms, Foreign(rest));
        case Echoed(m) => Joined(v.immediate, [m], Immediate(rest));
        case Sent(m) => Joined(v.messages.value, [m], Captured(rest));
      }
    }
  }

  class Session {
    var responseLabel: string
    var response: Option<seq<Message>>
    var responseImmediate: seq<Message>
    var captureImmediate: bool
    var out: seq<Message> // what has gone to the connection

    constructor ()
      ensures Idle() && out == []
    {
      responseLabel, response, responseImmediate, captureImmediate, out := "", None, [], false, [];
    }

    // No answer is being collected.
    predicate Idle()
      reads this
    {
      response == None && responseLabel == "" && responseImmediate == [] && !captureImmediate
    }

    method Send(m: Message, c: Context)
      modifies `out, `response, `responseImmediate
      ensures response.Some? == old(response.Some?)
      ensures old(response).None? ==>
                && out == old(out) + Dressed([(m, c)])
                && responseImmediate == old(responseImmediate)
      ensures old(response).Some? && old(captureImmediate) ==>
                && responseImmediate == old(responseImmediate) + Dressed([(m, c)])
                && out == old(out) && response == old(response)
      ensures old(response).Some? && !old(captureImmediate) ==>
                && response == Some(old(response.value) + Dressed([(m, c)]))
                && out == old(out) && responseImmediate == old(responseImmediate)
    {
      assert [(m, c)][1..] == [];
      if m.command == TAGMSG && CAP_TAGS !in c.caps {
        assert Dressed([(m, c)]) == [];
        assert response.Some? ==> response.value + [] == response.value;
        return;
      }
      var dressed := Dress(m, c);
      assert Dressed([(m, c)]) == [dressed];
      if response.Some? {
        if captureImmediate {
          responseImmediate := responseImmediate + [dressed];
        } else {
          response := Some(response.value + [dressed]);
        }
        return;
      }
      out := out + [dressed];
    }

    method SendImmediate(m: Message, c: Context)
      requires !captureImmediate
      modifies this
      ensures !captureImmediate && responseLabel == old(responseLabel) && response == old(response)
      ensures old(response).None? ==> out == old(out) + Dressed([(m, c)]) && responseImmediate == old(responseImmediate)
      ensures old(response).Some? ==> out == old(out) && responseImmediate == old(responseImmediate) + Dressed([(m, c)])
    {
      captureImmediate := true;
      Send(m, c);
      captureImmediate := false;
    }

    method SendAll(ms: seq<Sending>)
      requires response.None? && !captureImmediate
      modifies `out, `response, `responseImmediate
      ensures out == old(out) + Dressed(ms)
      ensures response.None? && responseImmediate == old(responseImmediate)
    {
      var i := 0;
      while i < |ms|
        invariant 0 <= i <= |ms| && response.None? && responseImmediate == old(responseImmediate)
        invariant out == old(out) + Dressed(ms[..i])
      {
        DressedSnoc(ms[..i], ms[i]);
        assert ms[..i] + [ms[i]] == ms[..i + 1];
        Send(ms[i].0, ms[i].1);
        assert [(ms[i].0, ms[i].1)] == [ms[i]];
        i := i + 1;
      }
      assert ms[..i] == ms;
    }

    method BeginResponse(mark: string)
      modifies this
      ensures responseLabel == mark && response == Some([]) && responseImmediate == []
      ensures out == old(out) && captureImmediate == old(captureImmediate)
    {
      responseLabel, response, responseImmediate := mark, Some([]), [];
    }

    method SuspendResponse() returns (state: Suspended)
      modifies `responseLabel, `response, `responseImmediate
      ensures state == Suspended(old(responseLabel), old(response), old(responseImmediate))
      ensures response.None? && responseImmediate == []
    {
      state := Suspended(responseLabel, response, responseImmediate);
      responseLabel, response, responseImmediate := "", None, [];
    }

    method ResumeResponse(state: Suspended)
      modifies `responseLabel, `response, `responseImmediate
      ensures responseLabel == state.mark && response == state.messages && responseImmediate == state.immediate
    {
      responseLabel, response, responseImmediate := state.mark, state.messages, state.immediate;
    }

    // Whatever arrives during a password check goes straight out, and the answer
    // being collected is the same afterwards.
    method CheckPassword(meanwhile: seq<Sending>)
      requires !captureImmediate
      modifies this
      ensures out == old(out) + Dressed(meanwhile) && !captureImmediate
      ensures responseLabel == old(responseLabel) && response == old(response)
      ensures responseImmediate == old(responseImmediate)
    {
      if response.None? {
        SendAll(meanwhile);
        return;
      }
      var state := SuspendResponse();
      SendAll(meanwhile);
      ResumeResponse(state);
    }

    method FinishResponse(c: Closing) returns (answer: seq<Message>)
      requires response.Some?
      modifies `responseLabel, `response, `responseImmediate
      ensures answer == Finish(old(responseLabel), old(responseImmediate), old(response).value, c)
      ensures response.None? && responseLabel == "" && responseImmediate == []
    {
      var mark, msgs, immediate := responseLabel, response.value, responseImmediate;
      responseLabel, response, responseImmediate := "", None, [];
      if |msgs| == 0 {
        return immediate + [Own(c, map[LABEL := mark], ACK, [])];
      }
      if |msgs| == 1 || OpensBatch(msgs[0]) {
        var first := msgs[0].(tags := msgs[0].tags[LABEL := mark]);
        return immediate + ([first] + msgs[1..]);
      }
      answer := immediate + [Opener(mark, c)];
      ghost var wrapped := AllTagged(msgs, BATCH_TAG, c.batchID);
      var i := 0;
      while i < |msgs|
        invariant 0 <= i <= |msgs|
        invariant answer == immediate + [Opener(mark, c)] + wrapped[..i]
      {
        var m := msgs[i].(tags := msgs[i].tags[BATCH_TAG := c.batchID]);
        assert wrapped[..i + 1] == wrapped[..i] + [m];
        answer := answer + [m];
        i := i + 1;
      }
      answer := answer + [Closer(c)];
      assert wrapped[..i] == wrapped;
      Grouped(immediate, Opener(mark, c), wrapped, Closer(c));
    }

    ghost function View(): Collected
      reads this
    {
      Collected(out, responseImmediate, response)
    }

    method HandleEvent(e: Event)
      requires !captureImmediate
      modifies this
      ensures View() == Collect(old(View()), e) && !captureImmediate && responseLabel == old(responseLabel)
    {
      match e {
        case Sent(m) => Send(m.0, m.1);
        case Echoed(m) => SendImmediate(m.0, m.1);
        case Checked(ms) => CheckPassword(ms);
      }
    }

    method SendPlain(m: Sending)
      requires !captureImmediate
      modifies `out, `response, `responseImmediate
      ensures View() == Put(old(View()), Dressed([m]))
    {
      Send(m.0, m.1);
    }

    // A history batch as its handler sends it, one message after the other.
    method SendHistoryBatch(server: string, id: string, kind: string, target: string, entries: seq<Message>,
                            complete: bool, c: Context)
      requires !captureImmediate && id != ""
      modifies `out, `response, `responseImmediate
      ensures View() == Put(old(View()), Dressed(HistorySends(server, id, kind, target, entries, complete, c)))
    {
      var batchID := "";
      ghost var start, done := View(), [];
      PutNothing(start);
      if CAP_BATCH in c.caps {
        batchID := id;
        var opener := HistoryOpener(server, id, kind, target, complete);
        SendPlain((opener, c));
        done := [(opener, c)];
      }
      ghost var lead := done;
      ghost var inner := With(if CAP_BATCH in c.caps then AllTagged(entries, BATCH_TAG, id) else entries, c);
      var i := 0;
      while i < |entries|
        invariant 0 <= i <= |entries| && (batchID != "" <==> CAP_BATCH in c.caps) && (batchID == "" || batchID == id)
        invariant done == lead + inner[..i] && View() == Put(start, Dressed(done))
      {
        var m := entries[i];
        if batchID != "" {
          m := m.(tags := m.tags[BATCH_TAG := batchID]);
        }
        assert inner[i] == (m, c);
        SendPlain((m, c));
        PutSnoc(start, done, (m, c));
        assert lead + inner[..i + 1] == done + [(m, c)];
        done := done + [(m, c)];
        i := i + 1;
      }
      assert inner[..i] == inner;
      if batchID != "" {
        var closer := HistoryCloser(server, id);
        SendPlain((closer, c));
        PutSnoc(start, done, (closer, c));
        done := done + [(closer, c)];
        assert done == lead + (inner + [(closer, c)]);
      }
      assert done == HistorySends(server, id, kind, target, entries, complete, c);
    }

    // The handler's run, as this session sees it.
    method Dispatch(es: seq<Event>)
      requires !captureImmediate
      modifies this
      ensures View() == CollectAll(old(View()), es) && !captureImmediate && responseLabel == old(responseLabel)
    {
      var i := 0;
      assert es[0..] == es;
      while i < |es|
        invariant 0 <= i <= |es| && !captureImmediate && responseLabel == old(responseLabel)
        invariant CollectAll(View(), es[i..]) == CollectAll(old(View()), es)
      {
        assert es[i..][0] == es[i] && es[i..][1..] == es[i + 1..];
        HandleEvent(es[i]);
        i := i + 1;
      }
    }

    // One command. Without a usable label everything goes straight out; with one,
    // only what arrives during password checks does, and the answer follows whole.
    method DispatchCommand(msg: Message, caps: set<string>, es: seq<Event>, c: Closing)
      requires Idle()
      modifies this
      ensures Idle()
      ensures Labelled(msg, caps) ==>
                out == old(out) + Dressed(Foreign(es))
                     + Finish(msg.tags[LABEL], Dressed(Immediate(es)), Dressed(Captured(es)), c)
      ensures !Labelled(msg, caps) ==> out == old(out) + Dressed(All(es))
    {
      if !Labelled(msg, caps) {
        Dispatch(es);
        CollectedMeans(old(View()), es);
        return;
      }
      BeginResponse(msg.tags[LABEL]);
      CollectedMeans(View(), es);
      Dispatch(es);
      NothingLeft(Dressed(Immediate(es)));
      NothingLeft(Dressed(Captured(es)));
      var answer := FinishResponse(c);
      out := out + answer;
    }
  }

  lemma Grouped(a: seq<Message>, x: Message, mid: seq<Message>, y: Message)
    ensures a + [x] + mid + [y] == a + ([x] + mid + [y])
  {
  }
}
