/**
 The per-session output queue as a concurrent protocol: any number of threads
 append under the lock and then signal, one writer takes the wake token, drains
 the queue and goes back to sleep. Each step below is one critical section, one
 channel operation or one socket write; a run is any interleaving of steps.

 Main results, for every run
   QueueSafe        byte accounting, FIFO delivery, markers, no lost wake-up
   QuiescentDone    when nobody can move, everything accepted has been written
   WriterDrains     from any state the writer alone reaches that point
   FlushReturns     what a returning flush guarantees
 */
module OutputQueue {
  import opened Text

  const MAX_QUEUED := 16 * 1024 * 1024

  // A line to write, or a flush marker: an empty line with a channel to close.
  datatype Outbound = Outbound(line: string, done: Option<nat>)

  // Where the writer goroutine is. Writing holds an item already taken off the
  // queue; Written has put its line on the wire but not yet closed its marker.
  datatype Writer = Idle | Draining | Writing(item: Outbound) | Written(item: Outbound) | Exited

  datatype State = State(
    queue: seq<Outbound>,      // writeQueue
    bytes: int,                // writeBytes
    wake: bool,                // the token in writeWake
    writer: Writer,
    stopping: bool,            // stopWriter is closed
    broken: bool,              // the connection was closed
    signalling: set<nat>,      // threads between append and signal
    waiting: map<nat, nat>,    // threads in flush, each with its marker
    closed: set<nat>,          // markers closed
    accepted: seq<Outbound>,   // everything ever appended
    taken: nat,                // how many of those left the queue
    finished: nat,             // how many of those were written out
    written: seq<string>,      // the lines on the wire
    markerAt: map<nat, nat>)   // where each marker stands in accepted

  const INITIAL := State([], 0, false, Idle, false, false, {}, map[], {}, [], 0, 0, [], map[])

  datatype Step =
    | Send(thread: nat, line: string)
    | Flush(thread: nat, marker: nat)
    | Signal(thread: nat)
    | FlushReturn(thread: nat)
    | TakeWake
    | Pop
    | Sleep
    | WriteOk
    | WriteFail
    | CloseMarker
    | RequestStop
    | Stop

  // The locked section of enqueue for a thread with an item.
  function Append(s: State, thread: nat, item: Outbound): State {
    if s.bytes + |item.line| > MAX_QUEUED then
      s.(broken := true, closed := if item.done.Some? then s.closed + {item.done.value} else s.closed)
    else
      s.(queue := s.queue + [item], bytes := s.bytes + |item.line|,
         accepted := s.accepted + [item], signalling := s.signalling + {thread})
  }

  predicate Enabled(s: State, step: Step) {
    match step
    case Send(t, line) => line != "" && t !in s.signalling && t !in s.waiting
    case Flush(t, m) => t !in s.signalling && t !in s.waiting && m !in s.markerAt && m !in s.closed
    case Signal(t) => t in s.signalling
    case FlushReturn(t) => t in s.waiting && t !in s.signalling && (s.waiting[t] in s.closed || s.writer.Exited?)
    case TakeWake => s.writer.Idle? && s.wake
    case Pop => s.writer.Draining? && s.queue != []
    case Sleep => s.writer.Draining? && s.queue == []
    case WriteOk => s.writer.Writing?
    case WriteFail => s.writer.Writing? && s.writer.item.line != ""
    case CloseMarker => s.writer.Written?
    case RequestStop => !s.stopping
    case Stop => s.writer.Idle? && s.stopping
  }

  function Apply(s: State, step: Step): State
    requires Enabled(s, step)
  {
    match step
    case Send(t, line) => Append(s, t, Outbound(line, None))
    case Flush(t, m) =>
      var s1 := Append(s, t, Outbound("", Some(m)));
      s1.(waiting := s.waiting[t := m],
          markerAt := if s1.accepted == s.accepted then s.markerAt else s.markerAt[m := |s.accepted|])
    case Signal(t) => s.(wake := true, signalling := s.signalling - {t})
    case FlushReturn(t) => s.(waiting := s.waiting - {t})
    case TakeWake => s.(wake := false, writer := Draining)
    case Pop =>
      s.(queue := s.queue[1..], bytes := s.bytes - |s.queue[0].line|, writer := Writing(s.queue[0]), taken := s.taken + 1)
    case Sleep => s.(writer := Idle)
    case WriteOk =>
      var line := s.writer.item.line;
      s.(writer := Written(s.writer.item), finished := s.finished + 1,
         written := if line == "" then s.written else s.written + [line])
    case WriteFail => s.(writer := Exited, broken := true)
    case CloseMarker =>
      var done := s.writer.item.done;
      s.(writer := Draining, closed := if done.Some? then s.closed + {done.value} else s.closed)
    case RequestStop => s.(stopping := true)
    case Stop => s.(writer := Exited)
  }

  // A run: every step enabled where it is taken.
  predicate IsRun(s: State, steps: seq<Step>)
    decreases steps
  {
    steps == [] || (Enabled(s, steps[0]) && IsRun(Apply(s, steps[0]), steps[1..]))
  }

  function After(s: State, steps: seq<Step>): State
    requires IsRun(s, steps)
    decreases steps
  {
    if steps == [] then s else After(Apply(s, steps[0]), steps[1..])
  }

  // ---------------------------------------------------------------------
  // Lines and bytes
  // ---------------------------------------------------------------------

  function Bytes(items: seq<Outbound>): nat {
    if items == [] then 0 else |items[0].line| + Bytes(items[1..])
  }

  lemma {:induction false} BytesAppend(items: seq<Outbound>, x: Outbound)
    ensures Bytes(items + [x]) == Bytes(items) + |x.line|
  {
    if items != [] {
      BytesAppend(items[1..], x);
      assert (items + [x])[1..] == items[1..] + [x];
    }
  }

  // The lines among the items, in order; a marker is no line.
  function Lines(items: seq<Outbound>): seq<string> {
    if items == [] then []
    else
      var last := items[|items| - 1];
      Lines(items[..|items| - 1]) + if last.line == "" then [] else [last.line]
  }

  lemma {:induction false} LinesPrefix(items: seq<Outbound>, n: nat)
    requires n <= |items|
    ensures Lines(items[..n]) <= Lines(items)
  {
    if n < |items| {
      var init := items[..|items| - 1];
      LinesPrefix(init, n);
      assert init[..n] == items[..n];
    } else {
      assert items[..n] == items;
    }
  }

  lemma LinesNext(items: seq<Outbound>, n: nat)
    requires n < |items|
    ensures Lines(items[..n + 1]) == Lines(items[..n]) + if items[n].line == "" then [] else [items[n].line]
  {
    assert items[..n + 1][..n] == items[..n];
  }

  // ---------------------------------------------------------------------
  // What every step keeps
  // ---------------------------------------------------------------------

  // writeBytes is the size of what is queued and never above the limit.
  predicate Accounted(s: State) {
    s.bytes == Bytes(s.queue) && s.bytes <= MAX_QUEUED
  }

  // The queue is the part of the accepted items not yet taken, and what is on
  // the wire is exactly the lines of the finished ones, in order.
  predicate Fifo(s: State) {
    && s.finished <= s.taken <= |s.accepted|
    && s.queue == s.accepted[s.taken..]
    && s.written == Lines(s.accepted[..s.finished])
    && (s.writer.Idle? || s.writer.Draining? ==> s.taken == s.finished)
    && (s.writer.Written? ==> s.taken == s.finished > 0 && s.writer.item == s.accepted[s.finished - 1])
    && (s.writer.Writing? ==> s.taken == s.finished + 1 && s.writer.item == s.accepted[s.finished])
  }

  // Someone still has to look at a non-empty queue.
  predicate Attended(s: State) {
    s.queue != [] ==> s.wake || !s.writer.Idle? || s.signalling != {}
  }

  // Every marker stands where it was accepted; a closed one is behind the
  // writer, and one that is not closed is still ahead of it or in its hand.
  predicate Markers(s: State) {
    && (forall m :: m in s.markerAt ==>
          s.markerAt[m] < |s.accepted| && s.accepted[s.markerAt[m]] == Outbound("", Some(m)))
    && (forall i :: 0 <= i < |s.accepted| && s.accepted[i].done.Some? ==>
          s.accepted[i].done.value in s.markerAt && s.markerAt[s.accepted[i].done.value] == i)
    && (forall m :: m in s.closed ==> m in s.markerAt && s.markerAt[m] < s.finished)
    && (forall m :: m in s.markerAt && m !in s.closed ==>
          s.finished <= s.markerAt[m] || s.writer == Written(Outbound("", Some(m))) || s.writer.Exited?)
    && (forall t :: t in s.waiting ==> s.waiting[t] in s.markerAt)
  }

  predicate Inv(s: State) {
    Accounted(s) && Fifo(s) && Attended(s) && Markers(s)
  }

  lemma AccountedKept(s: State, step: Step)
    requires Accounted(s) && Enabled(s, step)
    ensures Accounted(Apply(s, step))
  {
    match step
    case Send(t, line) => BytesAppend(s.queue, Outbound(line, None));
    case Flush(t, m) => BytesAppend(s.queue, Outbound("", Some(m)));
    case _ =>
  }

  // A flush marker takes no room, so it is never refused for overflow.
  lemma MarkerAccepted(s: State, thread: nat, marker: nat)
    requires Accounted(s) && Enabled(s, Flush(thread, marker))
    ensures Apply(s, Flush(thread, marker)).accepted == s.accepted + [Outbound("", Some(marker))]
    ensures !s.broken ==> !Apply(s, Flush(thread, marker)).broken
  {
  }

  lemma FifoAppend(s: State, thread: nat, item: Outbound)
    requires Fifo(s)
    ensures Fifo(Append(s, thread, item))
  {
    var s1 := Append(s, thread, item);
    if s1.accepted != s.accepted {
      assert s1.accepted[s.taken..] == s.queue + [item];
      assert s1.accepted[..s.finished] == s.accepted[..s.finished];
    }
  }

  lemma TailOf(items: seq<Outbound>, n: nat)
    requires n < |items|
    ensures items[n..][0] == items[n] && items[n..][1..] == items[n + 1..]
  {
  }

  lemma FifoPop(s: State)
    requires Fifo(s) && Enabled(s, Pop)
    ensures Fifo(Apply(s, Pop))
  {
    TailOf(s.accepted, s.taken);
  }

  lemma FifoWriteOk(s: State)
    requires Fifo(s) && Enabled(s, WriteOk)
    ensures Fifo(Apply(s, WriteOk))
  {
    LinesNext(s.accepted, s.finished);
    var line := s.writer.item.line;
    assert line == "" ==> Lines(s.accepted[..s.finished + 1]) == s.written + [] == s.written;
  }

  // No step but these touches what the order is about.
  lemma FifoOther(s: State, step: Step)
    requires Fifo(s) && Enabled(s, step) && !step.Send? && !step.Flush? && step != Pop && step != WriteOk
    ensures Fifo(Apply(s, step))
  {
  }

  lemma FifoKept(s: State, step: Step)
    requires Fifo(s) && Enabled(s, step)
    ensures Fifo(Apply(s, step))
  {
    match step
    case Send(t, line) => FifoAppend(s, t, Outbound(line, None));
    case Flush(t, m) => FifoAppend(s, t, Outbound("", Some(m)));
    case Pop => FifoPop(s);
    case WriteOk => FifoWriteOk(s);
    case _ => FifoOther(s, step);
  }

  lemma AttendedKept(s: State, step: Step)
    requires Attended(s) && Enabled(s, step)
    ensures Attended(Apply(s, step))
  {
    match step
    case Send(t, line) => assert t in s.signalling + {t};
    case Flush(t, m) => assert t in s.signalling + {t};
    case _ =>
  }

  lemma MarkersKept(s: State, step: Step)
    requires Inv(s) && Enabled(s, step)
    ensures Markers(Apply(s, step))
  {
    match step
    case Send(t, line) => MarkersSend(s, t, line);
    case Flush(t, m) => MarkersFlush(s, t, m);
    case WriteOk => MarkersWriteOk(s);
    case CloseMarker => MarkersClose(s);
    case _ =>
  }

  lemma MarkersSend(s: State, thread: nat, line: string)
    requires Markers(s) && Enabled(s, Send(thread, line))
    ensures Markers(Apply(s, Send(thread, line)))
  {
  }

  lemma MarkersFlush(s: State, thread: nat, marker: nat)
    requires Markers(s) && Accounted(s) && Fifo(s) && Enabled(s, Flush(thread, marker))
    ensures Markers(Apply(s, Flush(thread, marker)))
  {
    MarkerAccepted(s, thread, marker);
  }

  lemma MarkersWriteOk(s: State)
    requires Markers(s) && Fifo(s) && Enabled(s, WriteOk)
    ensures Markers(Apply(s, WriteOk))
  {
  }

  lemma MarkersClose(s: State)
    requires Markers(s) && Fifo(s) && Enabled(s, CloseMarker)
    ensures Markers(Apply(s, CloseMarker))
  {
  }

  lemma InvKept(s: State, step: Step)
    requires Inv(s) && Enabled(s, step)
    ensures Inv(Apply(s, step))
  {
    AccountedKept(s, step);
    FifoKept(s, step);
    AttendedKept(s, step);
    MarkersKept(s, step);
  }

  // Every reachable state: accounting, order, markers, and no lost wake-up.
  lemma {:induction false} RunKeepsInv(s: State, steps: seq<Step>)
    requires Inv(s) && IsRun(s, steps)
    ensures Inv(After(s, steps))
    decreases steps
  {
    if steps != [] {
      InvKept(s, steps[0]);
      RunKeepsInv(Apply(s, steps[0]), steps[1..]);
    }
  }

  // The state of the queue after any run from the start, in plain terms.
  lemma QueueSafe(steps: seq<Step>)
    requires IsRun(INITIAL, steps)
    ensures var s := After(INITIAL, steps);
            && s.bytes == Bytes(s.queue) <= MAX_QUEUED
            && s.written <= Lines(s.accepted)
            && (!s.broken ==> Lines(s.accepted) == Offered(steps))
            && (s.queue != [] ==> s.wake || s.signalling != {} || !s.writer.Idle?)
            && (forall m :: m in s.closed ==>
                  m in s.markerAt && s.markerAt[m] < |s.accepted|
                  && Lines(s.accepted[..s.markerAt[m]]) <= s.written)
  {
    RunKeepsInv(INITIAL, steps);
    var s := After(INITIAL, steps);
    LinesPrefix(s.accepted, s.finished);
    if !s.broken { AllOffered(steps); }
    forall m | m in s.closed ensures Lines(s.accepted[..s.markerAt[m]]) <= s.written { ClosedWritten(s, m); }
  }

  lemma AllOffered(steps: seq<Step>)
    requires IsRun(INITIAL, steps) && !After(INITIAL, steps).broken
    ensures Lines(After(INITIAL, steps).accepted) == Offered(steps)
  {
    NoneTurnedAway(INITIAL, steps);
    NothingLeft(Offered(steps));
  }

  lemma ClosedWritten(s: State, m: nat)
    requires Inv(s) && m in s.closed
    ensures m in s.markerAt && s.markerAt[m] < |s.accepted| && Lines(s.accepted[..s.markerAt[m]]) <= s.written
  {
    LinesPrefix(s.accepted[..s.finished], s.markerAt[m]);
    assert s.accepted[..s.finished][..s.markerAt[m]] == s.accepted[..s.markerAt[m]];
  }

  // The lines the threads of a run have offered, in order.
  function Offered(steps: seq<Step>): seq<string> {
    if steps == [] then [] else (if steps[0].Send? then [steps[0].line] else []) + Offered(steps[1..])
  }

  lemma LinesSnoc(items: seq<Outbound>, item: Outbound)
    ensures Lines(items + [item]) == Lines(items) + if item.line == "" then [] else [item.line]
  {
    assert (items + [item])[..|items|] == items;
  }

  lemma AppendAccepts(s: State, thread: nat, item: Outbound)
    requires !Append(s, thread, item).broken
    ensures !s.broken && Append(s, thread, item).accepted == s.accepted + [item]
  {
  }

  lemma OthersAccept(s: State, step: Step)
    requires Enabled(s, step) && !step.Send? && !step.Flush?
    ensures Apply(s, step).accepted == s.accepted && (s.broken ==> Apply(s, step).broken)
  {
  }

  // A step either breaks the connection or accepts what it offers.
  lemma AcceptsStep(s: State, step: Step)
    requires Enabled(s, step) && !Apply(s, step).broken
    ensures !s.broken && Lines(Apply(s, step).accepted) == Lines(s.accepted) + if step.Send? then [step.line] else []
  {
    match step
    case Send(t, line) =>
      AppendAccepts(s, t, Outbound(line, None));
      LinesSnoc(s.accepted, Outbound(line, None));
    case Flush(t, m) =>
      AppendAccepts(s, t, Outbound("", Some(m)));
      LinesSnoc(s.accepted, Outbound("", Some(m)));
    case _ => OthersAccept(s, step);
  }

  // As long as the connection is not broken no line has been turned away: what was
  // accepted is what was offered.
  lemma {:induction false} NoneTurnedAway(s: State, steps: seq<Step>)
    requires IsRun(s, steps) && !After(s, steps).broken
    ensures !s.broken && Lines(After(s, steps).accepted) == Lines(s.accepted) + Offered(steps)
    decreases steps
  {
    if steps != [] {
      var step := steps[0];
      NoneTurnedAway(Apply(s, step), steps[1..]);
      AcceptsStep(s, step);
      Associate(Lines(s.accepted), if step.Send? then [step.line] else [], Offered(steps[1..]));
    }
  }

  // ---------------------------------------------------------------------
  // Progress
  // ---------------------------------------------------------------------

  // No thread is between append and signal, and the writer sleeps with no token.
  predicate Quiescent(s: State) {
    s.writer.Idle? && !s.wake && s.signalling == {}
  }

  // Nothing is left behind: the queue is empty, every accepted line is on the
  // wire and every flush can return.
  lemma QuiescentDone(s: State)
    requires Inv(s) && Quiescent(s)
    ensures s.queue == [] && s.bytes == 0 && s.written == Lines(s.accepted)
    ensures forall t :: t in s.waiting ==> Enabled(s, FlushReturn(t))
  {
    assert s.accepted[..s.finished] == s.accepted;
  }

  // A flush returns only when everything accepted before it has been written,
  // unless the writer is gone.
  lemma FlushReturns(s: State, thread: nat)
    requires Inv(s) && Enabled(s, FlushReturn(thread)) && !s.writer.Exited?
    ensures var m := s.waiting[thread];
            s.markerAt[m] < |s.accepted| && Lines(s.accepted[..s.markerAt[m]]) <= s.written
  {
    var m := s.waiting[thread];
    LinesPrefix(s.accepted[..s.finished], s.markerAt[m]);
    assert s.accepted[..s.finished][..s.markerAt[m]] == s.accepted[..s.markerAt[m]];
  }

  predicate WriterStep(step: Step) {
    step in {TakeWake, Pop, Sleep, WriteOk, CloseMarker}
  }

  // What the writer does next when its writes succeed.
  function NextOfWriter(s: State): (step: Step)
    requires !s.writer.Exited? && (s.writer.Idle? ==> s.wake)
    ensures Enabled(s, step) && WriterStep(step)
  {
    match s.writer
    case Idle => TakeWake
    case Draining => if s.queue == [] then Sleep else Pop
    case Writing(_) => WriteOk
    case Written(_) => CloseMarker
  }

  // How many steps it has to do before it sleeps without a token.
  function Work(s: State): nat {
    4 * |s.queue| + (if s.wake then 3 else 0) +
    match s.writer
    case Idle => 0
    case Draining => 1
    case Writing(_) => 3
    case Written(_) => 2
    case Exited => 0
  }

  lemma WriterProgress(s: State)
    requires !s.writer.Exited? && (s.writer.Idle? ==> s.wake)
    ensures var s1 := Apply(s, NextOfWriter(s));
            && Work(s1) < Work(s) && !s1.writer.Exited?
            && s1.signalling == s.signalling && s1.accepted == s.accepted && s1.waiting == s.waiting
  {
  }

  lemma RunCons(s: State, step: Step, rest: seq<Step>)
    requires Enabled(s, step) && IsRun(Apply(s, step), rest)
    ensures IsRun(s, [step] + rest) && After(s, [step] + rest) == After(Apply(s, step), rest)
  {
    assert ([step] + rest)[1..] == rest;
  }

  // Left alone after the last signal, the writer empties the queue and sleeps:
  // no accepted line waits for a wake-up that never comes.
  lemma {:induction false} WriterDrains(s: State) returns (steps: seq<Step>)
    requires Inv(s) && !s.writer.Exited? && s.signalling == {}
    ensures forall i :: 0 <= i < |steps| ==> WriterStep(steps[i])
    ensures IsRun(s, steps)
    ensures var e := After(s, steps);
            Quiescent(e) && e.accepted == s.accepted && e.written == Lines(s.accepted) && e.waiting == s.waiting
            && forall t :: t in e.waiting ==> Enabled(e, FlushReturn(t))
    decreases Work(s)
  {
    if s.writer.Idle? && !s.wake {
      steps := [];
      QuiescentDone(s);
    } else {
      var step := NextOfWriter(s);
      WriterProgress(s);
      InvKept(s, step);
      var rest := WriterDrains(Apply(s, step));
      RunCons(s, step, rest);
      steps := [step] + rest;
    }
  }
}
