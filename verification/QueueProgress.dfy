/**
 Progress of the output queue while threads keep appending: in every infinite run
 in which the writer moves when it can and every appended item is signalled, what
 has been accepted is written and flushed, or the writer is gone.

 Main results
   StepProgress        a measure of the way to an item that no step raises and the
                       awaited step lowers
   EventuallyWritten   from some point on everything accepted by now is on the wire,
                       in order, and every flush begun by now can return
 */
module QueueProgress {
  import opened Text
  import opened OutputQueue

  // ---------------------------------------------------------------------
  // Infinite runs
  // ---------------------------------------------------------------------

  // The states of a run that goes on for ever, and the steps between them; None is
  // a moment in which nothing happens.
  ghost predicate Follows(path: nat -> State, act: nat -> Option<Step>, i: nat) {
    match act(i)
    case None => path(i + 1) == path(i)
    case Some(step) => Enabled(path(i), step) && path(i + 1) == Apply(path(i), step)
  }

  ghost predicate Path(path: nat -> State, act: nat -> Option<Step>) {
    Inv(path(0)) && forall i: nat :: Follows(path, act, i)
  }

  predicate OfWriter(step: Step) {
    WriterStep(step) || step == WriteFail || step == Stop
  }

  // The writer has something to do; this lasts until it does it.
  predicate CanMove(s: State) {
    !s.writer.Exited? && (s.writer.Idle? ==> s.wake)
  }

  ghost predicate WriterMovesLater(act: nat -> Option<Step>, i: nat) {
    exists j: nat :: j >= i && act(j).Some? && OfWriter(act(j).value)
  }

  ghost predicate SignalsLater(act: nat -> Option<Step>, i: nat, thread: nat) {
    exists j: nat :: j >= i && act(j) == Some(Signal(thread))
  }

  // The writer moves when it can, and a thread that has appended signals.
  ghost predicate Fair(path: nat -> State, act: nat -> Option<Step>) {
    && (forall i: nat :: CanMove(path(i)) ==> WriterMovesLater(act, i))
    && (forall i: nat, t: nat :: t in path(i).signalling ==> SignalsLater(act, i, t))
  }

  lemma {:induction false} InvAlong(path: nat -> State, act: nat -> Option<Step>, i: nat)
    requires Path(path, act)
    ensures Inv(path(i))
  {
    if i > 0 {
      InvAlong(path, act, i - 1);
      assert Follows(path, act, i - 1);
      if act(i - 1).Some? { InvKept(path(i - 1), act(i - 1).value); }
    }
  }

  // ---------------------------------------------------------------------
  // The way to an item
  // ---------------------------------------------------------------------

  // The writer has done with the item accepted at p: it is written and its marker,
  // if it is one, is closed. Or the writer is gone.
  predicate Past(s: State, p: nat) {
    s.writer.Exited? || s.finished > p + 1 || (s.finished == p + 1 && !s.writer.Written?)
  }

  // Items to write first, then where the writer is.
  datatype Way = Way(items: int, phase: nat)

  function WayTo(s: State, p: nat): Way {
    Way(p + 1 - s.finished,
        match s.writer
        case Written(_) => 4
        case Idle => if s.wake then 2 else 3
        case Draining => 1
        case Writing(_) => 0
        case Exited => 0)
  }

  predicate Shorter(a: Way, b: Way) {
    a.items < b.items || (a.items == b.items && a.phase < b.phase)
  }

  // The step that is awaited: a signal when the writer sleeps without a token,
  // otherwise the writer's own.
  predicate Awaited(phase: nat, step: Step) {
    if phase == 3 then step.Signal? else OfWriter(step)
  }

  lemma OtherStep(s: State, step: Step)
    requires Enabled(s, step) && !OfWriter(step)
    ensures var s1 := Apply(s, step);
            s1.writer == s.writer && s1.finished == s.finished && s1.wake == (s.wake || step.Signal?)
  {
  }

  lemma WriterAdvances(s: State, step: Step, p: nat)
    requires s.writer.Draining? ==> s.queue != []
    requires Enabled(s, step) && OfWriter(step)
    ensures var s1 := Apply(s, step); s1.writer.Exited? || Shorter(WayTo(s1, p), WayTo(s, p))
  {
  }

  lemma NotEmpty(s: State, p: nat)
    requires Fifo(s) && p < |s.accepted| && !Past(s, p)
    ensures s.writer.Draining? || s.writer.Idle? ==> s.queue != []
  {
  }

  // The writer's steps lead on; a signal wakes it; nothing else makes a difference.
  lemma StepProgress(s: State, step: Step, p: nat)
    requires Fifo(s) && Enabled(s, step) && p < |s.accepted| && !Past(s, p)
    ensures var s1 := Apply(s, step);
            || Past(s1, p)
            || Shorter(WayTo(s1, p), WayTo(s, p))
            || (WayTo(s1, p) == WayTo(s, p) && !Awaited(WayTo(s, p).phase, step))
  {
    NotEmpty(s, p);
    if OfWriter(step) {
      WriterAdvances(s, step, p);
    } else {
      OtherStep(s, step);
    }
  }

  lemma NextAwaited(path: nat -> State, act: nat -> Option<Step>, i: nat, p: nat) returns (j: nat)
    requires Path(path, act) && Fair(path, act) && p < |path(i).accepted| && !Past(path(i), p)
    ensures j >= i && act(j).Some? && Awaited(WayTo(path(i), p).phase, act(j).value)
  {
    var s := path(i);
    InvAlong(path, act, i);
    NotEmpty(s, p);
    if s.writer.Idle? && !s.wake {
      var t :| t in s.signalling;
      assert SignalsLater(act, i, t);
      j :| j >= i && act(j) == Some(Signal(t));
    } else {
      assert CanMove(s);
      assert WriterMovesLater(act, i);
      j :| j >= i && act(j).Some? && OfWriter(act(j).value);
    }
  }

  // Accepted items stay where they are.
  lemma AcceptedStep(s: State, step: Step)
    requires Enabled(s, step)
    ensures s.accepted <= Apply(s, step).accepted
  {
  }

  lemma {:induction false} AcceptedAlong(path: nat -> State, act: nat -> Option<Step>, i: nat, m: nat)
    requires Path(path, act) && i <= m
    ensures path(i).accepted <= path(m).accepted
    decreases m
  {
    if i < m {
      AcceptedAlong(path, act, i, m - 1);
      assert Follows(path, act, m - 1);
      if act(m - 1).Some? { AcceptedStep(path(m - 1), act(m - 1).value); }
    }
  }

  lemma OneMoment(path: nat -> State, act: nat -> Option<Step>, i: nat, p: nat)
    requires Path(path, act) && p < |path(i).accepted| && !Past(path(i), p)
    ensures p < |path(i + 1).accepted|
    ensures || Past(path(i + 1), p)
            || Shorter(WayTo(path(i + 1), p), WayTo(path(i), p))
            || (WayTo(path(i + 1), p) == WayTo(path(i), p)
                && !(act(i).Some? && Awaited(WayTo(path(i), p).phase, act(i).value)))
  {
    InvAlong(path, act, i);
    assert Follows(path, act, i);
    AcceptedAlong(path, act, i, i + 1);
    if act(i).Some? { StepProgress(path(i), act(i).value, p); }
  }

  // Waiting for the step at j, or for a shorter way before it.
  lemma {:induction false} Reaches(path: nat -> State, act: nat -> Option<Step>, i: nat, j: nat, p: nat) returns (n: nat)
    requires Path(path, act) && Fair(path, act) && p < |path(i).accepted| && !Past(path(i), p)
    requires j >= i && act(j).Some? && Awaited(WayTo(path(i), p).phase, act(j).value)
    ensures n >= i && Past(path(n), p)
    decreases WayTo(path(i), p).items, WayTo(path(i), p).phase, j - i
  {
    OneMoment(path, act, i, p);
    if Past(path(i + 1), p) {
      n := i + 1;
    } else if WayTo(path(i + 1), p) == WayTo(path(i), p) {
      n := Reaches(path, act, i + 1, j, p);
    } else {
      var j' := NextAwaited(path, act, i + 1, p);
      n := Reaches(path, act, i + 1, j', p);
    }
  }

  lemma PastStep(s: State, step: Step, p: nat)
    requires Enabled(s, step) && Past(s, p)
    ensures Past(Apply(s, step), p)
  {
  }

  lemma {:induction false} PastStays(path: nat -> State, act: nat -> Option<Step>, n: nat, m: nat, p: nat)
    requires Path(path, act) && Past(path(n), p) && n <= m
    ensures Past(path(m), p)
    decreases m
  {
    if n < m {
      PastStays(path, act, n, m - 1, p);
      assert Follows(path, act, m - 1);
      if act(m - 1).Some? { PastStep(path(m - 1), act(m - 1).value, p); }
    }
  }

  // Every accepted item is done with from some point on, or the writer is gone.
  lemma ItemDone(path: nat -> State, act: nat -> Option<Step>, i: nat, p: nat) returns (n: nat)
    requires Path(path, act) && Fair(path, act) && p < |path(i).accepted|
    ensures n >= i && forall m: nat :: m >= n ==> Past(path(m), p)
  {
    n := i;
    if !Past(path(i), p) {
      var j := NextAwaited(path, act, i, p);
      n := Reaches(path, act, i, j, p);
    }
    forall m: nat | m >= n ensures Past(path(m), p) { PastStays(path, act, n, m, p); }
  }

  // ---------------------------------------------------------------------
  // What that means for the wire and for the flushes
  // ---------------------------------------------------------------------

  // Everything accepted in s is written in e, and every flush begun in s can return.
  predicate Served(s: State, e: State) {
    && Lines(s.accepted) <= e.written
    && (forall m :: m in s.markerAt ==> m in e.closed)
  }

  lemma PastServes(s: State, e: State)
    requires Inv(s) && Inv(e) && s.accepted <= e.accepted && !e.writer.Exited?
    requires s.accepted != [] ==> Past(e, |s.accepted| - 1)
    ensures Served(s, e)
  {
    var k := |s.accepted|;
    assert e.accepted[..e.finished][..k] == e.accepted[..k] == s.accepted;
    LinesPrefix(e.accepted[..e.finished], k);
    forall m | m in s.markerAt ensures m in e.closed { MarkerClosed(s, e, m); }
  }

  lemma MarkerClosed(s: State, e: State, m: nat)
    requires Markers(s) && Inv(e) && s.accepted <= e.accepted && !e.writer.Exited?
    requires m in s.markerAt && Past(e, |s.accepted| - 1)
    ensures m in e.closed
  {
    var p := s.markerAt[m];
    assert e.accepted[p] == s.accepted[p] == Outbound("", Some(m));
    assert m in e.markerAt && e.markerAt[m] == p;
    if e.writer.Written? { assert e.writer.item == e.accepted[e.finished - 1]; }
  }

  // While threads go on appending, everything accepted at moment i is on the wire
  // from some point on and every flush begun by then has its marker closed, or the
  // writer is gone.
  lemma EventuallyWritten(path: nat -> State, act: nat -> Option<Step>, i: nat) returns (n: nat)
    requires Path(path, act) && Fair(path, act)
    ensures n >= i && forall m: nat :: m >= n ==> path(m).writer.Exited? || Served(path(i), path(m))
  {
    n := i;
    if path(i).accepted != [] { n := ItemDone(path, act, i, |path(i).accepted| - 1); }
    forall m: nat | m >= n ensures path(m).writer.Exited? || Served(path(i), path(m)) {
      InvAlong(path, act, i);
      InvAlong(path, act, m);
      AcceptedAlong(path, act, i, m);
      if !path(m).writer.Exited? { PastServes(path(i), path(m)); }
    }
  }
}
