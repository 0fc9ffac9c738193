/**
 The session's queue fields and the code that changes them, one method per
 critical section. A ghost copy of the protocol state runs along; every method
 is proved to be a step, or a run, of OutputQueue, so what holds of every run
 there holds of these fields.
 */
module SessionWriter {
  import opened Text
  import opened OutputQueue

  class Session {
    var writeQueue: seq<Outbound>
    var writeBytes: int
    var writeWake: bool
    var wire: seq<string>
    var closed: set<nat>
    var connClosed: bool
    ghost var model: State

    ghost predicate Valid()
      reads this
    {
      Inv(model) && Shows(model)
    }

    ghost predicate Shows(s: State)
      reads this
    {
      && s.queue == writeQueue && s.bytes == writeBytes && s.wake == writeWake
      && s.written == wire && s.closed == closed && s.broken == connClosed
    }

    constructor ()
      ensures Valid() && model == INITIAL
    {
      writeQueue, writeBytes, writeWake := [], 0, false;
      wire, closed, connClosed := [], {}, false;
      model := INITIAL;
    }

    // The locked half of enqueue, for a line.
    method EnqueueLine(line: string, ghost thread: nat) returns (appended: bool)
      requires Valid() && Enabled(model, Send(thread, line))
      modifies this
      ensures Valid() && model == Apply(old(model), Send(thread, line))
      ensures appended <==> old(writeBytes) + |line| <= MAX_QUEUED
    {
      InvKept(model, Send(thread, line));
      appended := AppendItem(Outbound(line, None), model, thread);
      model := Apply(model, Send(thread, line));
    }

    // The locked half of enqueue, for a flush marker.
    method EnqueueMarker(marker: nat, ghost thread: nat) returns (appended: bool)
      requires Valid() && Enabled(model, Flush(thread, marker))
      modifies this
      ensures Valid() && model == Apply(old(model), Flush(thread, marker))
      ensures appended
    {
      InvKept(model, Flush(thread, marker));
      MarkerFits(model);
      appended := AppendItem(Outbound("", Some(marker)), model, thread);
      model := Apply(model, Flush(thread, marker));
    }

    method AppendItem(item: Outbound, ghost s: State, ghost thread: nat) returns (appended: bool)
      requires Shows(s)
      modifies this`writeQueue, this`writeBytes, this`closed, this`connClosed
      ensures appended <==> s.bytes + |item.line| <= MAX_QUEUED
      ensures Shows(Append(s, thread, item))
    {
      if writeBytes + |item.line| > MAX_QUEUED {
        if item.done.Some? {
          closed := closed + {item.done.value};
        }
        connClosed := true;
        return false;
      }
      writeQueue := writeQueue + [item];
      writeBytes := writeBytes + |item.line|;
      return true;
    }

    // The non-blocking send on the wake channel: a token that is there stays.
    method SignalWriter(ghost thread: nat)
      requires Valid() && Enabled(model, Signal(thread))
      modifies this
      ensures Valid() && model == Apply(old(model), Signal(thread))
    {
      InvKept(model, Signal(thread));
      model := Apply(model, Signal(thread));
      if !writeWake {
        writeWake := true;
      }
    }

    method TakeToken()
      requires Valid() && Enabled(model, TakeWake)
      modifies this
      ensures Valid() && model == Apply(old(model), TakeWake)
      ensures wire == old(wire)
    {
      InvKept(model, TakeWake);
      model := Apply(model, TakeWake);
      writeWake := false;
    }

    // The writer's locked section: the oldest item, or none when it goes to sleep.
    method NextItem() returns (item: Option<Outbound>, ghost step: Step)
      requires Valid() && model.writer.Draining?
      modifies this
      ensures step == if old(writeQueue) == [] then Sleep else Pop
      ensures Valid() && Enabled(old(model), step) && model == Apply(old(model), step)
      ensures wire == old(wire) && writeQueue == if old(writeQueue) == [] then [] else old(writeQueue)[1..]
      ensures item == if old(writeQueue) == [] then None else Some(old(writeQueue)[0])
    {
      if |writeQueue| == 0 {
        step, item := Sleep, None;
        InvKept(model, step);
        model := Apply(model, step);
        return;
      }
      step, item := Pop, Some(writeQueue[0]);
      InvKept(model, step);
      model := Apply(model, step);
      writeBytes := writeBytes - |writeQueue[0].line|;
      writeQueue := writeQueue[1..];
    }

    // Writing an item; ok says whether the connection takes it.
    method WriteItem(item: Outbound, ok: bool) returns (alive: bool, ghost step: Step)
      requires Valid() && model.writer == Writing(item)
      modifies this
      ensures step == if item.line != "" && !ok then WriteFail else WriteOk
      ensures Valid() && Enabled(old(model), step) && model == Apply(old(model), step)
      ensures alive <==> item.line == "" || ok
      ensures writeQueue == old(writeQueue)
      ensures wire == old(wire) + if item.line == "" || !ok then [] else [item.line]
    {
      alive := item.line == "" || ok;
      step := if alive then WriteOk else WriteFail;
      InvKept(model, step);
      model := Apply(model, step);
      if !alive {
        connClosed := true;
      } else if item.line != "" {
        wire := wire + [item.line];
      }
    }

    method CloseItem(item: Outbound)
      requires Valid() && model.writer == Written(item)
      modifies this
      ensures Valid() && model == Apply(old(model), CloseMarker)
      ensures wire == old(wire) && writeQueue == old(writeQueue)
    {
      InvKept(model, CloseMarker);
      model := Apply(model, CloseMarker);
      if item.done.Some? {
        closed := closed + {item.done.value};
      }
    }

    // One turn of the writer: take the token, then drain until the queue is
    // empty. The first good writes succeed; the write after them fails.
    method DrainOnce(good: nat) returns (alive: bool, ghost steps: seq<Step>)
      requires Valid() && model.writer.Idle? && writeWake
      modifies this
      ensures Valid() && IsRun(old(model), steps) && model == After(old(model), steps)
      ensures alive ==> model.writer.Idle? && writeQueue == [] && wire == Lines(model.accepted)
      ensures !alive ==> model.writer.Exited? && connClosed && |wire| == old(|wire|) + good
    {
      ghost var start := model;
      ghost var step := TakeWake;
      steps := [];
      RunSnoc(start, steps, step);
      TakeToken();
      steps := steps + [step];
      var left := good;
      while true
        invariant Valid() && model.writer.Draining?
        invariant IsRun(start, steps) && model == After(start, steps)
        invariant |wire| + left == old(|wire|) + good
        decreases |writeQueue|
      {
        var next;
        ghost var before := model;
        next, step := NextItem();
        Extend(start, steps, before, step);
        steps := steps + [step];
        if next.None? {
          AllWritten(model);
          return true, steps;
        }
        before := model;
        alive, step := WriteItem(next.value, left > 0);
        Extend(start, steps, before, step);
        steps := steps + [step];
        if !alive { return; }
        if next.value.line != "" {
          left := left - 1;
        }
        before := model;
        CloseItem(next.value);
        Extend(start, steps, before, CloseMarker);
        steps := steps + [CloseMarker];
      }
    }
  }

  lemma MarkerFits(s: State)
    requires Inv(s)
    ensures s.bytes <= MAX_QUEUED
  {
  }

  lemma AllWritten(s: State)
    requires Inv(s) && s.writer.Idle? && s.queue == []
    ensures s.written == Lines(s.accepted)
  {
    assert s.accepted[..s.finished] == s.accepted;
  }

  lemma Extend(start: State, steps: seq<Step>, s: State, step: Step)
    requires IsRun(start, steps) && s == After(start, steps) && Enabled(s, step)
    ensures IsRun(start, steps + [step]) && After(start, steps + [step]) == Apply(s, step)
  {
    RunSnoc(start, steps, step);
  }

  // A run extended by one more enabled step.
  lemma {:induction false} RunSnoc(s: State, steps: seq<Step>, step: Step)
    requires IsRun(s, steps) && Enabled(After(s, steps), step)
    ensures IsRun(s, steps + [step]) && After(s, steps + [step]) == Apply(After(s, steps), step)
    decreases steps
  {
    if steps == [] {
      assert ([] + [step])[1..] == [];
    } else {
      RunSnoc(Apply(s, steps[0]), steps[1..], step);
      assert (steps + [step])[1..] == steps[1..] + [step];
    }
  }
}
