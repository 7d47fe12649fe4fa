/** Timing events over whole runs: what an elapsed time measures, and that a destroyed event stays dead. */
module CudaEvents {
  import opened Base
  import opened CudaOps
  import opened CudaSession

  // The call, answered by r, gave event e the host's clock reading.
  predicate Marks(c: Call, r: Reply, e: u64) {
    r.ok && (c.op == EventRecord(e) || (c.op.EventCreate? && r.partial.eventId == Some(e)))
  }

  predicate Touches(op: Op, e: u64) {
    op == EventRecord(e) || op == EventDestroy(e)
  }

  predicate Names(op: Op, e: u64) {
    Touches(op, e) || (op.EventElapsed? && (op.start == e || op.end == e))
  }

  // Event ids below u64::MAX that exist have been passed by the counter.
  ghost predicate Passed(s: Session) {
    forall e :: e in s.events && e < U64_MAX ==> e < s.nextEvent
  }

  lemma {:induction false} StepKeepsPassed(add: FloatAdd, s: Session, c: Call)
    requires Passed(s)
    ensures Passed(Step(add, s, c).session)
  {
  }

  lemma {:induction false} RunKeepsPassed(add: FloatAdd, maxAlloc: u64, devices: seq<DeviceInfo>, calls: seq<Call>)
    ensures Passed(Run(add, Open(maxAlloc, devices), calls))
  {
    hide Step;
    if calls != [] {
      var before := calls[..|calls| - 1];
      RunKeepsPassed(add, maxAlloc, devices, before);
      StepKeepsPassed(add, Run(add, Open(maxAlloc, devices), before), calls[|calls| - 1]);
    }
  }

  // What one call does to an event the counter has passed, unless it records or destroys it.
  lemma {:induction false} StatusStep(add: FloatAdd, s: Session, c: Call, e: u64)
    requires e < s.nextEvent && (e in s.events ==> !Touches(c.op, e))
    ensures var s' := Step(add, s, c).session;
            e < s'.nextEvent && (e in s'.events <==> e in s.events) && (e in s.events ==> s'.events[e] == s.events[e])
  {
  }

  lemma {:induction false} StatusSticks(add: FloatAdd, s: Session, calls: seq<Call>, e: u64)
    requires e < s.nextEvent
    requires e in s.events ==> forall k :: 0 <= k < |calls| ==> !Touches(calls[k].op, e)
    ensures var s' := Run(add, s, calls);
            e < s'.nextEvent && (e in s'.events <==> e in s.events) && (e in s.events ==> s'.events[e] == s.events[e])
  {
    hide Step;
    if calls != [] {
      var before := calls[..|calls| - 1];
      StatusSticks(add, s, before, e);
      StatusStep(add, Run(add, s, before), calls[|calls| - 1], e);
    }
  }

  lemma {:induction false} MarkSets(add: FloatAdd, s: Session, c: Call, e: u64)
    requires Passed(s) && e < U64_MAX && Marks(c, Step(add, s, c).reply, e)
    ensures var s' := Step(add, s, c).session; e in s'.events && s'.events[e] == c.now && e < s'.nextEvent
  {
  }

  // The reading an event holds is that of the last call that marked it.
  lemma {:induction false} LastMarkHolds(add: FloatAdd, maxAlloc: u64, devices: seq<DeviceInfo>, calls: seq<Call>,
                                         i: nat, e: u64)
    requires i < |calls| && e < U64_MAX && Marks(calls[i], Replies(add, Open(maxAlloc, devices), calls)[i], e)
    requires forall k :: i < k < |calls| ==> !Touches(calls[k].op, e)
    ensures var s := Run(add, Open(maxAlloc, devices), calls); e in s.events && s.events[e] == calls[i].now
  {
    hide Step, Passed, Marks;
    var s0 := Open(maxAlloc, devices);
    RepliesAt(add, s0, calls, i);
    RunKeepsPassed(add, maxAlloc, devices, calls[..i]);
    MarkSets(add, Run(add, s0, calls[..i]), calls[i], e);
    RunLast(add, s0, calls[..i], calls[i]);
    assert calls == calls[..i] + [calls[i]] + calls[i + 1..];
    RunAppend(add, s0, calls[..i] + [calls[i]], calls[i + 1..]);
    StatusSticks(add, Run(add, s0, calls[..i] + [calls[i]]), calls[i + 1..], e);
  }

  // The elapsed time between two events is the difference between the clock readings of the last calls
  // that marked them, and zero if the second was marked first.
  lemma {:induction false} ElapsedMeasures(add: FloatAdd, maxAlloc: u64, devices: seq<DeviceInfo>, calls: seq<Call>,
                                           i: nat, a: u64, j: nat, b: u64, now: nat)
    requires i < |calls| && a < U64_MAX && Marks(calls[i], Replies(add, Open(maxAlloc, devices), calls)[i], a)
    requires j < |calls| && b < U64_MAX && Marks(calls[j], Replies(add, Open(maxAlloc, devices), calls)[j], b)
    requires forall k :: i < k < |calls| ==> !Touches(calls[k].op, a)
    requires forall k :: j < k < |calls| ==> !Touches(calls[k].op, b)
    ensures Step(add, Run(add, Open(maxAlloc, devices), calls), Call(EventElapsed(a, b), now)).reply ==
            Done(NOTHING.(elapsed := Some(Max(calls[j].now - calls[i].now, 0))))
  {
    LastMarkHolds(add, maxAlloc, devices, calls, i, a);
    LastMarkHolds(add, maxAlloc, devices, calls, j, b);
    hide Run, Replies;
  }

  lemma {:induction false} DestroyRetires(add: FloatAdd, s: Session, c: Call, e: u64)
    requires Passed(s) && e < U64_MAX && c.op == EventDestroy(e) && Step(add, s, c).reply.ok
    ensures var s' := Step(add, s, c).session; e < s'.nextEvent && e !in s'.events
  {
  }

  lemma {:induction false} DeadEventRefused(add: FloatAdd, s: Session, c: Call, e: u64)
    requires e < s.nextEvent && e !in s.events
    ensures Names(c.op, e) ==> !Step(add, s, c).reply.ok
    ensures !Marks(c, Step(add, s, c).reply, e)
  {
  }

  // A destroyed event stays dead: its id is never handed out again, and every later call that names it
  // is refused.
  lemma {:induction false} DestroyedEventStaysDead(add: FloatAdd, maxAlloc: u64, devices: seq<DeviceInfo>,
                                                   calls: seq<Call>, i: nat, j: nat, e: u64)
    requires i < j < |calls| && e < U64_MAX
    requires calls[i].op == EventDestroy(e) && Replies(add, Open(maxAlloc, devices), calls)[i].ok
    ensures var r := Replies(add, Open(maxAlloc, devices), calls)[j];
            !Marks(calls[j], r, e) && (Names(calls[j].op, e) ==> !r.ok)
  {
    hide Step, Passed, Marks, Names;
    var s0 := Open(maxAlloc, devices);
    RepliesAt(add, s0, calls, i);
    RunKeepsPassed(add, maxAlloc, devices, calls[..i]);
    DestroyRetires(add, Run(add, s0, calls[..i]), calls[i], e);
    RunLast(add, s0, calls[..i], calls[i]);
    assert calls[..j] == calls[..i] + [calls[i]] + calls[i + 1..j];
    RunAppend(add, s0, calls[..i] + [calls[i]], calls[i + 1..j]);
    StatusSticks(add, Run(add, s0, calls[..i] + [calls[i]]), calls[i + 1..j], e);
    RepliesAt(add, s0, calls, j);
    DeadEventRefused(add, Run(add, s0, calls[..j]), calls[j], e);
  }
}
