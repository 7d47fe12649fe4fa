/** Buffer handles over whole runs: in which order they are issued, that a freed one stays dead, how
    many allocations it takes before the counter saturates, and what goes wrong after that. */
module CudaHandles {
  import opened Base
  import opened CudaOps
  import opened CudaSession
  import opened CudaData
  import opened CudaAccounting

  // The handle a reply to Malloc carries.
  function Issued(c: Call, r: Reply): Option<u64> {
    if c.op.Malloc? && r.ok then r.partial.ptr else None
  }

  // What one operation does to the handle counter.
  lemma {:induction false} CounterStep(add: FloatAdd, s: Session, c: Call)
    ensures var o := Step(add, s, c);
            match Issued(c, o.reply)
            case None => o.session.nextPtr == s.nextPtr && o.session.buffers.Keys <= s.buffers.Keys
            case Some(p) => p == s.nextPtr && c.op.bytes <= MAX_SINGLE_ALLOC
                            && o.session.nextPtr == Reserve(s.nextPtr, c.op.bytes)
                            && o.session.buffers.Keys == s.buffers.Keys + {p}
  {
    if !c.op.Malloc? && !c.op.Free? {
      OnlyMallocAndFreeReshape(add, s, c);
      hide Step;
      assert Step(add, s, c).session.buffers.Keys <= s.buffers.Keys;
    }
  }

  lemma {:induction false} CounterGrows(add: FloatAdd, s: Session, calls: seq<Call>, i: nat, j: nat)
    requires i <= j <= |calls|
    ensures Run(add, s, calls[..i]).nextPtr <= Run(add, s, calls[..j]).nextPtr
    decreases j
  {
    hide Step;
    if i < j {
      CounterGrows(add, s, calls, i, j - 1);
      assert calls[..j] == calls[..j - 1] + [calls[j - 1]];
      RunLast(add, s, calls[..j - 1], calls[j - 1]);
      CounterStep(add, Run(add, s, calls[..j - 1]), calls[j - 1]);
    }
  }

  // The handle issued by the i-th call of a run, if that call was a successful Malloc.
  function IssuedAt(add: FloatAdd, s: Session, calls: seq<Call>, i: nat): Option<u64>
    requires i < |calls|
  {
    Issued(calls[i], Replies(add, s, calls)[i])
  }

  lemma {:induction false} IssuedIsCounter(add: FloatAdd, s: Session, calls: seq<Call>, i: nat)
    requires i < |calls| && IssuedAt(add, s, calls, i).Some?
    ensures var before := Run(add, s, calls[..i]).nextPtr;
            IssuedAt(add, s, calls, i) == Some(before) &&
            (before < Run(add, s, calls[..i + 1]).nextPtr || before == U64_MAX)
  {
    hide Step;
    RepliesAt(add, s, calls, i);
    CounterStep(add, Run(add, s, calls[..i]), calls[i]);
    assert calls[..i + 1] == calls[..i] + [calls[i]];
    RunLast(add, s, calls[..i], calls[i]);
  }

  // On every run successful allocations return strictly increasing handles; the only handle that can
  // be returned twice is u64::MAX.
  lemma {:induction false} HandlesIncrease(add: FloatAdd, s: Session, calls: seq<Call>, i: nat, j: nat)
    requires i < j < |calls|
    requires IssuedAt(add, s, calls, i).Some? && IssuedAt(add, s, calls, j).Some?
    ensures var p, q := IssuedAt(add, s, calls, i).value, IssuedAt(add, s, calls, j).value;
            p < q || p == q == U64_MAX
  {
    hide Step;
    IssuedIsCounter(add, s, calls, i);
    IssuedIsCounter(add, s, calls, j);
    CounterGrows(add, s, calls, i, j);
    CounterGrows(add, s, calls, i + 1, j);
  }

  ghost predicate Retired(s: Session, h: u64) {
    h < s.nextPtr && h !in s.buffers
  }

  lemma {:induction false} StaysRetired(add: FloatAdd, s: Session, h: u64, calls: seq<Call>)
    requires Retired(s, h)
    ensures Retired(Run(add, s, calls), h)
  {
    hide Step;
    if calls != [] {
      var before := calls[..|calls| - 1];
      StaysRetired(add, s, h, before);
      CounterStep(add, Run(add, s, before), calls[|calls| - 1]);
    }
  }

  lemma {:induction false} FreeRetires(add: FloatAdd, s: Session, c: Call, h: u64)
    requires Layout(s) && c.op == Free(h) && h < U64_MAX && Step(add, s, c).reply.ok
    ensures Retired(Step(add, s, c).session, h)
  {
  }

  // Once a handle below u64::MAX has been freed, it is never issued again and every later call that
  // names it is refused, for the rest of the run.
  lemma {:induction false} FreedHandleStaysDead(add: FloatAdd, maxAlloc: u64, devices: seq<DeviceInfo>,
                                                calls: seq<Call>, i: nat, j: nat, h: u64)
    requires i < j < |calls| && h < U64_MAX
    requires calls[i].op == Free(h) && Replies(add, Open(maxAlloc, devices), calls)[i].ok
    ensures var s0 := Open(maxAlloc, devices);
            IssuedAt(add, s0, calls, j) != Some(h) &&
            (h in HandlesOf(calls[j].op) ==> !Replies(add, s0, calls)[j].ok)
  {
    hide Step, Layout, Budget, HandlesOf;
    var s0 := Open(maxAlloc, devices);
    RepliesAt(add, s0, calls, i);
    RunInvariant(add, maxAlloc, devices, calls[..i]);
    FreeRetires(add, Run(add, s0, calls[..i]), calls[i], h);
    RunLast(add, s0, calls[..i], calls[i]);
    var freed := Run(add, s0, calls[..i] + [calls[i]]);
    assert calls[..j] == calls[..i] + [calls[i]] + calls[i + 1..j];
    RunAppend(add, s0, calls[..i] + [calls[i]], calls[i + 1..j]);
    StaysRetired(add, freed, h, calls[i + 1..j]);
    RepliesAt(add, s0, calls, j);
    CounterStep(add, Run(add, s0, calls[..j]), calls[j]);
    if h in HandlesOf(calls[j].op) {
      DeadHandleRefused(add, Run(add, s0, calls[..j]), calls[j], h);
    }
  }

  // How many calls of a run were successful allocations.
  function Mallocs(add: FloatAdd, s: Session, calls: seq<Call>): nat {
    if calls == [] then 0
    else
      var before, c := calls[..|calls| - 1], calls[|calls| - 1];
      Mallocs(add, s, before) + if c.op.Malloc? && Step(add, Run(add, s, before), c).reply.ok then 1 else 0
  }

  lemma {:induction false} CounterAtMost(add: FloatAdd, maxAlloc: u64, devices: seq<DeviceInfo>, calls: seq<Call>)
    ensures var s0 := Open(maxAlloc, devices);
            Run(add, s0, calls).nextPtr <= FIRST_HANDLE + Mallocs(add, s0, calls) * STRIDE
  {
    hide Step;
    if calls != [] {
      var s0, before := Open(maxAlloc, devices), calls[..|calls| - 1];
      CounterAtMost(add, maxAlloc, devices, before);
      CounterStep(add, Run(add, s0, before), calls[|calls| - 1]);
    }
  }

  // The largest number of allocations that can never saturate the counter, whatever their sizes.
  const SAFE_MALLOCS: nat := (U64_MAX - 1 - FIRST_HANDLE) / STRIDE

  // It is more than 2^35.
  lemma {:induction false} SafeMallocsAreMany()
    ensures 0x8_0000_0000 <= SAFE_MALLOCS
    ensures SAFE_MALLOCS * STRIDE <= U64_MAX - 1 - FIRST_HANDLE < (SAFE_MALLOCS + 1) * STRIDE
  {
  }

  lemma {:induction false} BelowSaturation(n: nat)
    requires n <= SAFE_MALLOCS
    ensures FIRST_HANDLE + n * STRIDE < U64_MAX
  {
    assert n * STRIDE <= SAFE_MALLOCS * STRIDE;
  }

  // Up to SAFE_MALLOCS successful allocations the counter does not saturate: all live buffers
  // are at least 64 bytes apart and `used` is exactly the number of live bytes.
  lemma {:induction false} SafeBelowBound(add: FloatAdd, maxAlloc: u64, devices: seq<DeviceInfo>, calls: seq<Call>)
    requires Mallocs(add, Open(maxAlloc, devices), calls) <= SAFE_MALLOCS
    ensures var s := Run(add, Open(maxAlloc, devices), calls);
            s.nextPtr < U64_MAX && Total(s.buffers) == s.used <= s.maxAlloc &&
            forall h, k :: h in s.buffers && k in s.buffers && h < k ==> h + |s.buffers[h]| + 64 <= k
  {
    hide Step, Run, Mallocs, Total, Footprint;
    CounterAtMost(add, maxAlloc, devices, calls);
    RunInvariant(add, maxAlloc, devices, calls);
    BelowSaturation(Mallocs(add, Open(maxAlloc, devices), calls));
  }

  // The counter after n allocations of the largest buffer.
  function ChurnedCounter(n: nat): u64
    requires n <= SAFE_MALLOCS + 1
  {
    if n <= SAFE_MALLOCS then FIRST_HANDLE + n * STRIDE else U64_MAX
  }

  lemma {:induction false} ChurnedNext(n: nat)
    requires n <= SAFE_MALLOCS
    ensures ChurnedCounter(n + 1) == Reserve(ChurnedCounter(n), MAX_SINGLE_ALLOC)
  {
    assert (n + 1) * STRIDE == n * STRIDE + STRIDE;
  }

  // n times: allocate the largest buffer and free it again.
  function Churn(n: nat): seq<Call>
    requires n <= SAFE_MALLOCS + 1
  {
    if n == 0 then []
    else Churn(n - 1) + [Call(Malloc(MAX_SINGLE_ALLOC), 0)] + [Call(Free(ChurnedCounter(n - 1)), 0)]
  }

  lemma {:induction false} ChurnRound(add: FloatAdd, s: Session, p: u64)
    requires s.used == 0 && s.buffers == map[] && MAX_SINGLE_ALLOC <= s.maxAlloc && s.nextPtr == p
    ensures var m := Step(add, s, Call(Malloc(MAX_SINGLE_ALLOC), 0));
            m.reply.ok && m.session.nextPtr == Reserve(p, MAX_SINGLE_ALLOC) &&
            Step(add, m.session, Call(Free(p), 0)).session == s.(nextPtr := Reserve(p, MAX_SINGLE_ALLOC))
  {
    var m := Step(add, s, Call(Malloc(MAX_SINGLE_ALLOC), 0)).session;
    assert m.buffers - {p} == map[];
  }

  // After any run that ends empty, such a round moves only the counter and makes one allocation.
  lemma {:induction false} ChurnStep(add: FloatAdd, s0: Session, before: seq<Call>, p: u64)
    requires var s := Run(add, s0, before);
             s.used == 0 && s.buffers == map[] && MAX_SINGLE_ALLOC <= s.maxAlloc && s.nextPtr == p
    ensures var after := before + [Call(Malloc(MAX_SINGLE_ALLOC), 0)] + [Call(Free(p), 0)];
            Run(add, s0, after) == Run(add, s0, before).(nextPtr := Reserve(p, MAX_SINGLE_ALLOC)) &&
            Mallocs(add, s0, after) == Mallocs(add, s0, before) + 1
  {
    var grab, drop := Call(Malloc(MAX_SINGLE_ALLOC), 0), Call(Free(p), 0);
    ChurnRound(add, Run(add, s0, before), p);
    hide Step, Reserve, Run, Mallocs;
    RunLast(add, s0, before, grab);
    RunLast(add, s0, before + [grab], drop);
    MallocsLast(add, s0, before, grab);
    MallocsLast(add, s0, before + [grab], drop);
  }

  lemma {:induction false} NoChurn(add: FloatAdd, s0: Session)
    ensures Churn(0) == [] && ChurnedCounter(0) == FIRST_HANDLE
    ensures Run(add, s0, []) == s0 && Mallocs(add, s0, []) == 0
  {
  }

  lemma {:induction false} OneMoreChurn(n: nat)
    requires n <= SAFE_MALLOCS
    ensures Churn(n + 1) ==
            Churn(n) + [Call(Malloc(MAX_SINGLE_ALLOC), 0)] + [Call(Free(ChurnedCounter(n)), 0)]
  {
    hide ChurnedCounter;
  }

  lemma {:induction false} ChurnRun(add: FloatAdd, s0: Session, n: nat)
    requires n <= SAFE_MALLOCS + 1
    requires s0.used == 0 && s0.buffers == map[] && MAX_SINGLE_ALLOC <= s0.maxAlloc && s0.nextPtr == FIRST_HANDLE
    ensures Run(add, s0, Churn(n)) == s0.(nextPtr := ChurnedCounter(n))
    ensures Mallocs(add, s0, Churn(n)) == n
  {
    hide Step, Reserve, ChurnedCounter, Churn, Run, Mallocs;
    if n == 0 {
      NoChurn(add, s0);
    } else {
      ChurnRun(add, s0, n - 1);
      ChurnedNext(n - 1);
      OneMoreChurn(n - 1);
      ChurnStep(add, s0, Churn(n - 1), ChurnedCounter(n - 1));
    }
  }

  lemma {:induction false} MallocsLast(add: FloatAdd, s: Session, calls: seq<Call>, c: Call)
    ensures Mallocs(add, s, calls + [c]) ==
            Mallocs(add, s, calls) + if c.op.Malloc? && Step(add, Run(add, s, calls), c).reply.ok then 1 else 0
  {
    assert (calls + [c])[..|calls|] == calls;
  }

  // One more allocation than SAFE_MALLOCS can saturate the counter, and then the session breaks: two
  // allocations in a row return the same handle, the second destroys the first buffer, and a byte
  // of the budget stays in use although it belongs to no buffer.
  lemma {:induction false} BoundIsTight(add: FloatAdd, maxAlloc: u64, devices: seq<DeviceInfo>)
    returns (calls: seq<Call>)
    requires MAX_SINGLE_ALLOC <= maxAlloc
    ensures var s0 := Open(maxAlloc, devices); var one := Call(Malloc(1), 0);
            Mallocs(add, s0, calls) == SAFE_MALLOCS + 1 &&
            Replies(add, s0, calls + [one, one]) ==
              Replies(add, s0, calls) + [Done(NOTHING.(ptr := Some(U64_MAX))), Done(NOTHING.(ptr := Some(U64_MAX)))] &&
            Total(Run(add, s0, calls + [one, one]).buffers) == 1 && Run(add, s0, calls + [one, one]).used == 2
  {
    var s0, one := Open(maxAlloc, devices), Call(Malloc(1), 0);
    calls := Churn(SAFE_MALLOCS + 1);
    ChurnRun(add, s0, SAFE_MALLOCS + 1);
    assert calls + [one, one] == (calls + [one]) + [one];
    RunLast(add, s0, calls, one);
    RunLast(add, s0, calls + [one], one);
    var m := Run(add, s0, calls + [one, one]).buffers;
    assert m == map[U64_MAX as u64 := Zeros(1)];
    FreshInsert(map[], U64_MAX, Zeros(1));
  }
}
