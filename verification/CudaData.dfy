/** Device memory as a map from handle and position to byte: which operations succeed, which bytes
    each one changes, and that a refused operation changes nothing at all. */
module CudaData {
  import opened Base
  import opened CudaOps
  import opened CudaSession

  predicate Holds(m: Memory, p: u64, n: int) {
    p in m && n <= |m[p]|
  }

  // The condition under which an operation is carried out, in terms of the state before it.
  predicate Accepts(s: Session, op: Op) {
    match op
    case DeviceProps(d) => d < |s.devices|
    case SetDevice(d) => d < |s.devices|
    case EventDestroy(e) => e in s.events
    case EventRecord(e) => e in s.events
    case EventElapsed(a, b) => a in s.events && b in s.events
    case Malloc(n) => 0 < n <= MAX_SINGLE_ALLOC && (s.used + n <= s.maxAlloc || s.maxAlloc == U64_MAX)
    case Free(p) => p in s.buffers
    case MemcpyHtoD(dst, data) => |data| <= MAX_MEMCPY && Holds(s.buffers, dst, |data|)
    case MemcpyDtoH(src, n) => n <= MAX_MEMCPY && Holds(s.buffers, src, n)
    case MemcpyDtoD(dst, src, n) => n <= MAX_MEMCPY && Holds(s.buffers, src, n) && Holds(s.buffers, dst, n)
    case Memset(p, _, n) => Holds(s.buffers, p, n)
    case VectorAddF32(a, b, out, n) =>
      Holds(s.buffers, a, 4 * n) && Holds(s.buffers, b, 4 * n) && Holds(s.buffers, out, 4 * n)
    case LoadModulePtx(_) => false
    case LaunchKernel(_, _, _) => false
    case _ => true
  }

  lemma {:induction false} OkIffAccepted(add: FloatAdd, s: Session, c: Call)
    ensures var r := Step(add, s, c).reply; (r.ok <==> Accepts(s, c.op)) && (r.ok <==> r.error.None?)
  {
    match c.op
    case VectorAddF32(a, b, out, n) =>
      UsableIff(s.buffers, a, b, out, 4 * n);
      assert a in {a, b, out} && b in {a, b, out} && out in {a, b, out};
    case _ =>
  }

  lemma {:induction false} FailureIsAtomic(add: FloatAdd, s: Session, c: Call)
    ensures !Step(add, s, c).reply.ok ==> Step(add, s, c).session == s && Step(add, s, c).reply.partial == NOTHING
  {
  }

  // The calls of a run that were carried out.
  function Accepted(add: FloatAdd, s: Session, calls: seq<Call>): seq<Call> {
    if calls == [] then []
    else
      var before, c := calls[..|calls| - 1], calls[|calls| - 1];
      Accepted(add, s, before) + if Step(add, Run(add, s, before), c).reply.ok then [c] else []
  }

  // Leaving the refused calls out of a run changes nothing: the session ends in the same state and
  // every remaining call is carried out.
  lemma {:induction false} RefusedCallsLeaveNoTrace(add: FloatAdd, s: Session, calls: seq<Call>)
    ensures Run(add, s, Accepted(add, s, calls)) == Run(add, s, calls)
    ensures forall r :: r in Replies(add, s, Accepted(add, s, calls)) ==> r.ok
  {
    if calls != [] {
      var before, c := calls[..|calls| - 1], calls[|calls| - 1];
      RefusedCallsLeaveNoTrace(add, s, before);
      FailureIsAtomic(add, Run(add, s, before), c);
      RunLast(add, s, Accepted(add, s, before), c);
      assert Accepted(add, s, before) + [] == Accepted(add, s, before);
      hide Step;
    }
  }

  // An operation naming a handle without a buffer is refused.
  lemma {:induction false} DeadHandleRefused(add: FloatAdd, s: Session, c: Call, h: u64)
    requires h !in s.buffers && h in HandlesOf(c.op)
    ensures !Step(add, s, c).reply.ok
  {
    OkIffAccepted(add, s, c);
  }

  // The byte an accepted operation leaves at position i of buffer h.
  function ByteAfter(add: FloatAdd, m: Memory, op: Op, h: u64, i: nat): byte
    requires h in m && i < |m[h]|
    requires op.MemcpyDtoD? ==> Holds(m, op.src, op.bytes)
    requires op.VectorAddF32? ==> Holds(m, op.a, 4 * op.n) && Holds(m, op.b, 4 * op.n)
  {
    match op
    case MemcpyHtoD(dst, data) => if h == dst && i < |data| then data[i] else m[h][i]
    case MemcpyDtoD(dst, src, n) => if h == dst && i < n then m[src][i] else m[h][i]
    case Memset(p, v, n) => if h == p && i < n then v else m[h][i]
    case VectorAddF32(a, b, out, n) =>
      if h == out && i < 4 * n then add(WordAt(m[a], i / 4), WordAt(m[b], i / 4))[i % 4] else m[h][i]
    case _ => m[h][i]
  }

  // Same handles, same lengths.
  ghost predicate SameShape(m: Memory, m': Memory) {
    (forall h :: h in m <==> h in m') && (forall h :: h in m ==> |m[h]| == |m'[h]|)
  }

  lemma {:induction false} OnlyMallocAndFreeReshape(add: FloatAdd, s: Session, c: Call)
    requires !c.op.Malloc? && !c.op.Free?
    ensures var s' := Step(add, s, c).session;
            SameShape(s.buffers, s'.buffers) &&
            s'.used == s.used && s'.nextPtr == s.nextPtr && s'.maxAlloc == s.maxAlloc
  {
    match c.op
    case VectorAddF32(a, b, out, n) =>
      UsableIff(s.buffers, a, b, out, 4 * n);
      assert out in {a, b, out};
    case _ =>
  }

  // Every buffer that is neither allocated nor freed by the operation keeps its length, and each of
  // its bytes is what ByteAfter says, whatever handles coincide.
  lemma {:induction false} BytesAfter(add: FloatAdd, s: Session, c: Call, h: u64, i: nat)
    requires Accepts(s, c.op)
    requires h in s.buffers && i < |s.buffers[h]|
    requires c.op != Free(h) && (c.op.Malloc? ==> h != s.nextPtr)
    ensures var m := Step(add, s, c).session.buffers;
            h in m && |m[h]| == |s.buffers[h]| && m[h][i] == ByteAfter(add, s.buffers, c.op, h, i)
  {
    match c.op
    case VectorAddF32(a, b, out, n) =>
      UsableIff(s.buffers, a, b, out, 4 * n);
    case _ =>
  }

  // An accepted allocation gives a buffer of just the size asked for, all zeros, under the handle it returns;
  // every buffer under another handle stays as it is, and the size is added to what is in use.
  lemma {:induction false} MallocGives(add: FloatAdd, s: Session, n: u64, now: nat)
    requires Accepts(s, Malloc(n))
    ensures var o := Step(add, s, Call(Malloc(n), now));
            && o.reply == Done(NOTHING.(ptr := Some(s.nextPtr)))
            && s.nextPtr in o.session.buffers && |o.session.buffers[s.nextPtr]| == n
            && (forall i :: 0 <= i < n ==> o.session.buffers[s.nextPtr][i] == 0)
            && (forall h :: h != s.nextPtr ==>
                 (h in o.session.buffers <==> h in s.buffers) &&
                 (h in s.buffers ==> o.session.buffers[h] == s.buffers[h]))
            && o.session.used == Min(s.used + n, U64_MAX)
  {
  }

  // The new buffer can be used at once: writes that fit it are accepted, and before any write its bytes
  // are read as zeros.
  lemma {:induction false} NewBufferWorks(add: FloatAdd, s: Session, n: u64, data: Bytes, now: nat)
    requires Accepts(s, Malloc(n))
    ensures var s' := Step(add, s, Call(Malloc(n), now)).session;
            && (|data| <= Min(n, 0x400_0000) ==> Step(add, s', Call(MemcpyHtoD(s.nextPtr, data), now)).reply.ok)
            && (n <= 0x400_0000 ==>
                 Step(add, s', Call(MemcpyDtoH(s.nextPtr, n), now)).reply == Done(NOTHING.(data := Some(Zeros(n)))))
  {
    MallocGives(add, s, n, now);
    var s' := Step(add, s, Call(Malloc(n), now)).session;
    OkIffAccepted(add, s', Call(MemcpyHtoD(s.nextPtr, data), now));
    OkIffAccepted(add, s', Call(MemcpyDtoH(s.nextPtr, n), now));
    assert s'.buffers[s.nextPtr][..n] == Zeros(n);
  }

  // An accepted free removes just that buffer and gives its bytes back.
  lemma {:induction false} FreeGivesBack(add: FloatAdd, s: Session, p: u64, now: nat)
    requires Accepts(s, Free(p))
    ensures var o := Step(add, s, Call(Free(p), now));
            && o.reply == Done(NOTHING) && p !in o.session.buffers
            && (forall h :: h != p ==>
                 (h in o.session.buffers <==> h in s.buffers) &&
                 (h in s.buffers ==> o.session.buffers[h] == s.buffers[h]))
            && o.session.used == Max(s.used - |s.buffers[p]|, 0)
  {
  }

  // An accepted read returns the first bytes of the buffer.
  lemma {:induction false} ReadReturnsBytes(add: FloatAdd, s: Session, src: u64, n: u64, now: nat)
    requires Accepts(s, MemcpyDtoH(src, n))
    ensures var r := Step(add, s, Call(MemcpyDtoH(src, n), now)).reply;
            r.ok && r.partial.data.Some? && |r.partial.data.value| == n &&
            forall i :: 0 <= i < n ==> r.partial.data.value[i] == s.buffers[src][i]
  {
  }

  // What was just written is read back.
  lemma {:induction false} ReadBack(add: FloatAdd, s: Session, dst: u64, data: Bytes, now: nat)
    requires Accepts(s, MemcpyHtoD(dst, data))
    ensures var s' := Step(add, s, Call(MemcpyHtoD(dst, data), now)).session;
            DoDtoH(s', dst, |data|) == Done(NOTHING.(data := Some(data)))
  {
  }

  predicate DeviceValid(s: Session) {
    s.currentDevice < |s.devices|
  }

  // On every run that starts with a device, the current device is one of them and the device list
  // and budget never change.
  lemma {:induction false} CurrentDeviceValid(add: FloatAdd, maxAlloc: u64, devices: seq<DeviceInfo>, calls: seq<Call>)
    requires |devices| > 0
    ensures var s := Run(add, Open(maxAlloc, devices), calls);
            DeviceValid(s) && s.devices == devices && s.maxAlloc == maxAlloc
  {
    if calls != [] {
      CurrentDeviceValid(add, maxAlloc, devices, calls[..|calls| - 1]);
    }
  }
}
