/** What one remoting session does, as a function from state and operation to state and reply.
    The host-memory backend is proved to compute exactly this; the other Cuda modules prove
    what this function guarantees over whole runs. */
module CudaSession {
  import opened Base
  import opened CudaOps

  const MAX_SINGLE_ALLOC: u64 := 256 * 1024 * 1024
  const MAX_MEMCPY: u64 := 64 * 1024 * 1024
  const MAX_PTX_BYTES := 256 * 1024
  const MAX_KERNEL_ARGS := 16
  const FIRST_HANDLE: u64 := 0x1000

  type Memory = map<u64, Bytes>

  datatype Session = Session(
    devices: seq<DeviceInfo>,
    maxAlloc: u64,
    used: u64,
    nextPtr: u64,
    nextEvent: u64,
    currentDevice: u32,
    events: map<u64, nat>,
    buffers: Memory)

  datatype Outcome = Outcome(session: Session, reply: Reply)

  function Open(maxAlloc: u64, devices: seq<DeviceInfo>): Session {
    Session(devices, maxAlloc, 0, FIRST_HANDLE, 1, 0, map[], map[])
  }

  function CheckAlloc(s: Session, bytes: u64): Option<Fault> {
    if bytes == 0 then Some(MallocZero)
    else if bytes > MAX_SINGLE_ALLOC then Some(OverBufferCap(bytes))
    else if SatAdd(s.used, bytes) > s.maxAlloc then Some(OverSessionCap(s.used, bytes, s.maxAlloc))
    else None
  }

  function Reserve(p: u64, bytes: u64): u64 {
    SatAdd(SatAdd(p, Max(bytes, 64)), 64)
  }

  function DoMalloc(s: Session, bytes: u64): Outcome {
    match CheckAlloc(s, bytes)
    case Some(f) => Outcome(s, Failed(f))
    case None =>
      Outcome(s.(nextPtr := Reserve(s.nextPtr, bytes),
                 used := SatAdd(s.used, bytes),
                 buffers := s.buffers[s.nextPtr := Zeros(bytes)]),
              Done(NOTHING.(ptr := Some(s.nextPtr))))
  }

  function DoFree(s: Session, p: u64): Outcome {
    if p in s.buffers then
      Outcome(s.(used := if |s.buffers[p]| <= s.used then s.used - |s.buffers[p]| else 0,
                 buffers := s.buffers - {p}), Done(NOTHING))
    else Outcome(s, Failed(InvalidDevicePtr(p)))
  }

  // The buffer `full` with its first bytes replaced by `data`.
  function Overwrite(full: Bytes, data: Bytes): (r: Bytes)
    requires |data| <= |full|
    ensures |r| == |full|
    ensures forall i :: 0 <= i < |full| ==> r[i] == if i < |data| then data[i] else full[i]
  {
    data + full[|data|..]
  }

  function DoHtoD(s: Session, dst: u64, data: Bytes): Outcome {
    if |data| > MAX_MEMCPY then Outcome(s, Failed(MemcpyTooLarge))
    else if dst !in s.buffers then Outcome(s, Failed(InvalidPtr(dst)))
    else if |data| > |s.buffers[dst]| then Outcome(s, Failed(HtoDOverflow))
    else Outcome(s.(buffers := s.buffers[dst := Overwrite(s.buffers[dst], data)]), Done(NOTHING))
  }

  function DoDtoH(s: Session, src: u64, bytes: u64): Reply {
    if bytes > MAX_MEMCPY then Failed(MemcpyTooLarge)
    else if src !in s.buffers then Failed(InvalidPtr(src))
    else if bytes > |s.buffers[src]| then Failed(DtoHOverflow)
    else Done(NOTHING.(data := Some(s.buffers[src][..bytes])))
  }

  function DoDtoD(s: Session, dst: u64, src: u64, bytes: u64): Outcome {
    var r := DoDtoH(s, src, bytes);
    if !r.ok then Outcome(s, r) else DoHtoD(s, dst, r.partial.data.GetOr([]))
  }

  function DoMemset(s: Session, p: u64, value: byte, bytes: u64): Outcome {
    if p !in s.buffers then Outcome(s, Failed(InvalidPtr(p)))
    else if bytes > |s.buffers[p]| then Outcome(s, Failed(MemsetOverflow))
    else Outcome(s.(buffers := s.buffers[p := Overwrite(s.buffers[p], seq(bytes, _ => value))]), Done(NOTHING))
  }

  // The i-th little-endian word of a buffer.
  function WordAt(b: Bytes, i: nat): Word
    requires 4 * i + 4 <= |b|
  {
    b[4 * i..4 * i + 4]
  }

  // `out` after its first n words became the sums of the first n words of a and b.
  function VectorSum(add: FloatAdd, a: Bytes, b: Bytes, out: Bytes, n: nat): (r: Bytes)
    requires 4 * n <= |a| && 4 * n <= |b| && 4 * n <= |out|
    ensures |r| == |out|
  {
    seq(|out|, i requires 0 <= i < |out| =>
      if i < 4 * n then add(WordAt(a, i / 4), WordAt(b, i / 4))[i % 4] else out[i])
  }

  // The first of `ptrs` that is dead or shorter than `need`, as the fault it causes.
  function FirstUnusable(m: Memory, ptrs: seq<u64>, need: nat): Option<Fault> {
    if ptrs == [] then None
    else if ptrs[0] !in m then Some(InvalidPtr(ptrs[0]))
    else if |m[ptrs[0]]| < need then Some(VectorAddTooSmall)
    else FirstUnusable(m, ptrs[1..], need)
  }

  lemma {:induction false} UsableIff(m: Memory, a: u64, b: u64, out: u64, need: nat)
    ensures FirstUnusable(m, [a, b, out], need).None? <==>
            forall p :: p in {a, b, out} ==> p in m && need <= |m[p]|
  {
    assert [a, b, out][1..] == [b, out] && [b, out][1..] == [out];
    assert FirstUnusable(m, [], need).None?;
    assert FirstUnusable(m, [out], need).None? <==> out in m && need <= |m[out]|;
    assert FirstUnusable(m, [b, out], need).None? <==> b in m && need <= |m[b]| && FirstUnusable(m, [out], need).None?;
  }

  function DoVectorAdd(add: FloatAdd, s: Session, a: u64, b: u64, out: u64, n: u32): Outcome {
    match FirstUnusable(s.buffers, [a, b, out], 4 * n)
    case Some(f) => Outcome(s, Failed(f))
    case None =>
      UsableIff(s.buffers, a, b, out, 4 * n);
      Outcome(s.(buffers := s.buffers[out := VectorSum(add, s.buffers[a], s.buffers[b], s.buffers[out], n)]),
              Done(NOTHING))
  }

  function DoMemGetInfo(s: Session): Reply {
    var total := if s.currentDevice < |s.devices| then SatMul(s.devices[s.currentDevice].vramTotalMb, 1024 * 1024)
                 else s.maxAlloc;
    Done(NOTHING.(freeBytes := Some(Min(SatSub(s.maxAlloc, s.used), total)), totalBytes := Some(total)))
  }

  function DoLoadPtx(ptx: Bytes): Reply {
    if |ptx| > MAX_PTX_BYTES then Failed(PtxTooLarge) else Failed(LoadNeedsDriver)
  }

  predicate IsNameChar(c: char) {
    '0' <= c <= '9' || 'a' <= c <= 'z' || 'A' <= c <= 'Z' || c == '_'
  }

  function DoLaunch(name: string, args: seq<u64>): Reply {
    if |args| > MAX_KERNEL_ARGS then Failed(TooManyArgs)
    else if name == "" || |name| > 128 || exists i :: 0 <= i < |name| && !IsNameChar(name[i]) then
      Failed(InvalidFunctionName)
    else Failed(LaunchNeedsDriver)
  }

  function DoEventElapsed(s: Session, start: u64, end: u64): Reply {
    if start in s.events && end in s.events then
      Done(NOTHING.(elapsed := Some(if s.events[start] <= s.events[end] then s.events[end] - s.events[start] else 0)))
    else Failed(InvalidEventIds)
  }

  function Step(add: FloatAdd, s: Session, c: Call): Outcome {
    match c.op
    case DeviceCount => Outcome(s, Done(NOTHING.(deviceCount := Some(|s.devices| % U32_LIMIT))))
    case DeviceProps(d) =>
      Outcome(s, if d < |s.devices| then Done(NOTHING.(device := Some(s.devices[d])))
                 else Failed(InvalidDeviceIndex(d)))
    case GetDevice => Outcome(s, Done(NOTHING.(deviceIndex := Some(s.currentDevice))))
    case SetDevice(d) =>
      if d >= |s.devices| then Outcome(s, Failed(InvalidDevice(d)))
      else Outcome(s.(currentDevice := d), Done(NOTHING.(deviceIndex := Some(d))))
    case MemGetInfo => Outcome(s, DoMemGetInfo(s))
    case EventCreate =>
      Outcome(s.(nextEvent := SatAdd(s.nextEvent, 1), events := s.events[s.nextEvent := c.now]),
              Done(NOTHING.(eventId := Some(s.nextEvent))))
    case EventDestroy(e) =>
      if e in s.events then Outcome(s.(events := s.events - {e}), Done(NOTHING))
      else Outcome(s, Failed(InvalidEvent(e)))
    case EventRecord(e) =>
      if e in s.events then Outcome(s.(events := s.events[e := c.now]), Done(NOTHING))
      else Outcome(s, Failed(InvalidEvent(e)))
    case EventElapsed(a, b) => Outcome(s, DoEventElapsed(s, a, b))
    case Sync => Outcome(s, Done(NOTHING))
    case Malloc(bytes) => DoMalloc(s, bytes)
    case Free(p) => DoFree(s, p)
    case MemcpyHtoD(dst, data) => DoHtoD(s, dst, data)
    case MemcpyDtoH(src, bytes) => Outcome(s, DoDtoH(s, src, bytes))
    case MemcpyDtoD(dst, src, bytes) => DoDtoD(s, dst, src, bytes)
    case Memset(p, v, bytes) => DoMemset(s, p, v, bytes)
    case VectorAddF32(a, b, out, n) => DoVectorAdd(add, s, a, b, out, n)
    case LoadModulePtx(ptx) => Outcome(s, DoLoadPtx(ptx))
    case LaunchKernel(_, name, args) => Outcome(s, DoLaunch(name, args))
  }

  // A run: the session after serving `calls` in order, and the replies it gave.
  function Run(add: FloatAdd, s: Session, calls: seq<Call>): Session {
    if calls == [] then s
    else Step(add, Run(add, s, calls[..|calls| - 1]), calls[|calls| - 1]).session
  }

  function Replies(add: FloatAdd, s: Session, calls: seq<Call>): (r: seq<Reply>)
    ensures |r| == |calls|
  {
    if calls == [] then []
    else Replies(add, s, calls[..|calls| - 1]) +
         [Step(add, Run(add, s, calls[..|calls| - 1]), calls[|calls| - 1]).reply]
  }

  lemma {:induction false} RunLast(add: FloatAdd, s: Session, calls: seq<Call>, c: Call)
    ensures Run(add, s, calls + [c]) == Step(add, Run(add, s, calls), c).session
    ensures Replies(add, s, calls + [c]) == Replies(add, s, calls) + [Step(add, Run(add, s, calls), c).reply]
  {
    assert (calls + [c])[..|calls|] == calls;
  }

  lemma {:induction false} RunAppend(add: FloatAdd, s: Session, a: seq<Call>, b: seq<Call>)
    ensures Run(add, s, a + b) == Run(add, Run(add, s, a), b)
    ensures Replies(add, s, a + b) == Replies(add, s, a) + Replies(add, Run(add, s, a), b)
  {
    hide Step;
    if b == [] {
      assert a + b == a;
    } else {
      var b', c := b[..|b| - 1], b[|b| - 1];
      assert b == b' + [c] && a + b == (a + b') + [c];
      RunAppend(add, s, a, b');
      RunLast(add, s, a + b', c);
      RunLast(add, Run(add, s, a), b', c);
    }
  }

  lemma {:induction false} RepliesAt(add: FloatAdd, s: Session, calls: seq<Call>, i: nat)
    requires i < |calls|
    ensures Replies(add, s, calls)[i] == Step(add, Run(add, s, calls[..i]), calls[i]).reply
  {
    if i < |calls| - 1 {
      RepliesAt(add, s, calls[..|calls| - 1], i);
      assert calls[..|calls| - 1][..i] == calls[..i];
    }
  }
}
