/** What the replies of a session say: the answers to questions about the device, and the reasons of refusals. */
module CudaReplies {
  import opened Base
  import opened CudaOps
  import opened CudaSession
  import opened CudaData
  import opened CudaAccounting

  // A new session uses device 0, and its first handle and first event id are these.
  lemma {:induction false} FirstReplies(add: FloatAdd, maxAlloc: u64, devices: seq<DeviceInfo>, bytes: u64, now: nat)
    ensures var s := Open(maxAlloc, devices);
            && Step(add, s, Call(GetDevice, now)).reply == Done(NOTHING.(deviceIndex := Some(0)))
            && Step(add, s, Call(EventCreate, now)).reply == Done(NOTHING.(eventId := Some(1)))
            && (0 < bytes <= Min(maxAlloc, 0x1000_0000) ==>
                 Step(add, s, Call(Malloc(bytes), now)).reply == Done(NOTHING.(ptr := Some(0x1000))))
  {
  }

  // The device that the last successful SetDevice chose, 0 before the first.
  function LastChosen(calls: seq<Call>, count: nat): nat {
    if calls == [] then 0
    else
      var op := calls[|calls| - 1].op;
      if op.SetDevice? && op.device < count then op.device else LastChosen(calls[..|calls| - 1], count)
  }

  // On every run, the questions about devices are answered from the list the session was opened with:
  // their number, each one's properties, and the one that was chosen last.
  lemma {:induction false} DeviceReplies(add: FloatAdd, maxAlloc: u64, devices: seq<DeviceInfo>, calls: seq<Call>,
                                         d: u32, now: nat)
    ensures var s := Run(add, Open(maxAlloc, devices), calls);
            && s.devices == devices && s.maxAlloc == maxAlloc && s.currentDevice == LastChosen(calls, |devices|)
            && Step(add, s, Call(DeviceCount, now)).reply ==
                 Done(NOTHING.(deviceCount := Some(|devices| % 0x1_0000_0000)))
            && Step(add, s, Call(GetDevice, now)).reply == Done(NOTHING.(deviceIndex := Some(s.currentDevice)))
            && Step(add, s, Call(DeviceProps(d), now)).reply ==
                 (if d < |devices| then Done(NOTHING.(device := Some(devices[d]))) else Failed(InvalidDeviceIndex(d)))
            && Step(add, s, Call(SetDevice(d), now)).reply ==
                 (if d < |devices| then Done(NOTHING.(deviceIndex := Some(d))) else Failed(InvalidDevice(d)))
            && Step(add, s, Call(Sync, now)).reply == Done(NOTHING)
  {
    if calls != [] {
      DeviceReplies(add, maxAlloc, devices, calls[..|calls| - 1], d, now);
      DeviceStep(add, Run(add, Open(maxAlloc, devices), calls[..|calls| - 1]), calls[|calls| - 1]);
    }
    hide DoMalloc, DoFree, DoVectorAdd, DoHtoD, DoDtoD, DoMemset, DoMemGetInfo, DoLaunch;
  }

  lemma {:induction false} DeviceStep(add: FloatAdd, s: Session, c: Call)
    ensures var s' := Step(add, s, c).session;
            s'.devices == s.devices && s'.maxAlloc == s.maxAlloc &&
            s'.currentDevice == if c.op.SetDevice? && c.op.device < |s.devices| then c.op.device else s.currentDevice
  {
  }

  lemma {:induction false} MegabytesInBytes(mb: u64)
    ensures SatMul(mb, 1024 * 1024) == Min(mb * 0x10_0000, U64_MAX)
  {
  }

  // The memory of the chosen device in bytes, as far as a u64 can tell, or the budget if there is no device.
  function DeviceMemory(s: Session): nat {
    if s.currentDevice < |s.devices| then Min(s.devices[s.currentDevice].vramTotalMb * 0x10_0000, U64_MAX)
    else s.maxAlloc
  }

  lemma {:induction false} MemInfoReply(add: FloatAdd, s: Session, now: nat)
    ensures Step(add, s, Call(MemGetInfo, now)).reply ==
            Done(NOTHING.(freeBytes := Some(Min(Max(s.maxAlloc - s.used, 0), DeviceMemory(s))),
                          totalBytes := Some(DeviceMemory(s))))
  {
    if s.currentDevice < |s.devices| {
      MegabytesInBytes(s.devices[s.currentDevice].vramTotalMb);
    }
    hide SatMul;
  }

  // On every run, MemGetInfo reports the memory of the device as total, and as free what the live buffers
  // leave of the budget, but no more than that. Once the handle counter has saturated it may report less.
  lemma {:induction false} ReportedMemory(add: FloatAdd, maxAlloc: u64, devices: seq<DeviceInfo>, calls: seq<Call>,
                                          now: nat)
    ensures var s := Run(add, Open(maxAlloc, devices), calls);
            var r := Step(add, s, Call(MemGetInfo, now)).reply;
            && r.ok && r.partial.totalBytes == Some(DeviceMemory(s)) && r.partial.freeBytes.Some?
            && r.partial.freeBytes.value <= Min(s.maxAlloc - Total(s.buffers), DeviceMemory(s))
            && (s.nextPtr < U64_MAX ==>
                 r.partial.freeBytes.value == Min(s.maxAlloc - Total(s.buffers), DeviceMemory(s)))
  {
    var s := Run(add, Open(maxAlloc, devices), calls);
    RunInvariant(add, maxAlloc, devices, calls);
    MemInfoReply(add, s, now);
    hide Run, Total, Step, DeviceMemory, Layout, Capped, Footprint, Low;
  }

  // Why an allocation, free or copy is refused, in the order in which the reasons are looked at.
  lemma {:induction false} WhyMemoryRefused(add: FloatAdd, s: Session, p: u64, q: u64, n: u64,
                                            data: Bytes, v: byte, now: nat)
    ensures Step(add, s, Call(Malloc(n), now)).reply.error ==
            if n == 0 then Some(MallocZero)
            else if n > 0x1000_0000 then Some(OverBufferCap(n))
            else if Min(s.used + n, U64_MAX) > s.maxAlloc then Some(OverSessionCap(s.used, n, s.maxAlloc))
            else None
    ensures Step(add, s, Call(Free(p), now)).reply.error == if p in s.buffers then None else Some(InvalidDevicePtr(p))
    ensures Step(add, s, Call(MemcpyHtoD(p, data), now)).reply.error ==
            if |data| > 0x400_0000 then Some(MemcpyTooLarge)
            else if p !in s.buffers then Some(InvalidPtr(p))
            else if |data| > |s.buffers[p]| then Some(HtoDOverflow)
            else None
    ensures Step(add, s, Call(MemcpyDtoH(p, n), now)).reply.error ==
            if n > 0x400_0000 then Some(MemcpyTooLarge)
            else if p !in s.buffers then Some(InvalidPtr(p))
            else if n > |s.buffers[p]| then Some(DtoHOverflow)
            else None
    ensures Step(add, s, Call(MemcpyDtoD(p, q, n), now)).reply.error ==
            if n > 0x400_0000 then Some(MemcpyTooLarge)
            else if q !in s.buffers then Some(InvalidPtr(q))
            else if n > |s.buffers[q]| then Some(DtoHOverflow)
            else if p !in s.buffers then Some(InvalidPtr(p))
            else if n > |s.buffers[p]| then Some(HtoDOverflow)
            else None
    ensures Step(add, s, Call(Memset(p, v, n), now)).reply.error ==
            if p !in s.buffers then Some(InvalidPtr(p))
            else if n > |s.buffers[p]| then Some(MemsetOverflow)
            else None
  {
    hide Overwrite, Zeros, DoVectorAdd, DoMemGetInfo, DoLaunch, DoEventElapsed;
  }

  predicate IsShort(m: Memory, p: u64, n: u32) {
    p in m && |m[p]| < 4 * n
  }

  // Why a vector addition is refused.
  lemma {:induction false} WhyVectorRefused(add: FloatAdd, s: Session, a: u64, b: u64, out: u64, n: u32, now: nat)
    ensures Step(add, s, Call(VectorAddF32(a, b, out, n), now)).reply.error ==
            if a !in s.buffers then Some(InvalidPtr(a))
            else if IsShort(s.buffers, a, n) then Some(VectorAddTooSmall)
            else if b !in s.buffers then Some(InvalidPtr(b))
            else if IsShort(s.buffers, b, n) then Some(VectorAddTooSmall)
            else if out !in s.buffers then Some(InvalidPtr(out))
            else if IsShort(s.buffers, out, n) then Some(VectorAddTooSmall)
            else None
  {
    FirstUnusableIs(s.buffers, a, b, out, n);
    hide FirstUnusable, IsShort;
  }

  // Why an event operation, a module or a kernel is refused.
  lemma {:induction false} WhyOthersRefused(add: FloatAdd, s: Session, a: u64, b: u64, ptx: Bytes, m: u64, name: string,
                                            args: seq<u64>, now: nat)
    ensures Step(add, s, Call(EventRecord(a), now)).reply.error == if a in s.events then None else Some(InvalidEvent(a))
    ensures Step(add, s, Call(EventDestroy(a), now)).reply.error ==
            if a in s.events then None else Some(InvalidEvent(a))
    ensures Step(add, s, Call(EventElapsed(a, b), now)).reply.error ==
            if a in s.events && b in s.events then None else Some(InvalidEventIds)
    ensures Step(add, s, Call(LoadModulePtx(ptx), now)).reply.error ==
            Some(if |ptx| > 0x4_0000 then PtxTooLarge else LoadNeedsDriver)
    ensures Step(add, s, Call(LaunchKernel(m, name, args), now)).reply.error ==
            Some(if |args| > 16 then TooManyArgs
                 else if !(1 <= |name| <= 128) || exists c :: c in name && !IsNameChar(c) then InvalidFunctionName
                 else LaunchNeedsDriver)
  {
    if i :| 0 <= i < |name| && !IsNameChar(name[i]) {
      assert name[i] in name;
    }
    hide IsNameChar, DoMalloc, DoFree, DoHtoD, DoDtoD, DoMemset, DoMemGetInfo, DoVectorAdd;
  }

  // A kernel name consists of ASCII letters, digits and underscores.
  lemma {:induction false} KernelNames(c: char)
    ensures IsNameChar(c) <==> c == '_' || 48 <= c as int <= 57 || 65 <= c as int <= 90 || 97 <= c as int <= 122
  {
  }

  lemma {:induction false} FirstUnusableIs(m: Memory, a: u64, b: u64, out: u64, n: u32)
    ensures FirstUnusable(m, [a, b, out], 4 * n) ==
            if a !in m then Some(InvalidPtr(a)) else if IsShort(m, a, n) then Some(VectorAddTooSmall)
            else if b !in m then Some(InvalidPtr(b)) else if IsShort(m, b, n) then Some(VectorAddTooSmall)
            else if out !in m then Some(InvalidPtr(out)) else if IsShort(m, out, n) then Some(VectorAddTooSmall)
            else None
  {
    assert [a, b, out][1..] == [b, out] && [b, out][1..] == [out];
    assert FirstUnusable(m, [], 4 * n) == None;
    assert FirstUnusable(m, [out], 4 * n) ==
           if out !in m then Some(InvalidPtr(out)) else if IsShort(m, out, n) then Some(VectorAddTooSmall) else None;
    assert FirstUnusable(m, [b, out], 4 * n) ==
           if b !in m then Some(InvalidPtr(b)) else if IsShort(m, b, n) then Some(VectorAddTooSmall)
           else FirstUnusable(m, [out], 4 * n);
  }
}
