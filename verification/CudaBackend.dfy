/** The host-memory backend: fields updated in place, buffers edited by cloning them, changing the
    clone and writing the whole clone back. Every method is proved against CudaSession.Step. */
module CudaBackend {
  import opened Base
  import opened CudaOps
  import S = CudaSession

  function Settled(fault: Option<Fault>): Reply {
    match fault
    case Some(f) => Failed(f)
    case None => Done(NOTHING)
  }

  class BackendSession {
    const add: FloatAdd
    const devices: seq<DeviceInfo>
    const maxAlloc: u64
    var used: u64
    var nextPtr: u64
    var nextEvent: u64
    var currentDevice: u32
    var events: map<u64, nat>
    var hostBuffers: map<u64, Bytes>

    ghost function State(): S.Session
      reads this
    {
      S.Session(devices, maxAlloc, used, nextPtr, nextEvent, currentDevice, events, hostBuffers)
    }

    constructor (add: FloatAdd, maxAlloc: u64, devices: seq<DeviceInfo>)
      ensures State() == S.Open(maxAlloc, devices)
      ensures this.add == add
    {
      this.add := add;
      this.devices := devices;
      this.maxAlloc := maxAlloc;
      used := 0;
      nextPtr := 0x1000;
      nextEvent := 1;
      currentDevice := 0;
      events := map[];
      hostBuffers := map[];
    }

    method CheckAlloc(bytes: u64) returns (fault: Option<Fault>)
      ensures fault == S.CheckAlloc(State(), bytes)
    {
      if bytes == 0 {
        return Some(MallocZero);
      }
      if bytes > S.MAX_SINGLE_ALLOC {
        return Some(OverBufferCap(bytes));
      }
      if SatAdd(used, bytes) > maxAlloc {
        return Some(OverSessionCap(used, bytes, maxAlloc));
      }
      return None;
    }

    method OpMalloc(bytes: u64) returns (reply: Reply)
      modifies this
      ensures S.Outcome(State(), reply) == S.DoMalloc(old(State()), bytes)
    {
      var fault := CheckAlloc(bytes);
      if fault.Some? {
        return Failed(fault.value);
      }
      var ptr := nextPtr;
      nextPtr := SatAdd(SatAdd(nextPtr, Max(bytes, 64)), 64);
      hostBuffers := hostBuffers[ptr := Zeros(bytes)];
      used := SatAdd(used, bytes);
      return Done(NOTHING.(ptr := Some(ptr)));
    }

    method OpFree(ptr: u64) returns (reply: Reply)
      modifies this
      ensures S.Outcome(State(), reply) == S.DoFree(old(State()), ptr)
    {
      if ptr in hostBuffers {
        var len := |hostBuffers[ptr]|;
        hostBuffers := hostBuffers - {ptr};
        used := if len <= used then used - len else 0;
        return Done(NOTHING);
      }
      return Failed(InvalidDevicePtr(ptr));
    }

    method ReadBuf(ptr: u64) returns (r: Result<Bytes, Fault>)
      ensures r == if ptr in hostBuffers then Ok(hostBuffers[ptr]) else Err(InvalidPtr(ptr))
    {
      if ptr in hostBuffers {
        return Ok(hostBuffers[ptr]);
      }
      return Err(InvalidPtr(ptr));
    }

    method WriteBuf(ptr: u64, data: Bytes) returns (fault: Option<Fault>)
      modifies this`hostBuffers
      ensures fault == if ptr !in old(hostBuffers) then Some(InvalidPtr(ptr))
                       else if |data| != |old(hostBuffers)[ptr]| then Some(SizeMismatch)
                       else None
      ensures hostBuffers == if fault.None? then old(hostBuffers)[ptr := data] else old(hostBuffers)
    {
      if ptr !in hostBuffers {
        return Some(InvalidPtr(ptr));
      }
      if |data| != |hostBuffers[ptr]| {
        return Some(SizeMismatch);
      }
      hostBuffers := hostBuffers[ptr := data];
      return None;
    }

    method BufLen(ptr: u64) returns (r: Result<nat, Fault>)
      ensures r == if ptr in hostBuffers then Ok(|hostBuffers[ptr]|) else Err(InvalidPtr(ptr))
    {
      if ptr in hostBuffers {
        return Ok(|hostBuffers[ptr]|);
      }
      return Err(InvalidPtr(ptr));
    }

    method OpHtoD(dst: u64, data: Bytes) returns (reply: Reply)
      modifies this`hostBuffers
      ensures S.Outcome(State(), reply) == S.DoHtoD(old(State()), dst, data)
    {
      if |data| > S.MAX_MEMCPY {
        return Failed(MemcpyTooLarge);
      }
      var r := ReadBuf(dst);
      if r.Err? {
        return Failed(r.error);
      }
      var full := r.value;
      if |data| > |full| {
        return Failed(HtoDOverflow);
      }
      full := data + full[|data|..];
      var fault := WriteBuf(dst, full);
      return Settled(fault);
    }

    method OpDtoH(src: u64, bytes: u64) returns (reply: Reply)
      ensures reply == S.DoDtoH(State(), src, bytes)
    {
      if bytes > S.MAX_MEMCPY {
        return Failed(MemcpyTooLarge);
      }
      var r := ReadBuf(src);
      if r.Err? {
        return Failed(r.error);
      }
      if bytes <= |r.value| {
        return Done(NOTHING.(data := Some(r.value[..bytes])));
      }
      return Failed(DtoHOverflow);
    }

    method OpDtoD(dst: u64, src: u64, bytes: u64) returns (reply: Reply)
      modifies this`hostBuffers
      ensures S.Outcome(State(), reply) == S.DoDtoD(old(State()), dst, src, bytes)
    {
      reply := OpDtoH(src, bytes);
      if !reply.ok {
        return;
      }
      reply := OpHtoD(dst, reply.partial.data.GetOr([]));
    }

    method OpMemset(ptr: u64, value: byte, bytes: u64) returns (reply: Reply)
      modifies this`hostBuffers
      ensures S.Outcome(State(), reply) == S.DoMemset(old(State()), ptr, value, bytes)
    {
      var r := ReadBuf(ptr);
      if r.Err? {
        return Failed(r.error);
      }
      var full := r.value;
      if bytes > |full| {
        return Failed(MemsetOverflow);
      }
      full := seq(bytes, _ => value) + full[bytes..];
      assert full == S.Overwrite(r.value, seq(bytes, _ => value));
      var fault := WriteBuf(ptr, full);
      return Settled(fault);
    }

    method OpVectorAdd(a: u64, b: u64, out: u64, n: u32) returns (reply: Reply)
      modifies this`hostBuffers
      ensures S.Outcome(State(), reply) == S.DoVectorAdd(add, old(State()), a, b, out, n)
    {
      var need := SatMul(n, 4);
      var ptrs := [a, b, out];
      for k := 0 to 3
        invariant State() == old(State()) && need == 4 * n
        invariant S.FirstUnusable(hostBuffers, ptrs, need) == S.FirstUnusable(hostBuffers, ptrs[k..], need)
      {
        var len := BufLen(ptrs[k]);
        assert ptrs[k..][1..] == ptrs[k + 1..];
        if len.Err? {
          return Failed(len.error);
        }
        if len.value < need {
          return Failed(VectorAddTooSmall);
        }
      }
      S.UsableIff(hostBuffers, a, b, out, need);
      assert a in {a, b, out} && b in {a, b, out} && out in {a, b, out};
      var ab := ReadBuf(a);
      var bb := ReadBuf(b);
      var ob := ReadBuf(out);
      var sum := AddWords(ab.value, bb.value, ob.value, n);
      var fault := WriteBuf(out, sum);
      return Settled(fault);
    }

    // The summing loop of OpVectorAdd, word by word into the clone of the output buffer.
    method AddWords(ab: Bytes, bb: Bytes, out: Bytes, n: u32) returns (ob: Bytes)
      requires 4 * n <= |ab| && 4 * n <= |bb| && 4 * n <= |out|
      ensures ob == S.VectorSum(add, ab, bb, out, n)
    {
      ob := out;
      for i := 0 to n
        invariant |ob| == |out|
        invariant forall j :: 0 <= j < 4 * i ==> ob[j] == S.VectorSum(add, ab, bb, out, n)[j]
        invariant forall j :: 4 * i <= j < |out| ==> ob[j] == out[j]
      {
        var o := i * 4;
        var word := add(ab[o..o + 4], bb[o..o + 4]);
        ghost var before := ob;
        ob := ob[..o] + word + ob[o + 4..];
        assert forall j :: 0 <= j < o ==> ob[j] == before[j];
        assert forall j :: o + 4 <= j < |out| ==> ob[j] == before[j];
        forall j | o <= j < o + 4
          ensures ob[j] == S.VectorSum(add, ab, bb, out, n)[j]
        {
          assert j / 4 == i && j % 4 == j - o;
          assert ab[o..o + 4] == S.WordAt(ab, i) && bb[o..o + 4] == S.WordAt(bb, i);
        }
      }
      assert ob == S.VectorSum(add, ab, bb, out, n);
    }

    method OpLoadPtx(ptx: Bytes) returns (reply: Reply)
      ensures reply == S.DoLoadPtx(ptx)
    {
      if |ptx| > S.MAX_PTX_BYTES {
        return Failed(PtxTooLarge);
      }
      return Failed(LoadNeedsDriver);
    }

    method OpLaunch(name: string, args: seq<u64>) returns (reply: Reply)
      ensures reply == S.DoLaunch(name, args)
    {
      if |args| > S.MAX_KERNEL_ARGS {
        return Failed(TooManyArgs);
      }
      if name == "" || |name| > 128 || exists i :: 0 <= i < |name| && !S.IsNameChar(name[i]) {
        return Failed(InvalidFunctionName);
      }
      return Failed(LaunchNeedsDriver);
    }

    method Exec(c: Call) returns (reply: Reply)
      modifies this
      ensures S.Outcome(State(), reply) == S.Step(add, old(State()), c)
    {
      match c.op {
        case DeviceCount =>
          reply := Done(NOTHING.(deviceCount := Some(|devices| % U32_LIMIT)));
        case DeviceProps(device) =>
          if device < |devices| {
            reply := Done(NOTHING.(device := Some(devices[device])));
          } else {
            reply := Failed(InvalidDeviceIndex(device));
          }
        case GetDevice =>
          reply := Done(NOTHING.(deviceIndex := Some(currentDevice)));
        case SetDevice(device) =>
          if device >= |devices| {
            return Failed(InvalidDevice(device));
          }
          currentDevice := device;
          reply := Done(NOTHING.(deviceIndex := Some(device)));
        case MemGetInfo =>
          var total := maxAlloc;
          if currentDevice < |devices| {
            total := SatMul(devices[currentDevice].vramTotalMb, 1024 * 1024);
          }
          var free := Min(SatSub(maxAlloc, used), total);
          reply := Done(NOTHING.(freeBytes := Some(free), totalBytes := Some(total)));
        case EventCreate =>
          var id := nextEvent;
          nextEvent := SatAdd(nextEvent, 1);
          events := events[id := c.now];
          reply := Done(NOTHING.(eventId := Some(id)));
        case EventDestroy(event) =>
          if event in events {
            events := events - {event};
            reply := Done(NOTHING);
          } else {
            reply := Failed(InvalidEvent(event));
          }
        case EventRecord(event) =>
          if event in events {
            events := events[event := c.now];
            reply := Done(NOTHING);
          } else {
            reply := Failed(InvalidEvent(event));
          }
        case EventElapsed(start, end) =>
          if start in events && end in events {
            var ns := if events[start] <= events[end] then events[end] - events[start] else 0;
            reply := Done(NOTHING.(elapsed := Some(ns)));
          } else {
            reply := Failed(InvalidEventIds);
          }
        case Sync =>
          reply := Done(NOTHING);
        case Malloc(bytes) =>
          reply := OpMalloc(bytes);
        case Free(ptr) =>
          reply := OpFree(ptr);
        case MemcpyHtoD(dst, data) =>
          reply := OpHtoD(dst, data);
        case MemcpyDtoH(src, bytes) =>
          reply := OpDtoH(src, bytes);
        case MemcpyDtoD(dst, src, bytes) =>
          reply := OpDtoD(dst, src, bytes);
        case Memset(ptr, value, bytes) =>
          reply := OpMemset(ptr, value, bytes);
        case VectorAddF32(a, b, out, n) =>
          reply := OpVectorAdd(a, b, out, n);
        case LoadModulePtx(ptx) =>
          reply := OpLoadPtx(ptx);
        case LaunchKernel(_, name, args) =>
          reply := OpLaunch(name, args);
      }
    }
  }
}
