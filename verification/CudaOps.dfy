/** The operations a remoting client may ask for and the answers it gets back. */
module CudaOps {
  import opened Base

  // A little-endian f32 as it lies in a buffer.
  type Word = w: Bytes | |w| == 4 witness [0, 0, 0, 0]

  // IEEE 754 addition stays abstract: any operation on words will do.
  type FloatAdd = (Word, Word) -> Word

  datatype DeviceInfo = DeviceInfo(index: u32, name: string, vramTotalMb: u64, vramFreeMb: u64,
                                   computeCapability: Option<string>)

  datatype Op =
    | DeviceCount
    | DeviceProps(device: u32)
    | Malloc(bytes: u64)
    | Free(ptr: u64)
    | MemcpyHtoD(dst: u64, data: Bytes)
    | MemcpyDtoH(src: u64, bytes: u64)
    | MemcpyDtoD(dst: u64, src: u64, bytes: u64)
    | Memset(ptr: u64, value: byte, bytes: u64)
    | Sync
    | MemGetInfo
    | SetDevice(device: u32)
    | GetDevice
    | EventCreate
    | EventDestroy(event: u64)
    | EventRecord(event: u64)
    | EventElapsed(start: u64, end: u64)
    | LoadModulePtx(ptx: Bytes)
    | LaunchKernel(moduleId: u64, kernel: string, args: seq<u64>)
    | VectorAddF32(a: u64, b: u64, out: u64, n: u32)

  datatype Fault =
    | InvalidDeviceIndex(device: u32)
    | InvalidDevice(device: u32)
    | InvalidEvent(event: u64)
    | InvalidEventIds
    | MallocZero
    | OverBufferCap(bytes: u64)
    | OverSessionCap(used: u64, bytes: u64, cap: u64)
    | InvalidDevicePtr(ptr: u64)
    | InvalidPtr(ptr: u64)
    | SizeMismatch
    | MemcpyTooLarge
    | HtoDOverflow
    | DtoHOverflow
    | MemsetOverflow
    | VectorAddTooSmall
    | PtxTooLarge
    | LoadNeedsDriver
    | TooManyArgs
    | InvalidFunctionName
    | LaunchNeedsDriver
    | UnknownSession

  // CudaPartial: the optional fields an operation may fill in.
  datatype Partial = Partial(
    deviceCount: Option<u32>,
    device: Option<DeviceInfo>,
    ptr: Option<u64>,
    data: Option<Bytes>,
    freeBytes: Option<u64>,
    totalBytes: Option<u64>,
    deviceIndex: Option<u32>,
    eventId: Option<u64>,
    elapsed: Option<nat>)

  const NOTHING := Partial(None, None, None, None, None, None, None, None, None)

  datatype Reply = Reply(ok: bool, error: Option<Fault>, partial: Partial)

  function Done(p: Partial): Reply {
    Reply(true, None, p)
  }

  function Failed(f: Fault): Reply {
    Reply(false, Some(f), NOTHING)
  }

  // One request together with the clock reading the host takes while serving it.
  datatype Call = Call(op: Op, now: nat)

  // The buffer handles an operation mentions.
  function HandlesOf(op: Op): set<u64> {
    match op
    case Free(p) => {p}
    case MemcpyHtoD(d, _) => {d}
    case MemcpyDtoH(s, _) => {s}
    case MemcpyDtoD(d, s, _) => {d, s}
    case Memset(p, _, _) => {p}
    case VectorAddF32(a, b, o, _) => {a, b, o}
    case _ => {}
  }
}
