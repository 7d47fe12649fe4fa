/** What an application behind the bridge gets: every request is understood as the operation it stands for,
    and answered once, in order, with the reply of that operation. */
module BridgeAnswers {
  import opened Base
  import opened CudaOps
  import opened CudaSession
  import opened Remoting
  import opened Transparency
  import opened B = Bridge

  // ---- Requests ----

  function Numbers(data: Bytes): (items: seq<Option<u64>>)
    ensures |items| == |data| && forall i :: 0 <= i < |data| ==> items[i] == Some(data[i] as u64)
  {
    seq(|data|, i requires 0 <= i < |data| => Some(data[i] as u64))
  }

  // The request that the runtime stub sends for an operation; it has no request for the others.
  function StubRequest(op: Op): Option<Request> {
    match op
    case DeviceCount => Some(Request("device_count", None, None, None, None, None, None))
    case Malloc(bytes) => Some(Request("malloc", Some(bytes), None, None, None, None, None))
    case Free(ptr) => Some(Request("free", None, Some(ptr), None, None, None, None))
    case MemcpyHtoD(dst, data) => Some(Request("htod", None, None, None, Some(dst), None, Some(Numbers(data))))
    case MemcpyDtoH(src, bytes) => Some(Request("dtoh", Some(bytes), None, Some(src), None, None, None))
    case Sync => Some(Request("sync", None, None, None, None, None, None))
    case VectorAddF32(a, b, out, n) => Some(Request("vector_add_f32", None, Some(out), Some(b), Some(a), Some(n), None))
    case _ => None
  }

  lemma {:induction false} LowBytesOfNumbers(data: Bytes)
    ensures LowBytes(Numbers(data)) == data
  {
    if data != [] {
      LowBytesOfNumbers(data[1..]);
      assert Numbers(data)[1..] == Numbers(data[1..]);
      assert data == [data[0]] + data[1..];
    }
  }

  // The bridge understands each request of the stub as the operation it was made for.
  lemma {:induction false} StubIsUnderstood(op: Op)
    requires StubRequest(op).Some?
    ensures Translate(StubRequest(op).value) == Some(op)
  {
    if op.MemcpyHtoD? {
      LowBytesOfNumbers(op.data);
    }
  }

  const NAMES := {"device_count", "malloc", "free", "htod", "dtoh", "sync", "vector_add_f32"}

  // Exactly the seven names are understood, and an absent field counts as zero or as no data.
  lemma {:induction false} OnlySevenNames(r: Request)
    ensures Known(r) <==> r.op in NAMES
    ensures Translate(r) == Translate(Request(r.op, Some(r.bytes.GetOr(0)), Some(r.ptr.GetOr(0)), Some(r.src.GetOr(0)),
                                              Some(r.dst.GetOr(0)), Some(r.n.GetOr(0)), Some(r.data.GetOr([]))))
  {
  }

  // Data is cut to bytes number by number, and what is no number is skipped.
  lemma {:induction false} DataIsCutToBytes(a: seq<Option<u64>>, x: Option<u64>)
    ensures LowBytes(a + [x]) == LowBytes(a) + if x.Some? then [(x.value % 0x100) as byte] else []
  {
    if a == [] {
      assert (a + [x])[1..] == [] && LowBytes([]) == [];
    } else {
      assert (a + [x])[1..] == a[1..] + [x] && (a + [x])[0] == a[0];
      DataIsCutToBytes(a[1..], x);
      LowBytesFirst(a);
      LowBytesFirst(a + [x]);
      hide LowBytes;
    }
  }

  lemma {:induction false} LowBytesFirst(a: seq<Option<u64>>)
    requires a != []
    ensures LowBytes(a) == (if a[0].Some? then [(a[0].value % 256) as byte] else []) + LowBytes(a[1..])
  {
  }

  // ---- Answers ----

  // The successful replies to these operations carry the field the bridge looks for.
  lemma {:induction false} FieldIsThere(add: FloatAdd, s: Session, c: Call)
    ensures var r := Step(add, s, c).reply;
            r.ok ==> (c.op.DeviceCount? ==> r.partial.deviceCount.Some?) && (c.op.Malloc? ==> r.partial.ptr.Some?) &&
                     (c.op.MemcpyDtoH? ==> r.partial.data.Some?)
  {
  }

  lemma {:induction false} ResponseOfReply(op: Op, result: OpResult)
    requires result.ok ==> (op.DeviceCount? ==> result.deviceCount.Some?) && (op.Malloc? ==> result.ptr.Some?) &&
                           (op.MemcpyDtoH? ==> result.data.Some?)
    ensures Respond(op, Ok(result)) ==
            if !result.ok then Bad(Backend(result.error))
            else Good(if op.DeviceCount? then result.deviceCount else None, if op.Malloc? then result.ptr else None,
                      if op.MemcpyDtoH? then result.data else None)
  {
  }

  // What an application sees for an operation is the outcome of that very operation, run by the session in
  // lock order: its error, or what it returns. Only when the remote call itself was abandoned is it
  // told so instead.
  lemma {:induction false} AnswerIsReply(add: FloatAdd, start: B.Bridge, es: seq<B.Event>, b: B.Bridge,
                                         c: nat, i: nat, op: Op) returns (k: nat)
    requires B.IsStart(start) && B.Follow(add, start, es) == Some(b) && IdsDistinct(b.system)
    requires c in b.conns && i < |b.conns[c].history| && StubRequest(op) == Some(b.conns[c].history[i].request)
    ensures var response := b.conns[c].history[i].response;
            (!b.system.clean && response.Bad? && response.trouble.Lost?) ||
            (k < |b.system.executed| && b.system.executed[k].op == op &&
             var r := Step(add, Run(add, start.system.table[start.system.sid], b.system.executed[..k]),
                           b.system.executed[k]).reply;
             if !r.ok then response == Bad(Backend(r.error))
             else response == Good(if op.DeviceCount? then r.partial.deviceCount else None,
                                   if op.Malloc? then r.partial.ptr else None,
                                   if op.MemcpyDtoH? then r.partial.data else None))
  {
    var init := start.system.table[start.system.sid];
    StubIsUnderstood(op);
    B.ReachableInv(add, start, es, b);
    hide B.Follow, B.IsStart, StubRequest;
    k := ExchangeAt(b, c, i);
    assert Translate(b.order[k].request) == Some(b.system.sent[k]);
    hide B.Inv, Translate;
    var results, local := b.system.results, Replies(add, init, b.system.executed);
    assert ResultsRight(local, b.system.consumed, results, b.system.clean);
    assert OpsInFlight(b.system.sid, b.system.sent, b.system.executed, b.system.toServer);
    if results[k].Ok? {
      assert Agrees(results[k].value, local[k]);
      RepliesAt(add, init, b.system.executed, k);
      FieldIsThere(add, Run(add, init, b.system.executed[..k]), b.system.executed[k]);
      hide Step, Transparency.Inv, Respond;
      ResponseOfReply(op, results[k].value);
    }
  }

  // A read through the bridge brings the bytes of the buffer, or the error that there are not so many.
  lemma {:induction false} ReadBringsBytes(add: FloatAdd, start: B.Bridge, es: seq<B.Event>, b: B.Bridge,
                                           c: nat, i: nat, src: u64, n: u64) returns (k: nat)
    requires B.IsStart(start) && B.Follow(add, start, es) == Some(b) && IdsDistinct(b.system)
    requires c in b.conns && i < |b.conns[c].history|
    requires Some(b.conns[c].history[i].request) == StubRequest(MemcpyDtoH(src, n))
    ensures var response := b.conns[c].history[i].response;
            (!b.system.clean && response.Bad? && response.trouble.Lost?) ||
            (k <= |b.system.executed| &&
             var buffers := Run(add, start.system.table[start.system.sid], b.system.executed[..k]).buffers;
             if src in buffers && n <= Min(|buffers[src]|, 0x400_0000)
             then response == Good(None, None, Some(buffers[src][..n])) else response.Bad? && response.trouble.Backend?)
  {
    assert start.system.sid in start.system.table;
    hide B.Follow, B.IsStart, StubRequest, IdsDistinct;
    k := AnswerIsReply(add, start, es, b, c, i, MemcpyDtoH(src, n));
    if k < |b.system.executed| && b.system.executed[k].op == MemcpyDtoH(src, n) {
      ReadOutcome(add, Run(add, start.system.table[start.system.sid], b.system.executed[..k]),
                  b.system.executed[k], src, n);
    }
    hide Step;
  }

  // ---- One answer to each request, in order ----

  // The requests that have arrived on a connection.
  function Arrived(es: seq<B.Event>, c: nat): seq<Request> {
    if es == [] then []
    else
      var last := es[|es| - 1];
      Arrived(es[..|es| - 1], c) + if last.Arrives? && last.c == c then [last.request] else []
  }

  function Requests(history: seq<Exchange>): (rs: seq<Request>)
    ensures |rs| == |history| && forall i :: 0 <= i < |rs| ==> rs[i] == history[i].request
  {
    seq(|history|, i requires 0 <= i < |history| => history[i].request)
  }

  // The answered requests and the one that waits.
  function Asked(conn: Conn): seq<Request> {
    Requests(conn.history) + if conn.waiting.Some? then [conn.waiting.value] else []
  }

  lemma {:induction false} AnsweringKeepsAsked(conn: Conn, response: Response)
    requires conn.waiting.Some?
    ensures Asked(Conn(None, conn.history + [Exchange(conn.waiting.value, response)])) == Asked(conn)
  {
  }

  lemma {:induction false} StepAsks(add: FloatAdd, b: B.Bridge, e: B.Event, c: nat)
    requires B.Enabled(b, e)
    ensures var b' := B.After(add, b, e);
            if c in b.conns then
              c in b'.conns &&
              Asked(b'.conns[c]) == Asked(b.conns[c]) + if e.Arrives? && e.c == c then [e.request] else []
            else (c in b'.conns ==> Asked(b'.conns[c]) == []) && !(e.Arrives? && e.c == c)
  {
    hide Transparency.After, Respond;
    if e.Locks? {
      AnsweringKeepsAsked(b.conns[e.c], Bad(UnknownOp));
    } else if e.Releases? {
      var r := b.conns[b.holder.value].waiting.value;
      AnsweringKeepsAsked(b.conns[b.holder.value],
                          Respond(Translate(r).value, b.system.results[|b.system.results| - 1]));
    }
    hide Translate;
  }

  // On every run, a connection's history answers the requests that arrived on it: one answer to each, in
  // the order in which they came, except for the last one while it waits.
  lemma {:induction false} AnsweredInOrder(add: FloatAdd, start: B.Bridge, es: seq<B.Event>, b: B.Bridge, c: nat)
    requires B.IsStart(start) && B.Follow(add, start, es) == Some(b)
    ensures if c in b.conns then Asked(b.conns[c]) == Arrived(es, c) else Arrived(es, c) == []
  {
    hide B.After, B.Enabled, Asked;
    if es != [] {
      var before, last := es[..|es| - 1], es[|es| - 1];
      var mid := B.Follow(add, start, before).value;
      AnsweredInOrder(add, start, before, mid, c);
      StepAsks(add, mid, last, c);
    }
  }

  // A request with any other name is answered at once, without the backend.
  lemma {:induction false} OtherNamesAreRefused(add: FloatAdd, start: B.Bridge, es: seq<B.Event>, b: B.Bridge,
                                                c: nat, i: nat)
    requires B.IsStart(start) && B.Follow(add, start, es) == Some(b)
    requires c in b.conns && i < |b.conns[c].history|
    ensures b.conns[c].history[i].request.op !in NAMES ==> b.conns[c].history[i].response == Bad(UnknownOp)
  {
    hide Transparency.After, Transparency.Enabled, Respond;
    if es != [] {
      var mid := B.Follow(add, start, es[..|es| - 1]).value;
      if c in mid.conns && i < |mid.conns[c].history| {
        OtherNamesAreRefused(add, start, es[..|es| - 1], mid, c, i);
      }
      OnlySevenNames(b.conns[c].history[i].request);
      hide Translate;
    }
  }
}
