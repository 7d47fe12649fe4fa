/** The remoting protocol as both ends see it: the provider's table of sessions and the client's call. */
module Remoting {
  import opened Base
  import opened CudaOps
  import opened CudaSession
  import CudaBackend

  const CLIENT_VER: u32 := 2
  const API := "cuda"
  const DEFAULT_MAX_ALLOC: u64 := 512 * 1024 * 1024

  datatype RejectReason = NotEnabled | UnsupportedApi | UnsupportedVersion | NotAllowed | NoDevice | TooBusy

  // The messages the remoting code sends or looks at; Other stands for every other message.
  datatype Message =
    | CudaOp(sessionId: string, opId: u64, op: Op)
    | CudaResult(sessionId: string, opId: u64, reply: Reply, elapsedUs: u64)
    | GpuRemoteOpen(api: string, clientVer: u32)
    | GpuRemoteOffer(sessionId: string, maxAllocBytes: u64, devices: seq<DeviceInfo>)
    | GpuRemoteReject(reason: RejectReason)
    | GpuRemoteClose(sessionId: string)
    | Error(message: string)
    | Other(tag: nat)

  // What the provider reads from its configuration, its GPUs and its clock while it handles a message.
  datatype Host = Host(sharing: bool, allowed: bool, devices: seq<DeviceInfo>, utilization: u32,
                       maxUtilization: Option<u32>, maxAllocMb: u64, newId: string, now: nat, elapsedUs: u64)

  // Configured megabytes in bytes, at most four times the default. The product wraps like a u64.
  function SessionBudget(mb: u64): u64 {
    Min(Max(mb, 1) * 0x10_0000 % (U64_MAX + 1), DEFAULT_MAX_ALLOC * 4)
  }

  // The budget is the configured one, capped, if and only if the product does not wrap to less than the cap.
  lemma {:induction false} BudgetAsConfigured(mb: u64)
    ensures SessionBudget(mb) == Min(Max(mb, 1) * 0x10_0000, 0x8000_0000) <==>
            mb < 0x1000_0000_0000 || 2048 <= mb % 0x1000_0000_0000
  {
    var m := Max(mb, 1);
    var high, low := m / 0x1000_0000_0000, m % 0x1000_0000_0000;
    assert m * 0x10_0000 == high * 0x1_0000_0000_0000_0000 + low * 0x10_0000;
    assert m * 0x10_0000 % 0x1_0000_0000_0000_0000 == low * 0x10_0000;
  }

  function OpenRefusal(h: Host, api: string, ver: u32): Option<RejectReason> {
    if !h.sharing then Some(NotEnabled)
    else if api != API then Some(UnsupportedApi)
    else if ver == 0 || ver > CLIENT_VER then Some(UnsupportedVersion)
    else if !h.allowed then Some(NotAllowed)
    else if h.devices == [] then Some(NoDevice)
    else if h.maxUtilization.Some? && h.utilization > h.maxUtilization.value then Some(TooBusy)
    else None
  }

  type Table = map<string, Session>

  datatype Served = Served(table: Table, out: Option<Message>)

  // One message handled by the provider.
  function Serve(add: FloatAdd, t: Table, m: Message, h: Host): Served {
    match m
    case GpuRemoteOpen(api, ver) =>
      (match OpenRefusal(h, api, ver)
       case Some(r) => Served(t, Some(GpuRemoteReject(r)))
       case None =>
         var budget := SessionBudget(h.maxAllocMb);
         Served(t[h.newId := Open(budget, h.devices)], Some(GpuRemoteOffer(h.newId, budget, h.devices))))
    case CudaOp(sid, opId, op) =>
      if sid !in t then Served(t, Some(CudaResult(sid, opId, Failed(UnknownSession), 0)))
      else
        var o := Step(add, t[sid], Call(op, h.now));
        Served(t[sid := o.session], Some(CudaResult(sid, opId, o.reply, h.elapsedUs)))
    case GpuRemoteClose(sid) => Served(t - {sid}, None)
    case _ => Served(t, None)
  }

  // A session is opened exactly if all six conditions hold; it is then new and empty, and every other
  // session, like everything after a refusal, is as before.
  lemma {:induction false} OpenDecision(add: FloatAdd, t: Table, api: string, ver: u32, h: Host)
    ensures var r := Serve(add, t, GpuRemoteOpen(api, ver), h);
            && r.out.Some?
            && (r.out.value.GpuRemoteOffer? <==>
                 h.sharing && api == API && 1 <= ver <= CLIENT_VER && h.allowed && h.devices != [] &&
                 (h.maxUtilization.Some? ==> h.utilization <= h.maxUtilization.value))
            && (if r.out.value.GpuRemoteOffer? then
                  r.out.value == GpuRemoteOffer(h.newId, SessionBudget(h.maxAllocMb), h.devices) &&
                  r.table.Keys == t.Keys + {h.newId} &&
                  r.table[h.newId] == Open(SessionBudget(h.maxAllocMb), h.devices) &&
                  forall i :: i in t && i != h.newId ==> r.table[i] == t[i]
                else r.out.value.GpuRemoteReject? && r.table == t)
  {
    hide SessionBudget;
  }

  // Which reason a refusal gives: the first condition that fails.
  lemma {:induction false} RefusalReason(add: FloatAdd, t: Table, api: string, ver: u32, h: Host)
    ensures var out := Serve(add, t, GpuRemoteOpen(api, ver), h).out;
            var known := h.sharing && api == "cuda" && (ver == 1 || ver == 2);
            var busy := h.maxUtilization.Some? && h.maxUtilization.value < h.utilization;
            && (out == Some(GpuRemoteReject(NotEnabled)) <==> !h.sharing)
            && (out == Some(GpuRemoteReject(UnsupportedApi)) <==> h.sharing && api != "cuda")
            && (out == Some(GpuRemoteReject(UnsupportedVersion)) <==> h.sharing && api == "cuda" && ver !in {1, 2})
            && (out == Some(GpuRemoteReject(NotAllowed)) <==> known && !h.allowed)
            && (out == Some(GpuRemoteReject(NoDevice)) <==> known && h.allowed && |h.devices| == 0)
            && (out == Some(GpuRemoteReject(TooBusy)) <==> known && h.allowed && |h.devices| > 0 && busy)
  {
  }

  // The provider: one backend object per open session of a connection.
  class Provider {
    const add: FloatAdd
    var sessions: map<string, CudaBackend.BackendSession>

    // No two session ids share a backend object.
    ghost predicate Valid()
      reads this
    {
      && (forall i, j :: i in sessions && j in sessions && i != j ==> sessions[i] != sessions[j])
      && (forall i :: i in sessions ==> sessions[i].add == add)
    }

    ghost function View(): Table
      reads this, sessions.Values
    {
      map i | i in sessions :: sessions[i].State()
    }

    constructor (add: FloatAdd)
      ensures Valid() && this.add == add && sessions == map[] && View() == map[]
    {
      this.add := add;
      sessions := map[];
    }

    // The checks HandleOpen makes before it creates a session, in order.
    method Admit(h: Host, api: string, ver: u32) returns (refusal: Option<RejectReason>)
      ensures refusal == OpenRefusal(h, api, ver)
    {
      if !h.sharing {
        return Some(NotEnabled);
      }
      if api != API {
        return Some(UnsupportedApi);
      }
      if ver == 0 || ver > CLIENT_VER {
        return Some(UnsupportedVersion);
      }
      if !h.allowed {
        return Some(NotAllowed);
      }
      if h.devices == [] {
        return Some(NoDevice);
      }
      if h.maxUtilization.Some? && h.utilization > h.maxUtilization.value {
        return Some(TooBusy);
      }
      return None;
    }

    method Insert(id: string, backend: CudaBackend.BackendSession)
      requires Valid() && backend.add == add && backend !in sessions.Values
      modifies this`sessions
      ensures Valid() && sessions.Values <= old(sessions.Values) + {backend}
      ensures View() == old(View())[id := backend.State()]
    {
      ghost var before := sessions;
      sessions := sessions[id := backend];
      assert forall i :: i in before ==> before[i] in before.Values;
      assert forall i :: i in sessions ==> sessions[i] == if i == id then backend else before[i];
    }

    method HandleOpen(h: Host, api: string, ver: u32) returns (out: Message)
      requires Valid()
      modifies this
      ensures Valid() && fresh(sessions.Values - old(sessions.Values))
      ensures Served(View(), Some(out)) == Serve(add, old(View()), GpuRemoteOpen(api, ver), h)
    {
      hide Step, OpenRefusal;
      var refusal := Admit(h, api, ver);
      if refusal.Some? {
        return GpuRemoteReject(refusal.value);
      }
      var budget := Min(Max(h.maxAllocMb, 1) * 0x10_0000 % (U64_MAX + 1), DEFAULT_MAX_ALLOC * 4);
      var backend := new CudaBackend.BackendSession(add, budget, h.devices);
      Insert(h.newId, backend);
      return GpuRemoteOffer(h.newId, budget, h.devices);
    }

    method HandleOp(h: Host, sid: string, opId: u64, op: Op) returns (out: Message)
      requires Valid()
      modifies sessions.Values
      ensures Valid() && sessions == old(sessions)
      ensures Served(View(), Some(out)) == Serve(add, old(View()), CudaOp(sid, opId, op), h)
    {
      if sid !in sessions {
        return CudaResult(sid, opId, Failed(UnknownSession), 0);
      }
      hide Step;
      var session := sessions[sid];
      assert forall i :: i in sessions ==> sessions[i] in sessions.Values;
      var reply := session.Exec(Call(op, h.now));
      assert View() == old(View())[sid := session.State()];
      return CudaResult(sid, opId, reply, h.elapsedUs);
    }

    method HandleClose(h: Host, sid: string)
      requires Valid()
      modifies this
      ensures Valid() && sessions.Values <= old(sessions.Values)
      ensures sid !in sessions
      ensures forall i :: i != sid ==> (i in sessions <==> i in old(sessions))
      ensures forall i :: i in sessions ==>
                sessions[i] == old(sessions[i]) && sessions[i].State() == old(sessions[i].State())
      ensures Served(View(), None) == Serve(add, old(View()), GpuRemoteClose(sid), h)
    {
      sessions := sessions - {sid};
    }
  }

  // What a call keeps of a CudaResult.
  datatype OpResult = OpResult(ok: bool, error: Option<Fault>, elapsedUs: u64, deviceCount: Option<u32>,
                               device: Option<DeviceInfo>, ptr: Option<u64>, data: Option<Bytes>)

  datatype CallError = Network(message: string) | ConnectionClosed

  type CallResult = Result<OpResult, CallError>

  function Keep(r: Reply, elapsedUs: u64): OpResult {
    OpResult(r.ok, r.error, elapsedUs, r.partial.deviceCount, r.partial.device, r.partial.ptr, r.partial.data)
  }

  // How a call waiting for (sid, opId) takes an incoming message.
  datatype Reaction = Finish(result: CallResult) | Ignore

  function React(m: Message, sid: string, opId: u64): Reaction {
    match m
    case CudaResult(s, id, reply, us) => if s == sid && id == opId then Finish(Ok(Keep(reply, us))) else Ignore
    case Error(text) => Finish(Err(Network(text)))
    case _ => Ignore
  }

  // A call takes the answer with its own session and op id, field by field, and an Error message; it skips
  // everything else.
  lemma {:induction false} TakesItsOwn(m: Message, sid: string, opId: u64)
    ensures React(m, sid, opId) == Ignore <==> !m.Error? && !(m.CudaResult? && m.sessionId == sid && m.opId == opId)
    ensures m.Error? ==> React(m, sid, opId) == Finish(Err(Network(m.message)))
    ensures m.CudaResult? && m.sessionId == sid && m.opId == opId ==>
              var r := React(m, sid, opId);
              r.Finish? && r.result.Ok? &&
              r.result.value.ok == m.reply.ok && r.result.value.error == m.reply.error &&
              r.result.value.elapsedUs == m.elapsedUs && r.result.value.deviceCount == m.reply.partial.deviceCount &&
              r.result.value.device == m.reply.partial.device && r.result.value.ptr == m.reply.partial.ptr &&
              r.result.value.data == m.reply.partial.data
  {
  }

  // The outcome of waiting on a connection that will deliver `inbox` and then close, and what it
  // leaves unread.
  function Await(inbox: seq<Message>, sid: string, opId: u64): (CallResult, seq<Message>) {
    if inbox == [] then (Err(ConnectionClosed), [])
    else
      match React(inbox[0], sid, opId)
      case Finish(r) => (r, inbox[1..])
      case Ignore => Await(inbox[1..], sid, opId)
  }

  // A call returns a result only if a matching reply is there, nothing before it in the inbox matches
  // or is an error, and exactly the messages up to it are consumed.
  lemma {:induction false} AwaitFindsFirst(inbox: seq<Message>, sid: string, opId: u64)
    ensures var (r, rest) := Await(inbox, sid, opId);
            |rest| <= |inbox| && inbox[|inbox| - |rest|..] == rest &&
            (forall k :: 0 <= k < |inbox| - |rest| - 1 ==> React(inbox[k], sid, opId) == Ignore) &&
            (if |rest| < |inbox| && React(inbox[|inbox| - |rest| - 1], sid, opId).Finish?
             then React(inbox[|inbox| - |rest| - 1], sid, opId) == Finish(r)
             else rest == [] && r == Err(ConnectionClosed))
  {
    if inbox != [] && React(inbox[0], sid, opId) == Ignore {
      AwaitFindsFirst(inbox[1..], sid, opId);
      var (r, rest) := Await(inbox[1..], sid, opId);
      assert forall k :: 0 < k < |inbox| ==> inbox[k] == inbox[1..][k - 1];
    }
  }

  // A connection: what was sent on it, and what it will still deliver before it closes.
  class Connection {
    var outbox: seq<Message>
    var inbox: seq<Message>

    method Send(m: Message)
      modifies this`outbox
      ensures outbox == old(outbox) + [m]
    {
      outbox := outbox + [m];
    }

    method Recv() returns (m: Option<Message>)
      modifies this`inbox
      ensures old(inbox) == [] ==> m == None && inbox == []
      ensures old(inbox) != [] ==> m == Some(old(inbox)[0]) && inbox == old(inbox)[1..]
    {
      if inbox == [] {
        return None;
      }
      m := Some(inbox[0]);
      inbox := inbox[1..];
    }
  }

  class Client {
    const conn: Connection
    const sessionId: string
    var nextOp: u64

    constructor (conn: Connection, sessionId: string)
      ensures this.conn == conn && this.sessionId == sessionId && nextOp == 1
    {
      this.conn := conn;
      this.sessionId := sessionId;
      nextOp := 1;
    }

    // AtomicU64::fetch_add wraps.
    method CallRemote(op: Op) returns (result: CallResult)
      modifies this`nextOp, conn
      ensures nextOp == (old(nextOp) + 1) % (U64_MAX + 1)
      ensures conn.outbox == old(conn.outbox) + [CudaOp(sessionId, old(nextOp), op)]
      ensures (result, conn.inbox) == Await(old(conn.inbox), sessionId, old(nextOp))
    {
      var opId := nextOp;
      nextOp := (nextOp + 1) % (U64_MAX + 1);
      conn.Send(CudaOp(sessionId, opId, op));
      while true
        invariant Await(conn.inbox, sessionId, opId) == Await(old(conn.inbox), sessionId, opId)
        invariant conn.outbox == old(conn.outbox) + [CudaOp(sessionId, opId, op)]
        invariant nextOp == (opId + 1) % (U64_MAX + 1)
        decreases |conn.inbox|
      {
        var m := conn.Recv();
        if m.None? {
          return Err(ConnectionClosed);
        }
        match m.value {
          case CudaResult(s, rid, reply, us) =>
            if s == sessionId && rid == opId {
              return Ok(Keep(reply, us));
            }
          case Error(text) =>
            return Err(Network(text));
          case _ =>
        }
      }
    }
  }

  // ---- One connection of the provider, fed any list of messages ----

  datatype Incoming = Incoming(m: Message, host: Host)

  function ServeAll(add: FloatAdd, t: Table, msgs: seq<Incoming>): Table {
    if msgs == [] then t
    else Serve(add, ServeAll(add, t, msgs[..|msgs| - 1]), msgs[|msgs| - 1].m, msgs[|msgs| - 1].host).table
  }

  // The answers to the operations addressed to `sid`, in order.
  function AnswersTo(add: FloatAdd, t: Table, msgs: seq<Incoming>, sid: string): seq<Reply> {
    if msgs == [] then []
    else
      var before, last := msgs[..|msgs| - 1], msgs[|msgs| - 1];
      AnswersTo(add, t, before, sid) +
      if last.m.CudaOp? && last.m.sessionId == sid
      then [Serve(add, ServeAll(add, t, before), last.m, last.host).out.value.reply] else []
  }

  // The operations addressed to `sid`, with the clock readings of the host.
  function CallsTo(msgs: seq<Incoming>, sid: string): seq<Call> {
    if msgs == [] then []
    else
      var before, last := msgs[..|msgs| - 1], msgs[|msgs| - 1];
      CallsTo(before, sid) +
      if last.m.CudaOp? && last.m.sessionId == sid then [Call(last.m.op, last.host.now)] else []
  }

  // Messages that neither close `sid` nor open a new session under that id.
  predicate Leaves(m: Incoming, sid: string) {
    m.m != GpuRemoteClose(sid) && (m.m.GpuRemoteOpen? ==> m.host.newId != sid)
  }

  lemma {:induction false} ServeOther(add: FloatAdd, t: Table, m: Incoming, sid: string)
    requires Leaves(m, sid) && !(m.m.CudaOp? && m.m.sessionId == sid)
    ensures var t' := Serve(add, t, m.m, m.host).table;
            (sid in t <==> sid in t') && (sid in t ==> t'[sid] == t[sid])
  {
    hide Step;
  }

  lemma {:induction false} ServeOwn(add: FloatAdd, t: Table, m: Incoming, sid: string)
    requires m.m.CudaOp? && m.m.sessionId == sid
    ensures var r := Serve(add, t, m.m, m.host);
            if sid in t then
              r.table == t[sid := Step(add, t[sid], Call(m.m.op, m.host.now)).session] &&
              r.out == Some(CudaResult(sid, m.m.opId, Step(add, t[sid], Call(m.m.op, m.host.now)).reply,
                                       m.host.elapsedUs))
            else r.table == t && r.out == Some(CudaResult(sid, m.m.opId, Failed(UnknownSession), 0))
  {
    hide Step;
  }

  // Isolation: whatever other sessions and messages share the connection, a session is driven by the
  // operations addressed to it and by nothing else, exactly as if it ran alone.
  lemma {:induction false} SessionsAreIsolated(add: FloatAdd, t: Table, msgs: seq<Incoming>, sid: string)
    requires sid in t && forall k :: 0 <= k < |msgs| ==> Leaves(msgs[k], sid)
    ensures var t' := ServeAll(add, t, msgs); sid in t' && t'[sid] == Run(add, t[sid], CallsTo(msgs, sid))
    ensures AnswersTo(add, t, msgs, sid) == Replies(add, t[sid], CallsTo(msgs, sid))
  {
    hide Step, Serve;
    if msgs != [] {
      var before, last := msgs[..|msgs| - 1], msgs[|msgs| - 1];
      SessionsAreIsolated(add, t, before, sid);
      if last.m.CudaOp? && last.m.sessionId == sid {
        ServeOwn(add, ServeAll(add, t, before), last, sid);
        RunLast(add, t[sid], CallsTo(before, sid), Call(last.m.op, last.host.now));
      } else {
        ServeOther(add, ServeAll(add, t, before), last, sid);
        assert AnswersTo(add, t, msgs, sid) == AnswersTo(add, t, before, sid);
        assert CallsTo(msgs, sid) == CallsTo(before, sid);
      }
    }
  }

  // No new session is opened under `sid`.
  predicate OpensOther(m: Incoming, sid: string) {
    m.m.GpuRemoteOpen? ==> m.host.newId != sid
  }

  lemma {:induction false} MissingStaysMissing(add: FloatAdd, t: Table, m: Incoming, sid: string)
    requires sid !in t && OpensOther(m, sid)
    ensures sid !in Serve(add, t, m.m, m.host).table
    ensures m.m.CudaOp? && m.m.sessionId == sid ==>
              Serve(add, t, m.m, m.host).out == Some(CudaResult(sid, m.m.opId, Failed(UnknownSession), 0))
  {
    hide Step;
  }

  // While a session is not open, every operation on it is answered "unknown session", as long as no new
  // session takes the same id.
  lemma {:induction false} MissingIsUnknown(add: FloatAdd, t: Table, msgs: seq<Incoming>, sid: string)
    requires sid !in t && forall k :: 0 <= k < |msgs| ==> OpensOther(msgs[k], sid)
    ensures sid !in ServeAll(add, t, msgs)
    ensures forall r :: r in AnswersTo(add, t, msgs, sid) ==> r == Failed(UnknownSession)
  {
    hide Step, Serve;
    if msgs != [] {
      var before, last := msgs[..|msgs| - 1], msgs[|msgs| - 1];
      MissingIsUnknown(add, t, before, sid);
      MissingStaysMissing(add, ServeAll(add, t, before), last, sid);
    }
  }

  lemma {:induction false} ServeAppend(add: FloatAdd, t: Table, a: seq<Incoming>, b: seq<Incoming>, sid: string)
    ensures ServeAll(add, t, a + b) == ServeAll(add, ServeAll(add, t, a), b)
    ensures AnswersTo(add, t, a + b, sid) == AnswersTo(add, t, a, sid) + AnswersTo(add, ServeAll(add, t, a), b, sid)
  {
    hide Serve;
    if b == [] {
      assert a + b == a;
    } else {
      var before, last := b[..|b| - 1], b[|b| - 1];
      ServeAppend(add, t, a, before, sid);
      assert (a + b)[..|a + b| - 1] == a + before && (a + b)[|a + b| - 1] == last;
    }
  }

  // The close removes the session, answers nothing and leaves every other session as it was.
  lemma {:induction false} CloseRemoves(add: FloatAdd, t: Table, sid: string, h: Host)
    ensures var r := Serve(add, t, GpuRemoteClose(sid), h);
            r.out == None && sid !in r.table &&
            forall i :: i != sid ==> (i in r.table <==> i in t) && (i in t ==> r.table[i] == t[i])
  {
  }

  // Whatever came before, after a close every operation on the session is answered "unknown session",
  // as long as no new session takes the same id.
  lemma {:induction false} ClosedStaysUnknown(add: FloatAdd, t: Table, a: seq<Incoming>, h: Host,
                                             b: seq<Incoming>, sid: string)
    requires forall k :: 0 <= k < |b| ==> OpensOther(b[k], sid)
    ensures var msgs := a + [Incoming(GpuRemoteClose(sid), h)] + b;
            var n := |AnswersTo(add, t, a, sid)|;
            && sid !in ServeAll(add, t, msgs)
            && AnswersTo(add, t, a, sid) <= AnswersTo(add, t, msgs, sid)
            && forall i :: n <= i < |AnswersTo(add, t, msgs, sid)| ==>
                 AnswersTo(add, t, msgs, sid)[i] == Failed(UnknownSession)
  {
    hide Step, Serve;
    var close := [Incoming(GpuRemoteClose(sid), h)];
    ServeAppend(add, t, a, close, sid);
    ServeAppend(add, t, a + close, b, sid);
    var before := ServeAll(add, t, a);
    CloseRemoves(add, before, sid, h);
    assert close[..0] == [] && ServeAll(add, before, close) == Serve(add, before, GpuRemoteClose(sid), h).table;
    assert AnswersTo(add, before, close, sid) == [];
    MissingIsUnknown(add, ServeAll(add, t, a + close), b, sid);
    var early, late := AnswersTo(add, t, a, sid), AnswersTo(add, ServeAll(add, t, a + close), b, sid);
    assert AnswersTo(add, t, a + close + b, sid) == early + [] + late == early + late;
    assert forall i :: |early| <= i < |early + late| ==> (early + late)[i] in late;
  }
}
