/** A client and a provider joined by two FIFO channels that also carry other traffic: every result a
    call returns is the one the same operations give on a local session. */
module Transparency {
  import opened Base
  import opened CudaOps
  import opened CudaSession
  import opened Remoting

  /** The whole system. `sent`, `executed`, `consumed`, `results` and `clean` are its history:
      operations sent by calls, operations the session has run, replies the client has taken off the
      channel, outcomes of finished calls, and whether every finished call got a reply. */
  datatype System = System(
    sid: string,
    nextOp: u64,
    pending: Option<u64>,
    toServer: seq<Message>,
    table: Table,
    toClient: seq<Message>,
    sent: seq<Op>,
    executed: seq<Call>,
    consumed: nat,
    results: seq<CallResult>,
    clean: bool)

  // The op_id of the k-th call; the counter starts at 1 and wraps.
  function OpId(k: nat): u64 {
    (k + 1) % (U64_MAX + 1)
  }

  function IsOpFor(sid: string): Message -> bool {
    (m: Message) => m.CudaOp? && m.sessionId == sid
  }

  function IsResultFor(sid: string): Message -> bool {
    (m: Message) => m.CudaResult? && m.sessionId == sid
  }

  predicate IsStart(s: System) {
    s.sid in s.table && s.nextOp == 1 && s.pending == None && s.toServer == [] && s.toClient == [] &&
    s.sent == [] && s.executed == [] && s.consumed == 0 && s.results == [] && s.clean
  }

  datatype Event =
    | CallStarts(op: Op)
    | ServerHandles(host: Host)
    | OtherToServer(m: Message)
    | OtherToClient(m: Message)
    | ClientReads
    | ClientSeesClose

  // Other traffic towards the provider does not touch the session; its own session ids are fresh.
  predicate Enabled(s: System, e: Event) {
    match e
    case CallStarts(_) => s.pending == None
    case ServerHandles(h) => s.toServer != [] && (s.toServer[0].GpuRemoteOpen? ==> h.newId != s.sid)
    case OtherToServer(m) => !IsOpFor(s.sid)(m) && m != GpuRemoteClose(s.sid)
    case OtherToClient(m) => !IsResultFor(s.sid)(m)
    case ClientReads => s.pending.Some? && s.toClient != []
    case ClientSeesClose => s.pending.Some?
  }

  function After(add: FloatAdd, s: System, e: Event): System
    requires Enabled(s, e)
  {
    match e
    case CallStarts(op) =>
      s.(nextOp := (s.nextOp + 1) % (U64_MAX + 1), pending := Some(s.nextOp),
         toServer := s.toServer + [CudaOp(s.sid, s.nextOp, op)], sent := s.sent + [op])
    case ServerHandles(h) =>
      var m := s.toServer[0];
      var r := Serve(add, s.table, m, h);
      s.(toServer := s.toServer[1..], table := r.table,
         toClient := s.toClient + (if r.out.Some? then [r.out.value] else []),
         executed := s.executed + (if IsOpFor(s.sid)(m) then [Call(m.op, h.now)] else []))
    case OtherToServer(m) => s.(toServer := s.toServer + [m])
    case OtherToClient(m) => s.(toClient := s.toClient + [m])
    case ClientReads =>
      var m := s.toClient[0];
      var t := s.(toClient := s.toClient[1..], consumed := s.consumed + if IsResultFor(s.sid)(m) then 1 else 0);
      (match React(m, s.sid, s.pending.value)
       case Finish(r) => t.(pending := None, results := s.results + [r], clean := s.clean && r.Ok?)
       case Ignore => t)
    case ClientSeesClose => s.(pending := None, results := s.results + [Err(ConnectionClosed)], clean := false)
  }

  // A run of the system: the state after `es`, if each event was enabled when it happened.
  function Follow(add: FloatAdd, start: System, es: seq<Event>): Option<System> {
    if es == [] then Some(start)
    else
      match Follow(add, start, es[..|es| - 1])
      case None => None
      case Some(mid) => if Enabled(mid, es[|es| - 1]) then Some(After(add, mid, es[|es| - 1])) else None
  }

  // ---- The invariant ----

  // A result says what a local reply says, up to the time the host took.
  predicate Agrees(r: OpResult, reply: Reply) {
    r == Keep(reply, r.elapsedUs)
  }

  // Operations sent but not yet run are on their way to the server, in order.
  ghost predicate OpsInFlight(sid: string, sent: seq<Op>, executed: seq<Call>, toServer: seq<Message>) {
    var ops := Filter(IsOpFor(sid), toServer);
    && |sent| == |executed| + |ops|
    && (forall k :: 0 <= k < |executed| ==> executed[k].op == sent[k])
    && (forall k :: 0 <= k < |ops| ==> ops[k] == CudaOp(sid, OpId(|executed| + k), sent[|executed| + k]))
  }

  // Replies not yet read are on their way to the client, in order; `local` is what a local run replies.
  ghost predicate RepliesInFlight(sid: string, local: seq<Reply>, consumed: nat, toClient: seq<Message>) {
    var rs := Filter(IsResultFor(sid), toClient);
    && |local| == consumed + |rs|
    && forall k :: 0 <= k < |rs| ==> rs[k].CudaResult? && rs[k].sessionId == sid &&
                                     rs[k].opId == OpId(consumed + k) && rs[k].reply == local[consumed + k]
  }

  // Every result is right; and while no call was abandoned, every reply read finished a call.
  ghost predicate ResultsRight(local: seq<Reply>, consumed: nat, results: seq<CallResult>, clean: bool) {
    && (forall i :: 0 <= i < |results| && results[i].Ok? ==> i < |local| && Agrees(results[i].value, local[i]))
    && (clean ==> consumed == |results| && forall i :: 0 <= i < |results| ==> results[i].Ok?)
  }

  // Op ids identify calls: either no call was ever abandoned, or fewer than 2^64 were made.
  predicate IdsDistinct(s: System) {
    s.clean || |s.sent| <= U64_MAX
  }

  // The op ids count the calls; a reply that was read belongs to a call that is over.
  ghost predicate CountsRight(s: System) {
    && |s.sent| == |s.results| + (if s.pending.Some? then 1 else 0)
    && s.nextOp == OpId(|s.sent|)
    && (s.pending.Some? ==> s.pending.value == OpId(|s.results|))
    && s.consumed <= |s.results|
  }

  ghost predicate Inv(add: FloatAdd, init: Session, s: System) {
    var local := Replies(add, init, s.executed);
    && s.sid in s.table && s.table[s.sid] == Run(add, init, s.executed)
    && OpsInFlight(s.sid, s.sent, s.executed, s.toServer)
    && RepliesInFlight(s.sid, local, s.consumed, s.toClient)
    && CountsRight(s)
    && (IdsDistinct(s) ==> ResultsRight(local, s.consumed, s.results, s.clean))
  }

  // ---- What each end does to a channel ----

  lemma {:induction false} OpsAppend(sid: string, sent: seq<Op>, executed: seq<Call>, q: seq<Message>, m: Message)
    requires OpsInFlight(sid, sent, executed, q)
    ensures !IsOpFor(sid)(m) ==> OpsInFlight(sid, sent, executed, q + [m])
    ensures m.CudaOp? && m.sessionId == sid && m.opId == OpId(|sent|) ==>
              OpsInFlight(sid, sent + [m.op], executed, q + [m])
  {
    FilterLast(IsOpFor(sid), q, m);
    hide Filter, OpId;
  }

  lemma {:induction false} OpsTake(sid: string, sent: seq<Op>, executed: seq<Call>, q: seq<Message>, now: nat)
    requires OpsInFlight(sid, sent, executed, q) && q != []
    ensures !IsOpFor(sid)(q[0]) ==> OpsInFlight(sid, sent, executed, q[1..])
    ensures IsOpFor(sid)(q[0]) ==> q[0].opId == OpId(|executed|) &&
                                   OpsInFlight(sid, sent, executed + [Call(q[0].op, now)], q[1..])
  {
    var ops, ops' := Filter(IsOpFor(sid), q), Filter(IsOpFor(sid), q[1..]);
    assert ops == if IsOpFor(sid)(q[0]) then [q[0]] + ops' else ops';
    hide Filter, OpId;
    if IsOpFor(sid)(q[0]) {
      assert q[0] == ops[0] == CudaOp(sid, OpId(|executed| + 0), sent[|executed| + 0]);
      forall k | 0 <= k < |ops'|
        ensures ops'[k] == CudaOp(sid, OpId(|executed| + 1 + k), sent[|executed| + 1 + k])
      {
        assert ops'[k] == ops[k + 1];
      }
    }
  }

  lemma {:induction false} RepliesAppend(sid: string, local: seq<Reply>, consumed: nat, q: seq<Message>, m: Message)
    requires RepliesInFlight(sid, local, consumed, q)
    ensures !IsResultFor(sid)(m) ==> RepliesInFlight(sid, local, consumed, q + [m])
    ensures m.CudaResult? && m.sessionId == sid && m.opId == OpId(|local|) ==>
              RepliesInFlight(sid, local + [m.reply], consumed, q + [m])
  {
    FilterLast(IsResultFor(sid), q, m);
    hide Filter, OpId;
  }

  lemma {:induction false} RepliesTake(sid: string, local: seq<Reply>, consumed: nat, q: seq<Message>)
    requires RepliesInFlight(sid, local, consumed, q) && q != []
    ensures !IsResultFor(sid)(q[0]) ==> RepliesInFlight(sid, local, consumed, q[1..])
    ensures IsResultFor(sid)(q[0]) ==>
              consumed < |local| && q[0].opId == OpId(consumed) && q[0].reply == local[consumed] &&
              RepliesInFlight(sid, local, consumed + 1, q[1..])
  {
    var rs, rs' := Filter(IsResultFor(sid), q), Filter(IsResultFor(sid), q[1..]);
    hide Filter, OpId;
    if IsResultFor(sid)(q[0]) {
      assert rs == [q[0]] + rs' && rs[0] == q[0];
      assert forall k :: 0 <= k < |rs'| ==> rs'[k] == rs[k + 1];
    }
  }

  // The oldest reply in transit answers call number `consumed`. If it carries the id the client waits
  // for and ids are distinct, that call is the one the client waits for.
  lemma {:induction false} ReadIsOwn(s: System, local: seq<Reply>)
    requires ResultsRight(local, s.consumed, s.results, s.clean) && IdsDistinct(s)
    requires |s.sent| == |s.results| + 1 && |local| <= |s.sent| && s.consumed < |local|
    requires OpId(s.consumed) == OpId(|s.results|)
    ensures s.consumed == |s.results|
  {
  }

  // ---- Every event keeps the invariant ----

  // No message in transit ever closes the session: calls do not send closes.
  ghost predicate NoClose(s: System) {
    GpuRemoteClose(s.sid) !in s.toServer
  }

  lemma {:induction false} OtherReply(add: FloatAdd, t: Table, m: Message, h: Host, sid: string)
    requires !IsOpFor(sid)(m)
    ensures var out := Serve(add, t, m, h).out; out.Some? ==> !IsResultFor(sid)(out.value)
  {
    hide Step;
  }

  lemma {:induction false} ResultsGrow(local: seq<Reply>, more: Reply, consumed: nat,
                                       results: seq<CallResult>, clean: bool)
    requires ResultsRight(local, consumed, results, clean)
    ensures ResultsRight(local + [more], consumed, results, clean)
  {
  }

  lemma {:induction false} ServerKeepsInv(add: FloatAdd, init: Session, s: System, h: Host)
    requires Inv(add, init, s) && Enabled(s, ServerHandles(h)) && s.toServer[0] != GpuRemoteClose(s.sid)
    ensures Inv(add, init, After(add, s, ServerHandles(h)))
  {
    hide Serve, Step, Run, Replies, Filter, OpId, OpsInFlight, RepliesInFlight, ResultsRight;
    var m, local := s.toServer[0], Replies(add, init, s.executed);
    OpsTake(s.sid, s.sent, s.executed, s.toServer, h.now);
    if IsOpFor(s.sid)(m) {
      ServeOwn(add, s.table, Incoming(m, h), s.sid);
      RunLast(add, init, s.executed, Call(m.op, h.now));
      if IdsDistinct(s) {
        var reply := Step(add, s.table[s.sid], Call(m.op, h.now)).reply;
        ResultsGrow(local, reply, s.consumed, s.results, s.clean);
      }
      RepliesAppend(s.sid, local, s.consumed, s.toClient, Serve(add, s.table, m, h).out.value);
    } else {
      ServeOther(add, s.table, Incoming(m, h), s.sid);
      OtherReply(add, s.table, m, h, s.sid);
      var out := Serve(add, s.table, m, h).out;
      if out.Some? {
        RepliesAppend(s.sid, local, s.consumed, s.toClient, out.value);
      }
      assert s.toClient + [] == s.toClient && s.executed + [] == s.executed;
    }
  }

  lemma {:induction false} ResultsAppend(local: seq<Reply>, consumed: nat, results: seq<CallResult>,
                                         clean: bool, r: CallResult)
    requires ResultsRight(local, consumed, results, clean)
    ensures r.Err? ==> forall c :: ResultsRight(local, c, results + [r], false)
    ensures !clean ==> forall c :: ResultsRight(local, c, results, clean)
    ensures r.Ok? && |results| < |local| && Agrees(r.value, local[|results|]) ==>
              ResultsRight(local, consumed + 1, results + [r], clean)
  {
  }

  // What the results part of the invariant needs when the client takes message m off the channel.
  lemma {:induction false} ReadKeepsResults(s: System, local: seq<Reply>, m: Message, c: nat)
    requires ResultsRight(local, s.consumed, s.results, s.clean) && IdsDistinct(s)
    requires s.pending == Some(OpId(|s.results|)) && |s.sent| == |s.results| + 1 && |local| <= |s.sent|
    requires IsResultFor(s.sid)(m) ==>
               s.consumed < |local| && m.opId == OpId(s.consumed) && m.reply == local[s.consumed]
    requires c == s.consumed + if IsResultFor(s.sid)(m) then 1 else 0
    ensures match React(m, s.sid, s.pending.value)
            case Ignore => ResultsRight(local, c, s.results, s.clean)
            case Finish(r) => ResultsRight(local, c, s.results + [r], s.clean && r.Ok?)
  {
    if IsResultFor(s.sid)(m) && m.opId == s.pending.value {
      ReadIsOwn(s, local);
    }
    hide OpId;
    match React(m, s.sid, s.pending.value)
    case Ignore =>
      ResultsAppend(local, s.consumed, s.results, s.clean, Err(ConnectionClosed));
    case Finish(r) =>
      ResultsAppend(local, s.consumed, s.results, s.clean, r);
  }

  // A reply that is read either finishes its call or belongs to an earlier one.
  lemma {:induction false} ReadKeepsCounts(add: FloatAdd, s: System)
    requires CountsRight(s) && Enabled(s, ClientReads)
    requires IsResultFor(s.sid)(s.toClient[0]) ==> s.toClient[0].opId == OpId(s.consumed)
    ensures CountsRight(After(add, s, ClientReads))
  {
  }

  // What a read leaves as it was, and what it may add to the results.
  lemma {:induction false} ReadOnlyReads(add: FloatAdd, s: System)
    requires Enabled(s, ClientReads)
    ensures var m, t := s.toClient[0], After(add, s, ClientReads);
            && t.sid == s.sid && t.table == s.table && t.toServer == s.toServer && t.sent == s.sent
            && t.executed == s.executed && t.toClient == s.toClient[1..]
            && t.consumed == s.consumed + (if IsResultFor(s.sid)(m) then 1 else 0) && (t.clean ==> s.clean)
            && match React(m, s.sid, s.pending.value)
               case Ignore => t.results == s.results && t.clean == s.clean
               case Finish(r) => t.results == s.results + [r] && t.clean == (s.clean && r.Ok?)
  {
    hide React;
  }

  lemma {:induction false} ClientReadsKeepsInv(add: FloatAdd, init: Session, s: System)
    requires Inv(add, init, s) && Enabled(s, ClientReads)
    ensures Inv(add, init, After(add, s, ClientReads))
  {
    var local, m := Replies(add, init, s.executed), s.toClient[0];
    assert |local| <= |s.sent| == |s.results| + 1 && s.pending == Some(OpId(|s.results|));
    hide Step, Run, Replies, Filter, OpId, OpsInFlight, RepliesInFlight, ResultsRight, React, CountsRight, Keep;
    RepliesTake(s.sid, local, s.consumed, s.toClient);
    ReadKeepsCounts(add, s);
    ReadOnlyReads(add, s);
    hide After, IsResultFor;
    if IdsDistinct(s) {
      ReadKeepsResults(s, local, m, After(add, s, ClientReads).consumed);
    }
  }

  lemma {:induction false} NextOpId(k: nat)
    ensures OpId(k + 1) == (OpId(k) + 1) % (U64_MAX + 1)
  {
  }

  lemma {:induction false} CallKeepsCounts(add: FloatAdd, s: System, op: Op)
    requires CountsRight(s) && Enabled(s, CallStarts(op))
    ensures CountsRight(After(add, s, CallStarts(op)))
  {
    NextOpId(|s.sent|);
    hide OpId;
  }

  lemma {:induction false} CallKeepsInv(add: FloatAdd, init: Session, s: System, op: Op)
    requires Inv(add, init, s) && Enabled(s, CallStarts(op))
    ensures Inv(add, init, After(add, s, CallStarts(op)))
  {
    CallKeepsCounts(add, s, op);
    assert s.nextOp == OpId(|s.sent|);
    hide Serve, Run, Replies, OpsInFlight, RepliesInFlight, ResultsRight, React, Filter, Step, OpId, CountsRight;
    OpsAppend(s.sid, s.sent, s.executed, s.toServer, CudaOp(s.sid, s.nextOp, op));
  }

  lemma {:induction false} OtherTrafficKeepsInv(add: FloatAdd, init: Session, s: System, e: Event)
    requires Inv(add, init, s) && Enabled(s, e) && (e.OtherToServer? || e.OtherToClient?)
    ensures Inv(add, init, After(add, s, e))
  {
    var local := Replies(add, init, s.executed);
    hide Serve, Run, Replies, OpsInFlight, RepliesInFlight, ResultsRight, React, Filter, Step, OpId;
    if e.OtherToServer? {
      OpsAppend(s.sid, s.sent, s.executed, s.toServer, e.m);
    } else {
      RepliesAppend(s.sid, local, s.consumed, s.toClient, e.m);
    }
  }

  lemma {:induction false} CloseKeepsInv(add: FloatAdd, init: Session, s: System)
    requires Inv(add, init, s) && Enabled(s, ClientSeesClose)
    ensures Inv(add, init, After(add, s, ClientSeesClose))
  {
    var local := Replies(add, init, s.executed);
    hide Serve, Run, Replies, OpsInFlight, RepliesInFlight, ResultsRight, React, Filter, Step;
    if IdsDistinct(s) {
      ResultsAppend(local, s.consumed, s.results, s.clean, Err(ConnectionClosed));
    }
  }

  lemma {:induction false} StepKeepsInv(add: FloatAdd, init: Session, s: System, e: Event)
    requires Inv(add, init, s) && NoClose(s) && Enabled(s, e)
    ensures var s' := After(add, s, e); Inv(add, init, s') && NoClose(s') && s'.sid == s.sid
  {
    StepKeepsOpen(add, s, e);
    hide Inv, After;
    match e
    case CallStarts(op) => CallKeepsInv(add, init, s, op);
    case ServerHandles(h) => ServerKeepsInv(add, init, s, h);
    case ClientReads => ClientReadsKeepsInv(add, init, s);
    case ClientSeesClose => CloseKeepsInv(add, init, s);
    case OtherToServer(_) => OtherTrafficKeepsInv(add, init, s, e);
    case OtherToClient(_) => OtherTrafficKeepsInv(add, init, s, e);
  }

  lemma {:induction false} StepKeepsOpen(add: FloatAdd, s: System, e: Event)
    requires NoClose(s) && Enabled(s, e)
    ensures var s' := After(add, s, e); NoClose(s') && s'.sid == s.sid
    ensures e.ServerHandles? ==> s.toServer[0] != GpuRemoteClose(s.sid)
  {
    hide Serve, React;
    assert e.ServerHandles? ==> s.toServer[0] in s.toServer;
  }

  lemma {:induction false} ReachableInv(add: FloatAdd, start: System, es: seq<Event>, s: System)
    requires IsStart(start) && Follow(add, start, es) == Some(s)
    ensures s.sid == start.sid && Inv(add, start.table[start.sid], s) && NoClose(s)
  {
    if es != [] {
      var mid := Follow(add, start, es[..|es| - 1]).value;
      ReachableInv(add, start, es[..|es| - 1], mid);
      StepKeepsInv(add, start.table[start.sid], mid, es[|es| - 1]);
    }
  }

  // Remoting is transparent. In every reachable state the session has run exactly the first operations
  // that calls sent, and every call that returned a result returned, up to timing, the reply of the
  // operation it sent, as a local session running the same operations gives it. Abandoned calls
  // (an Error message, a closed connection) do not shift later results onto the wrong call, provided
  // op ids have not wrapped.
  lemma {:induction false} RemotingIsTransparent(add: FloatAdd, start: System, es: seq<Event>, s: System)
    requires IsStart(start) && Follow(add, start, es) == Some(s) && IdsDistinct(s)
    ensures var local := Replies(add, start.table[start.sid], s.executed);
            && |s.executed| <= |s.sent|
            && (forall k :: 0 <= k < |s.executed| ==> s.executed[k].op == s.sent[k])
            && (forall i :: 0 <= i < |s.results| && s.results[i].Ok? ==>
                 i < |local| &&
                 var r, l := s.results[i].value, local[i];
                 r.ok == l.ok && r.error == l.error && r.deviceCount == l.partial.deviceCount &&
                 r.device == l.partial.device && r.ptr == l.partial.ptr && r.data == l.partial.data)
  {
    ReachableInv(add, start, es, s);
    hide Replies, Run, OpsInFlight, RepliesInFlight;
  }

  // A remote read that returns brings the bytes that are in the buffer when the operations before it have
  // run, and fails exactly if there are not so many.
  lemma {:induction false} RemoteReadReturnsBytes(add: FloatAdd, start: System, es: seq<Event>, s: System,
                                                  i: nat, src: u64, n: u64)
    requires IsStart(start) && Follow(add, start, es) == Some(s) && IdsDistinct(s)
    requires i < |s.results| && s.results[i].Ok? && i < |s.sent| && s.sent[i] == MemcpyDtoH(src, n)
    ensures i < |s.executed|
    ensures var buffers := Run(add, start.table[start.sid], s.executed[..i]).buffers;
            var r := s.results[i].value;
            if src in buffers && n <= Min(|buffers[src]|, 0x400_0000) then r.ok && r.data == Some(buffers[src][..n])
            else !r.ok && r.data == None
  {
    assert start.sid in start.table;
    hide Follow, Step, IsStart;
    RemotingIsTransparent(add, start, es, s);
    var init := start.table[start.sid];
    RepliesAt(add, init, s.executed, i);
    ReadOutcome(add, Run(add, init, s.executed[..i]), s.executed[i], src, n);
  }

  lemma {:induction false} ReadOutcome(add: FloatAdd, s: Session, c: Call, src: u64, n: u64)
    requires c.op == MemcpyDtoH(src, n)
    ensures var r := Step(add, s, c).reply;
            if src in s.buffers && n <= Min(|s.buffers[src]|, 0x400_0000)
            then r.ok && r.partial.data == Some(s.buffers[src][..n]) else !r.ok && r.partial.data == None
  {
  }

  // Requests of calls and their replies on the channels.
  function InTransit(s: System): nat {
    |Filter(IsOpFor(s.sid), s.toServer)| + |Filter(IsResultFor(s.sid), s.toClient)|
  }

  function Abandoned(results: seq<CallResult>): nat {
    if results == [] then 0
    else Abandoned(results[..|results| - 1]) + if results[|results| - 1].Err? then 1 else 0
  }

  lemma {:induction false} AbandonedLast(results: seq<CallResult>, r: CallResult)
    ensures Abandoned(results + [r]) == Abandoned(results) + if r.Err? then 1 else 0
  {
    assert (results + [r])[..|results|] == results;
  }

  lemma {:induction false} AbandonedNone(results: seq<CallResult>)
    ensures Abandoned(results) <= |results|
    ensures (forall i :: 0 <= i < |results| ==> results[i].Ok?) ==> Abandoned(results) == 0
  {
    if results != [] {
      AbandonedNone(results[..|results| - 1]);
    }
  }

  lemma {:induction false} StepConsumes(add: FloatAdd, s: System, e: Event)
    requires Enabled(s, e) && |s.results| <= s.consumed + Abandoned(s.results)
    ensures var s' := After(add, s, e); |s'.results| <= s'.consumed + Abandoned(s'.results)
  {
    hide Serve, Abandoned, Filter, Keep;
    if e.ClientReads? && React(s.toClient[0], s.sid, s.pending.value).Finish? {
      AbandonedLast(s.results, React(s.toClient[0], s.sid, s.pending.value).result);
    } else if e.ClientSeesClose? {
      AbandonedLast(s.results, Err(ConnectionClosed));
    }
  }

  // A call that returned a result has taken a reply off the channel.
  lemma {:induction false} ResultsAreConsumed(add: FloatAdd, start: System, es: seq<Event>, s: System)
    requires IsStart(start) && Follow(add, start, es) == Some(s)
    ensures |s.results| <= s.consumed + Abandoned(s.results)
  {
    hide After, Enabled, Abandoned;
    if es != [] {
      var mid := Follow(add, start, es[..|es| - 1]).value;
      ResultsAreConsumed(add, start, es[..|es| - 1], mid);
      StepConsumes(add, mid, es[|es| - 1]);
    }
  }

  // In every reachable state, what is in transit is the unfinished call and those finished ones whose
  // reply was not taken, at most one request or reply for every abandoned call.
  lemma {:induction false} TransitBound(add: FloatAdd, start: System, es: seq<Event>, s: System)
    requires IsStart(start) && Follow(add, start, es) == Some(s)
    ensures s.consumed <= |s.results| <= s.consumed + Abandoned(s.results)
    ensures InTransit(s) == (if s.pending.Some? then 1 else 0) + |s.results| - s.consumed
    ensures InTransit(s) <= (if s.pending.Some? then 1 else 0) + Abandoned(s.results)
  {
    ReachableInv(add, start, es, s);
    ResultsAreConsumed(add, start, es, s);
  }

  // So at most one request is outstanding while no call has been abandoned, and then it is the one of
  // the unfinished call, and every finished call has its result.
  lemma {:induction false} OneOutstanding(add: FloatAdd, start: System, es: seq<Event>, s: System)
    requires IsStart(start) && Follow(add, start, es) == Some(s) && s.clean
    ensures forall i :: 0 <= i < |s.results| ==> s.results[i].Ok?
    ensures InTransit(s) == (if s.pending.Some? then 1 else 0)
  {
    ReachableInv(add, start, es, s);
    TransitBound(add, start, es, s);
    AbandonedNone(s.results);
    hide InTransit;
  }

  // Abandoning a call breaks this: from every reachable state in which no call was abandoned and one is
  // waiting, giving it up and starting another leaves two in transit.
  lemma {:induction false} AbandoningLeavesTwo(add: FloatAdd, start: System, es: seq<Event>, s: System, op: Op)
    requires IsStart(start) && Follow(add, start, es) == Some(s) && s.clean && s.pending.Some?
    ensures var after := Follow(add, start, es + [ClientSeesClose] + [CallStarts(op)]);
            after.Some? && InTransit(after.value) == 2
  {
    OneOutstanding(add, start, es, s);
    TransitBound(add, start, es, s);
    Extend(add, start, es, ClientSeesClose);
    Extend(add, start, es + [ClientSeesClose], CallStarts(op));
    hide Follow, InTransit;
    TransitBound(add, start, es + [ClientSeesClose] + [CallStarts(op)],
                 Follow(add, start, es + [ClientSeesClose] + [CallStarts(op)]).value);
  }

  // The shortest run with two from the start: an Error message makes the first call return, and the next
  // request is sent while the first is still on its way.
  lemma {:induction false} TwoOutstanding(add: FloatAdd, start: System)
    requires IsStart(start)
    ensures var s := Follow(add, start, [CallStarts(Sync)] + [OtherToClient(Error("busy"))] +
                               [ClientReads] + [CallStarts(Sync)]);
            s.Some? && InTransit(s.value) == 2 && Abandoned(s.value.results) == 1
  {
    var s2 := BusyArrives(add, start);
    hide Serve, React, Follow, Filter, Abandoned, After, Enabled;
    BusyIsTaken(add, s2, start.sid);
    FourSteps(add, start, CallStarts(Sync), OtherToClient(Error("busy")), ClientReads, CallStarts(Sync));
    TwoInTransit(start.sid, CudaOp(start.sid, 1, Sync), CudaOp(start.sid, 2, Sync));
    AbandonedOne(Err(Network("busy")));
  }

  lemma {:induction false} BusyArrives(add: FloatAdd, start: System) returns (s: System)
    requires IsStart(start)
    ensures Enabled(start, CallStarts(Sync)) &&
            Enabled(After(add, start, CallStarts(Sync)), OtherToClient(Error("busy")))
    ensures s == After(add, After(add, start, CallStarts(Sync)), OtherToClient(Error("busy")))
    ensures s.sid == start.sid && s.pending.Some? &&
            s.toServer == [CudaOp(s.sid, 1, Sync)] && s.toClient == [Error("busy")]
    ensures s.results == [] && s.nextOp == 2
  {
    hide Serve, React;
    s := After(add, After(add, start, CallStarts(Sync)), OtherToClient(Error("busy")));
  }

  lemma {:induction false} BusyIsTaken(add: FloatAdd, s: System, sid: string)
    requires s.sid == sid && s.pending.Some? && s.toServer == [CudaOp(sid, 1, Sync)] && s.toClient == [Error("busy")]
    requires s.results == [] && s.nextOp == 2
    ensures Enabled(s, ClientReads) && Enabled(After(add, s, ClientReads), CallStarts(Sync))
    ensures var t := After(add, After(add, s, ClientReads), CallStarts(Sync));
            t.sid == sid && t.toServer == [] + [CudaOp(sid, 1, Sync)] + [CudaOp(sid, 2, Sync)] && t.toClient == [] &&
            t.results == [] + [Err(Network("busy"))]
  {
    hide Serve;
  }

  lemma {:induction false} TwoInTransit(sid: string, m: Message, n: Message)
    requires IsOpFor(sid)(m) && IsOpFor(sid)(n)
    ensures |Filter(IsOpFor(sid), [] + [m] + [n])| == 2 && Filter(IsResultFor(sid), []) == []
  {
    FilterLast(IsOpFor(sid), [], m);
    FilterLast(IsOpFor(sid), [] + [m], n);
  }

  lemma {:induction false} AbandonedOne(r: CallResult)
    requires r.Err?
    ensures Abandoned([] + [r]) == 1
  {
    AbandonedLast([], r);
  }

  lemma {:induction false} FourSteps(add: FloatAdd, s: System, a: Event, b: Event, c: Event, d: Event)
    requires Enabled(s, a) && Enabled(After(add, s, a), b) && Enabled(After(add, After(add, s, a), b), c)
    requires Enabled(After(add, After(add, After(add, s, a), b), c), d)
    ensures Follow(add, s, [a] + [b] + [c] + [d]) == Some(After(add, After(add, After(add, After(add, s, a), b), c), d))
  {
    Extend(add, s, [], a);
    assert Follow(add, s, []) == Some(s) && [] + [a] == [a];
    hide Follow, After, Enabled;
    Extend(add, s, [a], b);
    Extend(add, s, [a] + [b], c);
    Extend(add, s, [a] + [b] + [c], d);
  }

  lemma {:induction false} Extend(add: FloatAdd, start: System, es: seq<Event>, e: Event)
    ensures Follow(add, start, es + [e]) ==
            match Follow(add, start, es)
            case None => None
            case Some(mid) => if Enabled(mid, e) then Some(After(add, mid, e)) else None
  {
    assert (es + [e])[..|es|] == es;
  }

  lemma {:induction false} Prepend(add: FloatAdd, s: System, e: Event, es: seq<Event>)
    requires Enabled(s, e)
    ensures Follow(add, s, [e] + es) == Follow(add, After(add, s, e), es)
  {
    hide After, Enabled;
    if es == [] {
      Extend(add, s, [], e);
      assert [] + [e] == [e] == [e] + es;
    } else {
      var before, last := es[..|es| - 1], es[|es| - 1];
      Prepend(add, s, e, before);
      assert [e] + es == ([e] + before) + [last] && es == before + [last];
      Extend(add, s, [e] + before, last);
      Extend(add, After(add, s, e), before, last);
    }
  }

  // The provider serves and the client reads; nobody closes the connection or sends anything new.
  ghost predicate OnlyServes(es: seq<Event>) {
    forall k :: 0 <= k < |es| ==> es[k].ServerHandles? || es[k].ClientReads?
  }

  lemma {:induction false} SomethingToRead(add: FloatAdd, init: Session, s: System)
    requires Inv(add, init, s) && s.pending.Some? && s.toServer == []
    ensures s.toClient != []
  {
    hide Serve, Step, Run, OpId;
  }

  // The next step of serving: it brings the end of the waiting call nearer.
  lemma {:induction false} NextServed(add: FloatAdd, init: Session, s: System) returns (e: Event)
    requires Inv(add, init, s) && NoClose(s) && s.pending.Some?
    ensures (e.ServerHandles? || e.ClientReads?) && Enabled(s, e)
    ensures var t := After(add, s, e);
            && Inv(add, init, t) && NoClose(t)
            && (|t.toServer| < |s.toServer| || (|t.toServer| == |s.toServer| && |t.toClient| < |s.toClient|))
            && |t.results| == |s.results| + (if t.pending.Some? then 0 else 1)
  {
    e := ClientReads;
    if s.toServer != [] {
      e := ServerHandles(Host(false, false, [], 0, None, 0, s.sid + "x", 0, 0));
    } else {
      SomethingToRead(add, init, s);
    }
    StepKeepsInv(add, init, s, e);
    hide Inv, NoClose, Serve, React;
  }

  // A call that is waiting can always finish: serving what was sent and reading what comes back is enough.
  lemma {:induction false} CallCanFinish(add: FloatAdd, init: Session, s: System) returns (es: seq<Event>)
    requires Inv(add, init, s) && NoClose(s) && s.pending.Some?
    ensures OnlyServes(es) && Follow(add, s, es).Some?
    ensures var s' := Follow(add, s, es).value; s'.pending == None && |s'.results| == |s.results| + 1
    decreases |s.toServer|, |s.toClient|
  {
    var e := NextServed(add, init, s);
    var t := After(add, s, e);
    hide Inv, NoClose, After, Enabled;
    var rest: seq<Event> := [];
    if t.pending.Some? {
      rest := CallCanFinish(add, init, t);
    }
    Prepend(add, s, e, rest);
    es := [e] + rest;
  }
}
