/** The TCP bridge: any number of connections share one remoting client behind a mutex. */
module Bridge {
  import opened Base
  import opened CudaOps
  import opened CudaSession
  import opened Remoting
  import opened Transparency
  import opened CudaHandles

  // A parsed JSON request; a field that is absent or of the wrong type is None.
  datatype Request = Request(op: string, bytes: Option<u64>, ptr: Option<u64>, src: Option<u64>, dst: Option<u64>,
                             n: Option<u64>, data: Option<seq<Option<u64>>>)

  datatype Trouble = Backend(fault: Option<Fault>) | Missing | Lost(error: CallError) | UnknownOp

  datatype Response = Good(deviceCount: Option<u32>, ptr: Option<u64>, data: Option<Bytes>) | Bad(trouble: Trouble)

  // Array elements that are not unsigned integers are dropped, the others keep their low byte.
  function LowBytes(items: seq<Option<u64>>): Bytes {
    if items == [] then []
    else (if items[0].Some? then [(items[0].value % 256) as byte] else []) + LowBytes(items[1..])
  }

  // The operation a request asks for. Vector addition takes its operands from the fields dst, src and ptr.
  function Translate(r: Request): Option<Op> {
    match r.op
    case "device_count" => Some(DeviceCount)
    case "malloc" => Some(Malloc(r.bytes.GetOr(0)))
    case "free" => Some(Free(r.ptr.GetOr(0)))
    case "htod" => Some(MemcpyHtoD(r.dst.GetOr(0), LowBytes(r.data.GetOr([]))))
    case "dtoh" => Some(MemcpyDtoH(r.src.GetOr(0), r.bytes.GetOr(0)))
    case "sync" => Some(Sync)
    case "vector_add_f32" =>
      Some(VectorAddF32(r.dst.GetOr(0), r.src.GetOr(0), r.ptr.GetOr(0), r.n.GetOr(0) % U32_LIMIT))
    case _ => None
  }

  predicate Known(r: Request) {
    Translate(r).Some?
  }

  // What the bridge answers once the call for `op` has returned.
  function Respond(op: Op, result: CallResult): Response {
    match result
    case Err(e) => Bad(Lost(e))
    case Ok(r) =>
      if !r.ok then Bad(Backend(r.error))
      else if op.DeviceCount? then (if r.deviceCount.Some? then Good(r.deviceCount, None, None) else Bad(Missing))
      else if op.Malloc? then (if r.ptr.Some? then Good(None, r.ptr, None) else Bad(Missing))
      else if op.MemcpyDtoH? then (if r.data.Some? then Good(None, None, r.data) else Bad(Missing))
      else Good(None, None, None)
  }

  datatype Exchange = Exchange(request: Request, response: Response)

  datatype Conn = Conn(waiting: Option<Request>, history: seq<Exchange>)

  datatype Locked = Locked(conn: nat, request: Request)

  // `order` records which connection took the lock for which backend request, in lock order.
  datatype Bridge = Bridge(system: System, holder: Option<nat>, conns: map<nat, Conn>, order: seq<Locked>)

  datatype Event =
    | Connects(c: nat)
    | Arrives(c: nat, request: Request)
    | Locks(c: nat)
    | Moves(event: Transparency.Event)
    | Releases

  predicate IsStart(b: Bridge) {
    Transparency.IsStart(b.system) && b.holder == None && b.conns == map[] && b.order == []
  }

  // Only the lock holder starts calls, so the moves in between are everything else the system can do.
  predicate Enabled(b: Bridge, e: Event) {
    match e
    case Connects(c) => c !in b.conns
    case Arrives(c, _) => c in b.conns && b.conns[c].waiting == None
    case Locks(c) => c in b.conns && b.conns[c].waiting.Some? && b.holder == None && b.system.pending == None
    case Moves(m) => !m.CallStarts? && Transparency.Enabled(b.system, m)
    case Releases => b.holder.Some? && b.holder.value in b.conns && b.conns[b.holder.value].waiting.Some? &&
                     Known(b.conns[b.holder.value].waiting.value) &&
                     b.system.pending == None && b.system.results != []
  }

  function After(add: FloatAdd, b: Bridge, e: Event): Bridge
    requires Enabled(b, e)
  {
    match e
    case Connects(c) => b.(conns := b.conns[c := Conn(None, [])])
    case Arrives(c, r) => b.(conns := b.conns[c := b.conns[c].(waiting := Some(r))])
    case Locks(c) =>
      var r := b.conns[c].waiting.value;
      (match Translate(r)
       case None => b.(conns := b.conns[c := Conn(None, b.conns[c].history + [Exchange(r, Bad(UnknownOp))])])
       case Some(op) =>
         b.(system := Transparency.After(add, b.system, CallStarts(op)), holder := Some(c),
            order := b.order + [Locked(c, r)]))
    case Moves(m) => b.(system := Transparency.After(add, b.system, m))
    case Releases =>
      var c := b.holder.value;
      var r := b.conns[c].waiting.value;
      var response := Respond(Translate(r).value, b.system.results[|b.system.results| - 1]);
      b.(holder := None, conns := b.conns[c := Conn(None, b.conns[c].history + [Exchange(r, response)])])
  }

  function Follow(add: FloatAdd, start: Bridge, es: seq<Event>): Option<Bridge> {
    if es == [] then Some(start)
    else
      match Follow(add, start, es[..|es| - 1])
      case None => None
      case Some(mid) => if Enabled(mid, es[|es| - 1]) then Some(After(add, mid, es[|es| - 1])) else None
  }

  ghost predicate AllKnown(order: seq<Locked>) {
    forall k :: 0 <= k < |order| ==> Known(order[k].request)
  }

  // The exchanges of connection c in a sequential history: the backend requests in lock order, each
  // with the response its result leads to.
  ghost function Share(order: seq<Locked>, results: seq<CallResult>, c: nat): seq<Exchange>
    requires |order| == |results| && AllKnown(order)
  {
    if order == [] then []
    else
      var n := |order| - 1;
      assert Known(order[n].request);
      Share(order[..n], results[..n], c) +
      if order[n].conn == c
      then [Exchange(order[n].request, Respond(Translate(order[n].request).value, results[n]))] else []
  }

  function IsBackend(): Exchange -> bool {
    (x: Exchange) => Known(x.request)
  }

  // Requests whose answer has been handed out.
  function Released(b: Bridge): nat {
    if b.holder.Some? && 0 < |b.order| then |b.order| - 1 else |b.order|
  }

  // What each connection has seen of the backend is its share of the released requests.
  ghost predicate HistoriesRight(conns: map<nat, Conn>, order: seq<Locked>, results: seq<CallResult>)
    requires |order| == |results| && AllKnown(order)
  {
    forall c :: c in conns ==> Filter(IsBackend(), conns[c].history) == Share(order, results, c)
  }

  ghost predicate Inv(b: Bridge) {
    && |b.order| == |b.system.sent|
    && (forall k :: 0 <= k < |b.order| ==> Translate(b.order[k].request) == Some(b.system.sent[k]))
    && |b.system.sent| == |b.system.results| + (if b.system.pending.Some? then 1 else 0)
    && (b.holder == None ==> b.system.pending == None)
    && (b.holder.Some? ==> var c := b.holder.value;
         c in b.conns && |b.order| > 0 && b.conns[c].waiting == Some(b.order[|b.order| - 1].request) &&
         b.order[|b.order| - 1].conn == c)
    && AllKnown(b.order)
    && Released(b) <= |b.system.results|
    && HistoriesRight(b.conns, b.order[..Released(b)], b.system.results[..Released(b)])
    && (forall k :: 0 <= k < |b.order| ==> b.order[k].conn in b.conns)
  }

  lemma {:induction false} ShareLast(order: seq<Locked>, results: seq<CallResult>, l: Locked, r: CallResult, c: nat)
    requires |order| == |results| && Known(l.request) && AllKnown(order)
    ensures Share(order + [l], results + [r], c) ==
            Share(order, results, c) +
            if l.conn == c then [Exchange(l.request, Respond(Translate(l.request).value, r))] else []
  {
    assert (order + [l])[..|order|] == order && (results + [r])[..|results|] == results;
  }

  lemma {:induction false} ShareNone(order: seq<Locked>, results: seq<CallResult>, c: nat)
    requires |order| == |results| && AllKnown(order)
    requires forall k :: 0 <= k < |order| ==> order[k].conn != c
    ensures Share(order, results, c) == []
  {
    if order != [] {
      ShareNone(order[..|order| - 1], results[..|order| - 1], c);
    }
  }

  lemma {:induction false} FilterEmpty<T>(p: T -> bool)
    ensures Filter(p, []) == []
  {
  }

  lemma {:induction false} ReleaseExtends(conns: map<nat, Conn>, order: seq<Locked>, results: seq<CallResult>,
                                          l: Locked, r: CallResult)
    requires |order| == |results| && AllKnown(order) && Known(l.request) && l.conn in conns
    requires HistoriesRight(conns, order, results)
    ensures AllKnown(order + [l])
    ensures var x := Exchange(l.request, Respond(Translate(l.request).value, r));
            HistoriesRight(conns[l.conn := Conn(None, conns[l.conn].history + [x])], order + [l], results + [r])
  {
    var x := Exchange(l.request, Respond(Translate(l.request).value, r));
    FilterLast(IsBackend(), conns[l.conn].history, x);
    hide Filter, Share, Respond, Translate;
    forall c | c in conns
      ensures Share(order + [l], results + [r], c) == Share(order, results, c) + if l.conn == c then [x] else []
    {
      ShareLast(order, results, l, r, c);
    }
  }

  lemma {:induction false} ReleaseKeepsInv(add: FloatAdd, b: Bridge)
    requires Inv(b) && Enabled(b, Releases)
    ensures Inv(After(add, b, Releases))
  {
    hide Translate, Respond, Share, Serve, Filter, HistoriesRight;
    var n := |b.order| - 1;
    var b' := After(add, b, Releases);
    ReleaseExtends(b.conns, b.order[..n], b.system.results[..n], b.order[n], b.system.results[n]);
    assert b.order[..n] + [b.order[n]] == b'.order[..n + 1];
    assert b.system.results[..n] + [b.system.results[n]] == b'.system.results[..n + 1];
  }

  lemma {:induction false} ConnectKeepsInv(add: FloatAdd, b: Bridge, c: nat)
    requires Inv(b) && Enabled(b, Connects(c))
    ensures Inv(After(add, b, Connects(c)))
  {
    hide Translate, Respond, Share, Serve, Filter;
    ShareNone(b.order[..Released(b)], b.system.results[..Released(b)], c);
    FilterEmpty(IsBackend());
  }

  lemma {:induction false} LockKeepsInv(add: FloatAdd, b: Bridge, c: nat)
    requires Inv(b) && Enabled(b, Locks(c))
    ensures Inv(After(add, b, Locks(c)))
  {
    if Known(b.conns[c].waiting.value) {
      KnownLockKeepsInv(add, b, c);
    } else {
      var r := b.conns[c].waiting.value;
      FilterLast(IsBackend(), b.conns[c].history, Exchange(r, Bad(UnknownOp)));
      hide Translate, Respond, Share, Serve, Filter;
    }
  }

  lemma {:induction false} KnownLockKeepsInv(add: FloatAdd, b: Bridge, c: nat)
    requires Inv(b) && Enabled(b, Locks(c)) && Known(b.conns[c].waiting.value)
    ensures Inv(After(add, b, Locks(c)))
  {
    hide Translate, Respond, Share, Serve, Filter, HistoriesRight;
    var b' := After(add, b, Locks(c));
    assert Released(b') == Released(b);
    assert b'.order[..Released(b)] == b.order[..Released(b)];
  }

  lemma {:induction false} MoveKeepsInv(add: FloatAdd, b: Bridge, m: Transparency.Event)
    requires Inv(b) && Enabled(b, Moves(m))
    ensures Inv(After(add, b, Moves(m)))
  {
    hide Translate, Respond, Share, Serve, Filter, HistoriesRight;
    assert After(add, b, Moves(m)).system.results[..Released(b)] == b.system.results[..Released(b)];
  }

  lemma {:induction false} StepKeepsInv(add: FloatAdd, b: Bridge, e: Event)
    requires Inv(b) && Enabled(b, e)
    ensures Inv(After(add, b, e))
  {
    match e
    case Connects(c) => ConnectKeepsInv(add, b, c);
    case Arrives(c, _) => hide Translate, Respond, Share, Serve, Filter;
    case Locks(c) => LockKeepsInv(add, b, c);
    case Moves(m) => MoveKeepsInv(add, b, m);
    case Releases => ReleaseKeepsInv(add, b);
  }

  lemma {:induction false} ReachableInv(add: FloatAdd, start: Bridge, es: seq<Event>, b: Bridge)
    requires IsStart(start) && Follow(add, start, es) == Some(b)
    ensures Inv(b)
    ensures b.system.sid == start.system.sid && Transparency.NoClose(b.system) &&
            Transparency.Inv(add, start.system.table[start.system.sid], b.system)
  {
    hide Translate, Respond, Serve, Inv, Transparency.Inv;
    if es != [] {
      var mid := Follow(add, start, es[..|es| - 1]).value;
      ReachableInv(add, start, es[..|es| - 1], mid);
      StepKeepsInv(add, mid, es[|es| - 1]);
      SystemKeepsInv(add, start.system.table[start.system.sid], mid, es[|es| - 1]);
    } else {
      StartInv(add, b);
    }
  }

  lemma {:induction false} StartInv(add: FloatAdd, b: Bridge)
    requires IsStart(b)
    ensures Inv(b) && Transparency.Inv(add, b.system.table[b.system.sid], b.system)
  {
  }

  lemma {:induction false} SystemKeepsInv(add: FloatAdd, init: Session, b: Bridge, e: Event)
    requires Enabled(b, e) && Transparency.Inv(add, init, b.system) && Transparency.NoClose(b.system)
    ensures var s := After(add, b, e).system;
            Transparency.Inv(add, init, s) && Transparency.NoClose(s) && s.sid == b.system.sid
  {
    hide Respond, Transparency.Inv, Serve;
    match e
    case Moves(m) => Transparency.StepKeepsInv(add, init, b.system, m);
    case Locks(c) =>
      var op := Translate(b.conns[c].waiting.value);
      if op.Some? {
        Transparency.StepKeepsInv(add, init, b.system, CallStarts(op.value));
      }
    case _ =>
  }

  // The results a sequential backend gives: its replies, with lost calls left lost.
  function Sequential(results: seq<CallResult>, replies: seq<Reply>): seq<CallResult>
  {
    seq(|results|, k requires 0 <= k < |results| =>
      if results[k].Ok? && k < |replies| then Ok(Keep(replies[k], 0)) else results[k])
  }

  lemma {:induction false} ShareSame(order: seq<Locked>, rs: seq<CallResult>, rs': seq<CallResult>, c: nat)
    requires |order| == |rs| == |rs'| && AllKnown(order)
    requires forall k :: 0 <= k < |order| ==>
               Respond(Translate(order[k].request).value, rs[k]) == Respond(Translate(order[k].request).value, rs'[k])
    ensures Share(order, rs, c) == Share(order, rs', c)
  {
    hide Respond, Translate;
    if order != [] {
      ShareSame(order[..|order| - 1], rs[..|rs| - 1], rs'[..|rs'| - 1], c);
    }
  }

  // The bridge is linearisable. Whatever the interleaving, what each connection has seen of the backend
  // is its share of one sequential run of the session: the requests of all connections in the order
  // in which they took the lock, answered by the replies of that run.
  lemma {:induction false} BridgeIsLinearizable(add: FloatAdd, start: Bridge, es: seq<Event>, b: Bridge, c: nat)
    requires IsStart(start) && Follow(add, start, es) == Some(b) && IdsDistinct(b.system) && c in b.conns
    ensures var n := Released(b); var s := b.system;
            && n <= |b.order| && n <= |s.results| && AllKnown(b.order)
            && (forall k :: 0 <= k < |s.executed| ==>
                 k < |b.order| && Translate(b.order[k].request) == Some(s.executed[k].op))
            && (var local := Replies(add, start.system.table[start.system.sid], s.executed);
                Filter(IsBackend(), b.conns[c].history) == Share(b.order[..n], Sequential(s.results[..n], local), c))
  {
    hide Translate, Serve, Filter, Share, Replies, Run;
    ReachableInv(add, start, es, b);
    var s, n := b.system, Released(b);
    var rs := s.results[..n];
    var rs' := Sequential(rs, Replies(add, start.system.table[start.system.sid], s.executed));
    assert forall k :: 0 <= k < n ==> b.order[..n][k] == b.order[k] && rs[k] == s.results[k];
    ShareSame(b.order[..n], rs, rs', c);
  }

  function MovesOf(es: seq<Transparency.Event>): (moves: seq<Event>)
    ensures |moves| == |es| && forall k :: 0 <= k < |es| ==> moves[k] == Moves(es[k])
  {
    seq(|es|, k requires 0 <= k < |es| => Moves(es[k]))
  }

  lemma {:induction false} Extend(add: FloatAdd, start: Bridge, es: seq<Event>, e: Event)
    ensures Follow(add, start, es + [e]) ==
            match Follow(add, start, es)
            case None => None
            case Some(mid) => if Enabled(mid, e) then Some(After(add, mid, e)) else None
  {
    assert (es + [e])[..|es|] == es;
  }

  // While the lock is held, the system moves on its own.
  lemma {:induction false} MovesFollow(add: FloatAdd, b: Bridge, es: seq<Transparency.Event>)
    requires Transparency.Follow(add, b.system, es).Some? && forall k :: 0 <= k < |es| ==> !es[k].CallStarts?
    ensures Follow(add, b, MovesOf(es)) == Some(b.(system := Transparency.Follow(add, b.system, es).value))
  {
    hide Transparency.After, Transparency.Enabled;
    if es != [] {
      var before, last := es[..|es| - 1], es[|es| - 1];
      MovesFollow(add, b, before);
      assert MovesOf(es) == MovesOf(before) + [Moves(last)];
      Extend(add, b, MovesOf(before), Moves(last));
    }
  }

  // How a held lock is given back: the call of the holder finishes by being served.
  lemma {:induction false} HolderFinishes(add: FloatAdd, init: Session, s: System) returns (es: seq<Transparency.Event>)
    requires Transparency.Inv(add, init, s) && Transparency.NoClose(s)
    ensures OnlyServes(es)
    ensures var after := Transparency.Follow(add, s, es);
            after.Some? && after.value.pending == None && |s.results| <= |after.value.results| &&
            (s.pending.Some? ==> after.value.results != [])
  {
    es := [];
    if s.pending.Some? {
      es := CallCanFinish(add, init, s);
    }
  }

  // The lock is never stuck. A connection that waits for it can take it whenever nobody holds it; and from
  // every reachable state in which somebody holds it, serving what was sent and reading what comes back
  // is enough for the holder to get its answer and give it back.
  lemma {:induction false} LockNeverStuck(add: FloatAdd, start: Bridge, es: seq<Event>, b: Bridge)
    returns (moves: seq<Transparency.Event>)
    requires IsStart(start) && Follow(add, start, es) == Some(b)
    ensures b.holder == None ==> forall c :: c in b.conns && b.conns[c].waiting.Some? ==> Enabled(b, Locks(c))
    ensures b.holder.Some? ==>
              var c, after := b.holder.value, Follow(add, b, MovesOf(moves) + [Releases]);
              OnlyServes(moves) && after.Some? && after.value.holder == None &&
              c in b.conns && c in after.value.conns && after.value.conns[c].waiting == None &&
              |after.value.conns[c].history| == |b.conns[c].history| + 1
  {
    hide Translate, Respond, Share, Serve, Filter, HistoriesRight, Follow, Transparency.Inv, Transparency.Follow;
    ReachableInv(add, start, es, b);
    moves := [];
    if b.holder.Some? {
      assert Known(b.order[|b.order| - 1].request);
      moves := HolderFinishes(add, start.system.table[start.system.sid], b.system);
      MovesFollow(add, b, moves);
      var mid := b.(system := Transparency.Follow(add, b.system, moves).value);
      assert Enabled(mid, Releases);
      Extend(add, b, MovesOf(moves), Releases);
    }
  }

  // Two allocations granted through the bridge, to whichever connections, never share a handle, as long
  // as the session has not made more than SAFE_MALLOCS allocations.
  lemma {:induction false} GrantedHandlesDiffer(add: FloatAdd, start: Bridge, es: seq<Event>, b: Bridge,
                                                maxAlloc: u64, devices: seq<DeviceInfo>, i: nat, j: nat)
    requires IsStart(start) && start.system.table[start.system.sid] == Open(maxAlloc, devices)
    requires Follow(add, start, es) == Some(b) && IdsDistinct(b.system)
    requires i < j < |b.system.results| <= |b.system.sent|
    requires b.system.sent[i].Malloc? && b.system.sent[j].Malloc?
    requires Respond(b.system.sent[i], b.system.results[i]).Good? &&
             Respond(b.system.sent[j], b.system.results[j]).Good?
    requires Mallocs(add, Open(maxAlloc, devices), b.system.executed) <= SAFE_MALLOCS
    ensures Respond(b.system.sent[i], b.system.results[i]).ptr.value <
            Respond(b.system.sent[j], b.system.results[j]).ptr.value
  {
    hide Translate, Serve, Filter, Share, Run, Step, Follow, Replies, Inv;
    ReachableInv(add, start, es, b);
    var s0, calls := Open(maxAlloc, devices), b.system.executed;
    HandlesIncrease(add, s0, calls, i, j);
    IssuedIsCounter(add, s0, calls, i);
    CounterGrows(add, s0, calls, i, |calls|);
    assert calls[..|calls|] == calls;
    SafeBelowBound(add, maxAlloc, devices, calls);
  }

  // ---- Handles as the connections see them ----

  lemma {:induction false} FilterAt<T>(p: T -> bool, s: seq<T>, i: nat)
    requires i < |s| && p(s[i])
    ensures var k := |Filter(p, s[..i])|; k < |Filter(p, s)| && Filter(p, s)[k] == s[i]
  {
    if i > 0 {
      FilterAt(p, s[1..], i - 1);
      assert s[..i][1..] == s[1..][..i - 1];
    }
  }

  // Different kept elements have different places in the filtered sequence.
  lemma {:induction false} FilterKeepsApart<T>(p: T -> bool, s: seq<T>, i: nat, j: nat)
    requires i < j <= |s| && p(s[i])
    ensures |Filter(p, s[..i])| < |Filter(p, s[..j])|
  {
    FilterAt(p, s[..j], i);
    assert s[..j][..i] == s[..i];
  }

  // An exchange in the share of c is that of a request which c took the lock for; its place in the share
  // is the number of such requests before it.
  lemma {:induction false} ShareAt(order: seq<Locked>, results: seq<CallResult>, c: nat, t: nat) returns (k: nat)
    requires |order| == |results| && AllKnown(order) && t < |Share(order, results, c)|
    ensures k < |order| && order[k].conn == c && t == |Share(order[..k], results[..k], c)|
    ensures Share(order, results, c)[t] ==
            Exchange(order[k].request, Respond(Translate(order[k].request).value, results[k]))
  {
    hide Respond, Translate;
    var n := |order| - 1;
    assert Known(order[n].request);
    var before := Share(order[..n], results[..n], c);
    if t < |before| {
      k := ShareAt(order[..n], results[..n], c, t);
      assert order[..n][..k] == order[..k] && results[..n][..k] == results[..k];
    } else {
      k := n;
    }
  }

  // The place in lock order of an exchange with the backend in the history of a connection.
  lemma {:induction false} ExchangeAt(b: Bridge, c: nat, i: nat) returns (k: nat)
    requires Inv(b) && c in b.conns && i < |b.conns[c].history| && Known(b.conns[c].history[i].request)
    ensures k < Released(b) && b.order[k].conn == c && k < |b.system.results| && k < |b.system.sent|
    ensures b.conns[c].history[i] == Exchange(b.order[k].request, Respond(b.system.sent[k], b.system.results[k]))
    ensures AllKnown(b.order[..k])
    ensures |Share(b.order[..k], b.system.results[..k], c)| == |Filter(IsBackend(), b.conns[c].history[..i])|
  {
    hide Respond, Translate, Share, Filter;
    var n := Released(b);
    var order, results := b.order[..n], b.system.results[..n];
    assert AllKnown(order);
    FilterAt(IsBackend(), b.conns[c].history, i);
    k := ShareAt(order, results, c, |Filter(IsBackend(), b.conns[c].history[..i])|);
    assert order[..k] == b.order[..k] && results[..k] == b.system.results[..k];
    assert order[k] == b.order[k] && results[k] == b.system.results[k];
  }

  // Different exchanges, of one connection or of two, have different places in lock order.
  lemma {:induction false} ExchangesDiffer(b: Bridge, c: nat, i: nat, k: nat, d: nat, j: nat, l: nat)
    requires c in b.conns && i < |b.conns[c].history| && Known(b.conns[c].history[i].request)
    requires d in b.conns && j < |b.conns[d].history| && Known(b.conns[d].history[j].request)
    requires k < |b.order| && l < |b.order| && |b.order| <= |b.system.results| + 1 && k < |b.system.results|
    requires l < |b.system.results| && b.order[k].conn == c && b.order[l].conn == d
    requires AllKnown(b.order[..k]) && AllKnown(b.order[..l])
    requires |Share(b.order[..k], b.system.results[..k], c)| == |Filter(IsBackend(), b.conns[c].history[..i])|
    requires |Share(b.order[..l], b.system.results[..l], d)| == |Filter(IsBackend(), b.conns[d].history[..j])|
    requires (c, i) != (d, j)
    ensures k != l
  {
    hide Share, Filter, Translate;
    if c == d && i < j {
      FilterKeepsApart(IsBackend(), b.conns[c].history, i, j);
    } else if c == d {
      FilterKeepsApart(IsBackend(), b.conns[c].history, j, i);
    }
  }

  predicate IsGrant(x: Exchange) {
    x.response.Good? && Known(x.request) && Translate(x.request).value.Malloc?
  }

  // No two allocations that connections were granted share a handle, be they of one connection or of two,
  // as long as the session has not made more than SAFE_MALLOCS allocations.
  lemma {:induction false} NoHandleIsShared(add: FloatAdd, start: Bridge, es: seq<Event>, b: Bridge, maxAlloc: u64,
                                            devices: seq<DeviceInfo>, c: nat, i: nat, d: nat, j: nat)
    requires IsStart(start) && start.system.table[start.system.sid] == Open(maxAlloc, devices)
    requires Follow(add, start, es) == Some(b) && IdsDistinct(b.system)
    requires Mallocs(add, Open(maxAlloc, devices), b.system.executed) <= SAFE_MALLOCS
    requires c in b.conns && i < |b.conns[c].history| && IsGrant(b.conns[c].history[i])
    requires d in b.conns && j < |b.conns[d].history| && IsGrant(b.conns[d].history[j])
    requires (c, i) != (d, j)
    ensures var p, q := b.conns[c].history[i].response.ptr, b.conns[d].history[j].response.ptr;
            p.Some? && q.Some? && p != q
  {
    ReachableInv(add, start, es, b);
    assert |b.system.results| <= |b.system.sent| == |b.order|;
    var k := ExchangeAt(b, c, i);
    var l := ExchangeAt(b, d, j);
    ExchangesDiffer(b, c, i, k, d, j, l);
    assert Translate(b.order[k].request) == Some(b.system.sent[k]);
    assert Translate(b.order[l].request) == Some(b.system.sent[l]);
    hide Follow, Translate, Share, Filter, Inv, Transparency.Inv, Mallocs, IsStart;
    GrantCarriesHandle(b.system.sent[k], b.system.results[k]);
    GrantCarriesHandle(b.system.sent[l], b.system.results[l]);
    hide Respond;
    if k < l {
      GrantedHandlesDiffer(add, start, es, b, maxAlloc, devices, k, l);
    } else {
      GrantedHandlesDiffer(add, start, es, b, maxAlloc, devices, l, k);
    }
  }

  lemma {:induction false} GrantCarriesHandle(op: Op, result: CallResult)
    requires op.Malloc? && Respond(op, result).Good?
    ensures Respond(op, result).ptr.Some?
  {
  }
}
