/** The relay: one-shot matching of a requester with a registered connection, then forwarding. */
module Relay {
  import opened Base

  type Conn = nat

  // What the first frame of a connection asks for; Bad stands for every other first frame.
  datatype Command = Register(id: string) | Request(id: string) | Bad

  function StripPrefix(prefix: string, s: string): Option<string> {
    if prefix <= s then Some(s[|prefix|..]) else None
  }

  // Commands travel in the text of error messages; an empty id is refused.
  function ParseCommand(text: string): Command {
    match StripPrefix("RELAY_REGISTER:", text)
    case Some(id) => if id == "" then Bad else Register(id)
    case None =>
      match StripPrefix("RELAY_REQUEST:", text)
      case Some(id) => if id == "" then Bad else Request(id)
      case None => Bad
  }

  // What clients send is understood as what they meant.
  lemma {:induction false} CommandsParse(id: string)
    requires id != ""
    ensures ParseCommand("RELAY_REGISTER:" + id) == Register(id)
    ensures ParseCommand("RELAY_REQUEST:" + id) == Request(id)
  {
    assert ("RELAY_REGISTER:" + id)[|"RELAY_REGISTER:"|..] == id;
    assert ("RELAY_REQUEST:" + id)[|"RELAY_REQUEST:"|..] == id;
    assert ("RELAY_REQUEST:" + id)[8] == 'Q' && "RELAY_REGISTER:"[8] == 'G';
  }

  // Nothing else is understood.
  lemma {:induction false} OnlyTheseCommands(text: string)
    ensures ParseCommand(text).Register? ==>
              ParseCommand(text).id != "" && text == "RELAY_REGISTER:" + ParseCommand(text).id
    ensures ParseCommand(text).Request? ==>
              ParseCommand(text).id != "" && text == "RELAY_REQUEST:" + ParseCommand(text).id
  {
    var a, b := "RELAY_REGISTER:", "RELAY_REQUEST:";
    assert a <= text ==> text == a + text[|a|..];
    assert b <= text ==> text == b + text[|b|..];
  }

  type Table = map<string, Conn>

  // The locked section for one command: the connection to close, or the pair to bridge.
  datatype Action = Registered(replaced: Option<Conn>) | Bridged(target: Conn) | Unavailable | Refused

  function TableAction(t: Table, cmd: Command): Action {
    match cmd
    case Register(id) => Registered(if id in t then Some(t[id]) else None)
    case Request(id) => if id in t then Bridged(t[id]) else Unavailable
    case Bad => Refused
  }

  function TableAfter(t: Table, c: Conn, cmd: Command): Table {
    match cmd
    case Register(id) => t[id := c]
    case Request(id) => t - {id}
    case Bad => t
  }

  class Registrations {
    var table: Table

    constructor ()
      ensures table == map[]
    {
      table := map[];
    }

    method Handle(c: Conn, text: string) returns (action: Action)
      modifies this
      ensures action == TableAction(old(table), ParseCommand(text))
      ensures table == TableAfter(old(table), c, ParseCommand(text))
    {
      var register := StripPrefix("RELAY_REGISTER:", text);
      if register.Some? {
        var id := register.value;
        if id == "" {
          return Refused;
        }
        var replaced := if id in table then Some(table[id]) else None;
        table := table[id := c];
        return Registered(replaced);
      }
      var request := StripPrefix("RELAY_REQUEST:", text);
      if request.Some? {
        var id := request.value;
        if id == "" {
          return Refused;
        }
        if id !in table {
          assert table == table - {id};
          return Unavailable;
        }
        var target := table[id];
        table := table - {id};
        return Bridged(target);
      }
      return Refused;
    }
  }

  // ---- All connections together ----

  datatype Phase = Fresh | Waiting(id: string) | Bridging(peer: Conn) | Ended

  /** One connection: its phase, what its endpoint sent after the relay command, how much of that the
      relay has read, what the relay sent to it, and with whom it was ever bridged. */
  datatype Link = Link(phase: Phase, sent: seq<nat>, read: nat, got: seq<nat>, partner: Option<Conn>)

  datatype State = State(table: Table, links: map<Conn, Link>)

  datatype Event =
    | Accept(c: Conn)
    | Act(c: Conn, text: string)
    | Emit(c: Conn, message: nat)
    | Forward(c: Conn)
    | LoseAndEnd(c: Conn)      // a message was read, but sending it on failed
    | EndBridge(c: Conn)

  predicate Enabled(s: State, e: Event) {
    match e
    case Accept(c) => c !in s.links
    case Act(c, _) => c in s.links && s.links[c].phase == Fresh
    case Emit(c, _) => c in s.links
    case Forward(c) => CanForward(s, c)
    case LoseAndEnd(c) => CanForward(s, c)
    case EndBridge(c) => c in s.links && s.links[c].phase.Bridging? && s.links[c].phase.peer in s.links
  }

  predicate CanForward(s: State, c: Conn) {
    c in s.links && s.links[c].phase.Bridging? && s.links[c].phase.peer in s.links &&
    s.links[c].read < |s.links[c].sent|
  }

  function Ending(links: map<Conn, Link>, c: Conn): map<Conn, Link>
    requires c in links
  {
    links[c := links[c].(phase := Ended)]
  }

  function After(s: State, e: Event): State
    requires Enabled(s, e)
  {
    match e
    case Accept(c) => s.(links := s.links[c := Link(Fresh, [], 0, [], None)])
    case Act(c, text) =>
      var cmd := ParseCommand(text);
      var table := TableAfter(s.table, c, cmd);
      (match TableAction(s.table, cmd)
       case Registered(replaced) =>
         var links := s.links[c := s.links[c].(phase := if cmd.Register? then Waiting(cmd.id) else Ended)];
         State(table, if replaced.Some? && replaced.value in links then Ending(links, replaced.value) else links)
       case Bridged(t) =>
         if t in s.links && t != c then
           State(table, s.links[c := s.links[c].(phase := Bridging(t), partner := Some(t))]
                               [t := s.links[t].(phase := Bridging(c), partner := Some(c))])
         else State(table, Ending(s.links, c))
       case _ => State(table, Ending(s.links, c)))
    case Emit(c, m) => s.(links := s.links[c := s.links[c].(sent := s.links[c].sent + [m])])
    case Forward(c) =>
      var l, p := s.links[c], s.links[c].phase.peer;
      var links := s.links[c := l.(read := l.read + 1)];
      s.(links := links[p := links[p].(got := links[p].got + [l.sent[l.read]])])
    case LoseAndEnd(c) =>
      var l := s.links[c];
      s.(links := Ending(Ending(s.links[c := l.(read := l.read + 1)], c), l.phase.peer))
    case EndBridge(c) => s.(links := Ending(Ending(s.links, c), s.links[c].phase.peer))
  }

  function Follow(start: State, es: seq<Event>): Option<State> {
    if es == [] then Some(start)
    else
      match Follow(start, es[..|es| - 1])
      case None => None
      case Some(mid) => if Enabled(mid, es[|es| - 1]) then Some(After(mid, es[|es| - 1])) else None
  }

  const START := State(map[], map[])

  // Exactly the waiting connections are in the table, each under the id it registered.
  ghost predicate TableRight(s: State) {
    && (forall id :: id in s.table ==> s.table[id] in s.links && s.links[s.table[id]].phase == Waiting(id))
    && (forall c :: c in s.links && s.links[c].phase.Waiting? ==>
         s.links[c].phase.id in s.table && s.table[s.links[c].phase.id] == c)
  }

  // Bridges join two different connections that name each other.
  ghost predicate BridgeRight(links: map<Conn, Link>, c: Conn)
    requires c in links
  {
    var l := links[c];
    && (l.phase.Bridging? ==> l.partner == Some(l.phase.peer))
    && (l.phase.Fresh? || l.phase.Waiting? ==> l.partner == None)
    && (l.partner.Some? ==>
         var p := l.partner.value;
         p != c && p in links && links[p].partner == Some(c) && (l.phase.Bridging? <==> links[p].phase.Bridging?))
  }

  // What a connection got is a prefix of what its partner sent; before the bridge it got nothing and
  // nothing it sent was read.
  ghost predicate StreamRight(links: map<Conn, Link>, c: Conn)
    requires c in links
  {
    var l := links[c];
    && l.read <= |l.sent|
    && (l.partner == None ==> l.read == 0 && l.got == [])
    && (l.partner.Some? && l.partner.value in links ==>
         var p := links[l.partner.value];
         l.got <= p.sent && |l.got| <= p.read && (l.phase.Bridging? ==> |l.got| == p.read))
  }

  ghost predicate LinksRight(links: map<Conn, Link>) {
    forall c :: c in links ==> BridgeRight(links, c) && StreamRight(links, c)
  }

  ghost predicate Inv(s: State) {
    TableRight(s) && LinksRight(s.links)
  }

  // ---- What each event does to the links ----

  lemma {:induction false} SingleChange(links: map<Conn, Link>, c: Conn, l: Link)
    requires LinksRight(links)
    requires c in links ==> links[c].partner == None
    requires l.partner == None && !l.phase.Bridging? && l.read == 0 && l.got == []
    ensures LinksRight(links[c := l])
  {
    var links' := links[c := l];
    forall d | d in links'
      ensures BridgeRight(links', d) && StreamRight(links', d)
    {
      if d != c {
        assert BridgeRight(links, d) && StreamRight(links, d);
      }
    }
  }

  lemma {:induction false} Emitting(links: map<Conn, Link>, c: Conn, m: nat)
    requires LinksRight(links) && c in links
    ensures LinksRight(links[c := links[c].(sent := links[c].sent + [m])])
  {
    var links' := links[c := links[c].(sent := links[c].sent + [m])];
    forall d | d in links'
      ensures BridgeRight(links', d) && StreamRight(links', d)
    {
      assert BridgeRight(links, d) && StreamRight(links, d);
    }
  }

  lemma {:induction false} Joining(links: map<Conn, Link>, c: Conn, t: Conn)
    requires LinksRight(links) && c in links && t in links && c != t
    requires links[c].partner == None && links[t].partner == None
    ensures LinksRight(links[c := links[c].(phase := Bridging(t), partner := Some(t))]
                            [t := links[t].(phase := Bridging(c), partner := Some(c))])
  {
    var links' := links[c := links[c].(phase := Bridging(t), partner := Some(t))]
                       [t := links[t].(phase := Bridging(c), partner := Some(c))];
    assert BridgeRight(links, c) && StreamRight(links, c) && BridgeRight(links, t) && StreamRight(links, t);
    forall d | d in links'
      ensures BridgeRight(links', d) && StreamRight(links', d)
    {
      assert BridgeRight(links, d) && StreamRight(links, d);
    }
  }

  lemma {:induction false} Forwarding(links: map<Conn, Link>, c: Conn)
    requires LinksRight(links) && c in links && links[c].phase.Bridging? && links[c].read < |links[c].sent|
    ensures var l := links[c];
            var p := l.phase.peer;
            var after := links[c := l.(read := l.read + 1)];
            p in after && LinksRight(after[p := after[p].(got := after[p].got + [l.sent[l.read]])])
  {
    var l := links[c];
    var p := l.phase.peer;
    assert BridgeRight(links, c) && StreamRight(links, c) && BridgeRight(links, p) && StreamRight(links, p);
    var links' := links[c := l.(read := l.read + 1)][p := links[p].(got := links[p].got + [l.sent[l.read]])];
    forall d | d in links'
      ensures BridgeRight(links', d) && StreamRight(links', d)
    {
      assert BridgeRight(links, d) && StreamRight(links, d);
    }
  }

  // The bridge of c ends, after k more of its messages were read.
  lemma {:induction false} Parting(links: map<Conn, Link>, c: Conn, k: nat)
    requires LinksRight(links) && c in links && links[c].phase.Bridging? && links[c].read + k <= |links[c].sent|
    ensures var p := links[c].phase.peer;
            p in links && p != c &&
            LinksRight(links[c := links[c].(phase := Ended, read := links[c].read + k)][p := links[p].(phase := Ended)])
  {
    var p := links[c].phase.peer;
    assert BridgeRight(links, c) && StreamRight(links, c) && BridgeRight(links, p) && StreamRight(links, p);
    var links' := links[c := links[c].(phase := Ended, read := links[c].read + k)][p := links[p].(phase := Ended)];
    forall d | d in links'
      ensures BridgeRight(links', d) && StreamRight(links', d)
    {
      assert BridgeRight(links, d) && StreamRight(links, d);
    }
  }

  lemma {:induction false} ActKeepsTable(s: State, c: Conn, text: string)
    requires Inv(s) && Enabled(s, Act(c, text))
    ensures TableRight(After(s, Act(c, text)))
  {
    hide ParseCommand, LinksRight;
    var cmd, s' := ParseCommand(text), After(s, Act(c, text));
    forall id | id in s'.table
      ensures s'.table[id] in s'.links && s'.links[s'.table[id]].phase == Waiting(id)
    {
      assert cmd != Register(id) ==> id in s.table && s'.table[id] == s.table[id];
    }
    forall d | d in s'.links && s'.links[d].phase.Waiting?
      ensures s'.links[d].phase.id in s'.table && s'.table[s'.links[d].phase.id] == d
    {
      assert d != c ==> s.links[d].phase == s'.links[d].phase;
    }
  }

  lemma {:induction false} ActKeepsLinks(s: State, c: Conn, text: string)
    requires Inv(s) && Enabled(s, Act(c, text))
    ensures LinksRight(After(s, Act(c, text)).links)
  {
    hide ParseCommand;
    var cmd := ParseCommand(text);
    assert BridgeRight(s.links, c) && StreamRight(s.links, c);
    if cmd.Register? {
      var links := s.links[c := s.links[c].(phase := Waiting(cmd.id))];
      SingleChange(s.links, c, links[c]);
      if cmd.id in s.table {
        var earlier := s.table[cmd.id];
        assert BridgeRight(links, earlier) && StreamRight(links, earlier);
        SingleChange(links, earlier, links[earlier].(phase := Ended));
      }
    } else if cmd.Request? && cmd.id in s.table {
      var t := s.table[cmd.id];
      assert BridgeRight(s.links, t);
      hide LinksRight;
      Joining(s.links, c, t);
    } else {
      SingleChange(s.links, c, s.links[c].(phase := Ended));
    }
  }

  // Events after the relay command never touch the table or a waiting connection's phase.
  lemma {:induction false} OthersKeepTable(s: State, e: Event)
    requires Inv(s) && Enabled(s, e) && !e.Act?
    ensures TableRight(After(s, e))
  {
    hide StreamRight, ParseCommand;
    if e.Forward? || e.LoseAndEnd? || e.EndBridge? {
      assert BridgeRight(s.links, e.c);
    }
  }

  lemma {:induction false} OthersKeepLinks(s: State, e: Event)
    requires Inv(s) && Enabled(s, e) && !e.Act?
    ensures LinksRight(After(s, e).links)
  {
    if e.Accept? || e.Emit? {
      hide LinksRight, TableRight, ParseCommand;
      if e.Accept? {
        SingleChange(s.links, e.c, Link(Fresh, [], 0, [], None));
      } else {
        Emitting(s.links, e.c, e.message);
      }
    } else if e.Forward? {
      ForwardKeepsLinks(s, e.c);
    } else if e.LoseAndEnd? {
      LossKeepsLinks(s, e.c);
    } else {
      EndKeepsLinks(s, e.c);
    }
  }

  lemma {:induction false} ForwardKeepsLinks(s: State, c: Conn)
    requires LinksRight(s.links) && Enabled(s, Forward(c))
    ensures LinksRight(After(s, Forward(c)).links)
  {
    Forwarding(s.links, c);
    hide LinksRight;
  }

  lemma {:induction false} LossKeepsLinks(s: State, c: Conn)
    requires LinksRight(s.links) && Enabled(s, LoseAndEnd(c))
    ensures LinksRight(After(s, LoseAndEnd(c)).links)
  {
    hide LinksRight;
    BothEnd(s.links, c, 1);
    hide Ending;
  }

  lemma {:induction false} EndKeepsLinks(s: State, c: Conn)
    requires LinksRight(s.links) && Enabled(s, EndBridge(c))
    ensures LinksRight(After(s, EndBridge(c)).links)
  {
    ReadIsSent(s.links, c);
    hide LinksRight;
    BothEnd(s.links, c, 0);
    hide Ending;
  }

  lemma {:induction false} ReadIsSent(links: map<Conn, Link>, c: Conn)
    requires LinksRight(links) && c in links
    ensures links[c].read <= |links[c].sent|
  {
    assert StreamRight(links, c);
  }

  lemma {:induction false} BothEnd(links: map<Conn, Link>, c: Conn, k: nat)
    requires LinksRight(links) && c in links && links[c].phase.Bridging? && links[c].read + k <= |links[c].sent|
    ensures var l := links[c];
            l.phase.peer in links && LinksRight(Ending(Ending(links[c := l.(read := l.read + k)], c), l.phase.peer))
    ensures k == 0 ==> LinksRight(Ending(Ending(links, c), links[c].phase.peer))
  {
    hide LinksRight;
    Parting(links, c, k);
    var l := links[c];
    assert links[c := l.(read := l.read + k)][c := l.(phase := Ended, read := l.read + k)] ==
           links[c := l.(phase := Ended, read := l.read + k)];
    if k == 0 {
      assert links[c := l.(read := l.read + k)] == links;
    }
  }

  lemma {:induction false} StepKeepsInv(s: State, e: Event)
    requires Inv(s) && Enabled(s, e)
    ensures Inv(After(s, e))
  {
    hide TableRight, LinksRight, After;
    if e.Act? {
      ActKeepsTable(s, e.c, e.text);
      ActKeepsLinks(s, e.c, e.text);
    } else {
      OthersKeepTable(s, e);
      OthersKeepLinks(s, e);
    }
  }

  lemma {:induction false} ReachableInv(es: seq<Event>, s: State)
    requires Follow(START, es) == Some(s)
    ensures Inv(s)
  {
    hide Inv;
    if es != [] {
      var mid := Follow(START, es[..|es| - 1]).value;
      ReachableInv(es[..|es| - 1], mid);
      StepKeepsInv(mid, es[|es| - 1]);
    } else {
      StartInv();
    }
  }

  lemma {:induction false} StartInv()
    ensures Inv(START)
  {
  }

  // On every interleaving: a connection is in the table exactly while it waits, so never while it is
  // bridged; bridges are pairs; and what each end gets is a prefix of what the other sent after its
  // relay command, in order, with nothing lost while the bridge is up.
  lemma {:induction false} MatchingAndOrder(es: seq<Event>, s: State, c: Conn)
    requires Follow(START, es) == Some(s) && c in s.links
    ensures var l := s.links[c];
            && ((exists id :: id in s.table && s.table[id] == c) <==> l.phase.Waiting?)
            && (l.phase.Bridging? ==>
                 var p := l.phase.peer;
                 p != c && p in s.links && s.links[p].phase == Bridging(c) && |l.got| == s.links[p].read)
            && (l.partner == None ==> l.got == [])
            && (l.partner.Some? ==> l.partner.value in s.links && l.got <= s.links[l.partner.value].sent)
  {
    ReachableInv(es, s);
    assert BridgeRight(s.links, c) && StreamRight(s.links, c);
    if s.links[c].phase.Waiting? {
      assert s.links[c].phase.id in s.table && s.table[s.links[c].phase.id] == c;
    }
  }

  lemma {:induction false} StepKeepsPartner(s: State, e: Event, c: Conn)
    requires Inv(s) && Enabled(s, e) && c in s.links
    ensures c in After(s, e).links
    ensures s.links[c].partner.Some? ==> After(s, e).links[c].partner == s.links[c].partner
  {
    hide ParseCommand, StreamRight;
    assert BridgeRight(s.links, c);
  }

  // One-shot matching: once a connection has been bridged, it never gets another partner, whatever
  // happens later.
  lemma {:induction false} PartnerForLife(es: seq<Event>, s: State, more: seq<Event>, s': State, c: Conn)
    requires Follow(START, es) == Some(s) && Follow(START, es + more) == Some(s')
    requires c in s.links && s.links[c].partner.Some?
    ensures c in s'.links && s'.links[c].partner == s.links[c].partner
    decreases |more|
  {
    hide Inv, After;
    if more == [] {
      assert es + more == es;
    } else {
      var before := more[..|more| - 1];
      assert (es + more)[..|es + more| - 1] == es + before;
      var mid := Follow(START, es + before).value;
      PartnerForLife(es, s, before, mid, c);
      ReachableInv(es + before, mid);
      StepKeepsPartner(mid, more[|more| - 1], c);
    }
  }

  // ---- What the relay does for a connection ----

  lemma {:induction false} StateOfTarget(s: State, c: Conn, id: string)
    requires Inv(s) && c in s.links && s.links[c].phase == Fresh && id in s.table
    ensures s.table[id] in s.links && s.table[id] != c && s.links[s.table[id]].phase == Waiting(id)
  {
  }

  // A request for an id under which a connection waits bridges the two, and takes the id off the table; for
  // any other id the requester is turned away and nobody else notices.
  lemma {:induction false} RequestIsServed(s: State, c: Conn, id: string)
    requires Inv(s) && Enabled(s, Act(c, "RELAY_REQUEST:" + id)) && id != ""
    ensures var t := After(s, Act(c, "RELAY_REQUEST:" + id));
            if id in s.table then
              var target := s.table[id];
              && target in s.links && target != c && t.table == s.table - {id} && t.links.Keys == s.links.Keys
              && t.links[c] == s.links[c].(phase := Bridging(target), partner := Some(target))
              && t.links[target] == s.links[target].(phase := Bridging(c), partner := Some(c))
              && forall d :: d in s.links && d != c && d != target ==> t.links[d] == s.links[d]
            else
              t == State(s.table, s.links[c := s.links[c].(phase := Ended)])
  {
    CommandsParse(id);
    if id in s.table {
      StateOfTarget(s, c, id);
    } else {
      assert s.table - {id} == s.table;
    }
    hide ParseCommand, Inv;
  }

  // A registration makes the connection wait under its id; the one that waited there before is closed.
  lemma {:induction false} RegistrationWaits(s: State, c: Conn, id: string)
    requires Inv(s) && Enabled(s, Act(c, "RELAY_REGISTER:" + id)) && id != ""
    ensures var t := After(s, Act(c, "RELAY_REGISTER:" + id));
            && t.table == s.table[id := c] && t.links.Keys == s.links.Keys
            && t.links[c] == s.links[c].(phase := Waiting(id))
            && forall d :: d in s.links && d != c ==>
                 t.links[d] == if id in s.table && s.table[id] == d then s.links[d].(phase := Ended) else s.links[d]
  {
    CommandsParse(id);
    if id in s.table {
      StateOfTarget(s, c, id);
    }
    hide ParseCommand, Inv;
  }

  // Forwarding takes the oldest message that was not read yet and hands it to the other end of the bridge.
  lemma {:induction false} ForwardDelivers(s: State, c: Conn)
    requires Inv(s) && Enabled(s, Forward(c))
    ensures var l, p, t := s.links[c], s.links[c].phase.peer, After(s, Forward(c));
            && p != c && p in t.links && c in t.links && t.table == s.table && t.links.Keys == s.links.Keys
            && t.links[p] == s.links[p].(got := s.links[p].got + [l.sent[l.read]])
            && t.links[c] == l.(read := l.read + 1)
            && forall d :: d in s.links && d != c && d != p ==> t.links[d] == s.links[d]
  {
    assert BridgeRight(s.links, c);
  }

  lemma {:induction false} Extend(start: State, es: seq<Event>, e: Event)
    ensures Follow(start, es + [e]) ==
            match Follow(start, es)
            case None => None
            case Some(mid) => if Enabled(mid, e) then Some(After(mid, e)) else None
  {
    assert (es + [e])[..|es|] == es;
  }

  // Nothing is stuck: from every reachable state with a bridge, forwarding alone brings everything that one
  // end has sent to the other.
  lemma {:induction false} EverythingArrives(es: seq<Event>, s: State, c: Conn) returns (more: seq<Event>)
    requires Follow(START, es) == Some(s) && c in s.links && s.links[c].phase.Bridging?
    ensures forall k :: 0 <= k < |more| ==> more[k] == Forward(c)
    ensures s.links[c].phase.peer in s.links
    ensures var t := Follow(START, es + more);
            t.Some? && s.links[c].phase.peer in t.value.links &&
            t.value.links[s.links[c].phase.peer].got == s.links[c].sent
    decreases |s.links[c].sent| - s.links[c].read
  {
    hide Follow;
    ReachableInv(es, s);
    assert BridgeRight(s.links, c) && StreamRight(s.links, c);
    var p := s.links[c].phase.peer;
    assert BridgeRight(s.links, p) && StreamRight(s.links, p);
    more := [];
    if s.links[c].read < |s.links[c].sent| {
      ForwardDelivers(s, c);
      Extend(START, es, Forward(c));
      hide After, Inv, LinksRight, TableRight;
      var rest := EverythingArrives(es + [Forward(c)], After(s, Forward(c)), c);
      more := [Forward(c)] + rest;
      assert es + more == es + [Forward(c)] + rest;
    } else {
      assert es + more == es;
    }
  }
}
