/** The allow list over whole runs of its operations. */
module Permissions {
  import opened Base

  type NodeId = string

  datatype Lists = Lists(allowed: set<NodeId>, denied: set<NodeId>, desktop: set<NodeId>, gpuRemote: set<NodeId>)

  const DEFAULT := Lists({}, {}, {}, {})

  datatype Op = Allow(id: NodeId) | AllowDesktop(id: NodeId) | AllowGpuRemote(id: NodeId) | Deny(id: NodeId)

  function Apply(l: Lists, op: Op): Lists {
    match op
    case Allow(id) => l.(denied := l.denied - {id}, allowed := l.allowed + {id})
    case AllowDesktop(id) => l.(denied := l.denied - {id}, desktop := l.desktop + {id}, allowed := l.allowed + {id})
    case AllowGpuRemote(id) => l.(denied := l.denied - {id}, gpuRemote := l.gpuRemote + {id})
    case Deny(id) => Lists(l.allowed - {id}, l.denied + {id}, l.desktop - {id}, l.gpuRemote - {id})
  }

  class AllowList {
    var allowed: set<NodeId>
    var denied: set<NodeId>
    var desktopAllowed: set<NodeId>
    var gpuRemoteAllowed: set<NodeId>

    ghost function State(): Lists
      reads this
    {
      Lists(allowed, denied, desktopAllowed, gpuRemoteAllowed)
    }

    constructor ()
      ensures State() == DEFAULT
    {
      allowed, denied, desktopAllowed, gpuRemoteAllowed := {}, {}, {}, {};
    }

    method IsAllowed(id: NodeId) returns (r: bool)
      ensures r == Query(State(), Jobs, id)
    {
      if id in denied {
        return false;
      }
      return id in allowed;
    }

    method IsDesktopAllowed(id: NodeId) returns (r: bool)
      ensures r == Query(State(), Desktop, id)
    {
      if id in denied {
        return false;
      }
      return id in desktopAllowed;
    }

    method IsGpuRemoteAllowed(id: NodeId) returns (r: bool)
      ensures r == Query(State(), GpuRemote, id)
    {
      if id in denied {
        return false;
      }
      return id in gpuRemoteAllowed;
    }

    method PermitJobs(id: NodeId)
      modifies this
      ensures State() == Apply(old(State()), Allow(id))
    {
      denied := denied - {id};
      allowed := allowed + {id};
    }

    method PermitDesktop(id: NodeId)
      modifies this
      ensures State() == Apply(old(State()), AllowDesktop(id))
    {
      denied := denied - {id};
      desktopAllowed := desktopAllowed + {id};
      allowed := allowed + {id};
    }

    method PermitGpuRemote(id: NodeId)
      modifies this
      ensures State() == Apply(old(State()), AllowGpuRemote(id))
    {
      denied := denied - {id};
      gpuRemoteAllowed := gpuRemoteAllowed + {id};
    }

    method Forbid(id: NodeId)
      modifies this
      ensures State() == Apply(old(State()), Deny(id))
    {
      allowed := allowed - {id};
      desktopAllowed := desktopAllowed - {id};
      gpuRemoteAllowed := gpuRemoteAllowed - {id};
      denied := denied + {id};
    }
  }

  datatype Capability = Jobs | Desktop | GpuRemote

  function Bucket(l: Lists, c: Capability): set<NodeId> {
    match c
    case Jobs => l.allowed
    case Desktop => l.desktop
    case GpuRemote => l.gpuRemote
  }

  // The queries: denial takes precedence.
  predicate Query(l: Lists, c: Capability, id: NodeId) {
    id !in l.denied && id in Bucket(l, c)
  }

  function Run(ops: seq<Op>): Lists {
    if ops == [] then DEFAULT else Apply(Run(ops[..|ops| - 1]), ops[|ops| - 1])
  }

  // What an operation decides about a capability of its node: grants it, revokes it, or leaves it.
  function Verdict(op: Op, c: Capability): Option<bool> {
    match op
    case Deny(_) => Some(false)
    case Allow(_) => if c == Jobs then Some(true) else None
    case AllowDesktop(_) => if c == GpuRemote then None else Some(true)
    case AllowGpuRemote(_) => if c == GpuRemote then Some(true) else None
  }

  // The verdict of the last operation on the node that decides the capability; none means no.
  function LastVerdict(ops: seq<Op>, c: Capability, id: NodeId): bool {
    if ops == [] then false
    else
      var last := ops[|ops| - 1];
      if last.id == id && Verdict(last, c).Some? then Verdict(last, c).value
      else LastVerdict(ops[..|ops| - 1], c, id)
  }

  // On every run from the default list: each bucket is disjoint from the denied nodes, desktop nodes are
  // job nodes, and each query is decided by the last operation that affects it.
  lemma {:induction false} LastOperationDecides(ops: seq<Op>, c: Capability, id: NodeId)
    ensures var l := Run(ops);
            l.desktop <= l.allowed && (id in l.denied ==> id !in Bucket(l, c)) &&
            (Query(l, c, id) <==> LastVerdict(ops, c, id))
  {
    if ops != [] {
      var before, last := ops[..|ops| - 1], ops[|ops| - 1];
      LastOperationDecides(before, c, id);
      LastOperationDecides(before, Jobs, id);
    }
  }

  // The last operation on the node is a denial.
  ghost predicate LastIsDenial(ops: seq<Op>, id: NodeId) {
    exists k :: 0 <= k < |ops| && ops[k] == Deny(id) && forall j :: k < j < |ops| ==> ops[j].id != id
  }

  lemma {:induction false} LastIsDenialStep(before: seq<Op>, last: Op, id: NodeId)
    ensures LastIsDenial(before + [last], id) <==> if last.id == id then last == Deny(id) else LastIsDenial(before, id)
  {
    var ops := before + [last];
    assert forall k :: 0 <= k < |before| ==> ops[k] == before[k];
    assert ops[|before|] == last;
    if last.id != id && LastIsDenial(before, id) {
      var k :| 0 <= k < |before| && before[k] == Deny(id) && forall j :: k < j < |before| ==> before[j].id != id;
      assert ops[k] == Deny(id) && forall j :: k < j < |ops| ==> ops[j].id != id;
    }
    if LastIsDenial(ops, id) && last.id != id {
      var k :| 0 <= k < |ops| && ops[k] == Deny(id) && forall j :: k < j < |ops| ==> ops[j].id != id;
      assert before[k] == Deny(id) && forall j :: k < j < |before| ==> before[j].id != id;
    }
  }

  // A node is on the list of denied ones exactly if the last operation on it was a denial.
  lemma {:induction false} DeniedByLast(ops: seq<Op>, id: NodeId)
    ensures id in Run(ops).denied <==> LastIsDenial(ops, id)
  {
    if ops != [] {
      var before, last := ops[..|ops| - 1], ops[|ops| - 1];
      DeniedByLast(before, id);
      LastIsDenialStep(before, last, id);
      assert ops == before + [last];
      hide LastIsDenial;
    }
  }

  // Remoting permissions are separate: leaving all grants of them out of a run changes neither who may
  // run jobs nor who may open a desktop.
  function WithoutGpuGrants(ops: seq<Op>): seq<Op> {
    if ops == [] then []
    else
      var last := ops[|ops| - 1];
      WithoutGpuGrants(ops[..|ops| - 1]) + if last.AllowGpuRemote? then [] else [last]
  }

  lemma {:induction false} GpuGrantsAreSeparate(ops: seq<Op>)
    ensures Run(WithoutGpuGrants(ops)).allowed == Run(ops).allowed
    ensures Run(WithoutGpuGrants(ops)).desktop == Run(ops).desktop
  {
    if ops != [] {
      var before, last := ops[..|ops| - 1], ops[|ops| - 1];
      GpuGrantsAreSeparate(before);
      if last.AllowGpuRemote? {
        assert WithoutGpuGrants(ops) == WithoutGpuGrants(before);
      } else {
        assert WithoutGpuGrants(ops)[..|WithoutGpuGrants(ops)| - 1] == WithoutGpuGrants(before);
      }
    }
  }
}
