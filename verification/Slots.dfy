/** Job slots: the shared list of active containers under concurrent jobs. */
module Slots {
  import opened Base

  function ContainerName(jobId: string): string {
    "gpumesh-" + jobId
  }

  function IsNot(name: string): string -> bool {
    (n: string) => n != name
  }

  // Vec::retain of everything but one name.
  function Without(active: seq<string>, name: string): seq<string> {
    Filter(IsNot(name), active)
  }

  // Is there a slot left? The length is cut to 32 bits before it is compared.
  predicate HasSlot(active: seq<string>, cap: u32) {
    |active| % U32_LIMIT < cap
  }

  class Runtime {
    var active: seq<string>

    constructor ()
      ensures active == []
    {
      active := [];
    }

    method ActiveCount() returns (n: nat)
      ensures n == |active|
    {
      n := |active|;
    }

    // The locked section at the start of run_job.
    method Admit(jobId: string, cap: u32) returns (ok: bool)
      modifies this
      ensures ok <==> HasSlot(old(active), cap)
      ensures active == if ok then old(active) + [ContainerName(jobId)] else old(active)
    {
      if |active| % U32_LIMIT >= cap {
        return false;
      }
      active := active + [ContainerName(jobId)];
      return true;
    }

    // The locked section after a failed spawn, after the container has ended, and in cancel.
    method Release(name: string)
      modifies this
      ensures active == Without(old(active), name)
    {
      active := Filter(IsNot(name), active);
    }
  }

  // ---- Any number of concurrent jobs ----

  // `jobs` are the calls of run_job between admission and release, with their container names.
  datatype State = State(cap: u32, active: seq<string>, jobs: map<nat, string>)

  datatype Event =
    | Submit(job: nat, name: string)   // admitted or refused
    | End(job: nat)                    // spawn failure, or the container has ended
    | Cancel(name: string)             // releases the slot; the job itself ends later

  predicate Enabled(s: State, e: Event) {
    match e
    case Submit(j, _) => j !in s.jobs
    case End(j) => j in s.jobs
    case Cancel(_) => true
  }

  function After(s: State, e: Event): State
    requires Enabled(s, e)
  {
    match e
    case Submit(j, name) =>
      if HasSlot(s.active, s.cap) then s.(active := s.active + [name], jobs := s.jobs[j := name]) else s
    case End(j) => s.(active := Without(s.active, s.jobs[j]), jobs := s.jobs - {j})
    case Cancel(name) => s.(active := Without(s.active, name))
  }

  function Follow(start: State, es: seq<Event>): Option<State> {
    if es == [] then Some(start)
    else
      match Follow(start, es[..|es| - 1])
      case None => None
      case Some(mid) => if Enabled(mid, es[|es| - 1]) then Some(After(mid, es[|es| - 1])) else None
  }

  function Start(cap: u32): State {
    State(cap, [], map[])
  }

  // The container names of the jobs in flight, with multiplicity.
  ghost function Names(jobs: map<nat, string>): multiset<string> {
    if jobs == map[] then multiset{}
    else
      var j :| j in jobs;
      Names(jobs - {j}) + multiset{jobs[j]}
  }

  lemma {:induction false} NamesStep(jobs: map<nat, string>) returns (k: nat)
    requires jobs != map[]
    ensures k in jobs && Names(jobs) == Names(jobs - {k}) + multiset{jobs[k]}
  {
    k :| k in jobs && Names(jobs) == Names(jobs - {k}) + multiset{jobs[k]};
  }

  lemma {:induction false} NamesWithout(jobs: map<nat, string>, j: nat)
    requires j in jobs
    ensures Names(jobs) == Names(jobs - {j}) + multiset{jobs[j]}
    decreases |jobs|
  {
    hide Names;
    var k := NamesStep(jobs);
    if k != j {
      NamesWithout(jobs - {k}, j);
      NamesWithout(jobs - {j}, k);
      assert jobs - {k} - {j} == jobs - {j} - {k};
    }
  }

  lemma {:induction false} NamesCount(jobs: map<nat, string>)
    ensures |Names(jobs)| == |jobs|
    decreases |jobs|
  {
    if jobs != map[] {
      var j := NamesStep(jobs);
      hide Names;
      NamesCount(jobs - {j});
      assert |(jobs - {j}).Keys| == |jobs.Keys| - 1;
    }
  }

  lemma {:induction false} NamesMember(jobs: map<nat, string>, name: string)
    ensures name in Names(jobs) <==> exists j :: j in jobs && jobs[j] == name
    decreases |jobs|
  {
    if jobs != map[] {
      var j := NamesStep(jobs);
      hide Names;
      NamesMember(jobs - {j}, name);
      if k :| k in jobs && jobs[k] == name && k != j {
        assert k in jobs - {j} && (jobs - {j})[k] == name;
      }
    }
  }

  lemma {:induction false} NamesAdd(jobs: map<nat, string>, j: nat, name: string)
    requires j !in jobs
    ensures Names(jobs[j := name]) == Names(jobs) + multiset{name}
  {
    NamesWithout(jobs[j := name], j);
    assert jobs[j := name] - {j} == jobs;
  }

  lemma {:induction false} WithoutCounts(active: seq<string>, name: string)
    ensures multiset(Without(active, name)) == multiset(active)[name := 0]
    ensures |Without(active, name)| <= |active|
  {
    if active != [] {
      WithoutCounts(active[1..], name);
      assert active == [active[0]] + active[1..];
    }
  }

  // On every run: at most cap slots are taken, and every taken slot belongs to a job in flight.
  ghost predicate Inv(s: State) {
    |s.active| <= s.cap && multiset(s.active) <= Names(s.jobs)
  }

  lemma {:induction false} StepKeepsInv(s: State, e: Event)
    requires Inv(s) && Enabled(s, e)
    ensures Inv(After(s, e))
  {
    hide Names;
    match e
    case Submit(j, name) => NamesAdd(s.jobs, j, name);
    case End(j) =>
      WithoutCounts(s.active, s.jobs[j]);
      NamesWithout(s.jobs, j);
    case Cancel(name) => WithoutCounts(s.active, name);
  }

  lemma {:induction false} ReachableInv(cap: u32, es: seq<Event>, s: State)
    requires Follow(Start(cap), es) == Some(s)
    ensures Inv(s) && s.cap == cap
  {
    if es != [] {
      var mid := Follow(Start(cap), es[..|es| - 1]).value;
      ReachableInv(cap, es[..|es| - 1], mid);
      StepKeepsInv(mid, es[|es| - 1]);
    }
  }

  // Under every interleaving the list never exceeds the cap, every name in it belongs to a job in
  // flight, and once all jobs have ended no slot is left behind.
  lemma {:induction false} NoSlotLeaks(cap: u32, es: seq<Event>, s: State)
    requires Follow(Start(cap), es) == Some(s)
    ensures |s.active| <= cap
    ensures forall n :: n in s.active ==> exists j :: j in s.jobs && s.jobs[j] == n
    ensures s.jobs == map[] ==> s.active == []
  {
    ReachableInv(cap, es, s);
    forall n | n in s.active
      ensures exists j :: j in s.jobs && s.jobs[j] == n
    {
      assert n in multiset(s.active);
      NamesMember(s.jobs, n);
    }
    if s.active != [] {
      assert s.active[0] in s.active;
    }
  }

  // The slots taken are exactly those of the jobs in flight.
  ghost predicate Exact(s: State) {
    multiset(s.active) == Names(s.jobs)
  }

  // Events that do not give away the slot of a job that is still in flight: no cancel of one, no end of
  // a job while another has the same container name.
  ghost predicate Orderly(s: State, e: Event) {
    match e
    case Submit(_, _) => true
    case End(j) => j in s.jobs ==> forall k :: k in s.jobs && k != j ==> s.jobs[k] != s.jobs[j]
    case Cancel(name) => forall k :: k in s.jobs ==> s.jobs[k] != name
  }

  // Exactness survives an event if and only if the event is orderly.
  lemma {:induction false} ExactIffOrderly(s: State, e: Event)
    requires Exact(s) && Enabled(s, e)
    ensures Exact(After(s, e)) <==> Orderly(s, e)
  {
    hide Names;
    match e
    case Submit(j, name) => NamesAdd(s.jobs, j, name);
    case End(j) =>
      var name, rest := s.jobs[j], s.jobs - {j};
      WithoutCounts(s.active, name);
      NamesWithout(s.jobs, j);
      NamesMember(rest, name);
      assert Names(rest)[name] == 0 ==> multiset(Without(s.active, name)) == Names(rest);
      if k :| k in s.jobs && k != j && s.jobs[k] == name {
        assert k in rest && rest[k] == name;
      }
    case Cancel(name) =>
      WithoutCounts(s.active, name);
      NamesMember(s.jobs, name);
      assert Names(s.jobs)[name] == 0 ==> multiset(Without(s.active, name)) == Names(s.jobs);
  }

  ghost predicate AllOrderly(start: State, es: seq<Event>) {
    forall k :: 0 <= k < |es| && Follow(start, es[..k]).Some? ==> Orderly(Follow(start, es[..k]).value, es[k])
  }

  // On an orderly run, in particular with distinct job ids and no cancel, the cap bounds the jobs that
  // are really in flight.
  lemma {:induction false} CapBoundsJobs(cap: u32, es: seq<Event>, s: State)
    requires Follow(Start(cap), es) == Some(s) && AllOrderly(Start(cap), es)
    ensures Exact(s) && |s.jobs| == |s.active| <= cap
  {
    if es != [] {
      var before := es[..|es| - 1];
      var mid := Follow(Start(cap), before).value;
      assert forall k :: 0 <= k < |before| ==> before[..k] == es[..k] && before[k] == es[k];
      CapBoundsJobs(cap, before, mid);
      ExactIffOrderly(mid, es[|es| - 1]);
    }
    ReachableInv(cap, es, s);
    NamesCount(s.jobs);
    assert |multiset(s.active)| == |s.active|;
  }

  lemma {:induction false} FreshJob(jobs: set<nat>) returns (j: nat)
    ensures forall k :: k in jobs ==> k < j
  {
    j := 0;
    if jobs != {} {
      var some :| some in jobs;
      var m := FreshJob(jobs - {some});
      j := Max(some + 1, m);
      assert forall k :: k in jobs ==> k == some || k in jobs - {some};
    }
  }

  // Jobs can be submitted until every slot is taken.
  lemma {:induction false} FillUp(start: State, es: seq<Event>, s: State) returns (more: seq<Event>)
    requires Follow(start, es) == Some(s) && |s.active| <= s.cap
    ensures Follow(start, es + more).Some?
    ensures |Follow(start, es + more).value.jobs| == |s.jobs| + s.cap - |s.active|
    decreases s.cap - |s.active|
  {
    hide Follow;
    if |s.active| == s.cap {
      more := [];
      assert es + more == es;
    } else {
      var j := FreshJob(s.jobs.Keys);
      var e := Submit(j, "x");
      Extend(start, es, e);
      var t := After(s, e);
      assert t.jobs.Keys == s.jobs.Keys + {j};
      assert |t.jobs.Keys| == |s.jobs.Keys| + 1;
      var rest := FillUp(start, es + [e], t);
      more := [e] + rest;
      assert es + more == es + [e] + rest;
    }
  }

  // A disorderly event leaves fewer slots taken than jobs in flight.
  lemma {:induction false} DisorderFreesTooMuch(s: State, e: Event)
    requires Inv(s) && Exact(s) && Enabled(s, e) && !Orderly(s, e)
    ensures Inv(After(s, e)) && |After(s, e).active| < |After(s, e).jobs|
  {
    StepKeepsInv(s, e);
    ExactIffOrderly(s, e);
    hide Names;
    var t := After(s, e);
    NamesCount(t.jobs);
    SameSizeIsSame(multiset(t.active), Names(t.jobs));
    assert |multiset(t.active)| == |t.active|;
  }

  lemma {:induction false} SameSizeIsSame(a: multiset<string>, b: multiset<string>)
    requires a <= b
    ensures |a| <= |b| && (|a| == |b| ==> a == b)
  {
    assert b == a + (b - a);
    assert |b - a| == 0 ==> b - a == multiset{};
  }

  // And orderliness is what the cap needs: from every reachable state in which the slots are exactly those
  // of the jobs in flight, a disorderly event can be followed by submissions until more jobs than the
  // cap are in flight.
  lemma {:induction false} DisorderBreaksCap(cap: u32, es: seq<Event>, s: State, e: Event) returns (more: seq<Event>)
    requires Follow(Start(cap), es) == Some(s) && Exact(s) && Enabled(s, e) && !Orderly(s, e)
    ensures Follow(Start(cap), es + [e] + more).Some?
    ensures |Follow(Start(cap), es + [e] + more).value.jobs| > cap
  {
    hide Follow;
    ReachableInv(cap, es, s);
    DisorderFreesTooMuch(s, e);
    Extend(Start(cap), es, e);
    more := FillUp(Start(cap), es + [e], After(s, e));
  }

  // The shortest such runs. Cancelling frees the slot before the job has ended.
  lemma {:induction false} CancelOvercommits()
    ensures Follow(Start(1), [Submit(1, "a")] + [Cancel("a")] + [Submit(2, "b")]) ==
            Some(State(1, ["b"], map[1 := "a", 2 := "b"]))
  {
    hide Follow;
    StartFollow(Start(1), Submit(1, "a"));
    Extend(Start(1), [Submit(1, "a")], Cancel("a"));
    Extend(Start(1), [Submit(1, "a")] + [Cancel("a")], Submit(2, "b"));
    assert [] + ["a"] == ["a"] && Without(["a"], "a") == [] && [] + ["b"] == ["b"];
  }

  // And of two jobs with one name the first to end frees both slots, so three can run under a cap of 2.
  lemma {:induction false} SharedNameOvercommits()
    ensures Follow(Start(2), [Submit(1, "a")] + [Submit(2, "a")] + [End(1)] + [Submit(3, "b")] + [Submit(4, "c")]) ==
            Some(State(2, ["b", "c"], map[2 := "a", 3 := "b", 4 := "c"]))
  {
    hide Follow;
    var es := [Submit(1, "a")] + [Submit(2, "a")] + [End(1)];
    StartFollow(Start(2), Submit(1, "a"));
    Extend(Start(2), [Submit(1, "a")], Submit(2, "a"));
    Extend(Start(2), [Submit(1, "a")] + [Submit(2, "a")], End(1));
    assert Follow(Start(2), es) == Some(State(2, [], map[2 := "a"])) by {
      assert [] + ["a"] == ["a"] && ["a"] + ["a"] == ["a", "a"] && ["a", "a"][1..] == ["a"];
      assert Without(["a", "a"], "a") == [];
      assert map[1 := "a"][2 := "a"] - {1} == map[2 := "a"];
    }
    Extend(Start(2), es, Submit(3, "b"));
    assert [] + ["b"] == ["b"] && ["b"] + ["c"] == ["b", "c"];
    assert Follow(Start(2), es + [Submit(3, "b")]) == Some(State(2, ["b"], map[2 := "a", 3 := "b"]));
    Extend(Start(2), es + [Submit(3, "b")], Submit(4, "c"));
    assert map[2 := "a", 3 := "b"][4 := "c"] == map[2 := "a", 3 := "b", 4 := "c"];
  }

  lemma {:induction false} StartFollow(start: State, e: Event)
    requires Enabled(start, e)
    ensures Follow(start, [e]) == Some(After(start, e))
  {
    Extend(start, [], e);
    assert [] + [e] == [e];
  }

  lemma {:induction false} Extend(start: State, es: seq<Event>, e: Event)
    ensures Follow(start, es + [e]) ==
            match Follow(start, es)
            case None => None
            case Some(mid) => if Enabled(mid, e) then Some(After(mid, e)) else None
  {
    assert (es + [e])[..|es|] == es;
  }

  // ---- Jobs with ids of their own ----

  // Different jobs have different containers.
  lemma {:induction false} NamesAreOwn(id: string, other: string)
    ensures ContainerName(id) == ContainerName(other) <==> id == other
    ensures |ContainerName(id)| == 8 + |id| && ContainerName(id)[8..] == id
  {
    assert ContainerName(id)[8..] == id && ContainerName(other)[8..] == other;
  }

  // Every job runs in the container named after its id, and no job is cancelled.
  ghost predicate NamedByIds(es: seq<Event>, ids: nat -> string) {
    forall k :: 0 <= k < |es| ==>
      !es[k].Cancel? && (es[k].Submit? ==> es[k].name == ContainerName(ids(es[k].job)))
  }

  lemma {:induction false} JobsKeepNames(cap: u32, es: seq<Event>, s: State, ids: nat -> string)
    requires Follow(Start(cap), es) == Some(s) && NamedByIds(es, ids)
    ensures forall j :: j in s.jobs ==> s.jobs[j] == ContainerName(ids(j))
  {
    if es != [] {
      var before := es[..|es| - 1];
      assert forall k :: 0 <= k < |before| ==> before[k] == es[k];
      JobsKeepNames(cap, before, Follow(Start(cap), before).value, ids);
      hide ContainerName, Without;
    }
  }

  // With different ids and no cancel, at every moment the slots are exactly those of the jobs in flight, so
  // the cap bounds the jobs.
  lemma {:induction false} OwnIdsAreOrderly(cap: u32, es: seq<Event>, s: State, ids: nat -> string)
    requires Follow(Start(cap), es) == Some(s) && NamedByIds(es, ids)
    requires forall i, j :: ids(i) == ids(j) ==> i == j
    ensures AllOrderly(Start(cap), es)
    ensures multiset(s.active) == Names(s.jobs) && |s.jobs| == |s.active| <= cap
  {
    forall k | 0 <= k < |es| && Follow(Start(cap), es[..k]).Some?
      ensures Orderly(Follow(Start(cap), es[..k]).value, es[k])
    {
      var mid := Follow(Start(cap), es[..k]).value;
      JobsKeepNames(cap, es[..k], mid, ids);
      if es[k].End? && es[k].job in mid.jobs {
        forall i | i in mid.jobs && i != es[k].job
          ensures mid.jobs[i] != mid.jobs[es[k].job]
        {
          NamesAreOwn(ids(i), ids(es[k].job));
        }
      }
    }
    CapBoundsJobs(cap, es, s);
  }
}
