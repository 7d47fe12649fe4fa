/** The byte budget and the handle allocator over whole runs of a session. */
module CudaAccounting {
  import opened Base
  import opened CudaOps
  import opened CudaSession
  import opened CudaData

  // Bytes held by all buffers.
  ghost function Total(m: Memory): nat {
    if m == map[] then 0
    else
      var h :| h in m;
      |m[h]| + Total(m - {h})
  }

  // Bytes plus the 64 the allocator skips after each buffer.
  ghost function Footprint(m: Memory): nat {
    Total(m) + 64 * |m|
  }

  lemma {:induction false} TotalWithout(m: Memory, h: u64)
    requires h in m
    ensures Total(m) == |m[h]| + Total(m - {h})
    decreases |m|
  {
    var k :| k in m && Total(m) == |m[k]| + Total(m - {k});
    if k != h {
      TotalWithout(m - {k}, h);
      TotalWithout(m - {h}, k);
      assert m - {k} - {h} == m - {h} - {k};
    }
  }

  lemma {:induction false} FootprintShrinks(m: Memory, h: u64)
    requires h in m
    ensures Footprint(m - {h}) + |m[h]| + 64 == Footprint(m)
    ensures Total(m - {h}) + |m[h]| == Total(m)
  {
    TotalWithout(m, h);
    hide Total;
    assert (m - {h}).Keys == m.Keys - {h};
    assert |(m - {h}).Keys| == |m.Keys| - 1;
  }

  lemma {:induction false} TotalInsert(m: Memory, h: u64, b: Bytes)
    ensures Total(m[h := b]) == |b| + Total(m - {h})
  {
    TotalWithout(m[h := b], h);
    assert m[h := b] - {h} == m - {h};
  }

  lemma {:induction false} TotalOfShape(m: Memory, m': Memory)
    requires SameShape(m, m')
    ensures Total(m) == Total(m') && |m| == |m'|
    decreases |m|
  {
    assert m.Keys == m'.Keys;
    if m != map[] {
      var h :| h in m;
      TotalWithout(m, h);
      TotalWithout(m', h);
      TotalOfShape(m - {h}, m' - {h});
    } else {
      assert m' == map[];
    }
  }

  ghost predicate Capped(m: Memory) {
    forall h :: h in m ==> 0 < |m[h]| <= MAX_SINGLE_ALLOC
  }

  lemma {:induction false} OneMoreCap(n: nat)
    ensures MAX_SINGLE_ALLOC * (n + 1) == MAX_SINGLE_ALLOC * n + MAX_SINGLE_ALLOC
  {
  }

  lemma {:induction false} TotalAtMost(m: Memory)
    requires Capped(m)
    ensures Total(m) <= MAX_SINGLE_ALLOC * |m|
    decreases |m|
  {
    if m != map[] {
      var h :| h in m;
      FootprintShrinks(m, h);
      TotalAtMost(m - {h});
      hide Total;
      assert |m| == |m - {h}| + 1;
      OneMoreCap(|m - {h}|);
    }
  }

  // Every buffer except the one at the handle where the counter sticks.
  ghost function Low(m: Memory): Memory {
    m - {U64_MAX as u64}
  }

  lemma {:induction false} LowIsAll(m: Memory)
    requires U64_MAX !in m
    ensures Low(m) == m
  {
  }

  lemma {:induction false} LowIgnoresTop(m: Memory, b: Bytes)
    ensures Low(m[U64_MAX := b]) == Low(m) == Low(m - {U64_MAX as u64})
  {
  }

  lemma {:induction false} LowCommutes(m: Memory, h: u64)
    requires h in m && h != U64_MAX
    ensures h in Low(m) && Low(m)[h] == m[h] && Low(m - {h}) == Low(m) - {h}
  {
  }

  const STRIDE: u64 := MAX_SINGLE_ALLOC + 64

  // Handles below the saturation point are FIRST_HANDLE at least, lie below nextPtr, and leave a gap
  // of 64 behind every buffer.
  ghost predicate Layout(s: Session) {
    && FIRST_HANDLE <= s.nextPtr
    && (forall h :: h in s.buffers ==> FIRST_HANDLE <= h && (h < s.nextPtr || h == U64_MAX == s.nextPtr))
    && (s.nextPtr < U64_MAX ==> forall h :: h in s.buffers ==> h + |s.buffers[h]| + 64 <= s.nextPtr)
    && (forall h, k :: h in s.buffers && k in s.buffers && h < k < U64_MAX ==> h + |s.buffers[h]| + 64 <= k)
  }

  ghost predicate Budget(s: Session) {
    && Capped(s.buffers)
    && Footprint(Low(s.buffers)) + FIRST_HANDLE <= (if s.nextPtr < U64_MAX then s.nextPtr else U64_MAX + STRIDE)
    && Total(s.buffers) <= s.used <= s.maxAlloc
    && (s.nextPtr < U64_MAX ==> Total(s.buffers) == s.used)
  }

  // The sum of live bytes fits a u64 even after the handle counter has saturated: every buffer but
  // one has paid 64 bytes of address space for at most MAX_SINGLE_ALLOC of content.
  lemma {:induction false} TotalFitsU64(m: Memory)
    requires Capped(m)
    requires Footprint(Low(m)) + FIRST_HANDLE <= U64_MAX + STRIDE
    ensures Total(m) <= U64_MAX
  {
    TotalAtMost(Low(m));
    hide Total;
    if U64_MAX in m {
      FootprintShrinks(m, U64_MAX);
    } else {
      LowIsAll(m);
    }
  }

  lemma {:induction false} FreshInsert(m: Memory, h: u64, b: Bytes)
    requires h !in m
    ensures Footprint(m[h := b]) == Footprint(m) + |b| + 64
    ensures Total(m[h := b]) == Total(m) + |b|
  {
    FootprintShrinks(m[h := b], h);
    assert m[h := b] - {h} == m;
  }

  lemma {:induction false} InsertAtMost(m: Memory, h: u64, b: Bytes)
    ensures Total(m[h := b]) <= Total(m) + |b|
  {
    TotalInsert(m, h, b);
    hide Total;
    if h in m {
      FootprintShrinks(m, h);
    } else {
      assert m - {h} == m;
    }
  }

  lemma {:induction false} MallocKeepsBudget(s: Session, bytes: u64)
    requires Layout(s) && Budget(s)
    ensures Budget(DoMalloc(s, bytes).session)
  {
    hide Total, Footprint, Low;
    if CheckAlloc(s, bytes).None? {
      var p := s.nextPtr;
      var m := s.buffers[p := Zeros(bytes)];
      assert Capped(m);
      if p < U64_MAX {
        assert p !in s.buffers;
        FreshInsert(s.buffers, p, Zeros(bytes));
        LowIsAll(s.buffers);
        LowIsAll(m);
      } else {
        LowIgnoresTop(s.buffers, Zeros(bytes));
      }
      InsertAtMost(s.buffers, p, Zeros(bytes));
      TotalFitsU64(m);
    }
  }

  lemma {:induction false} FreeKeepsBudget(s: Session, p: u64)
    requires Layout(s) && Budget(s)
    ensures Budget(DoFree(s, p).session)
  {
    hide Total, Footprint, Low;
    if p in s.buffers {
      var m := s.buffers - {p};
      assert Capped(m);
      FootprintShrinks(s.buffers, p);
      if p == U64_MAX {
        LowIgnoresTop(s.buffers, []);
      } else {
        LowCommutes(s.buffers, p);
        FootprintShrinks(Low(s.buffers), p);
      }
    }
  }

  lemma {:induction false} MallocKeepsLayout(s: Session, bytes: u64)
    requires Layout(s)
    ensures Layout(DoMalloc(s, bytes).session)
  {
  }

  lemma {:induction false} FreeKeepsLayout(s: Session, p: u64)
    requires Layout(s)
    ensures Layout(DoFree(s, p).session)
  {
  }

  lemma {:induction false} LowOfShape(m: Memory, m': Memory)
    requires SameShape(m, m')
    ensures SameShape(Low(m), Low(m'))
  {
  }

  lemma {:induction false} ShapeKeepsLayout(s: Session, s': Session)
    requires Layout(s) && SameShape(s.buffers, s'.buffers) && s'.nextPtr == s.nextPtr
    ensures Layout(s')
  {
  }

  lemma {:induction false} ShapeKeepsBudget(s: Session, s': Session)
    requires Budget(s) && SameShape(s.buffers, s'.buffers)
    requires s'.used == s.used && s'.nextPtr == s.nextPtr && s'.maxAlloc == s.maxAlloc
    ensures Budget(s')
  {
    hide Total, Low;
    LowOfShape(s.buffers, s'.buffers);
    TotalOfShape(s.buffers, s'.buffers);
    TotalOfShape(Low(s.buffers), Low(s'.buffers));
  }

  lemma {:induction false} StepKeepsInvariant(add: FloatAdd, s: Session, c: Call)
    requires Layout(s) && Budget(s)
    ensures var s' := Step(add, s, c).session; Layout(s') && Budget(s')
  {
    hide Layout, Budget;
    match c.op
    case Malloc(bytes) =>
      MallocKeepsLayout(s, bytes);
      MallocKeepsBudget(s, bytes);
    case Free(p) =>
      FreeKeepsLayout(s, p);
      FreeKeepsBudget(s, p);
    case _ =>
      OnlyMallocAndFreeReshape(add, s, c);
      ShapeKeepsLayout(s, Step(add, s, c).session);
      ShapeKeepsBudget(s, Step(add, s, c).session);
  }

  // On every run, saturated or not and whatever the budget: the live bytes never exceed `used`, which
  // never exceeds the budget; until the handle counter saturates they are equal; and any two
  // buffers whose handles are below the saturation value are separated by at least 64 bytes.
  lemma {:induction false} RunInvariant(add: FloatAdd, maxAlloc: u64, devices: seq<DeviceInfo>, calls: seq<Call>)
    ensures var s := Run(add, Open(maxAlloc, devices), calls); Layout(s) && Budget(s)
  {
    if calls != [] {
      RunInvariant(add, maxAlloc, devices, calls[..|calls| - 1]);
      StepKeepsInvariant(add, Run(add, Open(maxAlloc, devices), calls[..|calls| - 1]), calls[|calls| - 1]);
    } else {
      LowIsAll(map[]);
    }
  }

  // What MemGetInfo calls free can really be allocated, one buffer cap at a time.
  lemma {:induction false} ReportedFreeIsAllocatable(add: FloatAdd, s: Session, bytes: u64, now: nat)
    requires 0 < bytes <= MAX_SINGLE_ALLOC
    requires bytes <= Step(add, s, Call(MemGetInfo, now)).reply.partial.freeBytes.GetOr(0)
    ensures Step(add, s, Call(Malloc(bytes), now)).reply == Done(NOTHING.(ptr := Some(s.nextPtr)))
  {
  }

  predicate Distinct(hs: seq<u64>) {
    forall i, j :: 0 <= i < j < |hs| ==> hs[i] != hs[j]
  }

  function Frees(hs: seq<u64>): seq<Call> {
    if hs == [] then [] else Frees(hs[..|hs| - 1]) + [Call(Free(hs[|hs| - 1]), 0)]
  }

  lemma {:induction false} FreeStep(add: FloatAdd, s: Session, h: u64)
    requires h in s.buffers
    ensures var o := Step(add, s, Call(Free(h), 0));
            o.reply.ok && o.session.buffers == s.buffers - {h} && o.session.nextPtr == s.nextPtr &&
            o.session.maxAlloc == s.maxAlloc
  {
  }

  lemma {:induction false} FreesRun(add: FloatAdd, s: Session, hs: seq<u64>)
    requires Layout(s) && Budget(s) && Distinct(hs) && forall h :: h in hs ==> h in s.buffers
    ensures var s' := Run(add, s, Frees(hs));
            Layout(s') && Budget(s') && s'.nextPtr == s.nextPtr && s'.maxAlloc == s.maxAlloc &&
            s'.buffers.Keys == s.buffers.Keys - (set h | h in hs)
    ensures forall r :: r in Replies(add, s, Frees(hs)) ==> r.ok
  {
    hide Layout, Budget, Step;
    if hs != [] {
      var before, h := hs[..|hs| - 1], hs[|hs| - 1];
      FreesRun(add, s, before);
      RunLast(add, s, Frees(before), Call(Free(h), 0));
      assert hs == before + [h] && h !in before;
      FreeStep(add, Run(add, s, Frees(before)), h);
      StepKeepsInvariant(add, Run(add, s, Frees(before)), Call(Free(h), 0));
    }
  }

  // Freeing every live buffer, in any order, restores the whole budget.
  lemma {:induction false} FreeingEverythingRestoresBudget(add: FloatAdd, s: Session, hs: seq<u64>)
    requires Layout(s) && Budget(s) && s.nextPtr < U64_MAX
    requires Distinct(hs) && forall h :: h in hs <==> h in s.buffers
    ensures var s' := Run(add, s, Frees(hs)); s'.used == 0 && s'.buffers == map[] && s'.maxAlloc == s.maxAlloc
    ensures forall r :: r in Replies(add, s, Frees(hs)) ==> r.ok
  {
    FreesRun(add, s, hs);
    assert Run(add, s, Frees(hs)).buffers.Keys == {};
    assert Run(add, s, Frees(hs)).buffers == map[];
  }
}
