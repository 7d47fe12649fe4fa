/** Choosing the peer a job goes to: filter, score, stable sort, take the first. */
module Scheduler {
  import opened Base

  datatype Status = Idle | Busy | Offline | Unknown

  datatype PeerInfo = PeerInfo(sharing: bool, status: Status, vramFreeMb: Option<u64>, utilization: Option<u32>)

  datatype Candidate = Candidate(nodeId: string, name: string)

  datatype Request = Request(gpuMemoryMb: Option<u64>, preferPeer: Option<string>)

  datatype Fault = NoCandidates | NoneEligible

  // The low 64 bits of an integer as an i64.
  function I64(x: int): int {
    (x + 0x8000_0000_0000_0000) % 0x1_0000_0000_0000_0000 - 0x8000_0000_0000_0000
  }

  predicate Eligible(req: Request, info: PeerInfo) {
    info.sharing && info.status != Busy && info.status != Offline &&
    (req.gpuMemoryMb.Some? ==> req.gpuMemoryMb.value <= info.vramFreeMb.GetOr(0))
  }

  // The preferred peer is named, or identified by (a prefix of) its node id.
  predicate Preferred(req: Request, c: Candidate) {
    req.preferPeer.Some? &&
    (req.preferPeer.value == c.name || req.preferPeer.value == c.nodeId || req.preferPeer.value <= c.nodeId)
  }

  // The i64 score; every addition wraps.
  function Score(req: Request, c: Candidate, info: PeerInfo): int {
    var free := I64(info.vramFreeMb.GetOr(0));
    var idle := if info.status == Idle then I64(free + 10_000) else free;
    var util := if info.utilization.Some? then I64(idle + (100 - info.utilization.value) * 10) else idle;
    if Preferred(req, c) then I64(util + 50_000) else util
  }

  // A candidate with the answer to its probe; None if the probe failed or timed out.
  datatype Probed = Probed(candidate: Candidate, info: Option<PeerInfo>)

  predicate Qualifies(req: Request, p: Probed) {
    p.info.Some? && Eligible(req, p.info.value)
  }

  datatype Scored = Scored(score: int, candidate: Candidate, info: PeerInfo)

  function ScoreOf(req: Request, p: Probed): Scored
    requires Qualifies(req, p)
  {
    Scored(Score(req, p.candidate, p.info.value), p.candidate, p.info.value)
  }

  function Scores(req: Request, probes: seq<Probed>): seq<Scored> {
    if probes == [] then []
    else if Qualifies(req, probes[0]) then [ScoreOf(req, probes[0])] + Scores(req, probes[1..])
    else Scores(req, probes[1..])
  }

  // A stable sort by descending score: an element goes before the first one that does not beat it.
  function Insert(x: Scored, sorted: seq<Scored>): seq<Scored> {
    if sorted == [] || sorted[0].score <= x.score then [x] + sorted
    else [sorted[0]] + Insert(x, sorted[1..])
  }

  function SortDescending(s: seq<Scored>): seq<Scored> {
    if s == [] then [] else Insert(s[0], SortDescending(s[1..]))
  }

  predicate Descending(s: seq<Scored>) {
    forall i, j :: 0 <= i < j < |s| ==> s[j].score <= s[i].score
  }

  predicate AtMost(s: seq<Scored>, bound: int) {
    forall k :: 0 <= k < |s| ==> s[k].score <= bound
  }

  lemma {:induction false} InsertSorts(x: Scored, s: seq<Scored>, bound: int)
    requires Descending(s) && AtMost(s, bound) && x.score <= bound
    ensures Descending(Insert(x, s)) && AtMost(Insert(x, s), bound)
    ensures multiset(Insert(x, s)) == multiset{x} + multiset(s)
  {
    if s == [] || s[0].score <= x.score {
      HeadBounds(s, x.score);
      ConsDescends(x, s, bound);
    } else {
      hide Descending, AtMost;
      assert s == [s[0]] + s[1..];
      TailDescends(s, bound);
      InsertSorts(x, s[1..], s[0].score);
      ConsDescends(s[0], Insert(x, s[1..]), bound);
    }
  }

  lemma {:induction false} HeadBounds(s: seq<Scored>, score: int)
    requires Descending(s) && (s == [] || s[0].score <= score)
    ensures AtMost(s, score)
  {
  }

  lemma {:induction false} TailDescends(s: seq<Scored>, bound: int)
    requires s != [] && Descending(s) && AtMost(s, bound)
    ensures Descending(s[1..]) && AtMost(s[1..], s[0].score) && s[0].score <= bound
  {
  }

  lemma {:induction false} ConsDescends(x: Scored, s: seq<Scored>, bound: int)
    requires Descending(s) && AtMost(s, x.score) && x.score <= bound
    ensures Descending([x] + s) && AtMost([x] + s, bound)
  {
  }

  // Elements of equal score stay in their order.
  lemma {:induction false} InsertIsStable(x: Scored, s: seq<Scored>, score: int)
    ensures Filter(HasScore(score), Insert(x, s)) == Filter(HasScore(score), [x] + s)
  {
    assert ([x] + s)[1..] == s;
    if s != [] && x.score < s[0].score {
      InsertIsStable(x, s[1..], score);
      assert ([x] + s[1..])[1..] == s[1..];
      assert ([s[0]] + Insert(x, s[1..]))[1..] == Insert(x, s[1..]);
    }
  }

  function HasScore(score: int): Scored -> bool {
    (x: Scored) => x.score == score
  }

  lemma {:induction false} SortIsStableSort(s: seq<Scored>)
    ensures Descending(SortDescending(s)) && multiset(SortDescending(s)) == multiset(s)
    ensures forall score :: Filter(HasScore(score), SortDescending(s)) == Filter(HasScore(score), s)
  {
    SortSorts(s);
    forall score
      ensures Filter(HasScore(score), SortDescending(s)) == Filter(HasScore(score), s)
    {
      SortIsStable(s, score);
    }
  }

  lemma {:induction false} SortSorts(s: seq<Scored>)
    ensures Descending(SortDescending(s)) && multiset(SortDescending(s)) == multiset(s)
  {
    if s != [] {
      var t := SortDescending(s[1..]);
      SortSorts(s[1..]);
      hide Descending, Insert;
      var bound := if t == [] then s[0].score else Max(s[0].score, t[0].score);
      HeadBounds(t, bound);
      InsertSorts(s[0], t, bound);
      assert s == [s[0]] + s[1..];
    }
  }

  lemma {:induction false} SortIsStable(s: seq<Scored>, score: int)
    ensures Filter(HasScore(score), SortDescending(s)) == Filter(HasScore(score), s)
  {
    if s != [] {
      var t := SortDescending(s[1..]);
      SortIsStable(s[1..], score);
      InsertIsStable(s[0], t, score);
      hide Insert;
      assert ([s[0]] + t)[1..] == t;
    }
  }

  function Choose(req: Request, probes: seq<Probed>): Result<Scored, Fault> {
    if probes == [] then Err(NoCandidates)
    else
      var sorted := SortDescending(Scores(req, probes));
      if sorted == [] then Err(NoneEligible) else Ok(sorted[0])
  }

  method ScorePeer(req: Request, c: Candidate, info: PeerInfo) returns (score: int)
    ensures score == Score(req, c, info)
  {
    score := I64(info.vramFreeMb.GetOr(0));
    if info.status == Idle {
      score := I64(score + 10_000);
    }
    if info.utilization.Some? {
      score := I64(score + (100 - info.utilization.value) * 10);
    }
    if Preferred(req, c) {
      score := I64(score + 50_000);
    }
  }

  method SchedulePeer(req: Request, probes: seq<Probed>) returns (r: Result<Scored, Fault>)
    ensures r == Choose(req, probes)
  {
    if probes == [] {
      return Err(NoCandidates);
    }
    hide Score;
    var scored: seq<Scored> := [];
    assert probes[0..] == probes;
    for k := 0 to |probes|
      invariant scored + Scores(req, probes[k..]) == Scores(req, probes)
    {
      var p := probes[k];
      assert probes[k..][1..] == probes[k + 1..];
      if p.info.Some? {
        var info := p.info.value;
        var enough := req.gpuMemoryMb.None? || info.vramFreeMb.GetOr(0) >= req.gpuMemoryMb.value;
        if info.sharing && info.status != Busy && info.status != Offline && enough {
          var score := ScorePeer(req, p.candidate, info);
          scored := scored + [Scored(score, p.candidate, info)];
        }
      }
    }
    assert probes[|probes|..] == [] && scored + [] == scored;
    scored := SortDescending(scored);
    if scored == [] {
      return Err(NoneEligible);
    }
    return Ok(scored[0]);
  }

  // The head of the sorted list is the first element of maximal score.
  lemma {:induction false} HeadIsFirstMaximum(s: seq<Scored>) returns (i: nat)
    requires s != []
    ensures i < |s| && SortDescending(s) != [] && SortDescending(s)[0] == s[i]
    ensures forall j :: 0 <= j < |s| ==> s[j].score <= s[i].score
    ensures forall j :: 0 <= j < i ==> s[j].score < s[i].score
  {
    if s[1..] == [] {
      i := 0;
    } else {
      var k := HeadIsFirstMaximum(s[1..]);
      assert forall j :: 0 < j < |s| ==> s[j] == s[1..][j - 1];
      if s[1..][k].score <= s[0].score {
        i := 0;
      } else {
        i := k + 1;
      }
    }
  }

  // Every score in the list belongs to a qualifying probe, in the same order, and none is missing.
  lemma {:induction false} ScoresAreOfProbes(req: Request, probes: seq<Probed>, i: nat) returns (k: nat)
    requires i < |Scores(req, probes)|
    ensures k < |probes| && Qualifies(req, probes[k]) && Scores(req, probes)[i] == ScoreOf(req, probes[k])
    ensures Scores(req, probes[..k]) == Scores(req, probes)[..i]
  {
    var rest := probes[1..];
    if Qualifies(req, probes[0]) && i == 0 {
      k := 0;
    } else {
      var m := ScoresAreOfProbes(req, rest, if Qualifies(req, probes[0]) then i - 1 else i);
      k := m + 1;
      assert probes[..k][1..] == rest[..m] && probes[..k][0] == probes[0];
    }
  }

  lemma {:induction false} ScoreIsListed(req: Request, probes: seq<Probed>, k: nat) returns (i: nat)
    requires k < |probes| && Qualifies(req, probes[k])
    ensures i < |Scores(req, probes)| && Scores(req, probes)[i] == ScoreOf(req, probes[k])
  {
    if k == 0 {
      i := 0;
    } else {
      i := ScoreIsListed(req, probes[1..], k - 1);
      if Qualifies(req, probes[0]) {
        i := i + 1;
      }
    }
  }

  // For any probe outcomes: without a qualifying candidate the choice fails; otherwise it is a
  // qualifying candidate, none scores higher, and every earlier one scores lower.
  lemma {:induction false} ChoiceIsBest(req: Request, probes: seq<Probed>) returns (k: nat)
    ensures Choose(req, probes).Err? <==> forall j :: 0 <= j < |probes| ==> !Qualifies(req, probes[j])
    ensures Choose(req, probes).Ok? ==>
              k < |probes| && Qualifies(req, probes[k]) && Choose(req, probes).value == ScoreOf(req, probes[k]) &&
              forall j :: 0 <= j < |probes| && Qualifies(req, probes[j]) ==>
                var best, other := ScoreOf(req, probes[k]).score, ScoreOf(req, probes[j]).score;
                other <= best && (j < k ==> other < best)
  {
    hide Score;
    var s := Scores(req, probes);
    k := 0;
    if s != [] {
      var i := HeadIsFirstMaximum(s);
      k := ScoresAreOfProbes(req, probes, i);
      forall j | 0 <= j < |probes| && Qualifies(req, probes[j])
        ensures var best, other := ScoreOf(req, probes[k]).score, ScoreOf(req, probes[j]).score;
                other <= best && (j < k ==> other < best)
      {
        if j < k {
          var l := ScoreIsListed(req, probes[..k], j);
          assert s[..i][l] == s[l];
        } else {
          var l := ScoreIsListed(req, probes, j);
        }
      }
    } else {
      forall j | 0 <= j < |probes|
        ensures !Qualifies(req, probes[j])
      {
        if Qualifies(req, probes[j]) {
          var l := ScoreIsListed(req, probes, j);
        }
      }
    }
  }

  // Who can be chosen: a peer that answered, shares its GPU, is idle or of unknown status, and has the memory
  // that is asked for. There is a choice exactly if there is such a peer.
  lemma {:induction false} OnlyUsablePeers(req: Request, probes: seq<Probed>) returns (k: nat)
    ensures Choose(req, probes).Ok? <==>
            exists j :: 0 <= j < |probes| && probes[j].info.Some? && probes[j].info.value.sharing &&
                        (probes[j].info.value.status == Idle || probes[j].info.value.status == Unknown) &&
                        req.gpuMemoryMb.GetOr(0) <= probes[j].info.value.vramFreeMb.GetOr(0)
    ensures Choose(req, probes).Ok? ==>
              k < |probes| && probes[k].info == Some(Choose(req, probes).value.info) &&
              probes[k].candidate == Choose(req, probes).value.candidate && probes[k].info.value.sharing &&
              probes[k].info.value.status != Busy && probes[k].info.value.status != Offline &&
              (req.gpuMemoryMb.Some? ==> req.gpuMemoryMb.value <= probes[k].info.value.vramFreeMb.GetOr(0))
    ensures Choose(req, probes).Err? ==>
              Choose(req, probes).error == if |probes| == 0 then NoCandidates else NoneEligible
  {
    hide Score, Choose;
    k := ChoiceIsBest(req, probes);
    forall j | 0 <= j < |probes|
      ensures Qualifies(req, probes[j]) <==>
              probes[j].info.Some? && probes[j].info.value.sharing &&
              (probes[j].info.value.status == Idle || probes[j].info.value.status == Unknown) &&
              req.gpuMemoryMb.GetOr(0) <= probes[j].info.value.vramFreeMb.GetOr(0)
    {
    }
    WhyNoChoice(req, probes);
  }

  lemma {:induction false} WhyNoChoice(req: Request, probes: seq<Probed>)
    ensures Choose(req, probes).Err? ==>
              Choose(req, probes).error == if |probes| == 0 then NoCandidates else NoneEligible
  {
    hide Scores, SortDescending;
  }

  // A peer is preferred by its name, its whole node id or the beginning of it, and by nothing else.
  lemma {:induction false} PreferredByNameOrId(req: Request, c: Candidate)
    ensures Preferred(req, c) <==>
            req.preferPeer == Some(c.name) || exists n :: 0 <= n <= |c.nodeId| && req.preferPeer == Some(c.nodeId[..n])
  {
    if req.preferPeer.Some? && req.preferPeer.value <= c.nodeId {
      assert c.nodeId[..|req.preferPeer.value|] == req.preferPeer.value;
    }
  }

  // What raises a score: 10000 for being idle, ten for every percent that is not in use, 50000 for being
  // preferred, and one for every megabyte of free memory.
  lemma {:induction false} Bonuses(req: Request, c: Candidate, free: u64, use: u32)
    requires use <= 100 && free + 61_000 < 0x8000_0000_0000_0000
    ensures var bonus := if Preferred(req, c) then 50_000 else 0;
            && Score(req, c, PeerInfo(true, Unknown, Some(free), Some(use))) == free + bonus + 1_000 - 10 * use
            && Score(req, c, PeerInfo(true, Idle, Some(free), Some(use))) == free + bonus + 11_000 - 10 * use
            && Score(req, c, PeerInfo(true, Idle, Some(free), None)) == free + bonus + 10_000
            && Score(req, c, PeerInfo(true, Unknown, None, None)) == bonus
  {
    hide I64, Preferred;
    ScoreIsSumIff(req, c, PeerInfo(true, Unknown, Some(free), Some(use)));
    ScoreIsSumIff(req, c, PeerInfo(true, Idle, Some(free), Some(use)));
    ScoreIsSumIff(req, c, PeerInfo(true, Idle, Some(free), None));
    ScoreIsSumIff(req, c, PeerInfo(true, Unknown, None, None));
    hide Score;
  }

  // The score as a plain sum.
  function Unwrapped(req: Request, c: Candidate, info: PeerInfo): int {
    info.vramFreeMb.GetOr(0) + (if info.status == Idle then 10_000 else 0) +
    (if info.utilization.Some? then (100 - info.utilization.value) * 10 else 0) +
    (if Preferred(req, c) then 50_000 else 0)
  }

  lemma {:induction false} WrapOnce(x: int, y: int)
    ensures I64(I64(x) + y) == I64(x + y)
  {
  }

  lemma {:induction false} I64Exact(x: int)
    requires -0x8000_0000_0000_0000 <= x < 0x1_8000_0000_0000_0000
    ensures I64(x) == x <==> x < 0x8000_0000_0000_0000
  {
  }

  // The wrapping arithmetic gives the plain sum if and only if that fits an i64.
  lemma {:induction false} ScoreIsSumIff(req: Request, c: Candidate, info: PeerInfo)
    ensures Score(req, c, info) == Unwrapped(req, c, info) <==> Unwrapped(req, c, info) < 0x8000_0000_0000_0000
  {
    hide I64, Preferred;
    var free := info.vramFreeMb.GetOr(0);
    var bonus := if info.status == Idle then 10_000 else 0;
    var use := if info.utilization.Some? then (100 - info.utilization.value) * 10 else 0;
    WrapOnce(free, bonus);
    WrapOnce(free + bonus, use);
    WrapOnce(free + bonus + use, 50_000);
    I64Exact(Unwrapped(req, c, info));
  }

  // Utilization is a percentage, and the score does not wrap.
  predicate Sane(req: Request, c: Candidate, info: PeerInfo) {
    info.utilization.GetOr(0) <= 100 && Unwrapped(req, c, info) < 0x8000_0000_0000_0000
  }

  lemma {:induction false} SaneScore(req: Request, c: Candidate, info: PeerInfo)
    requires Sane(req, c, info)
    ensures var bonus := if Preferred(req, c) then 50_000 else 0;
            info.vramFreeMb.GetOr(0) + bonus <= Score(req, c, info) <= info.vramFreeMb.GetOr(0) + bonus + 11_000
  {
    ScoreIsSumIff(req, c, info);
    hide Score, Preferred;
  }

  // A peer without the bonus never scores more than its free memory and 11000, wrapped or not.
  lemma {:induction false} ScoreAtMost(req: Request, c: Candidate, info: PeerInfo)
    requires !Preferred(req, c)
    ensures Score(req, c, info) <= info.vramFreeMb.GetOr(0) + 11_000
  {
    ScoreIsSumIff(req, c, info);
    assert Score(req, c, info) < 0x8000_0000_0000_0000;
    hide Score, Preferred;
  }

  // A qualifying preferred peer is only passed over for a preferred peer, or for one that reports at
  // least 39000 MB more free memory, whatever the others report.
  lemma {:induction false} PreferenceHolds(req: Request, probes: seq<Probed>, p: nat) returns (k: nat)
    requires p < |probes| && Qualifies(req, probes[p]) && Preferred(req, probes[p].candidate)
    requires Sane(req, probes[p].candidate, probes[p].info.value)
    ensures k < |probes| && Qualifies(req, probes[k]) && Choose(req, probes) == Ok(ScoreOf(req, probes[k]))
    ensures Preferred(req, probes[k].candidate) ||
            probes[k].info.value.vramFreeMb.GetOr(0) >= probes[p].info.value.vramFreeMb.GetOr(0) + 39_000
  {
    k := ChoiceIsBest(req, probes);
    hide Preferred;
    SaneScore(req, probes[p].candidate, probes[p].info.value);
    if !Preferred(req, probes[k].candidate) {
      ScoreAtMost(req, probes[k].candidate, probes[k].info.value);
    }
    hide Score, Unwrapped;
  }

  // Wherever the peer takes part, the choice is a preferred peer or one with 39000 MB more free memory.
  ghost predicate IsGivenPreference(req: Request, wanted: Probed)
    requires Qualifies(req, wanted)
  {
    forall probes :: wanted in probes ==>
      var choice := Choose(req, probes);
      choice.Ok? &&
      (Preferred(req, choice.value.candidate) ||
       choice.value.info.vramFreeMb.GetOr(0) >= wanted.info.value.vramFreeMb.GetOr(0) + 39_000)
  }

  // An idle peer without a name, with as much free memory as the request needs.
  function Rival(req: Request): Probed {
    var free := Max(req.gpuMemoryMb.GetOr(0), 100_000);
    Probed(Candidate("", ""), Some(PeerInfo(true, Idle, Some(free), None)))
  }

  // A preferred peer whose score wraps loses to a rival that reports no more free memory.
  lemma {:induction false} WrappedScoreLoses(req: Request, wanted: Probed)
    requires Qualifies(req, wanted) && Preferred(req, wanted.candidate) && req.preferPeer != Some("")
    requires wanted.info.value.utilization.GetOr(0) <= 100
    requires req.gpuMemoryMb.GetOr(0) < 0x8000_0000_0000_0000 - 10_000
    requires 0x8000_0000_0000_0000 <= Unwrapped(req, wanted.candidate, wanted.info.value)
    ensures Qualifies(req, Rival(req)) && !Preferred(req, Rival(req).candidate)
    ensures Rival(req).info.value.vramFreeMb.value <= wanted.info.value.vramFreeMb.GetOr(0)
    ensures Choose(req, [wanted, Rival(req)]) == Ok(ScoreOf(req, Rival(req)))
  {
    var rival := Rival(req);
    WrapsLow(req, wanted.candidate, wanted.info.value);
    ScoreIsSumIff(req, rival.candidate, rival.info.value);
    assert ScoreOf(req, rival).score >= 110_000;
    hide Score, Unwrapped, Choose;
    var k := ChoiceIsBest(req, [wanted, rival]);
    assert [wanted, rival][0] == wanted && [wanted, rival][1] == rival;
  }

  lemma {:induction false} WrapsLow(req: Request, c: Candidate, info: PeerInfo)
    requires 0x8000_0000_0000_0000 <= Unwrapped(req, c, info)
    ensures Score(req, c, info) < 61_000
  {
    hide I64, Preferred;
    var free := info.vramFreeMb.GetOr(0);
    var bonus := if info.status == Idle then 10_000 else 0;
    var use := if info.utilization.Some? then (100 - info.utilization.value) * 10 else 0;
    WrapOnce(free, bonus);
    WrapOnce(free + bonus, use);
    WrapOnce(free + bonus + use, 50_000);
    I64High(Unwrapped(req, c, info));
  }

  lemma {:induction false} I64High(x: int)
    requires 0x8000_0000_0000_0000 <= x < 0x1_8000_0000_0000_0000
    ensures I64(x) == x - 0x1_0000_0000_0000_0000
  {
  }

  // So for an eligible preferred peer with a percentage as utilization, the preference holds in every
  // choice if and only if the plain sum of its score is below 2^63.
  lemma {:induction false} PreferenceIff(req: Request, wanted: Probed)
    requires Qualifies(req, wanted) && Preferred(req, wanted.candidate) && req.preferPeer != Some("")
    requires wanted.info.value.utilization.GetOr(0) <= 100
    requires req.gpuMemoryMb.GetOr(0) < 0x8000_0000_0000_0000 - 10_000
    ensures IsGivenPreference(req, wanted) <==>
            Unwrapped(req, wanted.candidate, wanted.info.value) < 0x8000_0000_0000_0000
  {
    hide Score, Unwrapped, Choose, Preferred;
    if Unwrapped(req, wanted.candidate, wanted.info.value) < 0x8000_0000_0000_0000 {
      forall probes | wanted in probes
        ensures var choice := Choose(req, probes);
                choice.Ok? && (Preferred(req, choice.value.candidate) ||
                choice.value.info.vramFreeMb.GetOr(0) >= wanted.info.value.vramFreeMb.GetOr(0) + 39_000)
      {
        var p :| 0 <= p < |probes| && probes[p] == wanted;
        var k := PreferenceHolds(req, probes, p);
      }
    } else {
      WrappedScoreLoses(req, wanted);
      assert wanted in [wanted, Rival(req)];
    }
  }

  // The bound is tight: with a difference of exactly 39000 MB the preferred peer can lose the tie.
  lemma {:induction false} PreferenceIsTight()
    ensures var req := Request(None, Some("a"));
            var rich := Probed(Candidate("2", "b"), Some(PeerInfo(true, Idle, Some(39_000), Some(0))));
            var wanted := Probed(Candidate("1", "a"), Some(PeerInfo(true, Unknown, Some(0), Some(100))));
            Choose(req, [rich, wanted]) == Ok(ScoreOf(req, rich)) && Preferred(req, wanted.candidate) &&
            !Preferred(req, rich.candidate)
  {
    var req := Request(None, Some("a"));
    var rich := Probed(Candidate("2", "b"), Some(PeerInfo(true, Idle, Some(39_000), Some(0))));
    var wanted := Probed(Candidate("1", "a"), Some(PeerInfo(true, Unknown, Some(0), Some(100))));
    assert Preferred(req, wanted.candidate) && !Preferred(req, rich.candidate);
    assert ScoreOf(req, rich).score == 50_000;
    assert ScoreOf(req, wanted).score == 50_000;
    hide Score, Choose;
    var k := ChoiceIsBest(req, [rich, wanted]);
    assert [rich, wanted][0] == rich && [rich, wanted][1] == wanted;
  }
}
