/** `QosStrategy2`: QoS forwarding with a loss-aware fan-out for the gated
    traffic classes and a best-route fallback for best effort. The strategy
    owns the per-face queues and the class token buckets (`Scheduler`) and
    the per-prefix loss statistics (`LossEstimator`). */
module QosStrategy {
  import opened Wrappers
  import opened Names
  import opened QosQueue
  import opened PriorityTxQueue
  import opened Scheduler
  import opened NextHops
  import opened LossEstimator

  /** Priority level of traffic outside the gated classes. */
  const BEST_EFFORT_LEVEL: int := 60

  /** Retransmission suppression window, in milliseconds. */
  const RETX_SUPPRESSION_INITIAL_MS: nat := 10
  const RETX_SUPPRESSION_MAX_MS: nat := 250

  /** Level and success target of an interest, from its second name component. */
  datatype Class = Class(level: int, target: real)

  /** The classification of `afterReceiveInterest`. */
  function Classify(name: Name): (c: Class)
    ensures c.level == 1 <==> ComponentIs(name, 1, "typeI")
    ensures c.level == 21 <==> ComponentIs(name, 1, "typeII")
    ensures c.level == 59 <==> ComponentIs(name, 1, "typeIII")
    ensures c.level == BEST_EFFORT_LEVEL <==>
              !ComponentIs(name, 1, "typeI") && !ComponentIs(name, 1, "typeII") && !ComponentIs(name, 1, "typeIII")
    ensures c.level != BEST_EFFORT_LEVEL ==> 0.0 < c.target <= 1.0
    ensures c.level == BEST_EFFORT_LEVEL ==> c.target == 0.0
  {
    if ComponentIs(name, 1, "typeI") then Class(1, 1.0)
    else if ComponentIs(name, 1, "typeII") then Class(21, 1.0)
    else if ComponentIs(name, 1, "typeIII") then Class(59, 0.4)
    else Class(BEST_EFFORT_LEVEL, 0.0)
  }

  /** The level of `afterReceiveData`: only the two highest classes keep
      their priority on the way back. */
  function DataLevel(name: Name): (level: int)
    ensures level == 1 <==> ComponentIs(name, 1, "typeI")
    ensures level == 21 <==> ComponentIs(name, 1, "typeII")
    ensures level == BEST_EFFORT_LEVEL <==> !ComponentIs(name, 1, "typeI") && !ComponentIs(name, 1, "typeII")
  {
    if ComponentIs(name, 1, "typeI") then 1
    else if ComponentIs(name, 1, "typeII") then 21
    else BEST_EFFORT_LEVEL
  }

  /** Some candidate at or after position `i` is on a face not yet chosen. */
  predicate FreshFrom(hops: seq<NextHop>, inFace: FaceId, chosen: seq<FaceId>, i: nat) {
    exists j :: i <= j < |hops| && Candidate(hops[j], inFace) && hops[j].face !in chosen
  }

  /** The candidates from position `i` on whose face is not yet chosen. */
  function CountFresh(hops: seq<NextHop>, inFace: FaceId, chosen: seq<FaceId>, i: nat): nat
    requires i <= |hops|
    decreases |hops| - i
  {
    if i == |hops| then 0
    else (if Candidate(hops[i], inFace) && hops[i].face !in chosen then 1 else 0) + CountFresh(hops, inFace, chosen, i + 1)
  }

  lemma {:induction false} CountFreshZero(hops: seq<NextHop>, inFace: FaceId, chosen: seq<FaceId>, i: nat)
    requires i <= |hops|
    ensures CountFresh(hops, inFace, chosen, i) == 0 <==> !FreshFrom(hops, inFace, chosen, i)
    decreases |hops| - i
  {
    if i < |hops| {
      CountFreshZero(hops, inFace, chosen, i + 1);
      if FreshFrom(hops, inFace, chosen, i) && !(Candidate(hops[i], inFace) && hops[i].face !in chosen) {
        var j :| i <= j < |hops| && Candidate(hops[j], inFace) && hops[j].face !in chosen;
        assert j != i;
      }
    }
  }

  /** Choosing one more face never adds fresh candidates, and choosing a
      fresh candidate face removes at least one: the fan-out loop ends. */
  lemma {:induction false} CountFreshShrinks(hops: seq<NextHop>, inFace: FaceId, chosen: seq<FaceId>, f: FaceId, i: nat)
    requires i <= |hops|
    ensures CountFresh(hops, inFace, chosen + [f], i) <= CountFresh(hops, inFace, chosen, i)
    ensures f !in chosen && (exists j :: i <= j < |hops| && Candidate(hops[j], inFace) && hops[j].face == f) ==>
              CountFresh(hops, inFace, chosen + [f], i) < CountFresh(hops, inFace, chosen, i)
    decreases |hops| - i
  {
    if i < |hops| {
      CountFreshShrinks(hops, inFace, chosen, f, i + 1);
      assert hops[i].face in chosen + [f] <==> hops[i].face in chosen || hops[i].face == f;
      if f !in chosen && (exists j :: i <= j < |hops| && Candidate(hops[j], inFace) && hops[j].face == f) {
        var j :| i <= j < |hops| && Candidate(hops[j], inFace) && hops[j].face == f;
        if j != i {
          assert exists j' :: i + 1 <= j' < |hops| && Candidate(hops[j'], inFace) && hops[j'].face == f;
        }
      }
    }
  }

  datatype ScanResult = ScanResult(best: FaceId, bestProb: real, count: nat, suppressed: bool)

  /** One pass of the inner `for` loop of the fan-out, from position `i` on:
      the candidate on an unchosen face with the highest success probability
      wins, a later one on a tie. Within the pass, the first candidate on an
      unchosen face is read with the absolute loss rate (`bestFaceID` is
      still 0) and every later one with the relative rate. */
  function Scan(hops: seq<NextHop>, inFace: FaceId, st: FaceStats, chosen: seq<FaceId>,
                i: nat, best: FaceId, bestProb: real, count: nat, suppressed: bool): (r: ScanResult)
    requires i <= |hops|
    ensures r.count == count + CountFresh(hops, inFace, chosen, i)
    ensures r.suppressed <==> suppressed || SuppressedFrom(hops, i)
    ensures r.best == best || (r.best !in chosen && exists j :: i <= j < |hops| && Candidate(hops[j], inFace) && hops[j].face == r.best)
    ensures FreshFrom(hops, inFace, chosen, i) && WellFormed(st) && bestProb <= 0.0 ==>
              r.best !in chosen && exists j :: i <= j < |hops| && Candidate(hops[j], inFace) && hops[j].face == r.best
    ensures r.bestProb >= bestProb
    ensures !st.bootstrapped && bestProb == 0.0 ==> r.bestProb == 0.0
    ensures WellFormed(st) && bestProb <= 1.0 ==> r.bestProb <= 1.0
    decreases |hops| - i
  {
    if i == |hops| then ScanResult(best, bestProb, count, suppressed)
    else
      var h := hops[i];
      if h.upstream == Suppress then
        Scan(hops, inFace, st, chosen, i + 1, best, bestProb, count, true)
      else if SameFaceBlocked(h, inFace) || h.violatesScope || h.face in chosen then
        Scan(hops, inFace, st, chosen, i + 1, best, bestProb, count, suppressed)
      else
        var p := FaceProb(st, h.face, best != 0);
        if p >= bestProb then Scan(hops, inFace, st, chosen, i + 1, h.face, p, count + 1, suppressed)
        else Scan(hops, inFace, st, chosen, i + 1, best, bestProb, count + 1, suppressed)
  }

  /** The first pass of the inner loop, as the fan-out runs it. */
  function FirstScan(hops: seq<NextHop>, inFace: FaceId, st: FaceStats, chosen: seq<FaceId>): (r: ScanResult)
    ensures r.count == CountFresh(hops, inFace, chosen, 0)
    ensures r.suppressed <==> SuppressedFrom(hops, 0)
  {
    Scan(hops, inFace, st, chosen, 0, 0, 0.0, 0, false)
  }

  datatype FanOutResult = FanOutResult(picks: seq<FaceId>, prob: real, count: nat, suppressed: bool)

  /** The `while (prob < successProb && hasOptions)` loop: keep adding the
      best unchosen face, summing the success probabilities, until the target
      is met or a scan finds no usable face (`bestFaceID == 0`). Every face
      added is a candidate, none twice. */
  function FanOut(hops: seq<NextHop>, inFace: FaceId, st: FaceStats, target: real,
                  picks: seq<FaceId>, prob: real, count: nat, suppressed: bool): (r: FanOutResult)
    ensures picks <= r.picks && r.count >= count && r.prob >= prob
    decreases CountFresh(hops, inFace, picks, 0)
  {
    if prob >= target then FanOutResult(picks, prob, count, suppressed)
    else
      var sr := FirstScan(hops, inFace, st, picks);
      if sr.best == 0 then FanOutResult(picks, prob, count + sr.count, suppressed || sr.suppressed)
      else
        CountFreshShrinks(hops, inFace, picks, sr.best, 0);
        FanOut(hops, inFace, st, target, picks + [sr.best], prob + sr.bestProb,
               count + sr.count, suppressed || sr.suppressed)
  }

  /** A round that finds a face continues the loop from the state with
      that face added, which has fewer fresh candidates left. */
  lemma FanOutUnfold(hops: seq<NextHop>, inFace: FaceId, st: FaceStats, target: real,
                     picks: seq<FaceId>, prob: real, count: nat, suppressed: bool)
    requires prob < target && FirstScan(hops, inFace, st, picks).best != 0
    ensures var sr := FirstScan(hops, inFace, st, picks);
            FanOut(hops, inFace, st, target, picks, prob, count, suppressed) ==
            FanOut(hops, inFace, st, target, picks + [sr.best], prob + sr.bestProb,
                   count + sr.count, suppressed || sr.suppressed)
  {
  }

  /** A round that finds a face leaves fewer fresh candidates. */
  lemma PickShrinks(hops: seq<NextHop>, inFace: FaceId, st: FaceStats, picks: seq<FaceId>)
    requires FirstScan(hops, inFace, st, picks).best != 0
    ensures CountFresh(hops, inFace, picks + [FirstScan(hops, inFace, st, picks).best], 0) < CountFresh(hops, inFace, picks, 0)
  {
    CountFreshShrinks(hops, inFace, picks, FirstScan(hops, inFace, st, picks).best, 0);
  }

  /** With no candidate on the reserved id 0, a scan that finds nothing
      means every candidate face has been chosen. */
  lemma NoPickMeansNoneFresh(hops: seq<NextHop>, inFace: FaceId, st: FaceStats, picks: seq<FaceId>)
    requires WellFormed(st) && 0 !in CandidateFaces(hops, inFace)
    requires FirstScan(hops, inFace, st, picks).best == 0
    ensures !FreshFrom(hops, inFace, picks, 0) && CountFresh(hops, inFace, picks, 0) == 0
  {
    ScanPickIsCandidate(hops, inFace, st, picks);
    CountFreshZero(hops, inFace, picks, 0);
  }

  lemma ScanPickIsCandidate(hops: seq<NextHop>, inFace: FaceId, st: FaceStats, picks: seq<FaceId>)
    requires WellFormed(st)
    ensures FreshFrom(hops, inFace, picks, 0) ==> FirstScan(hops, inFace, st, picks).best in CandidateFaces(hops, inFace)
  {
    var sr := FirstScan(hops, inFace, st, picks);
    if FreshFrom(hops, inFace, picks, 0) {
      var j :| 0 <= j < |hops| && Candidate(hops[j], inFace) && hops[j].face == sr.best;
      assert hops[j].face in CandidateFaces(hops, inFace);
    }
  }

  /** A scan finds a face only when some candidate face is unchosen, and
      then it counts at least one candidate. */
  lemma PickIsFresh(hops: seq<NextHop>, inFace: FaceId, st: FaceStats, picks: seq<FaceId>)
    requires FirstScan(hops, inFace, st, picks).best != 0
    ensures FreshFrom(hops, inFace, picks, 0) && FirstScan(hops, inFace, st, picks).count > 0
  {
    CountFreshZero(hops, inFace, picks, 0);
  }

  lemma DistinctAppend(xs: seq<FaceId>, x: FaceId)
    requires Distinct(xs) && x !in xs
    ensures Distinct(xs + [x])
  {
  }

  /** No face is added twice. */
  lemma {:induction false} FanOutDistinct(hops: seq<NextHop>, inFace: FaceId, st: FaceStats, target: real,
                                          picks: seq<FaceId>, prob: real, count: nat, suppressed: bool)
    requires Distinct(picks)
    ensures Distinct(FanOut(hops, inFace, st, target, picks, prob, count, suppressed).picks)
    decreases CountFresh(hops, inFace, picks, 0)
  {
    if prob < target {
      var sr := FirstScan(hops, inFace, st, picks);
      if sr.best != 0 {
        PickShrinks(hops, inFace, st, picks);
        FanOutUnfold(hops, inFace, st, target, picks, prob, count, suppressed);
        DistinctAppend(picks, sr.best);
        FanOutDistinct(hops, inFace, st, target, picks + [sr.best], prob + sr.bestProb,
                       count + sr.count, suppressed || sr.suppressed);
      }
    }
  }

  /** Every face the loop adds is a candidate face other than the reserved
      id 0. */
  lemma {:induction false} FanOutAddsCandidates(hops: seq<NextHop>, inFace: FaceId, st: FaceStats, target: real,
                                                picks: seq<FaceId>, prob: real, count: nat, suppressed: bool)
    ensures var r := FanOut(hops, inFace, st, target, picks, prob, count, suppressed);
            forall k :: |picks| <= k < |r.picks| ==> r.picks[k] in CandidateFaces(hops, inFace) && r.picks[k] != 0
    decreases CountFresh(hops, inFace, picks, 0)
  {
    if prob < target {
      var sr := FirstScan(hops, inFace, st, picks);
      if sr.best != 0 {
        var next := picks + [sr.best];
        PickShrinks(hops, inFace, st, picks);
        FanOutUnfold(hops, inFace, st, target, picks, prob, count, suppressed);
        FanOutAddsCandidates(hops, inFace, st, target, next, prob + sr.bestProb,
                             count + sr.count, suppressed || sr.suppressed);
        var r := FanOut(hops, inFace, st, target, next, prob + sr.bestProb, count + sr.count, suppressed || sr.suppressed);
        assert next <= r.picks;
        assert r.picks[|picks|] == sr.best && sr.best in CandidateFaces(hops, inFace);
      }
    }
  }

  /** The eligible-hop counter stays zero exactly when the loop does not
      run or its first scan meets no candidate on an unchosen face. */
  lemma {:induction false} FanOutCountsZero(hops: seq<NextHop>, inFace: FaceId, st: FaceStats, target: real,
                                            picks: seq<FaceId>, prob: real, count: nat, suppressed: bool)
    ensures FanOut(hops, inFace, st, target, picks, prob, count, suppressed).count == count <==>
            prob >= target || !FreshFrom(hops, inFace, picks, 0)
    decreases CountFresh(hops, inFace, picks, 0)
  {
    if prob < target {
      var sr := FirstScan(hops, inFace, st, picks);
      CountFreshZero(hops, inFace, picks, 0);
      if sr.best != 0 {
        CountFreshShrinks(hops, inFace, picks, sr.best, 0);
        PickIsFresh(hops, inFace, st, picks);
        PickShrinks(hops, inFace, st, picks);
        FanOutUnfold(hops, inFace, st, target, picks, prob, count, suppressed);
      }
    }
  }

  /** The suppression flag is set exactly when the loop runs and some next
      hop is suppressed for this upstream. */
  lemma {:induction false} FanOutSuppressed(hops: seq<NextHop>, inFace: FaceId, st: FaceStats, target: real,
                                            picks: seq<FaceId>, prob: real, count: nat, suppressed: bool)
    ensures FanOut(hops, inFace, st, target, picks, prob, count, suppressed).suppressed <==>
            suppressed || (prob < target && SuppressedFrom(hops, 0))
    decreases CountFresh(hops, inFace, picks, 0)
  {
    if prob < target {
      var sr := FirstScan(hops, inFace, st, picks);
      if sr.best != 0 {
        PickShrinks(hops, inFace, st, picks);
        FanOutUnfold(hops, inFace, st, target, picks, prob, count, suppressed);
        FanOutSuppressed(hops, inFace, st, target, picks + [sr.best], prob + sr.bestProb,
                         count + sr.count, suppressed || sr.suppressed);
      }
    }
  }

  /** The loop ends only once the summed probability reaches the target or
      no candidate face is left unchosen (when no candidate face has the
      reserved id 0). */
  lemma {:induction false} FanOutStops(hops: seq<NextHop>, inFace: FaceId, st: FaceStats, target: real,
                                       picks: seq<FaceId>, prob: real, count: nat, suppressed: bool)
    requires WellFormed(st) && 0 !in CandidateFaces(hops, inFace)
    ensures var r := FanOut(hops, inFace, st, target, picks, prob, count, suppressed);
            r.prob >= target || CountFresh(hops, inFace, r.picks, 0) == 0
    decreases CountFresh(hops, inFace, picks, 0)
  {
    if prob < target {
      var sr := FirstScan(hops, inFace, st, picks);
      if sr.best != 0 {
        PickShrinks(hops, inFace, st, picks);
        FanOutUnfold(hops, inFace, st, target, picks, prob, count, suppressed);
        FanOutStops(hops, inFace, st, target, picks + [sr.best], prob + sr.bestProb,
                    count + sr.count, suppressed || sr.suppressed);
      } else {
        NoPickMeansNoneFresh(hops, inFace, st, picks);
      }
    }
  }

  /** Before bootstrap every face reads as certain failure, so the summed
      probability never grows. */
  lemma {:induction false} FanOutNoGainBeforeBootstrap(hops: seq<NextHop>, inFace: FaceId, st: FaceStats, target: real,
                                                       picks: seq<FaceId>, prob: real, count: nat, suppressed: bool)
    requires !st.bootstrapped
    ensures FanOut(hops, inFace, st, target, picks, prob, count, suppressed).prob == prob
    decreases CountFresh(hops, inFace, picks, 0)
  {
    if prob < target {
      var sr := FirstScan(hops, inFace, st, picks);
      if sr.best != 0 {
        PickShrinks(hops, inFace, st, picks);
        FanOutUnfold(hops, inFace, st, target, picks, prob, count, suppressed);
        FanOutNoGainBeforeBootstrap(hops, inFace, st, target, picks + [sr.best], prob + sr.bestProb,
                                    count + sr.count, suppressed || sr.suppressed);
      }
    }
  }

  /** The fan-out of a gated interest. */
  function FanOutFor(hops: seq<NextHop>, inFace: FaceId, st: FaceStats, target: real): FanOutResult {
    FanOut(hops, inFace, st, target, [], 0.0, 0, false)
  }

  /** A gated interest goes to candidate faces only, each at most once,
      never to the reserved id 0. */
  lemma FanOutForPicks(hops: seq<NextHop>, inFace: FaceId, st: FaceStats, target: real)
    ensures var r := FanOutFor(hops, inFace, st, target);
            Distinct(r.picks) && forall f :: f in r.picks ==> f in CandidateFaces(hops, inFace) && f != 0
  {
    var r := FanOutFor(hops, inFace, st, target);
    FanOutDistinct(hops, inFace, st, target, [], 0.0, 0, false);
    FanOutAddsCandidates(hops, inFace, st, target, [], 0.0, 0, false);
    forall f | f in r.picks ensures f in CandidateFaces(hops, inFace) && f != 0 {
      var k :| 0 <= k < |r.picks| && r.picks[k] == f;
      assert r == FanOut(hops, inFace, st, target, [], 0.0, 0, false);
      assert 0 <= k;
      assert r.picks[k] in CandidateFaces(hops, inFace);
    }
  }

  /** A gated interest is Nacked with NO_ROUTE and rejected exactly when no
      next hop is a candidate and none was suppressed. */
  lemma GatedNackIff(hops: seq<NextHop>, inFace: FaceId, st: FaceStats, target: real)
    requires target > 0.0 && WellFormed(st)
    ensures var r := FanOutFor(hops, inFace, st, target);
            (r.count == 0 && !r.suppressed) <==>
            (forall j :: 0 <= j < |hops| ==> !Candidate(hops[j], inFace)) && !SuppressedFrom(hops, 0)
  {
    FanOutCountsZero(hops, inFace, st, target, [], 0.0, 0, false);
    FanOutSuppressed(hops, inFace, st, target, [], 0.0, 0, false);
  }

  /** Before a prefix is bootstrapped every face reads as certain failure,
      so the target is never reached and the interest goes to every
      candidate face, each once. */
  lemma BootstrapFloodsAllCandidates(hops: seq<NextHop>, inFace: FaceId, st: FaceStats, target: real)
    requires target > 0.0 && WellFormed(st) && !st.bootstrapped && 0 !in CandidateFaces(hops, inFace)
    ensures var r := FanOutFor(hops, inFace, st, target);
            Distinct(r.picks) && forall f :: f in r.picks <==> f in CandidateFaces(hops, inFace)
  {
    var r := FanOutFor(hops, inFace, st, target);
    FanOutForPicks(hops, inFace, st, target);
    FanOutStops(hops, inFace, st, target, [], 0.0, 0, false);
    FanOutNoGainBeforeBootstrap(hops, inFace, st, target, [], 0.0, 0, false);
    CountFreshZero(hops, inFace, r.picks, 0);
    forall f | f in CandidateFaces(hops, inFace) ensures f in r.picks {
      var j :| 0 <= j < |hops| && Candidate(hops[j], inFace) && hops[j].face == f;
      assert !FreshFrom(hops, inFace, r.picks, 0);
      assert hops[j].face in r.picks;
    }
  }

  /** Position `j` holds a candidate on a face not yet chosen. */
  predicate FreshAt(hops: seq<NextHop>, inFace: FaceId, chosen: seq<FaceId>, j: int) {
    0 <= j < |hops| && Candidate(hops[j], inFace) && hops[j].face !in chosen
  }

  /** Some position before `j` holds a fresh candidate: by then the pass has
      a best face, so it reads position `j` with the relative rate. */
  predicate FreshBefore(hops: seq<NextHop>, inFace: FaceId, chosen: seq<FaceId>, j: nat)
    requires j <= |hops|
  {
    j > 0 && (FreshAt(hops, inFace, chosen, j - 1) || FreshBefore(hops, inFace, chosen, j - 1))
  }

  lemma {:induction false} FreshBeforeIff(hops: seq<NextHop>, inFace: FaceId, chosen: seq<FaceId>, j: nat)
    requires j <= |hops|
    ensures FreshBefore(hops, inFace, chosen, j) <==> exists k :: 0 <= k < j && FreshAt(hops, inFace, chosen, k)
  {
    if j > 0 {
      FreshBeforeIff(hops, inFace, chosen, j - 1);
      if exists k :: 0 <= k < j && FreshAt(hops, inFace, chosen, k) {
        var k :| 0 <= k < j && FreshAt(hops, inFace, chosen, k);
        if k < j - 1 {
          assert exists k' :: 0 <= k' < j - 1 && FreshAt(hops, inFace, chosen, k');
        }
      }
    }
  }

  /** The success probability a pass over `chosen` reads at position `j`. */
  function ReadProb(hops: seq<NextHop>, inFace: FaceId, st: FaceStats, chosen: seq<FaceId>, j: nat): real
    requires j < |hops|
  {
    FaceProb(st, hops[j].face, FreshBefore(hops, inFace, chosen, j))
  }

  /** Position `k` is what a pass over `chosen` should pick: a fresh
      candidate whose reading no fresh candidate beats, and which every
      later fresh candidate reads strictly below (a tie goes to the later
      hop). */
  predicate BestAt(hops: seq<NextHop>, inFace: FaceId, st: FaceStats, chosen: seq<FaceId>, k: int) {
    && FreshAt(hops, inFace, chosen, k)
    && (forall m :: 0 <= m < |hops| && FreshAt(hops, inFace, chosen, m) ==>
          ReadProb(hops, inFace, st, chosen, m) <= ReadProb(hops, inFace, st, chosen, k))
    && (forall m :: k < m < |hops| && FreshAt(hops, inFace, chosen, m) ==>
          ReadProb(hops, inFace, st, chosen, m) < ReadProb(hops, inFace, st, chosen, k))
  }

  /** Face `f` is the best fresh face for a pass over `chosen`. */
  predicate BestFresh(hops: seq<NextHop>, inFace: FaceId, st: FaceStats, chosen: seq<FaceId>, f: FaceId) {
    exists k :: 0 <= k < |hops| && BestAt(hops, inFace, st, chosen, k) && hops[k].face == f
  }

  /** What the scan's `bestFaceID` and `bestFaceProb` mean after the
      positions before `i`: no face exactly when no fresh candidate was met,
      the best reading so far, and `k` the last fresh candidate reaching it. */
  predicate ScanState(hops: seq<NextHop>, inFace: FaceId, st: FaceStats, chosen: seq<FaceId>,
                      i: nat, best: FaceId, bestProb: real, k: int)
    requires i <= |hops|
  {
    && (best == 0 <==> !FreshBefore(hops, inFace, chosen, i))
    && (best == 0 ==> bestProb == 0.0)
    && (forall m :: 0 <= m < i && FreshAt(hops, inFace, chosen, m) ==> ReadProb(hops, inFace, st, chosen, m) <= bestProb)
    && (best != 0 ==>
          && 0 <= k < i && FreshAt(hops, inFace, chosen, k) && hops[k].face == best
          && ReadProb(hops, inFace, st, chosen, k) == bestProb
          && forall m :: k < m < i && FreshAt(hops, inFace, chosen, m) ==> ReadProb(hops, inFace, st, chosen, m) < bestProb)
  }

  /** Passing a position that holds no fresh candidate changes nothing. */
  lemma ScanStepSkip(hops: seq<NextHop>, inFace: FaceId, st: FaceStats, chosen: seq<FaceId>,
                     i: nat, best: FaceId, bestProb: real, k: int)
    requires i < |hops| && !FreshAt(hops, inFace, chosen, i)
    requires ScanState(hops, inFace, st, chosen, i, best, bestProb, k)
    ensures ScanState(hops, inFace, st, chosen, i + 1, best, bestProb, k)
  {
  }

  /** A fresh candidate reading at least the best so far becomes the best
      (the `>=` of the scan). */
  lemma ScanStepTake(hops: seq<NextHop>, inFace: FaceId, st: FaceStats, chosen: seq<FaceId>,
                     i: nat, best: FaceId, bestProb: real, k: int)
    requires i < |hops| && FreshAt(hops, inFace, chosen, i) && hops[i].face != 0
    requires ScanState(hops, inFace, st, chosen, i, best, bestProb, k)
    requires ReadProb(hops, inFace, st, chosen, i) >= bestProb
    ensures ScanState(hops, inFace, st, chosen, i + 1, hops[i].face, ReadProb(hops, inFace, st, chosen, i), i)
  {
  }

  /** A fresh candidate reading below the best so far leaves it in place. */
  lemma ScanStepKeep(hops: seq<NextHop>, inFace: FaceId, st: FaceStats, chosen: seq<FaceId>,
                     i: nat, best: FaceId, bestProb: real, k: int)
    requires WellFormed(st)
    requires i < |hops| && FreshAt(hops, inFace, chosen, i)
    requires ScanState(hops, inFace, st, chosen, i, best, bestProb, k)
    requires ReadProb(hops, inFace, st, chosen, i) < bestProb
    ensures ScanState(hops, inFace, st, chosen, i + 1, best, bestProb, k)
  {
  }

  /** One position of the scan: the pass from `i` continues as the pass
      from `i + 1` with the updated variables, which keep `ScanState`. */
  lemma ScanStep(hops: seq<NextHop>, inFace: FaceId, st: FaceStats, chosen: seq<FaceId>,
                 i: nat, best: FaceId, bestProb: real, count: nat, suppressed: bool, k: int)
    returns (best': FaceId, bestProb': real, count': nat, suppressed': bool, k': int)
    requires WellFormed(st) && 0 !in CandidateFaces(hops, inFace)
    requires i < |hops| && ScanState(hops, inFace, st, chosen, i, best, bestProb, k)
    ensures Scan(hops, inFace, st, chosen, i, best, bestProb, count, suppressed) ==
            Scan(hops, inFace, st, chosen, i + 1, best', bestProb', count', suppressed')
    ensures ScanState(hops, inFace, st, chosen, i + 1, best', bestProb', k')
  {
    var h := hops[i];
    best', bestProb', count', suppressed', k' := best, bestProb, count, suppressed, k;
    if h.upstream == Suppress {
      suppressed' := true;
      ScanStepSkip(hops, inFace, st, chosen, i, best, bestProb, k);
    } else if SameFaceBlocked(h, inFace) || h.violatesScope || h.face in chosen {
      ScanStepSkip(hops, inFace, st, chosen, i, best, bestProb, k);
    } else {
      assert FreshAt(hops, inFace, chosen, i);
      assert h.face in CandidateFaces(hops, inFace);
      var p := FaceProb(st, h.face, best != 0);
      assert p == ReadProb(hops, inFace, st, chosen, i);
      count' := count + 1;
      if p >= bestProb {
        best', bestProb', k' := h.face, p, i;
        ScanStepTake(hops, inFace, st, chosen, i, best, bestProb, k);
      } else {
        ScanStepKeep(hops, inFace, st, chosen, i, best, bestProb, k);
      }
    }
  }

  /** The scan keeps `ScanState` from position `i` to the end of the list;
      `last` is the position of the face it ends with. */
  lemma {:induction false} ScanKeepsState(hops: seq<NextHop>, inFace: FaceId, st: FaceStats, chosen: seq<FaceId>,
                                          i: nat, best: FaceId, bestProb: real, count: nat, suppressed: bool, k: int)
    returns (last: int)
    requires WellFormed(st) && 0 !in CandidateFaces(hops, inFace)
    requires i <= |hops| && ScanState(hops, inFace, st, chosen, i, best, bestProb, k)
    ensures var r := Scan(hops, inFace, st, chosen, i, best, bestProb, count, suppressed);
            ScanState(hops, inFace, st, chosen, |hops|, r.best, r.bestProb, last)
    decreases |hops| - i
  {
    last := k;
    if i < |hops| {
      var best', bestProb', count', suppressed', k' := ScanStep(hops, inFace, st, chosen, i, best, bestProb, count, suppressed, k);
      last := ScanKeepsState(hops, inFace, st, chosen, i + 1, best', bestProb', count', suppressed', k');
    }
  }

  /** One pass finds no face exactly when no candidate face is unchosen;
      otherwise it picks the best fresh face, and `bestFaceProb` is that
      face's reading, at least every fresh candidate's reading. */
  lemma FirstScanPicksBest(hops: seq<NextHop>, inFace: FaceId, st: FaceStats, chosen: seq<FaceId>)
    requires WellFormed(st) && 0 !in CandidateFaces(hops, inFace)
    ensures var r := FirstScan(hops, inFace, st, chosen);
            && (r.best == 0 <==> !FreshFrom(hops, inFace, chosen, 0))
            && (forall m :: 0 <= m < |hops| && FreshAt(hops, inFace, chosen, m) ==> ReadProb(hops, inFace, st, chosen, m) <= r.bestProb)
            && (r.best != 0 ==> exists k :: 0 <= k < |hops| && BestAt(hops, inFace, st, chosen, k) &&
                                           hops[k].face == r.best && ReadProb(hops, inFace, st, chosen, k) == r.bestProb)
  {
    var r := FirstScan(hops, inFace, st, chosen);
    var last := ScanKeepsState(hops, inFace, st, chosen, 0, 0, 0.0, 0, false, 0);
    FreshBeforeIff(hops, inFace, chosen, |hops|);
    assert FreshBefore(hops, inFace, chosen, |hops|) <==> FreshFrom(hops, inFace, chosen, 0) by {
      if FreshFrom(hops, inFace, chosen, 0) {
        var j :| 0 <= j < |hops| && Candidate(hops[j], inFace) && hops[j].face !in chosen;
        assert FreshAt(hops, inFace, chosen, j);
      }
    }
    if r.best != 0 {
      assert BestAt(hops, inFace, st, chosen, last);
    }
  }

  /** The face one pass picks is the best fresh face. */
  lemma FirstScanBestFresh(hops: seq<NextHop>, inFace: FaceId, st: FaceStats, chosen: seq<FaceId>)
    requires WellFormed(st) && 0 !in CandidateFaces(hops, inFace)
    ensures FirstScan(hops, inFace, st, chosen).best != 0 ==> BestFresh(hops, inFace, st, chosen, FirstScan(hops, inFace, st, chosen).best)
  {
    FirstScanPicksBest(hops, inFace, st, chosen);
  }

  /** The faces of `rest`, in order, are each the face a pass finds over
      `chosen` and the faces of `rest` before it, never the reserved id 0. */
  predicate PicksFromScans(hops: seq<NextHop>, inFace: FaceId, st: FaceStats, chosen: seq<FaceId>, rest: seq<FaceId>)
    decreases |rest|
  {
    |rest| == 0 ||
    (rest[0] == FirstScan(hops, inFace, st, chosen).best && rest[0] != 0 &&
     PicksFromScans(hops, inFace, st, chosen + [rest[0]], rest[1..]))
  }

  /** The faces of `all` after its prefix `picks` come from scans. */
  predicate ScansAfter(hops: seq<NextHop>, inFace: FaceId, st: FaceStats, picks: seq<FaceId>, all: seq<FaceId>) {
    |picks| <= |all| && PicksFromScans(hops, inFace, st, picks, all[|picks|..])
  }

  /** A face a pass over `chosen` finds may head the picks after `chosen`. */
  lemma PicksFromScansCons(hops: seq<NextHop>, inFace: FaceId, st: FaceStats, chosen: seq<FaceId>, f: FaceId, rest: seq<FaceId>)
    requires f == FirstScan(hops, inFace, st, chosen).best && f != 0
    requires PicksFromScans(hops, inFace, st, chosen + [f], rest)
    ensures PicksFromScans(hops, inFace, st, chosen, [f] + rest)
  {
    assert ([f] + rest)[1..] == rest;
  }

  /** The faces a round that finds a face ends with are those of the rest of
      the loop. */
  lemma FanOutPicksUnfold(hops: seq<NextHop>, inFace: FaceId, st: FaceStats, target: real,
                          picks: seq<FaceId>, prob: real, count: nat, suppressed: bool)
    requires prob < target && FirstScan(hops, inFace, st, picks).best != 0
    ensures var sr := FirstScan(hops, inFace, st, picks);
            FanOut(hops, inFace, st, target, picks, prob, count, suppressed).picks ==
            FanOut(hops, inFace, st, target, picks + [sr.best], prob + sr.bestProb, count + sr.count, suppressed || sr.suppressed).picks
  {
    FanOutUnfold(hops, inFace, st, target, picks, prob, count, suppressed);
  }

  /** Picks that start with `picks` and a face a pass over `picks` finds,
      and whose remaining faces come from scans, come from scans after
      `picks`. */
  lemma PicksFromScansExtend(hops: seq<NextHop>, inFace: FaceId, st: FaceStats, picks: seq<FaceId>, f: FaceId, all: seq<FaceId>)
    requires f == FirstScan(hops, inFace, st, picks).best && f != 0
    requires picks + [f] <= all
    requires ScansAfter(hops, inFace, st, picks + [f], all)
    ensures ScansAfter(hops, inFace, st, picks, all)
  {
    assert all[|picks|..] == [f] + all[|picks + [f]|..];
    PicksFromScansCons(hops, inFace, st, picks, f, all[|picks + [f]|..]);
  }

  /** A loop that has met its target or found no face adds nothing more. */
  lemma FanOutEndKeepsPicks(hops: seq<NextHop>, inFace: FaceId, st: FaceStats, target: real,
                            picks: seq<FaceId>, prob: real, count: nat, suppressed: bool)
    returns (r: FanOutResult)
    requires prob >= target || FirstScan(hops, inFace, st, picks).best == 0
    ensures r == FanOut(hops, inFace, st, target, picks, prob, count, suppressed)
    ensures r.picks == picks && ScansAfter(hops, inFace, st, picks, r.picks)
  {
    r := FanOut(hops, inFace, st, target, picks, prob, count, suppressed);
    assert r.picks[|picks|..] == [];
  }

  /** A round that finds a face: the rest of the loop has the property, and
      the found face extends it. */
  lemma {:induction false} FanOutStepScans(hops: seq<NextHop>, inFace: FaceId, st: FaceStats, target: real,
                                           picks: seq<FaceId>, prob: real, count: nat, suppressed: bool)
    returns (r: FanOutResult)
    requires prob < target && FirstScan(hops, inFace, st, picks).best != 0
    ensures r == FanOut(hops, inFace, st, target, picks, prob, count, suppressed)
    ensures ScansAfter(hops, inFace, st, picks, r.picks)
    decreases CountFresh(hops, inFace, picks, 0), 0
  {
    var sr := FirstScan(hops, inFace, st, picks);
    PickShrinks(hops, inFace, st, picks);
    r := FanOutPicksAreScans(hops, inFace, st, target, picks + [sr.best], prob + sr.bestProb, count + sr.count, suppressed || sr.suppressed);
    FanOutUnfold(hops, inFace, st, target, picks, prob, count, suppressed);
    PicksFromScansExtend(hops, inFace, st, picks, sr.best, r.picks);
  }

  /** Every round of the loop adds the face a pass over the faces chosen
      before it finds. */
  lemma {:induction false} FanOutPicksAreScans(hops: seq<NextHop>, inFace: FaceId, st: FaceStats, target: real,
                                               picks: seq<FaceId>, prob: real, count: nat, suppressed: bool)
    returns (r: FanOutResult)
    ensures r == FanOut(hops, inFace, st, target, picks, prob, count, suppressed)
    ensures ScansAfter(hops, inFace, st, picks, r.picks)
    decreases CountFresh(hops, inFace, picks, 0), 1
  {
    if prob < target && FirstScan(hops, inFace, st, picks).best != 0 {
      r := FanOutStepScans(hops, inFace, st, target, picks, prob, count, suppressed);
    } else {
      r := FanOutEndKeepsPicks(hops, inFace, st, target, picks, prob, count, suppressed);
    }
  }

  /** Picks that each come from a pass over the faces before them are each
      the best fresh face at their round. */
  lemma {:induction false} ScannedPicksAreBest(hops: seq<NextHop>, inFace: FaceId, st: FaceStats,
                                               chosen: seq<FaceId>, rest: seq<FaceId>)
    requires WellFormed(st) && 0 !in CandidateFaces(hops, inFace)
    requires PicksFromScans(hops, inFace, st, chosen, rest)
    ensures forall m :: 0 <= m < |rest| ==> BestFresh(hops, inFace, st, chosen + rest[..m], rest[m])
    decreases |rest|
  {
    if |rest| > 0 {
      FirstScanBestFresh(hops, inFace, st, chosen);
      ScannedPicksAreBest(hops, inFace, st, chosen + [rest[0]], rest[1..]);
      forall m | 0 <= m < |rest| ensures BestFresh(hops, inFace, st, chosen + rest[..m], rest[m]) {
        if m == 0 {
          assert chosen + rest[..m] == chosen;
        } else {
          assert chosen + rest[..m] == (chosen + [rest[0]]) + rest[1..][..m - 1];
          assert rest[m] == rest[1..][m - 1];
        }
      }
    }
  }

  /** The faces a gated interest is queued on, in order: each the best fresh
      face given the faces before it. */
  lemma FanOutForPicksBest(hops: seq<NextHop>, inFace: FaceId, st: FaceStats, target: real)
    requires WellFormed(st) && 0 !in CandidateFaces(hops, inFace)
    ensures var r := FanOutFor(hops, inFace, st, target);
            forall n :: 0 <= n < |r.picks| ==> BestFresh(hops, inFace, st, r.picks[..n], r.picks[n])
  {
    var r := FanOutPicksAreScans(hops, inFace, st, target, [], 0.0, 0, false);
    ScannedPicksAreBest(hops, inFace, st, [], r.picks);
    forall n | 0 <= n < |r.picks| ensures BestFresh(hops, inFace, st, r.picks[..n], r.picks[n]) {
      assert [] + r.picks[..n] == r.picks[..n];
    }
  }

  /** The strategy's state: scheduling state and loss statistics. */
  datatype State = State(sched: Sched, stats: StatsTable)

  ghost predicate Valid(s: State) {
    Scheduler.Valid(s.sched) && TableWellFormed(s.stats)
  }

  /** The outcome of one trigger: the new state, the packets the drain passes
      handed to the forwarder in order, and whether the interest was Nacked
      with NO_ROUTE and its entry rejected (which happens after the first
      drain pass). */
  datatype Reply = Reply(state: State, sent: seq<Sent>, nacked: bool)

  /** Looks up or creates the prefix's statistics and counts one more send. */
  function CountedStats(stats: StatsTable, key: Name, hops: seq<NextHop>, frontFace: FaceId): (r: StatsTable)
    requires TableWellFormed(stats)
    ensures TableWellFormed(r) && key in r && r.Keys == stats.Keys + {key}
    ensures key in stats ==> r[key].totalSent == stats[key].totalSent + 1
    ensures key !in stats ==> r[key].totalSent == 1 && !r[key].bootstrapped
    ensures forall k :: k in stats && k != key ==> r[k] == stats[k]
  {
    var base := if key in stats then stats[key] else Initialize(hops, frontFace);
    stats[key := CountSend(base)]
  }

  /** Queues `item` on face `f` and drains. */
  function SendVia(sched: Sched, f: FaceId, item: QueueItem, level: int, nowMs: nat, gate: Gate): (r: Pass)
    requires Scheduler.Valid(sched)
    ensures Scheduler.Valid(r.sched)
    ensures r.sched.txQueues.Keys == sched.txQueues.Keys + {f}
    ensures Delivered(sched, r.sched, r.sent, f, Accepted(sched, f, item, level, nowMs))
    ensures forall g :: g in sched.txQueues && g != f ==> Delivered(sched, r.sched, r.sent, g, 0)
  {
    var p := PrioritySend(EnqueueAt(sched, f, item, level, nowMs), gate);
    EnqueueAtDelivered(sched, f, item, level, nowMs, p);
    p
  }

  /** Drains without queueing anything. */
  function DrainOnly(sched: Sched, gate: Gate): (r: Pass)
    requires Scheduler.Valid(sched)
    ensures Scheduler.Valid(r.sched)
    ensures r.sched.txQueues.Keys == sched.txQueues.Keys
    ensures forall g :: g in sched.txQueues ==> Delivered(sched, r.sched, r.sent, g, 0)
  {
    var p := PrioritySend(sched, gate);
    DrainDelivered(sched, p);
    p
  }

  /** The best-route path both strategies take for a best-effort interest:
      queue the interest on the chosen face and drain; a retransmission
      with no eligible hop only drains; a suppressed interest and a
      NO_ROUTE Nack leave the queues alone. The chosen face ends with one
      more packet, queued there or handed to the forwarder through it,
      exactly when its queue set accepted the interest; every other face
      ends with what it had. */
  function ForwardChoice(sched: Sched, c: Choice, item: QueueItem, level: int, nowMs: nat, gate: Gate): (r: Pass)
    requires Scheduler.Valid(sched)
    ensures Scheduler.Valid(r.sched)
    ensures r.sched.txQueues.Keys == sched.txQueues.Keys + (if c.SendTo? then {c.face} else {})
    ensures (c.Suppressed? || c.NoRoute?) ==> r.sched == sched && r.sent == []
    ensures c.SendTo? ==> Delivered(sched, r.sched, r.sent, c.face, Accepted(sched, c.face, item.(outFace := Some(c.face)), level, nowMs))
    ensures forall g :: g in sched.txQueues && !(c.SendTo? && g == c.face) ==> Delivered(sched, r.sched, r.sent, g, 0)
  {
    match c
    case SendTo(f) => SendVia(sched, f, item.(outFace := Some(f)), level, nowMs, gate)
    case NoRetryHop => DrainOnly(sched, gate)
    case _ =>
      var p := Pass(sched, [], false);
      assert PacketsConserved(sched, p);
      DrainDelivered(sched, p);
      p
  }

  /** `afterReceiveInterest`. `entry` is the per-entry suppression verdict,
      `frontFace` the face of the entry's first in-record (the one
      `initialize` excludes). Every drain pass reads the device queues
      afresh: `devices` is the occupancy of every net-device face when the
      first pass starts, `devicesAgain` when the second pass of a gated
      interest starts. */
  function OnInterest(s: State, name: Name, inFace: FaceId, hops: seq<NextHop>, entry: RetxDecision,
                      frontFace: FaceId, devices: map<FaceId, nat>, devicesAgain: map<FaceId, nat>,
                      now: int, nowMs: nat, wire: seq<Byte>, pe: PitRef): (r: Reply)
    requires Valid(s)
    ensures Valid(r.state)
    ensures Classify(name).level != BEST_EFFORT_LEVEL ==>
              StatsKey(name) in r.state.stats &&
              (r.nacked <==> (forall j :: 0 <= j < |hops| ==> !Candidate(hops[j], inFace)) && !SuppressedFrom(hops, 0))
    ensures Classify(name).level == BEST_EFFORT_LEVEL ==>
              r.state.stats == s.stats &&
              (r.nacked <==> entry == New && !AnyEligible(hops, inFace, true))
    ensures Classify(name).level == BEST_EFFORT_LEVEL && entry == Suppress ==> r == Reply(s, [], false)
    ensures Classify(name).level != BEST_EFFORT_LEVEL ==>
              var st := CountedStats(s.stats, StatsKey(name), hops, frontFace)[StatsKey(name)];
              forall f :: f in r.state.sched.txQueues <==>
                          f in s.sched.txQueues || f in FanOutFor(hops, inFace, st, Classify(name).target).picks
    ensures Classify(name).level == BEST_EFFORT_LEVEL ==>
              var c := BestRouteChoice(hops, inFace, entry, now, true);
              r.state.sched.txQueues.Keys == s.sched.txQueues.Keys + (if c.SendTo? then {c.face} else {})
  {
    var cls := Classify(name);
    var item := InterestItem(inFace, wire, pe);
    var gate := Occupancy(devices);
    if cls.level != BEST_EFFORT_LEVEL then
      var key := StatsKey(name);
      var stats := CountedStats(s.stats, key, hops, frontFace);
      var fo := FanOutFor(hops, inFace, stats[key], cls.target);
      GatedNackIff(hops, inFace, stats[key], cls.target);
      var p1 := PrioritySend(EnqueueEach(s.sched, fo.picks, item, cls.level, nowMs), gate);
      var nacked := fo.count == 0 && !fo.suppressed;
      if entry == Suppress then Reply(State(p1.sched, stats), p1.sent, nacked)
      else
        var p2 := PrioritySend(p1.sched, Occupancy(devicesAgain));
        Reply(State(p2.sched, stats), p1.sent + p2.sent, nacked)
    else
      var c := BestRouteChoice(hops, inFace, entry, now, true);
      var p := ForwardChoice(s.sched, c, item, cls.level, nowMs, gate);
      Reply(State(p.sched, s.stats), p.sent, c.NoRoute?)
  }

  /** A gated interest is queued on exactly the faces the fan-out picks,
      each the best fresh face given the faces picked before it, read from
      the prefix's statistics after this send is counted. */
  lemma GatedInterestGoesToBestFaces(s: State, name: Name, inFace: FaceId, hops: seq<NextHop>, entry: RetxDecision,
                                     frontFace: FaceId, devices: map<FaceId, nat>, devicesAgain: map<FaceId, nat>,
                                     now: int, nowMs: nat, wire: seq<Byte>, pe: PitRef)
    requires Valid(s) && Classify(name).level != BEST_EFFORT_LEVEL && 0 !in CandidateFaces(hops, inFace)
    ensures var st := CountedStats(s.stats, StatsKey(name), hops, frontFace)[StatsKey(name)];
            var picks := FanOutFor(hops, inFace, st, Classify(name).target).picks;
            var r := OnInterest(s, name, inFace, hops, entry, frontFace, devices, devicesAgain, now, nowMs, wire, pe);
            && (forall f :: f in r.state.sched.txQueues <==> f in s.sched.txQueues || f in picks)
            && (forall n :: 0 <= n < |picks| ==> BestFresh(hops, inFace, st, picks[..n], picks[n]))
  {
    var st := CountedStats(s.stats, StatsKey(name), hops, frontFace)[StatsKey(name)];
    assert WellFormed(st);
    FanOutForPicksBest(hops, inFace, st, Classify(name).target);
  }

  /** The interest item a trigger queues, before its out-face is set. */
  function InterestItem(inFace: FaceId, wire: seq<Byte>, pe: PitRef): (item: QueueItem)
    ensures item.kind == Interest && item.inFace == Some(inFace) && item.wire == wire
  {
    QueueItem(wire, Interest, Some(pe), Some(inFace), None)
  }

  /** Where a gated interest goes, packet by packet: each face the fan-out
      picks ends with one more packet, queued there or handed to the
      forwarder through it, exactly when its queue set accepted the
      interest; every other face ends with what it had. */
  lemma GatedInterestDelivered(s: State, name: Name, inFace: FaceId, hops: seq<NextHop>, entry: RetxDecision,
                               frontFace: FaceId, devices: map<FaceId, nat>, devicesAgain: map<FaceId, nat>,
                               now: int, nowMs: nat, wire: seq<Byte>, pe: PitRef)
    requires Valid(s) && Classify(name).level != BEST_EFFORT_LEVEL
    ensures var st := CountedStats(s.stats, StatsKey(name), hops, frontFace)[StatsKey(name)];
            var picks := FanOutFor(hops, inFace, st, Classify(name).target).picks;
            var r := OnInterest(s, name, inFace, hops, entry, frontFace, devices, devicesAgain, now, nowMs, wire, pe);
            && (forall f :: f in picks ==>
                  Delivered(s.sched, r.state.sched, r.sent, f, Accepted(s.sched, f, InterestItem(inFace, wire, pe).(outFace := Some(f)), Classify(name).level, nowMs)))
            && (forall g :: g in s.sched.txQueues && g !in picks ==> Delivered(s.sched, r.state.sched, r.sent, g, 0))
  {
    var cls, key := Classify(name), StatsKey(name);
    var stats := CountedStats(s.stats, key, hops, frontFace);
    var picks := FanOutFor(hops, inFace, stats[key], cls.target).picks;
    FanOutForPicks(hops, inFace, stats[key], cls.target);
    var item := InterestItem(inFace, wire, pe);
    var e := EnqueueEach(s.sched, picks, item, cls.level, nowMs);
    var p1 := PrioritySend(e, Occupancy(devices));
    if entry == Suppress {
      assert PacketsConserved(e, Pass(p1.sched, p1.sent, false));
      EnqueueEachDelivered(s.sched, picks, item, cls.level, nowMs, Pass(p1.sched, p1.sent, false));
    } else {
      var p2 := PrioritySend(p1.sched, Occupancy(devicesAgain));
      PassesChain(e, p1, p2);
      EnqueueEachDelivered(s.sched, picks, item, cls.level, nowMs, Pass(p2.sched, p1.sent + p2.sent, false));
    }
  }

  /** Where a best-effort interest goes, packet by packet: the best-route
      face, if any, ends with one more packet, queued there or handed to the
      forwarder through it, exactly when its queue set accepted the
      interest; every other face ends with what it had. */
  lemma BestEffortInterestDelivered(s: State, name: Name, inFace: FaceId, hops: seq<NextHop>, entry: RetxDecision,
                                    frontFace: FaceId, devices: map<FaceId, nat>, devicesAgain: map<FaceId, nat>,
                                    now: int, nowMs: nat, wire: seq<Byte>, pe: PitRef)
    requires Valid(s) && Classify(name).level == BEST_EFFORT_LEVEL
    ensures var c := BestRouteChoice(hops, inFace, entry, now, true);
            var r := OnInterest(s, name, inFace, hops, entry, frontFace, devices, devicesAgain, now, nowMs, wire, pe);
            && (c.SendTo? ==>
                  Delivered(s.sched, r.state.sched, r.sent, c.face, Accepted(s.sched, c.face, InterestItem(inFace, wire, pe).(outFace := Some(c.face)), BEST_EFFORT_LEVEL, nowMs)))
            && (forall g :: g in s.sched.txQueues && !(c.SendTo? && g == c.face) ==> Delivered(s.sched, r.state.sched, r.sent, g, 0))
  {
  }

  /** Queues the data once on every pending downstream and drains. */
  function ForwardData(sched: Sched, dataName: Name, inFace: FaceId, inRecords: seq<InRecord>,
                       devices: map<FaceId, nat>, now: int, nowMs: nat, wire: seq<Byte>, pe: PitRef): (r: Pass)
    requires Scheduler.Valid(sched)
    ensures Scheduler.Valid(r.sched)
    ensures forall f :: f in r.sched.txQueues <==> f in sched.txQueues || HasDownstream(inRecords, inFace, now, f)
  {
    var item := DataItem(inFace, wire, pe);
    var downs := PendingDownstreams(inRecords, inFace, now);
    PrioritySend(EnqueueEach(sched, downs, item, DataLevel(dataName), nowMs), Occupancy(devices))
  }

  /** The data item a trigger queues, before its out-face is set. */
  function DataItem(inFace: FaceId, wire: seq<Byte>, pe: PitRef): (item: QueueItem)
    ensures item.kind == Data && item.inFace == Some(inFace) && item.wire == wire
  {
    QueueItem(wire, Data, Some(pe), Some(inFace), None)
  }

  /** Where the data goes, packet by packet: each pending downstream ends
      with one more packet, queued there or handed to the forwarder through
      it, exactly when its queue set accepted the data; every other face
      ends with what it had. */
  lemma DataDelivered(sched: Sched, dataName: Name, inFace: FaceId, inRecords: seq<InRecord>,
                      devices: map<FaceId, nat>, now: int, nowMs: nat, wire: seq<Byte>, pe: PitRef)
    requires Scheduler.Valid(sched)
    ensures var r := ForwardData(sched, dataName, inFace, inRecords, devices, now, nowMs, wire, pe);
            && (forall f :: HasDownstream(inRecords, inFace, now, f) ==>
                  Delivered(sched, r.sched, r.sent, f, Accepted(sched, f, DataItem(inFace, wire, pe).(outFace := Some(f)), DataLevel(dataName), nowMs)))
            && (forall g :: g in sched.txQueues && !HasDownstream(inRecords, inFace, now, g) ==> Delivered(sched, r.sched, r.sent, g, 0))
  {
    var item := DataItem(inFace, wire, pe);
    var downs := PendingDownstreams(inRecords, inFace, now);
    assert Distinct(downs);
    var p := PrioritySend(EnqueueEach(sched, downs, item, DataLevel(dataName), nowMs), Occupancy(devices));
    EnqueueEachDelivered(sched, downs, item, DataLevel(dataName), nowMs, p);
  }

  /** `afterReceiveData` together with `beforeSatisfyInterest`, AS WRITTEN:
      the satisfy update goes to the entry of the data name minus two
      components, then the data is queued once on every pending downstream
      and drained. */
  function OnData(s: State, dataName: Name, inFace: FaceId, outFaces: seq<FaceId>,
                  inRecords: seq<InRecord>, devices: map<FaceId, nat>, now: int, nowMs: nat,
                  wire: seq<Byte>, pe: PitRef): (r: Reply)
    requires Valid(s)
    ensures Valid(r.state) && !r.nacked
    ensures r.state.stats.Keys == s.stats.Keys
    ensures forall k :: k in s.stats && k != StatsKeyAsWritten(dataName) ==> r.state.stats[k] == s.stats[k]
    ensures StatsKeyAsWritten(dataName) in s.stats ==>
              var before, after := s.stats[StatsKeyAsWritten(dataName)], r.state.stats[StatsKeyAsWritten(dataName)];
              && Rate(after.abs, inFace) == Decay(Rate(before.abs, inFace))
              && Rate(after.rel, inFace) == Decay(Rate(before.rel, inFace))
              && (forall f :: f in outFaces && f != inFace ==> TowardOne(Rate(before.abs, f)) <= Rate(after.abs, f))
              && (Distinct(outFaces) ==> forall f :: f in outFaces && f != inFace ==> Rate(after.abs, f) == TowardOne(Rate(before.abs, f)))
    ensures |dataName| >= 2 && StatsKey(dataName) in s.stats ==>
              r.state.stats[StatsKey(dataName)] == s.stats[StatsKey(dataName)]
    ensures forall f :: f in r.state.sched.txQueues <==>
              f in s.sched.txQueues || HasDownstream(inRecords, inFace, now, f)
  {
    var stats := OnSatisfyAsWritten(s.stats, dataName, inFace, outFaces);
    SatisfyAsWrittenMissesOwnEntry(s.stats, dataName, inFace, outFaces);
    var p := ForwardData(s.sched, dataName, inFace, inRecords, devices, now, nowMs, wire, pe);
    Reply(State(p.sched, stats), p.sent, false)
  }

  /** `afterReceiveData` with the corrected satisfy key: the entry the
      interest's forwarding read is the one credited and charged. */
  function OnDataCorrected(s: State, pitName: Name, dataName: Name, inFace: FaceId, outFaces: seq<FaceId>,
                           inRecords: seq<InRecord>, devices: map<FaceId, nat>, now: int, nowMs: nat,
                           wire: seq<Byte>, pe: PitRef): (r: Reply)
    requires Valid(s)
    ensures Valid(r.state) && !r.nacked
    ensures r.state.stats == LossEstimator.OnSatisfyCorrected(s.stats, pitName, inFace, outFaces)
    ensures forall f :: f in r.state.sched.txQueues <==>
              f in s.sched.txQueues || HasDownstream(inRecords, inFace, now, f)
  {
    var stats := LossEstimator.OnSatisfyCorrected(s.stats, pitName, inFace, outFaces);
    UpdatesKeepRatesProbabilities(s.stats, pitName, inFace, outFaces);
    var p := ForwardData(s.sched, dataName, inFace, inRecords, devices, now, nowMs, wire, pe);
    Reply(State(p.sched, stats), p.sent, false)
  }

  /** `beforeExpirePendingInterest` AS WRITTEN: under the entry of the name
      minus two components, every upstream's absolute loss rate becomes a
      loss step applied to its relative rate, which is left as it was.
      Nothing is sent. */
  function OnExpire(s: State, pitName: Name, outFaces: seq<FaceId>): (r: State)
    requires Valid(s)
    ensures Valid(r) && r.sched == s.sched
    ensures r.stats.Keys == s.stats.Keys
    ensures forall k :: k in s.stats && k != StatsKeyAsWritten(pitName) ==> r.stats[k] == s.stats[k]
    ensures StatsKeyAsWritten(pitName) in s.stats ==>
              var before, after := s.stats[StatsKeyAsWritten(pitName)], r.stats[StatsKeyAsWritten(pitName)];
              && after.rel == before.rel
              && forall f :: f in outFaces ==> Rate(after.abs, f) == TowardOne(Rate(before.rel, f))
    ensures |pitName| >= 2 && StatsKey(pitName) in s.stats ==>
              r.stats[StatsKey(pitName)] == s.stats[StatsKey(pitName)]
  {
    ExpireAsWrittenMissesOwnEntry(s.stats, pitName, outFaces);
    State(s.sched, OnExpireAsWritten(s.stats, pitName, outFaces))
  }

  /** As written, an expiry, which is a loss on every upstream, can lower a
      loss estimate: the face at loss 1 with relative loss 0 of the entry
      `/a` drops to 0.833 when `/a/typeI/x` expires. */
  lemma ExpireHandlerCanLowerLoss(f: FaceId)
    ensures var st := FaceStats(map[f := 1.0], map[f := 0.0], true, 4);
            var s := State(NewSched(), map[["a"] := st]);
            var r := OnExpire(s, ["a", "typeI", "x"], [f]);
            Valid(s) && Rate(r.stats[["a"]].abs, f) == 0.833 && Rate(r.stats[["a"]].abs, f) < Rate(st.abs, f)
  {
    var st := FaceStats(map[f := 1.0], map[f := 0.0], true, 4);
    var s := State(NewSched(), map[["a"] := st]);
    assert WellFormed(st);
    assert StatsKeyAsWritten(["a", "typeI", "x"]) == ["a"];
    ExpireAsWrittenCanLowerLoss(f);
  }

  /** `beforeExpirePendingInterest` with the corrected key and update:
      every upstream of the expiring entry is charged a loss on both rates.
      Nothing is sent. */
  function OnExpireCorrected(s: State, pitName: Name, outFaces: seq<FaceId>): (r: State)
    requires Valid(s)
    ensures Valid(r) && r.sched == s.sched
    ensures r.stats.Keys == s.stats.Keys
    ensures StatsKey(pitName) in s.stats ==> forall f :: f in outFaces ==>
              Rate(s.stats[StatsKey(pitName)].abs, f) <= Rate(r.stats[StatsKey(pitName)].abs, f) &&
              Rate(s.stats[StatsKey(pitName)].rel, f) <= Rate(r.stats[StatsKey(pitName)].rel, f)
    ensures StatsKey(pitName) in s.stats && Distinct(outFaces) ==> forall f :: f in outFaces ==>
              Rate(r.stats[StatsKey(pitName)].abs, f) == TowardOne(Rate(s.stats[StatsKey(pitName)].abs, f)) &&
              Rate(r.stats[StatsKey(pitName)].rel, f) == TowardOne(Rate(s.stats[StatsKey(pitName)].rel, f))
  {
    UpdatesKeepRatesProbabilities(s.stats, pitName, 0, outFaces);
    State(s.sched, LossEstimator.OnExpireCorrected(s.stats, pitName, outFaces))
  }

  /** A refill tick of one class bucket, followed by the drain it signals. */
  function OnTokenTick(s: State, c: QueueClass, devices: map<FaceId, nat>): (r: Reply)
    requires Valid(s)
    ensures Valid(r.state) && r.state.stats == s.stats && !r.nacked
    ensures PacketsConserved(s.sched, Pass(r.state.sched, r.sent, false))
  {
    var p := TokenTick(s.sched, c, Occupancy(devices));
    Reply(State(p.sched, s.stats), p.sent, false)
  }
}
