/** `QosStrategy`, the original strategy that QosStrategy2 grew from: the two
    gated classes are multicast to every usable next hop, the third class is
    not distinguished from best effort, and the drain pass has no device
    occupancy bound. It keeps no loss statistics. */
module QosStrategyOrg {
  import opened Wrappers
  import opened Names
  import opened QosQueue
  import opened Scheduler
  import opened NextHops
  import QosStrategy

  /** A hop the multicast loop sends to; with `forwardOnly`, also one whose
      upstream verdict is `Forward`, for which the loop widens the
      retransmission interval of the out-record. */
  predicate Selected(h: NextHop, inFace: FaceId, forwardOnly: bool) {
    Candidate(h, inFace) && (forwardOnly ==> h.upstream == Forward)
  }

  /** The faces of the selected hops, in next-hop order, one entry per hop. */
  function FacesOf(hops: seq<NextHop>, inFace: FaceId, forwardOnly: bool): (r: seq<FaceId>)
    ensures |r| <= |hops|
    ensures forall f :: f in r <==>
              exists j :: 0 <= j < |hops| && Selected(hops[j], inFace, forwardOnly) && hops[j].face == f
    ensures |r| == 0 <==> forall j :: 0 <= j < |hops| ==> !Selected(hops[j], inFace, forwardOnly)
    decreases |hops|
  {
    if |hops| == 0 then []
    else
      var rest := FacesOf(hops[1..], inFace, forwardOnly);
      var head := if Selected(hops[0], inFace, forwardOnly) then [hops[0].face] else [];
      forall f ensures (exists j :: 0 <= j < |hops| && Selected(hops[j], inFace, forwardOnly) && hops[j].face == f) <==>
                       f in head || exists j :: 0 <= j < |hops| - 1 && Selected(hops[1..][j], inFace, forwardOnly) && hops[1..][j].face == f
      {
        if exists j :: 0 <= j < |hops| && Selected(hops[j], inFace, forwardOnly) && hops[j].face == f {
          var j :| 0 <= j < |hops| && Selected(hops[j], inFace, forwardOnly) && hops[j].face == f;
          if j > 0 { assert hops[1..][j - 1] == hops[j]; }
        }
        if exists j :: 0 <= j < |hops| - 1 && Selected(hops[1..][j], inFace, forwardOnly) && hops[1..][j].face == f {
          var j :| 0 <= j < |hops| - 1 && Selected(hops[1..][j], inFace, forwardOnly) && hops[1..][j].face == f;
          assert hops[j + 1] == hops[1..][j];
        }
      }
      assert (forall j :: 0 <= j < |hops| ==> !Selected(hops[j], inFace, forwardOnly)) <==>
             !Selected(hops[0], inFace, forwardOnly) && forall j :: 0 <= j < |hops| - 1 ==> !Selected(hops[1..][j], inFace, forwardOnly) by {
        forall j | 0 < j < |hops| ensures hops[j] == hops[1..][j - 1] { }
      }
      head + rest
  }

  /** The multicast targets are exactly the candidate faces. */
  lemma MulticastReachesCandidates(hops: seq<NextHop>, inFace: FaceId)
    ensures forall f :: f in FacesOf(hops, inFace, false) <==> f in CandidateFaces(hops, inFace)
  {
  }

  /** The outcome of one trigger: the new scheduling state, what the drain
      passed to the forwarder, whether the interest was Nacked with NO_ROUTE
      and rejected, and the faces whose out-record had its retransmission
      interval widened. */
  datatype Reply = Reply(sched: Sched, sent: seq<Sent>, nacked: bool, widened: seq<FaceId>)

  /** `QosStrategy::afterReceiveInterest`. `entry` is the per-entry
      suppression verdict; the same interest level is used for interests and
      data. */
  function OnInterest(s: Sched, name: Name, inFace: FaceId, hops: seq<NextHop>, entry: RetxDecision,
                      now: int, nowMs: nat, wire: seq<Byte>, pe: PitRef): (r: Reply)
    requires Valid(s)
    ensures Valid(r.sched)
    ensures QosStrategy.DataLevel(name) != QosStrategy.BEST_EFFORT_LEVEL ==>
              && (r.nacked <==> (forall j :: 0 <= j < |hops| ==> !Candidate(hops[j], inFace)) && !SuppressedFrom(hops, 0))
              && (forall f :: f in r.sched.txQueues <==> f in s.txQueues || f in CandidateFaces(hops, inFace))
              && (forall f :: f in r.widened <==>
                    exists j :: 0 <= j < |hops| && Candidate(hops[j], inFace) && hops[j].upstream == Forward && hops[j].face == f)
              && (entry == Suppress ==> r.sent == [])
    ensures QosStrategy.DataLevel(name) == QosStrategy.BEST_EFFORT_LEVEL ==>
              && (r.nacked <==> entry == New && !AnyEligible(hops, inFace, false))
              && r.widened == []
              && (entry == Suppress ==> r == Reply(s, [], false, []))
              && var c := BestRouteChoice(hops, inFace, entry, now, false);
                 r.sched.txQueues.Keys == s.txQueues.Keys + (if c.SendTo? then {c.face} else {})
  {
    var level := QosStrategy.DataLevel(name);
    var item := QosStrategy.InterestItem(inFace, wire, pe);
    if level != QosStrategy.BEST_EFFORT_LEVEL then
      var faces := FacesOf(hops, inFace, false);
      MulticastReachesCandidates(hops, inFace);
      var queued := EnqueueEach(s, faces, item, level, nowMs);
      var nacked := |faces| == 0 && !SuppressedFrom(hops, 0);
      var widened := FacesOf(hops, inFace, true);
      if entry == Suppress then Reply(queued, [], nacked, widened)
      else
        var p := PrioritySend(queued, Unbounded);
        Reply(p.sched, p.sent, nacked, widened)
    else
      var c := BestRouteChoice(hops, inFace, entry, now, false);
      var p := QosStrategy.ForwardChoice(s, c, item, level, nowMs, Unbounded);
      Reply(p.sched, p.sent, c.NoRoute?, [])
  }

  /** With one next hop per face, the multicast lists no face twice. */
  lemma {:induction false} FacesOfDistinct(hops: seq<NextHop>, inFace: FaceId, forwardOnly: bool)
    requires OneHopPerFace(hops)
    ensures Distinct(FacesOf(hops, inFace, forwardOnly))
    decreases |hops|
  {
    if |hops| > 0 {
      var rest := FacesOf(hops[1..], inFace, forwardOnly);
      FacesOfDistinct(hops[1..], inFace, forwardOnly);
      forall j | 0 <= j < |hops| - 1 ensures hops[1..][j].face != hops[0].face {
        assert hops[1..][j] == hops[j + 1];
      }
      assert hops[0].face !in rest;
      var head := if Selected(hops[0], inFace, forwardOnly) then [hops[0].face] else [];
      var all := head + rest;
      assert FacesOf(hops, inFace, forwardOnly) == all;
      forall a, b | 0 <= a < b < |all| ensures all[a] != all[b] {
        assert all[b] == rest[b - |head|];
        if a >= |head| {
          assert all[a] == rest[a - |head|];
        }
      }
    }
  }

  /** Where a gated interest goes, packet by packet: each candidate face
      ends with one more packet, queued there or handed to the forwarder
      through it, exactly when its queue set accepted the interest; every
      other face ends with what it had. */
  lemma GatedMulticastDelivered(s: Sched, name: Name, inFace: FaceId, hops: seq<NextHop>, entry: RetxDecision,
                                now: int, nowMs: nat, wire: seq<Byte>, pe: PitRef)
    requires Valid(s) && OneHopPerFace(hops)
    requires QosStrategy.DataLevel(name) != QosStrategy.BEST_EFFORT_LEVEL
    ensures var r := OnInterest(s, name, inFace, hops, entry, now, nowMs, wire, pe);
            var level := QosStrategy.DataLevel(name);
            && (forall f :: f in CandidateFaces(hops, inFace) ==>
                  Delivered(s, r.sched, r.sent, f, Accepted(s, f, QosStrategy.InterestItem(inFace, wire, pe).(outFace := Some(f)), level, nowMs)))
            && (forall g :: g in s.txQueues && g !in CandidateFaces(hops, inFace) ==> Delivered(s, r.sched, r.sent, g, 0))
  {
    var level := QosStrategy.DataLevel(name);
    var item := QosStrategy.InterestItem(inFace, wire, pe);
    var faces := FacesOf(hops, inFace, false);
    MulticastReachesCandidates(hops, inFace);
    FacesOfDistinct(hops, inFace, false);
    var queued := EnqueueEach(s, faces, item, level, nowMs);
    if entry == Suppress {
      EnqueueEachDelivered(s, faces, item, level, nowMs, Pass(queued, [], false));
    } else {
      var p := PrioritySend(queued, Unbounded);
      EnqueueEachDelivered(s, faces, item, level, nowMs, Pass(p.sched, p.sent, false));
    }
  }

  /** Where a best-effort interest goes, packet by packet: the best-route
      face, if any, ends with one more packet, queued there or handed to the
      forwarder through it, exactly when its queue set accepted the
      interest; every other face ends with what it had. */
  lemma BestEffortInterestDelivered(s: Sched, name: Name, inFace: FaceId, hops: seq<NextHop>, entry: RetxDecision,
                                    now: int, nowMs: nat, wire: seq<Byte>, pe: PitRef)
    requires Valid(s) && QosStrategy.DataLevel(name) == QosStrategy.BEST_EFFORT_LEVEL
    ensures var c := BestRouteChoice(hops, inFace, entry, now, false);
            var r := OnInterest(s, name, inFace, hops, entry, now, nowMs, wire, pe);
            && (c.SendTo? ==>
                  Delivered(s, r.sched, r.sent, c.face, Accepted(s, c.face, QosStrategy.InterestItem(inFace, wire, pe).(outFace := Some(c.face)),
                                                      QosStrategy.BEST_EFFORT_LEVEL, nowMs)))
            && (forall g :: g in s.txQueues && !(c.SendTo? && g == c.face) ==> Delivered(s, r.sched, r.sent, g, 0))
  {
  }

  /** The original strategy treats the third class as best effort, where
      QosStrategy2 gives it a level of its own. */
  lemma ThirdClassIsBestEffortHere(name: Name)
    requires ComponentIs(name, 1, "typeIII")
    ensures QosStrategy.DataLevel(name) == QosStrategy.BEST_EFFORT_LEVEL
    ensures QosStrategy.Classify(name).level == 59
  {
  }

  /** `QosStrategy::afterReceiveData`: queue the data once on every pending
      downstream, then drain. */
  function OnData(s: Sched, dataName: Name, inFace: FaceId, inRecords: seq<InRecord>,
                  now: int, nowMs: nat, wire: seq<Byte>, pe: PitRef): (r: Pass)
    requires Valid(s)
    ensures Valid(r.sched)
    ensures forall f :: f in r.sched.txQueues <==> f in s.txQueues || HasDownstream(inRecords, inFace, now, f)
  {
    var item := QosStrategy.DataItem(inFace, wire, pe);
    var downs := PendingDownstreams(inRecords, inFace, now);
    PrioritySend(EnqueueEach(s, downs, item, QosStrategy.DataLevel(dataName), nowMs), Unbounded)
  }

  /** Where the data goes, packet by packet: each pending downstream ends
      with one more packet, queued there or handed to the forwarder through
      it, exactly when its queue set accepted the data; every other face
      ends with what it had. */
  lemma DataDelivered(s: Sched, dataName: Name, inFace: FaceId, inRecords: seq<InRecord>,
                      now: int, nowMs: nat, wire: seq<Byte>, pe: PitRef)
    requires Valid(s)
    ensures var r := OnData(s, dataName, inFace, inRecords, now, nowMs, wire, pe);
            var level := QosStrategy.DataLevel(dataName);
            && (forall f :: HasDownstream(inRecords, inFace, now, f) ==>
                  Delivered(s, r.sched, r.sent, f, Accepted(s, f, QosStrategy.DataItem(inFace, wire, pe).(outFace := Some(f)), level, nowMs)))
            && (forall g :: g in s.txQueues && !HasDownstream(inRecords, inFace, now, g) ==> Delivered(s, r.sched, r.sent, g, 0))
  {
    var item := QosStrategy.DataItem(inFace, wire, pe);
    var level := QosStrategy.DataLevel(dataName);
    var downs := PendingDownstreams(inRecords, inFace, now);
    assert Distinct(downs);
    var p := PrioritySend(EnqueueEach(s, downs, item, level, nowMs), Unbounded);
    EnqueueEachDelivered(s, downs, item, level, nowMs, p);
  }
}
