/** The forwarding-table view the strategies work on: next hops with the
    per-face facts they consult, pending-entry records, and the classic
    best-route next-hop choice shared by all three strategies. */
module NextHops {
  import opened Wrappers
  import opened QosQueue

  /** Verdict of the exponential retransmission suppression, whose source is
      not part of this model. */
  datatype RetxDecision = New | Forward | Suppress

  /** An out-record of the pending entry on one upstream face. */
  datatype OutRecord = OutRecord(expiry: int, lastRenewed: int)

  /** The transport behind a face: an ns-3 point-to-point device reports the
      number of packets in its device queue; any other transport does not. */
  datatype Link = NetDevice(occupancy: nat) | OtherTransport

  /** One FIB next hop together with everything the strategies ask about its
      face for the interest at hand: whether it is ad hoc, whether forwarding
      there would violate scope, the pending entry's out-record on it, its
      transport, and the per-upstream suppression verdict. */
  datatype NextHop = NextHop(
    face: FaceId,
    adHoc: bool,
    violatesScope: bool,
    outRecord: Option<OutRecord>,
    link: Link,
    upstream: RetxDecision)

  /** A downstream in-record of the pending entry. */
  datatype InRecord = InRecord(face: FaceId, adHoc: bool, expiry: int)

  /** Default `limit` of the occupancy test in `isNextHopEligible`. */
  const OCCUPANCY_LIMIT: nat := 100

  /** Never send back to the arrival face unless it is ad hoc. */
  predicate SameFaceBlocked(h: NextHop, inFace: FaceId) {
    h.face == inFace && !h.adHoc
  }

  /** `isNextHopEligible`. `checkLink` adds the test only the QosStrategy2
      version has: the face must be a net-device face whose queue holds at
      most `OCCUPANCY_LIMIT` packets. */
  predicate Eligible(h: NextHop, inFace: FaceId, wantUnused: bool, now: int, checkLink: bool)
    ensures Eligible(h, inFace, wantUnused, now, checkLink) ==> h.face != inFace || h.adHoc
    ensures Eligible(h, inFace, wantUnused, now, checkLink) ==> !h.violatesScope
    ensures wantUnused && h.outRecord.Some? && h.outRecord.value.expiry > now ==> !Eligible(h, inFace, wantUnused, now, checkLink)
    ensures checkLink && (h.link.OtherTransport? || h.link.occupancy > OCCUPANCY_LIMIT) ==> !Eligible(h, inFace, wantUnused, now, checkLink)
  {
    && !SameFaceBlocked(h, inFace)
    && !h.violatesScope
    && (wantUnused ==> !(h.outRecord.Some? && h.outRecord.value.expiry > now))
    && (checkLink ==> h.link.NetDevice? && h.link.occupancy <= OCCUPANCY_LIMIT)
  }

  /** `std::find_if(..., isNextHopEligible)`: index of the first eligible hop. */
  function FindFirstEligible(hops: seq<NextHop>, inFace: FaceId, wantUnused: bool, now: int,
                             checkLink: bool, from: nat): (r: Option<nat>)
    requires from <= |hops|
    ensures r.Some? ==> from <= r.value < |hops| && Eligible(hops[r.value], inFace, wantUnused, now, checkLink)
    ensures r.Some? ==> forall j :: from <= j < r.value ==> !Eligible(hops[j], inFace, wantUnused, now, checkLink)
    ensures r.None? ==> forall j :: from <= j < |hops| ==> !Eligible(hops[j], inFace, wantUnused, now, checkLink)
    decreases |hops| - from
  {
    if from == |hops| then None
    else if Eligible(hops[from], inFace, wantUnused, now, checkLink) then Some(from)
    else FindFirstEligible(hops, inFace, wantUnused, now, checkLink, from + 1)
  }

  /** An eligible hop with an out-record: a candidate of the earliest search. */
  predicate RetryCandidate(h: NextHop, inFace: FaceId, checkLink: bool) {
    Eligible(h, inFace, false, 0, checkLink) && h.outRecord.Some?
  }

  function Renewed(h: NextHop): int
    requires h.outRecord.Some?
  {
    h.outRecord.value.lastRenewed
  }

  /** `found` is the strictly earliest-renewed retry candidate among the
      first `n` hops, the first one on a tie; `None` when there is none. */
  predicate EarliestAmong(hops: seq<NextHop>, inFace: FaceId, checkLink: bool, n: nat, found: Option<nat>)
    requires n <= |hops|
  {
    && (found.None? ==> forall j :: 0 <= j < n ==> !RetryCandidate(hops[j], inFace, checkLink))
    && (found.Some? ==>
          && found.value < n
          && RetryCandidate(hops[found.value], inFace, checkLink)
          && (forall j :: 0 <= j < n && RetryCandidate(hops[j], inFace, checkLink) ==>
                Renewed(hops[found.value]) <= Renewed(hops[j]))
          && (forall j :: 0 <= j < found.value && RetryCandidate(hops[j], inFace, checkLink) ==>
                Renewed(hops[found.value]) < Renewed(hops[j])))
  }

  /** `findEligibleNextHopWithEarliestOutRecord`: scans left to right and
      replaces the candidate only on a strictly earlier last-renewed time.
      The source asserts every eligible hop has an out-record; a hop without
      one is skipped here (`RetryNeedsNoMissingRecord` shows none is ever met
      on the path that calls this). */
  function FindEarliestOutRecord(hops: seq<NextHop>, inFace: FaceId, checkLink: bool,
                                 from: nat, found: Option<nat>): (r: Option<nat>)
    requires from <= |hops|
    requires EarliestAmong(hops, inFace, checkLink, from, found)
    ensures EarliestAmong(hops, inFace, checkLink, |hops|, r)
    decreases |hops| - from
  {
    if from == |hops| then found
    else
      var h := hops[from];
      var found' := if RetryCandidate(h, inFace, checkLink) &&
                       (found.None? || Renewed(h) < Renewed(hops[found.value]))
                    then Some(from) else found;
      FindEarliestOutRecord(hops, inFace, checkLink, from + 1, found')
  }

  /** What a best-route style decision does with an interest. */
  datatype Choice =
    | Suppressed          // per-entry suppression: nothing happens
    | NoRoute             // Nack NO_ROUTE to the downstream and reject the entry
    | SendTo(face: FaceId)
    | NoRetryHop          // a retransmission with no eligible hop: dropped

  predicate AnyEligible(hops: seq<NextHop>, inFace: FaceId, checkLink: bool) {
    exists i :: 0 <= i < |hops| && Eligible(hops[i], inFace, false, 0, checkLink)
  }

  /** The classic best-route choice: a new entry goes to the first eligible
      hop; a retransmission goes to the first eligible hop without an
      unexpired out-record, else to the eligible hop renewed earliest. */
  function BestRouteChoice(hops: seq<NextHop>, inFace: FaceId, decision: RetxDecision,
                           now: int, checkLink: bool): (r: Choice)
    ensures r == Suppressed <==> decision == Suppress
    ensures r == NoRoute <==> decision == New && !AnyEligible(hops, inFace, checkLink)
    ensures r == NoRetryHop <==> decision == Forward && !AnyEligible(hops, inFace, checkLink)
    ensures r.SendTo? ==> exists i :: 0 <= i < |hops| && hops[i].face == r.face &&
                                      Eligible(hops[i], inFace, false, 0, checkLink)
    ensures decision == New && AnyEligible(hops, inFace, checkLink) ==>
              var i := FindFirstEligible(hops, inFace, false, now, checkLink, 0).value;
              r == SendTo(hops[i].face) && forall j :: 0 <= j < i ==> !Eligible(hops[j], inFace, false, 0, checkLink)
    ensures decision == Forward ==>
              forall i :: 0 <= i < |hops| && Eligible(hops[i], inFace, true, now, checkLink) &&
                          (forall j :: 0 <= j < i ==> !Eligible(hops[j], inFace, true, now, checkLink)) ==>
                          r == SendTo(hops[i].face)
    ensures decision == Forward && AnyEligible(hops, inFace, checkLink) &&
            (forall j :: 0 <= j < |hops| ==> !Eligible(hops[j], inFace, true, now, checkLink)) ==>
              exists i :: 0 <= i < |hops| && r == SendTo(hops[i].face) && EarliestAmong(hops, inFace, checkLink, |hops|, Some(i))
  {
    match decision
    case Suppress => Suppressed
    case New => (
      match FindFirstEligible(hops, inFace, false, now, checkLink, 0)
      case None => NoRoute
      case Some(i) => SendTo(hops[i].face))
    case Forward => (
      match FindFirstEligible(hops, inFace, true, now, checkLink, 0)
      case Some(i) => SendTo(hops[i].face)
      case None =>
        RetryNeedsNoMissingRecord(hops, inFace, now, checkLink);
        match FindEarliestOutRecord(hops, inFace, checkLink, 0, None)
        case None => NoRetryHop
        case Some(i) => SendTo(hops[i].face))
  }

  /** When no eligible hop is unused, every eligible hop has an unexpired
      out-record, so the earliest search meets no hop without one: the
      source's assertion holds on that path. */
  lemma RetryNeedsNoMissingRecord(hops: seq<NextHop>, inFace: FaceId, now: int, checkLink: bool)
    requires FindFirstEligible(hops, inFace, true, now, checkLink, 0).None?
    ensures forall j :: 0 <= j < |hops| && Eligible(hops[j], inFace, false, 0, checkLink) ==>
              RetryCandidate(hops[j], inFace, checkLink) && hops[j].outRecord.value.expiry > now
  {
    forall j | 0 <= j < |hops| && Eligible(hops[j], inFace, false, 0, checkLink)
      ensures RetryCandidate(hops[j], inFace, checkLink) && hops[j].outRecord.value.expiry > now
    {
      assert !Eligible(hops[j], inFace, true, now, checkLink);
    }
  }

  predicate Downstream(rec: InRecord, inFace: FaceId, now: int) {
    rec.expiry > now && !(rec.face == inFace && !rec.adHoc)
  }

  /** Some unexpired in-record other than a blocked arrival face is on `f`. */
  predicate HasDownstream(recs: seq<InRecord>, inFace: FaceId, now: int, f: FaceId) {
    exists k :: 0 <= k < |recs| && recs[k].face == f && Downstream(recs[k], inFace, now)
  }

  /** The `pendingDownstreams` set of `afterReceiveData`: every face with an
      unexpired in-record, except the arrival face unless it is ad hoc, each
      listed once. */
  function PendingDownstreams(recs: seq<InRecord>, inFace: FaceId, now: int): (r: seq<FaceId>)
    ensures forall f :: f in r <==> HasDownstream(recs, inFace, now, f)
    ensures forall i, j :: 0 <= i < j < |r| ==> r[i] != r[j]
    decreases |recs|
  {
    if |recs| == 0 then []
    else
      var rest := PendingDownstreams(recs[1..], inFace, now);
      assert forall f :: HasDownstream(recs, inFace, now, f) <==>
        (recs[0].face == f && Downstream(recs[0], inFace, now)) || HasDownstream(recs[1..], inFace, now, f) by {
        forall f ensures HasDownstream(recs, inFace, now, f) <==>
          (recs[0].face == f && Downstream(recs[0], inFace, now)) || HasDownstream(recs[1..], inFace, now, f)
        {
          if HasDownstream(recs, inFace, now, f) && !(recs[0].face == f && Downstream(recs[0], inFace, now)) {
            var k :| 0 <= k < |recs| && recs[k].face == f && Downstream(recs[k], inFace, now);
            assert recs[1..][k - 1] == recs[k];
          }
          if HasDownstream(recs[1..], inFace, now, f) {
            var k :| 0 <= k < |recs| - 1 && recs[1..][k].face == f && Downstream(recs[1..][k], inFace, now);
            assert recs[k + 1] == recs[1..][k];
          }
        }
      }
      if Downstream(recs[0], inFace, now) && recs[0].face !in rest then [recs[0].face] + rest else rest
  }

  /** A FIB entry holds at most one next hop per face. */
  predicate OneHopPerFace(hops: seq<NextHop>) {
    forall a, b :: 0 <= a < b < |hops| ==> hops[a].face != hops[b].face
  }

  /** A next hop the multicast tiers consider: not suppressed for this
      upstream, not the blocked arrival face, not out of scope. */
  predicate Candidate(h: NextHop, inFace: FaceId) {
    h.upstream != Suppress && !SameFaceBlocked(h, inFace) && !h.violatesScope
  }

  function CandidateFaces(hops: seq<NextHop>, inFace: FaceId): set<FaceId> {
    set i | 0 <= i < |hops| && Candidate(hops[i], inFace) :: hops[i].face
  }

  /** Some next hop at or after position `i` is suppressed for its upstream. */
  predicate SuppressedFrom(hops: seq<NextHop>, i: nat) {
    exists j :: i <= j < |hops| && hops[j].upstream == Suppress
  }
}
