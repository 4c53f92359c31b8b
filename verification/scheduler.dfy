/** The scheduling state a QoS strategy owns: one three-class queue set per
    outgoing face and one token bucket per class, plus the token-gated drain
    pass `prioritySend` and the refill tick that triggers it. */
module Scheduler {
  import opened Wrappers
  import opened QosQueue
  import opened PriorityTxQueue
  import opened TokenBucket

  /** The drain of one face stops once its device queue reaches this many packets. */
  const SEND_OCCUPANCY_LIMIT: nat := 25
  /** `TOKEN_REQUIRED`: tokens one send consumes. */
  const TOKEN_REQUIRED: int := 1

  /** The three class buckets (`m_sender1`, `m_sender2`, `m_sender3`). */
  datatype Buckets = Buckets(high: Bucket, medium: Bucket, low: Bucket)

  function BucketOf(b: Buckets, c: QueueClass): Bucket {
    match c
    case High => b.high
    case Medium => b.medium
    case Low => b.low
  }

  function WithBucket(b: Buckets, c: QueueClass, x: Bucket): (r: Buckets)
    ensures BucketOf(r, c) == x
    ensures forall d :: d != c ==> BucketOf(r, d) == BucketOf(b, d)
  {
    match c
    case High => b.(high := x)
    case Medium => b.(medium := x)
    case Low => b.(low := x)
  }

  /** The token counts the drain reads for one face. */
  function TokensAt(b: Buckets, f: FaceId): ClassTokens {
    ClassTokens(Available(b.high, f), Available(b.medium, f), Available(b.low, f))
  }

  /** `m_tx_queue` with its keys in the order the drain visits them. The
      source's hash map has an unspecified order; this model fixes it to the
      order in which faces were first used. */
  datatype Sched = Sched(txQueues: map<FaceId, TxQueue>, order: seq<FaceId>, buckets: Buckets)

  ghost predicate Valid(s: Sched) {
    && (forall i, j :: 0 <= i < j < |s.order| ==> s.order[i] != s.order[j])
    && (forall f :: f in s.txQueues <==> f in s.order)
    && (forall f :: f in s.txQueues ==> TotalWeight(s.txQueues[f]) > 0)
  }

  function NewSched(): (s: Sched)
    ensures Valid(s)
  {
    Sched(map[], [], Buckets(NewBucket(), NewBucket(), NewBucket()))
  }

  /** `m_tx_queue[f]`: a face seen for the first time gets a fresh queue set. */
  function QueueAt(s: Sched, f: FaceId): (tq: TxQueue)
    requires Valid(s)
    ensures TotalWeight(tq) > 0
    ensures f in s.txQueues ==> tq == s.txQueues[f]
    ensures f !in s.txQueues ==> TotalLen(tq) == 0 && tq == NewTxQueue()
  {
    if f in s.txQueues then s.txQueues[f] else NewTxQueue()
  }

  /** `m_tx_queue[f].DoEnqueue(item, level)`; the verdict is ignored by every caller. */
  function EnqueueAt(s: Sched, f: FaceId, item: QueueItem, level: int, nowMs: nat): (r: Sched)
    requires Valid(s)
    ensures Valid(r)
    ensures r.txQueues.Keys == s.txQueues.Keys + {f}
    ensures r.txQueues[f] == DoEnqueue(QueueAt(s, f), item, level, nowMs).tq
    ensures forall g :: g in s.txQueues && g != f ==> r.txQueues[g] == s.txQueues[g]
    ensures r.buckets == s.buckets
    ensures forall g :: g in s.order ==> g in r.order
  {
    var tq := DoEnqueue(QueueAt(s, f), item, level, nowMs).tq;
    var order := if f in s.txQueues then s.order else s.order + [f];
    Sched(s.txQueues[f := tq], order, s.buckets)
  }

  /** `m_tx_queue[f].DoEnqueue(item, level)` for each face of `faces` in
      order, with the item's out-face set to that face. */
  function EnqueueEach(s: Sched, faces: seq<FaceId>, item: QueueItem, level: int, nowMs: nat): (r: Sched)
    requires Valid(s)
    ensures Valid(r)
    ensures forall f :: f in r.txQueues <==> f in s.txQueues || f in faces
    ensures forall f :: f in s.txQueues && f !in faces ==> r.txQueues[f] == s.txQueues[f]
    ensures r.buckets == s.buckets
    decreases |faces|
  {
    if |faces| == 0 then s
    else
      var s1 := EnqueueAt(s, faces[0], item.(outFace := Some(faces[0])), level, nowMs);
      assert forall f :: f in faces <==> f == faces[0] || f in faces[1..];
      EnqueueEach(s1, faces[1..], item, level, nowMs)
  }

  /** Enqueueing on distinct faces gives each listed face's queue set the
      item, with its out-face set to that face. */
  lemma {:induction false} EnqueueEachLands(s: Sched, faces: seq<FaceId>, item: QueueItem, level: int, nowMs: nat)
    requires Valid(s) && Distinct(faces)
    ensures forall f :: f in faces ==>
              EnqueueEach(s, faces, item, level, nowMs).txQueues[f] ==
              DoEnqueue(QueueAt(s, f), item.(outFace := Some(f)), level, nowMs).tq
    decreases |faces|
  {
    if |faces| > 0 {
      var s1 := EnqueueAt(s, faces[0], item.(outFace := Some(faces[0])), level, nowMs);
      var rest := faces[1..];
      assert Distinct(rest) && faces[0] !in rest;
      EnqueueEachLands(s1, rest, item, level, nowMs);
      var r := EnqueueEach(s1, rest, item, level, nowMs);
      assert EnqueueEach(s, faces, item, level, nowMs) == r;
      forall f | f in faces
        ensures r.txQueues[f] == DoEnqueue(QueueAt(s, f), item.(outFace := Some(f)), level, nowMs).tq
      {
        if f != faces[0] {
          assert f in rest;
          assert QueueAt(s1, f) == QueueAt(s, f);
        }
      }
    }
  }

  /** A dispatched queue item: the face it left through and the class it came from. */
  datatype Sent = Sent(face: FaceId, cls: QueueClass, item: QueueItem)

  /** The items of class `c` in a dispatch log, in order. */
  function ItemsOfClass(sent: seq<Sent>, c: QueueClass): seq<QueueItem>
    decreases |sent|
  {
    if |sent| == 0 then []
    else (if sent[0].cls == c then [sent[0].item] else []) + ItemsOfClass(sent[1..], c)
  }

  /** How many entries of a dispatch log left through `f`. */
  function SentOn(sent: seq<Sent>, f: FaceId): nat
    decreases |sent|
  {
    if |sent| == 0 then 0 else (if sent[0].face == f then 1 else 0) + SentOn(sent[1..], f)
  }

  lemma {:induction false} SentOnAppend(a: seq<Sent>, b: seq<Sent>, f: FaceId)
    ensures SentOn(a + b, f) == SentOn(a, f) + SentOn(b, f)
    decreases |a|
  {
    if |a| > 0 {
      assert (a + b)[1..] == a[1..] + b;
      SentOnAppend(a[1..], b, f);
    } else {
      assert a + b == b;
    }
  }

  /** One successful selection of class `c` on face `f`: the bucket is marked
      in use, loses `TOKEN_REQUIRED` tokens for `f`, and its need for `f` is cleared. */
  function ChargeSend(b: Buckets, f: FaceId, c: QueueClass): (r: Buckets)
    ensures Available(BucketOf(r, c), f) == Available(BucketOf(b, c), f) - TOKEN_REQUIRED
    ensures f in BucketOf(r, c).need && BucketOf(r, c).need[f] == 0
    ensures BucketOf(r, c).hasFaces
    ensures forall d :: d != c ==> BucketOf(r, d) == BucketOf(b, d)
    ensures forall g :: g != f ==> Available(BucketOf(r, c), g) == Available(BucketOf(b, c), g)
    ensures forall g :: g != f ==> (g in BucketOf(r, c).need <==> g in BucketOf(b, c).need)
    ensures forall g :: g != f && g in BucketOf(b, c).need ==> BucketOf(r, c).need[g] == BucketOf(b, c).need[g]
    ensures forall d :: BucketOf(r, d).capacity == BucketOf(b, d).capacity
  {
    var x := BucketOf(b, c).(hasFaces := true);
    WithBucket(b, c, SetNeed(ConsumeToken(x, TOKEN_REQUIRED, f), f, 0))
  }

  /** A failed selection records, per class, whether the face still has
      something queued (`tokenReqHig/Mid/Low`). */
  function RecordNeed(b: Buckets, f: FaceId, tq: TxQueue): (r: Buckets)
    ensures forall c :: BucketOf(r, c).need == BucketOf(b, c).need[f := TokenReq(tq, c)]
    ensures forall c :: BucketOf(r, c).tokens == BucketOf(b, c).tokens
    ensures forall c :: BucketOf(r, c).capacity == BucketOf(b, c).capacity
  {
    Buckets(SetNeed(b.high, f, TokenReq(tq, High)),
            SetNeed(b.medium, f, TokenReq(tq, Medium)),
            SetNeed(b.low, f, TokenReq(tq, Low)))
  }

  /** Outcome of draining one face. */
  datatype FaceDrain = FaceDrain(buckets: Buckets, tq: TxQueue, sent: seq<Sent>, tokenwait: bool)

  /** `rate < 25`: whether the device queue still admits a send. `None`
      stands for the older strategy, which has no such test. */
  predicate RateAllows(rate: Option<nat>) {
    rate.None? || rate.value < SEND_OCCUPANCY_LIMIT
  }

  /** The dispatch log and the remaining queues together hold, per class and
      in order, exactly what the queues held before. */
  predicate ClassesConserved(sent: seq<Sent>, before: TxQueue, after: TxQueue) {
    forall c :: ItemsOfClass(sent, c) + Get(after, c).items == Get(before, c).items
  }

  predicate AllThrough(sent: seq<Sent>, f: FaceId) {
    forall k :: 0 <= k < |sent| ==> sent[k].face == f
  }

  /** No face other than `f` sees its token counts change. */
  ghost predicate OtherFacesKept(b0: Buckets, b1: Buckets, f: FaceId) {
    forall c, g :: g != f ==> Available(BucketOf(b1, c), g) == Available(BucketOf(b0, c), g)
  }

  predicate SameCapacities(b0: Buckets, b1: Buckets) {
    forall c :: BucketOf(b1, c).capacity == BucketOf(b0, c).capacity
  }

  predicate SameWeights(tq0: TxQueue, tq1: TxQueue) {
    forall c :: Get(tq1, c).weight == Get(tq0, c).weight
  }

  /** The face is stuck: it has packets, no class qualifies, and every class
      bucket has recorded whether this face wants tokens from it. */
  predicate Blocked(b: Buckets, tq: TxQueue, f: FaceId) {
    && !PriorityTxQueue.IsEmpty(tq)
    && SelectQueueToSend(tq, TokensAt(b, f)).None?
    && forall c :: f in BucketOf(b, c).need && BucketOf(b, c).need[f] == TokenReq(tq, c)
  }

  function RateAfter(rate: Option<nat>, n: nat): Option<nat> {
    match rate
    case None => None
    case Some(v) => Some(v + n)
  }

  /** The inner loop of `prioritySend` for face `f`: while the face has
      packets and its device queue admits more, select a class by WFQ and
      token availability; send its head, or record the need and stop the pass. */
  function DrainFace(b: Buckets, f: FaceId, tq: TxQueue, rate: Option<nat>): (r: FaceDrain)
    ensures TotalLen(r.tq) + |r.sent| == TotalLen(tq)
    ensures AllThrough(r.sent, f)
    ensures SameWeights(tq, r.tq)
    decreases TotalLen(tq)
  {
    if PriorityTxQueue.IsEmpty(tq) || !RateAllows(rate) then FaceDrain(b, tq, [], false)
    else
      match SelectQueueToSend(tq, TokensAt(b, f))
      case None => FaceDrain(RecordNeed(b, f, tq), tq, [], true)
      case Some(c) =>
        var d := DoDequeue(tq, Index(c));
        SelectedClassDequeuesOne(tq, TokensAt(b, f));
        var rest := DrainFace(ChargeSend(b, f, c), f, d.tq, RateAfter(rate, 1));
        FaceDrain(rest.buckets, rest.tq, [Sent(f, c, d.item)] + rest.sent, rest.tokenwait)
  }

  /** Per class, the packets a drain sends are the head of that class queue,
      in queue order, and the rest stays queued: nothing is lost or reordered. */
  lemma {:induction false} DrainFaceConservesClasses(b: Buckets, f: FaceId, tq: TxQueue, rate: Option<nat>)
    ensures ClassesConserved(DrainFace(b, f, tq, rate).sent, tq, DrainFace(b, f, tq, rate).tq)
    decreases TotalLen(tq)
  {
    if !PriorityTxQueue.IsEmpty(tq) && RateAllows(rate) {
      match SelectQueueToSend(tq, TokensAt(b, f))
      case None =>
      case Some(c) =>
        var d := DoDequeue(tq, Index(c));
        SelectedClassDequeuesOne(tq, TokensAt(b, f));
        var rest := DrainFace(ChargeSend(b, f, c), f, d.tq, RateAfter(rate, 1));
        DrainFaceConservesClasses(ChargeSend(b, f, c), f, d.tq, RateAfter(rate, 1));
        SendStepConserves(tq, c, d.item, d.tq, rest.sent, rest.tq);
    }
  }

  /** The drain of a face sends at most as many packets as its device queue
      has room for below the limit. */
  lemma {:induction false} DrainFaceRespectsOccupancy(b: Buckets, f: FaceId, tq: TxQueue, rate: Option<nat>)
    requires rate.Some?
    ensures var r := DrainFace(b, f, tq, rate);
            |r.sent| == 0 || rate.value + |r.sent| <= SEND_OCCUPANCY_LIMIT
    decreases TotalLen(tq)
  {
    if !PriorityTxQueue.IsEmpty(tq) && RateAllows(rate) {
      match SelectQueueToSend(tq, TokensAt(b, f))
      case None =>
      case Some(c) =>
        var d := DoDequeue(tq, Index(c));
        SelectedClassDequeuesOne(tq, TokensAt(b, f));
        DrainFaceRespectsOccupancy(ChargeSend(b, f, c), f, d.tq, RateAfter(rate, 1));
    }
  }

  /** A drain that does not block ends only because the face is empty or
      its device queue has reached the limit. */
  lemma {:induction false} DrainFaceRunsToEnd(b: Buckets, f: FaceId, tq: TxQueue, rate: Option<nat>)
    ensures var r := DrainFace(b, f, tq, rate);
            !r.tokenwait ==> PriorityTxQueue.IsEmpty(r.tq) ||
                             (rate.Some? && rate.value + |r.sent| >= SEND_OCCUPANCY_LIMIT)
    decreases TotalLen(tq)
  {
    if !PriorityTxQueue.IsEmpty(tq) && RateAllows(rate) {
      match SelectQueueToSend(tq, TokensAt(b, f))
      case None =>
      case Some(c) =>
        var d := DoDequeue(tq, Index(c));
        SelectedClassDequeuesOne(tq, TokensAt(b, f));
        DrainFaceRunsToEnd(ChargeSend(b, f, c), f, d.tq, RateAfter(rate, 1));
    }
  }

  /** A drain that sets `tokenwait` leaves its face blocked: packets queued,
      no class with enough tokens, and each class's need recorded. */
  lemma {:induction false} DrainFaceBlocksOnlyWhenStuck(b: Buckets, f: FaceId, tq: TxQueue, rate: Option<nat>)
    ensures var r := DrainFace(b, f, tq, rate);
            r.tokenwait ==> Blocked(r.buckets, r.tq, f)
    decreases TotalLen(tq)
  {
    if !PriorityTxQueue.IsEmpty(tq) && RateAllows(rate) {
      match SelectQueueToSend(tq, TokensAt(b, f))
      case None =>
        assert TokensAt(RecordNeed(b, f, tq), f) == TokensAt(b, f);
      case Some(c) =>
        var d := DoDequeue(tq, Index(c));
        SelectedClassDequeuesOne(tq, TokensAt(b, f));
        DrainFaceBlocksOnlyWhenStuck(ChargeSend(b, f, c), f, d.tq, RateAfter(rate, 1));
    }
  }

  /** Draining face `f` never changes another face's token counts, nor any
      bucket's capacity. */
  lemma {:induction false} DrainFaceKeepsOtherFaces(b: Buckets, f: FaceId, tq: TxQueue, rate: Option<nat>)
    ensures OtherFacesKept(b, DrainFace(b, f, tq, rate).buckets, f)
    ensures SameCapacities(b, DrainFace(b, f, tq, rate).buckets)
    decreases TotalLen(tq)
  {
    if !PriorityTxQueue.IsEmpty(tq) && RateAllows(rate) {
      match SelectQueueToSend(tq, TokensAt(b, f))
      case None =>
      case Some(c) =>
        var d := DoDequeue(tq, Index(c));
        SelectedClassDequeuesOne(tq, TokensAt(b, f));
        DrainFaceKeepsOtherFaces(ChargeSend(b, f, c), f, d.tq, RateAfter(rate, 1));
    }
  }

  /** One send followed by the rest of the drain keeps every class conserved. */
  lemma SendStepConserves(tq: TxQueue, c: QueueClass, x: QueueItem, mid: TxQueue,
                          sent: seq<Sent>, after: TxQueue)
    requires |Get(tq, c).items| > 0 && x == Get(tq, c).items[0]
    requires Get(mid, c).items == Get(tq, c).items[1..]
    requires forall d :: d != c ==> Get(mid, d) == Get(tq, d)
    requires ClassesConserved(sent, mid, after)
    ensures forall f :: ClassesConserved([Sent(f, c, x)] + sent, tq, after)
  {
    forall f, d ensures ItemsOfClass([Sent(f, c, x)] + sent, d) + Get(after, d).items == Get(tq, d).items {
      assert ([Sent(f, c, x)] + sent)[1..] == sent;
      if d == c {
        assert [x] + Get(tq, c).items[1..] == Get(tq, c).items;
      }
    }
  }

  /** Where the drain of a face starts: its device occupancy under QosStrategy2
      (a face without a net device counts as full), no bound under QosStrategy. */
  datatype Gate = Unbounded | Occupancy(devices: map<FaceId, nat>)

  function StartRate(gate: Gate, f: FaceId): (r: Option<nat>)
    ensures r.None? <==> gate.Unbounded?
    ensures gate.Occupancy? && f !in gate.devices ==> !RateAllows(r)
    ensures gate.Occupancy? && f in gate.devices ==> (RateAllows(r) <==> gate.devices[f] < SEND_OCCUPANCY_LIMIT)
  {
    match gate
    case Unbounded => None
    case Occupancy(m) => Some(if f in m then m[f] else SEND_OCCUPANCY_LIMIT)
  }

  datatype Pass = Pass(sched: Sched, sent: seq<Sent>, tokenwait: bool)

  /** Every packet queued on a face before a pass is, after it, either still
      queued there or in the dispatch log as sent through that face. */
  ghost predicate PacketsConserved(s: Sched, r: Pass) {
    forall g :: g in s.txQueues ==>
      g in r.sched.txQueues && TotalLen(r.sched.txQueues[g]) + SentOn(r.sent, g) == TotalLen(s.txQueues[g])
  }

  /** Faces outside `visited` keep their queues and send nothing. */
  ghost predicate Untouched(s: Sched, r: Pass, visited: seq<FaceId>) {
    forall g :: g in s.txQueues && g !in visited ==>
      g in r.sched.txQueues && r.sched.txQueues[g] == s.txQueues[g] && SentOn(r.sent, g) == 0
  }

  /** Draining the `i`-th face: its queue set and the buckets are replaced. */
  function DrainAt(s: Sched, gate: Gate, i: nat): (r: (Sched, FaceDrain))
    requires Valid(s) && i < |s.order|
    ensures Valid(r.0) && r.0.order == s.order && r.0.txQueues.Keys == s.txQueues.Keys
    ensures r.0.txQueues == s.txQueues[s.order[i] := r.1.tq] && r.0.buckets == r.1.buckets
    ensures TotalLen(r.1.tq) + |r.1.sent| == TotalLen(s.txQueues[s.order[i]])
    ensures AllThrough(r.1.sent, s.order[i])
  {
    var f := s.order[i];
    var d := DrainFace(s.buckets, f, s.txQueues[f], StartRate(gate, f));
    assert TotalWeight(d.tq) == TotalWeight(s.txQueues[f]) by {
      assert SameWeights(s.txQueues[f], d.tq);
      assert Get(d.tq, High).weight == Get(s.txQueues[f], High).weight;
      assert Get(d.tq, Medium).weight == Get(s.txQueues[f], Medium).weight;
      assert Get(d.tq, Low).weight == Get(s.txQueues[f], Low).weight;
    }
    (Sched(s.txQueues[f := d.tq], s.order, d.buckets), d)
  }

  /** The outer loop of `prioritySend` from the `i`-th face on. Once a face
      sets `tokenwait`, no later face is drained in this pass. No packet is
      lost, and faces before the `i`-th are left alone. */
  function DrainFrom(s: Sched, gate: Gate, i: nat, tokenwait: bool): (r: Pass)
    requires Valid(s) && i <= |s.order|
    ensures Valid(r.sched)
    ensures r.sched.order == s.order && r.sched.txQueues.Keys == s.txQueues.Keys
    ensures tokenwait ==> r == Pass(s, [], true)
    ensures PacketsConserved(s, r)
    ensures Untouched(s, r, s.order[i..])
    decreases |s.order| - i
  {
    if i == |s.order| || tokenwait then Pass(s, [], tokenwait)
    else
      var step := DrainAt(s, gate, i);
      var rest := DrainFrom(step.0, gate, i + 1, step.1.tokenwait);
      SkipStep(s, step.0, s.order[i], i, step.1.sent, rest);
      ConserveStep(s, step.0, s.order[i], i, step.1.sent, rest);
      Pass(rest.sched, step.1.sent + rest.sent, rest.tokenwait)
  }

  /** Once a face blocks, every face after it in the pass is left alone. */
  lemma {:induction false} TokenWaitHaltsPass(s: Sched, gate: Gate, i: nat)
    requires Valid(s) && i < |s.order|
    requires DrainAt(s, gate, i).1.tokenwait
    ensures Untouched(s, DrainFrom(s, gate, i, false), [s.order[i]])
  {
    var step := DrainAt(s, gate, i);
    var rest := DrainFrom(step.0, gate, i + 1, true);
    assert rest == Pass(step.0, [], true);
    assert DrainFrom(s, gate, i, false) == Pass(step.0, step.1.sent + [], true);
    assert step.1.sent + [] == step.1.sent;
    forall g | g in s.txQueues && g !in [s.order[i]]
      ensures SentOn(step.1.sent, g) == 0
    {
      SentOnUniform(step.1.sent, s.order[i], g);
    }
  }

  lemma SkipStep(s: Sched, s': Sched, f: FaceId, i: nat, ds: seq<Sent>, rest: Pass)
    requires Valid(s) && i < |s.order| && f == s.order[i]
    requires s'.order == s.order && s'.txQueues.Keys == s.txQueues.Keys
    requires forall g :: g in s.txQueues && g != f ==> s'.txQueues[g] == s.txQueues[g]
    requires AllThrough(ds, f)
    requires Untouched(s', rest, s'.order[i + 1..])
    ensures Untouched(s, Pass(rest.sched, ds + rest.sent, rest.tokenwait), s.order[i..])
  {
    forall g | g in s.txQueues && g !in s.order[i..]
      ensures rest.sched.txQueues[g] == s.txQueues[g] && SentOn(ds + rest.sent, g) == 0
    {
      assert g != f;
      assert g !in s.order[i + 1..];
      SentOnAppend(ds, rest.sent, g);
      SentOnUniform(ds, f, g);
    }
  }

  lemma ConserveStep(s: Sched, s': Sched, f: FaceId, i: nat, ds: seq<Sent>, rest: Pass)
    requires Valid(s) && i < |s.order| && f == s.order[i]
    requires s'.order == s.order && s'.txQueues.Keys == s.txQueues.Keys
    requires forall g :: g in s.txQueues && g != f ==> s'.txQueues[g] == s.txQueues[g]
    requires TotalLen(s'.txQueues[f]) + |ds| == TotalLen(s.txQueues[f])
    requires AllThrough(ds, f)
    requires PacketsConserved(s', rest)
    requires Untouched(s', rest, s'.order[i + 1..])
    ensures PacketsConserved(s, Pass(rest.sched, ds + rest.sent, rest.tokenwait))
  {
    assert f !in s.order[i + 1..];
    forall g | g in s.txQueues
      ensures g in rest.sched.txQueues
      ensures TotalLen(rest.sched.txQueues[g]) + SentOn(ds + rest.sent, g) == TotalLen(s.txQueues[g])
    {
      SentOnAppend(ds, rest.sent, g);
      SentOnUniform(ds, f, g);
    }
  }

  lemma {:induction false} SentOnUniform(ds: seq<Sent>, f: FaceId, g: FaceId)
    requires AllThrough(ds, f)
    ensures SentOn(ds, g) == if g == f then |ds| else 0
    decreases |ds|
  {
    if |ds| > 0 {
      SentOnUniform(ds[1..], f, g);
    }
  }

  /** `prioritySend`: one drain pass over all faces, in order. */
  function PrioritySend(s: Sched, gate: Gate): (r: Pass)
    requires Valid(s)
    ensures Valid(r.sched)
    ensures r.sched.order == s.order && r.sched.txQueues.Keys == s.txQueues.Keys
    ensures PacketsConserved(s, r)
  {
    DrainFrom(s, gate, 0, false)
  }

  /** Going from `s` to `after` while handing `sent` to the forwarder, face
      `f` ends with the packets `s` held there plus `added`: those still
      queued on it and those sent through it. */
  ghost predicate Delivered(s: Sched, after: Sched, sent: seq<Sent>, f: FaceId, added: nat)
    requires Valid(s)
  {
    f in after.txQueues && TotalLen(after.txQueues[f]) + SentOn(sent, f) == TotalLen(QueueAt(s, f)) + added
  }

  /** 1 when the queue set of `f` accepts the item, 0 when it rejects it. */
  function Accepted(s: Sched, f: FaceId, item: QueueItem, level: int, nowMs: nat): nat
    requires Valid(s)
  {
    if DoEnqueue(QueueAt(s, f), item, level, nowMs).ok then 1 else 0
  }

  /** Two passes in a row conserve packets as one pass whose dispatch log is
      both logs in order. */
  lemma PassesChain(s: Sched, p1: Pass, p2: Pass)
    requires PacketsConserved(s, p1) && PacketsConserved(p1.sched, p2)
    ensures PacketsConserved(s, Pass(p2.sched, p1.sent + p2.sent, false))
  {
    forall g | g in s.txQueues
      ensures TotalLen(p2.sched.txQueues[g]) + SentOn(p1.sent + p2.sent, g) == TotalLen(s.txQueues[g])
    {
      SentOnAppend(p1.sent, p2.sent, g);
    }
  }

  /** Enqueueing on distinct faces and then draining: every listed face ends
      with one more packet, queued or sent through it, exactly when its queue
      set accepted the item; every other face ends with what it had. */
  lemma EnqueueEachDelivered(s: Sched, faces: seq<FaceId>, item: QueueItem, level: int, nowMs: nat, p: Pass)
    requires Valid(s) && Distinct(faces)
    requires PacketsConserved(EnqueueEach(s, faces, item, level, nowMs), p)
    ensures forall f :: f in faces ==> Delivered(s, p.sched, p.sent, f, Accepted(s, f, item.(outFace := Some(f)), level, nowMs))
    ensures forall g :: g in s.txQueues && g !in faces ==> Delivered(s, p.sched, p.sent, g, 0)
  {
    var e := EnqueueEach(s, faces, item, level, nowMs);
    EnqueueEachLands(s, faces, item, level, nowMs);
    forall f | f in faces
      ensures Delivered(s, p.sched, p.sent, f, Accepted(s, f, item.(outFace := Some(f)), level, nowMs))
    {
      var d := DoEnqueue(QueueAt(s, f), item.(outFace := Some(f)), level, nowMs);
      assert f in e.txQueues && e.txQueues[f] == d.tq;
      DeliveredAfter(s, e, p, f, if d.ok then 1 else 0);
    }
    forall g | g in s.txQueues && g !in faces ensures Delivered(s, p.sched, p.sent, g, 0) {
      assert g in e.txQueues && e.txQueues[g] == s.txQueues[g];
      DeliveredAfter(s, e, p, g, 0);
    }
  }

  /** A face that gained `added` packets before a conserving pass has, over
      that pass, delivered what it held plus `added`. */
  lemma DeliveredAfter(s: Sched, e: Sched, p: Pass, f: FaceId, added: nat)
    requires Valid(s) && PacketsConserved(e, p)
    requires f in e.txQueues && TotalLen(e.txQueues[f]) == TotalLen(QueueAt(s, f)) + added
    ensures Delivered(s, p.sched, p.sent, f, added)
  {
  }

  /** A pass that only drains leaves every face with what it had. */
  lemma DrainDelivered(s: Sched, p: Pass)
    requires Valid(s) && PacketsConserved(s, p)
    ensures forall g :: g in s.txQueues ==> Delivered(s, p.sched, p.sent, g, 0)
  {
    forall g | g in s.txQueues ensures Delivered(s, p.sched, p.sent, g, 0) {
      DeliveredAfter(s, s, p, g, 0);
    }
  }

  /** Enqueueing on one face and then draining: that face ends with one more
      packet, queued or sent through it, exactly when its queue set accepted
      the item; every other face ends with what it had. */
  lemma EnqueueAtDelivered(s: Sched, f: FaceId, item: QueueItem, level: int, nowMs: nat, p: Pass)
    requires Valid(s)
    requires PacketsConserved(EnqueueAt(s, f, item, level, nowMs), p)
    ensures Delivered(s, p.sched, p.sent, f, Accepted(s, f, item, level, nowMs))
    ensures forall g :: g in s.txQueues && g != f ==> Delivered(s, p.sched, p.sent, g, 0)
  {
    var e := EnqueueAt(s, f, item, level, nowMs);
    var d := DoEnqueue(QueueAt(s, f), item, level, nowMs);
    assert f in e.txQueues && e.txQueues[f] == d.tq;
    DeliveredAfter(s, e, p, f, if d.ok then 1 else 0);
    forall g | g in s.txQueues && g != f ensures Delivered(s, p.sched, p.sent, g, 0) {
      assert g in e.txQueues && e.txQueues[g] == s.txQueues[g];
      DeliveredAfter(s, e, p, g, 0);
    }
  }

  /** A refill of one class bucket (`addToken`) always emits `send`, which
      runs a drain pass whatever the recorded needs are. */
  function TokenTick(s: Sched, c: QueueClass, gate: Gate): (r: Pass)
    requires Valid(s)
    ensures Valid(r.sched)
    ensures r.sched.order == s.order && r.sched.txQueues.Keys == s.txQueues.Keys
    ensures PacketsConserved(s, r)
  {
    var b := WithBucket(s.buckets, c, AddToken(BucketOf(s.buckets, c)));
    PrioritySend(s.(buckets := b), gate)
  }
}
