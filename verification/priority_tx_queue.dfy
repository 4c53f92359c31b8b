/** The per-face three-class WFQ queue set (`NdnPriorityTxQueue`). */
module PriorityTxQueue {
  import opened Wrappers
  import opened QosQueue

  /** `TOTAL_QUEUES`: one queue per class. */
  const TOTAL_QUEUES: nat := 3
  /** `PACKET_SIZE` is declared but unused: the virtual-time update takes the
      size of the actual encoded packet. */
  const PACKET_SIZE: nat := 1024

  datatype QueueClass = High | Medium | Low

  /** The class index used by `SelectQueueToSend` and `DoDequeue`. */
  function Index(c: QueueClass): (r: nat)
    ensures r < TOTAL_QUEUES
  {
    match c
    case High => 0
    case Medium => 1
    case Low => 2
  }

  /** `DoDequeue(choice)`: 0 names the high queue, 1 the medium one and any
      other value the low one. */
  function ClassOfChoice(choice: int): (c: QueueClass)
    ensures 0 <= choice < TOTAL_QUEUES ==> Index(c) == choice
    ensures (choice < 0 || choice >= TOTAL_QUEUES) ==> c == Low
  {
    if choice == 0 then High else if choice == 1 then Medium else Low
  }

  datatype TxQueue = TxQueue(high: Queue, medium: Queue, low: Queue)

  function Get(tq: TxQueue, c: QueueClass): Queue {
    match c
    case High => tq.high
    case Medium => tq.medium
    case Low => tq.low
  }

  function With(tq: TxQueue, c: QueueClass, q: Queue): (r: TxQueue)
    ensures Get(r, c) == q
    ensures forall d :: d != c ==> Get(r, d) == Get(tq, d)
  {
    match c
    case High => tq.(high := q)
    case Medium => tq.(medium := q)
    case Low => tq.(low := q)
  }

  /** `NdnPriorityTxQueue()`: three fresh queues weighted 3, 2 and 1. */
  function NewTxQueue(): (tq: TxQueue)
    ensures forall c :: Get(tq, c).items == [] && Get(tq, c).lastVft == 0
    ensures forall c :: Get(tq, c).maxSize == QUEUE_SIZE
    ensures Get(tq, High).weight == 3 && Get(tq, Medium).weight == 2 && Get(tq, Low).weight == 1
  {
    TxQueue(SetWeight(NewQueue(), 3), SetWeight(NewQueue(), 2), SetWeight(NewQueue(), 1))
  }

  function TotalWeight(tq: TxQueue): nat {
    tq.high.weight + tq.medium.weight + tq.low.weight
  }

  /** `GetFlowRate`: the class's share of the total weight. */
  function FlowRate(tq: TxQueue, c: QueueClass): (r: real)
    requires TotalWeight(tq) > 0
    ensures 0.0 <= r <= 1.0
  {
    var w, t := Get(tq, c).weight as real, TotalWeight(tq) as real;
    ShareBounds(w, t);
    w / t
  }

  lemma ShareBounds(w: real, t: real)
    requires 0.0 <= w <= t && t > 0.0
    ensures 0.0 <= w / t <= 1.0
  {
    assert (w / t) * t == w;
    assert t / t == 1.0;
  }

  /** The three flow rates of a queue set always add up to one. */
  lemma FlowRatesSumToOne(tq: TxQueue)
    requires TotalWeight(tq) > 0
    ensures FlowRate(tq, High) + FlowRate(tq, Medium) + FlowRate(tq, Low) == 1.0
  {
    var t := TotalWeight(tq) as real;
    var a, b, c := tq.high.weight as real, tq.medium.weight as real, tq.low.weight as real;
    assert a + b + c == t;
    SharesAdd(a, b, t);
    SharesAdd(a + b, c, t);
  }

  lemma SharesAdd(a: real, b: real, t: real)
    requires t != 0.0
    ensures a / t + b / t == (a + b) / t
  {
  }

  /** With the constructor's weights the shares are 1/2, 1/3 and 1/6. */
  lemma NewTxQueueFlowRates()
    ensures TotalWeight(NewTxQueue()) == 6
    ensures FlowRate(NewTxQueue(), High) == 0.5
    ensures FlowRate(NewTxQueue(), Medium) == 2.0 / 6.0
    ensures FlowRate(NewTxQueue(), Low) == 1.0 / 6.0
  {
  }

  /** The virtual-time increment `size * (1 - w / total)`, truncated. */
  function VftIncrement(size: nat, w: nat, total: nat): (r: nat)
    requires w <= total && total > 0
    ensures r <= size
  {
    DivBelow(size, total - w, total);
    (size * (total - w)) / total
  }

  lemma DivBelow(size: nat, d: nat, total: nat)
    requires d <= total && total > 0
    ensures 0 <= (size * d) / total <= size
  {
    var n := size * d;
    MulMonotone(size, d, total);
    var q, r := n / total, n % total;
    assert n == q * total + r && 0 <= r < total;
    assert (q - size) * total == q * total - size * total;
    assert (q + 1) * total == q * total + total;
    FactorSign(q - size, total);
    FactorSign(-(q + 1), total);
  }

  lemma MulMonotone(a: nat, b: nat, c: nat)
    requires b <= c
    ensures 0 <= a * b <= a * c
  {
  }

  /** A product with a positive factor has the sign of the other factor. */
  lemma FactorSign(x: int, t: int)
    requires t > 0
    ensures x * t <= 0 ==> x <= 0
  {
  }

  /** `UpdateTime`: the class's new last virtual finish time after a packet
      of `size` bytes enters at time `nowMs`. The float product is truncated
      when it is stored as an unsigned 64-bit count, which on the natural
      numbers is floor division. */
  function NextVft(tq: TxQueue, c: QueueClass, nowMs: nat, size: nat): (r: nat)
    requires TotalWeight(tq) > 0
    ensures r >= nowMs && r >= Get(tq, c).lastVft
    ensures r <= (if nowMs >= Get(tq, c).lastVft then nowMs else Get(tq, c).lastVft) + size
  {
    var start := if nowMs >= Get(tq, c).lastVft then nowMs else Get(tq, c).lastVft;
    start + VftIncrement(size, Get(tq, c).weight, TotalWeight(tq))
  }

  /** The integer update is the floor of the flow-rate formula
      `start + size * (1 - flowRate)`. */
  lemma NextVftIsFloorOfFlowRateFormula(tq: TxQueue, c: QueueClass, nowMs: nat, size: nat)
    requires TotalWeight(tq) > 0
    ensures var start := if nowMs >= Get(tq, c).lastVft then nowMs else Get(tq, c).lastVft;
            var exact := size as real * (1.0 - FlowRate(tq, c));
            var inc := (NextVft(tq, c, nowMs, size) - start) as real;
            inc <= exact < inc + 1.0
  {
    var t := TotalWeight(tq);
    var w := Get(tq, c).weight;
    NextVftUnfold(tq, c, nowMs, size);
    FloorOfRatio(size, w, t, FlowRate(tq, c));
  }

  lemma NextVftUnfold(tq: TxQueue, c: QueueClass, nowMs: nat, size: nat)
    requires TotalWeight(tq) > 0
    ensures var start := if nowMs >= Get(tq, c).lastVft then nowMs else Get(tq, c).lastVft;
            NextVft(tq, c, nowMs, size) - start == VftIncrement(size, Get(tq, c).weight, TotalWeight(tq))
  {
  }

  lemma FloorOfRatio(size: nat, w: nat, t: nat, f: real)
    requires w <= t && t > 0 && f == w as real / t as real
    ensures var inc := VftIncrement(size, w, t) as real;
            inc <= size as real * (1.0 - f) < inc + 1.0
  {
    ExactIsRatio(size, w, t);
    RealFloorDiv(size * (t - w), t);
  }

  lemma ExactIsRatio(size: nat, w: nat, t: nat)
    requires w <= t && t > 0
    ensures size as real * (1.0 - w as real / t as real) == (size * (t - w)) as real / t as real
  {
    var d: nat := t - w;
    var p: nat := size * d;
    CastProduct(size, d);
    ExactIsRatioReal(size as real, w as real, t as real, d as real, p as real);
  }

  lemma ExactIsRatioReal(s: real, w: real, t: real, d: real, p: real)
    requires t > 0.0 && d == t - w && p == s * d
    ensures s * (1.0 - w / t) == p / t
  {
    OneMinusShare(w, t);
    MulDiv(s, d, t);
  }

  lemma OneMinusShare(w: real, t: real)
    requires t != 0.0
    ensures 1.0 - w / t == (t - w) / t
  {
    assert (t - w) / t + w / t == t / t;
    assert t / t == 1.0;
  }

  lemma MulDiv(a: real, b: real, t: real)
    requires t != 0.0
    ensures a * (b / t) == (a * b) / t
  {
  }

  lemma RealFloorDiv(n: nat, t: nat)
    requires t > 0
    ensures (n / t) as real <= n as real / t as real < (n / t) as real + 1.0
  {
    var q, r := n / t, n % t;
    assert n == q * t + r && 0 <= r < t;
    CastProduct(q, t);
    FloorOfQuotient(q as real, r as real, t as real, n as real);
  }

  lemma FloorOfQuotient(q: real, r: real, t: real, n: real)
    requires t > 0.0 && 0.0 <= r < t && n == q * t + r
    ensures q <= n / t < q + 1.0
  {
    SharesAdd(q * t, r, t);
    assert (q * t) / t == q;
    OneMinusShare(t - r, t);
    PositiveShare(t - r, t);
  }

  lemma PositiveShare(a: real, t: real)
    requires a > 0.0 && t > 0.0
    ensures a / t > 0.0
  {
  }

  lemma CastProduct(a: nat, b: nat)
    ensures (a * b) as real == a as real * b as real
  {
  }

  /** `SelectQueueToSend`'s admission test: non-empty and more than one token. */
  predicate Qualifies(tq: TxQueue, c: QueueClass, tokens: ClassTokens) {
    |Get(tq, c).items| > 0 && tokens.Of(c) > 1
  }

  /** Token counts of one face, one per class in class order. */
  datatype ClassTokens = ClassTokens(high: int, medium: int, low: int) {
    function Of(c: QueueClass): int {
      match c
      case High => high
      case Medium => medium
      case Low => low
    }
  }

  /** `SelectQueueToSend`: among the qualifying classes, one with the smallest
      last virtual finish time; the strict comparisons keep the lower index on
      a tie. `None` stands for the source's -1. */
  function SelectQueueToSend(tq: TxQueue, tokens: ClassTokens): (r: Option<QueueClass>)
    ensures r.None? <==> forall c :: !Qualifies(tq, c, tokens)
    ensures r.Some? ==> Qualifies(tq, r.value, tokens)
    ensures r.Some? ==> forall c :: Qualifies(tq, c, tokens) ==>
              Get(tq, r.value).lastVft <= Get(tq, c).lastVft
    ensures r.Some? ==> forall c :: (Qualifies(tq, c, tokens) &&
              Get(tq, c).lastVft == Get(tq, r.value).lastVft) ==> Index(r.value) <= Index(c)
  {
    var s0 := if Qualifies(tq, High, tokens) then Some(High) else None;
    var s1 := if Qualifies(tq, Medium, tokens) &&
                 (s0.None? || Get(tq, s0.value).lastVft > tq.medium.lastVft)
              then Some(Medium) else s0;
    var s2 := if Qualifies(tq, Low, tokens) &&
                 (s1.None? || Get(tq, s1.value).lastVft > tq.low.lastVft)
              then Some(Low) else s1;
    s2
  }

  /** `DoEnqueue`'s priority mapping: 1-20 high, 21-40 medium, 41-64 low. */
  function ClassOfLevel(level: int): (r: Option<QueueClass>)
    ensures r == Some(High) <==> 1 <= level <= 20
    ensures r == Some(Medium) <==> 21 <= level <= 40
    ensures r == Some(Low) <==> 41 <= level <= 64
  {
    if 1 <= level <= 20 then Some(High)
    else if 21 <= level <= 40 then Some(Medium)
    else if 41 <= level <= 64 then Some(Low)
    else None
  }

  datatype TxEnqueueResult = TxEnqueueResult(ok: bool, tq: TxQueue)

  /** `DoEnqueue`: appends to the level's class queue and, only when that
      succeeds, advances the class's virtual finish time. */
  function DoEnqueue(tq: TxQueue, item: QueueItem, level: int, nowMs: nat): (r: TxEnqueueResult)
    requires TotalWeight(tq) > 0
    ensures r.ok <==> ClassOfLevel(level).Some? &&
                      |Get(tq, ClassOfLevel(level).value).items| < Get(tq, ClassOfLevel(level).value).maxSize
    ensures !r.ok ==> r.tq == tq
    ensures r.ok ==> var c := ClassOfLevel(level).value;
              && Get(r.tq, c).items == Get(tq, c).items + [item]
              && Get(r.tq, c).lastVft >= nowMs
              && Get(r.tq, c).lastVft >= Get(tq, c).lastVft
              && Get(r.tq, c).lastVft == NextVft(tq, c, nowMs, |item.wire|)
              && forall d :: d != c ==> Get(r.tq, d) == Get(tq, d)
    ensures forall c :: Get(r.tq, c).weight == Get(tq, c).weight
    ensures forall c :: Get(r.tq, c).maxSize == Get(tq, c).maxSize
    ensures TotalLen(r.tq) == TotalLen(tq) + (if r.ok then 1 else 0)
  {
    match ClassOfLevel(level)
    case None => TxEnqueueResult(false, tq)
    case Some(c) =>
      var e := Enqueue(Get(tq, c), item);
      if e.ok then
        TxEnqueueResult(true, With(tq, c, SetLastVirtualFinishTime(e.queue, NextVft(tq, c, nowMs, |item.wire|))))
      else TxEnqueueResult(false, tq)
  }

  function TotalLen(tq: TxQueue): nat {
    |tq.high.items| + |tq.medium.items| + |tq.low.items|
  }

  /** `IsEmpty`: all three class queues are empty. */
  predicate IsEmpty(tq: TxQueue)
    ensures IsEmpty(tq) <==> TotalLen(tq) == 0
  {
    QosQueue.IsEmpty(tq.high) && QosQueue.IsEmpty(tq.medium) && QosQueue.IsEmpty(tq.low)
  }

  datatype TxDequeueResult = TxDequeueResult(item: QueueItem, tq: TxQueue)

  /** `DoDequeue`: removes the head of the chosen class queue; nothing else
      changes. When every queue is empty the default item comes back. */
  function DoDequeue(tq: TxQueue, choice: int): (r: TxDequeueResult)
    ensures var c := ClassOfChoice(choice);
            && r.item == Dequeue(Get(tq, c)).item
            && Get(r.tq, c) == Dequeue(Get(tq, c)).queue
            && forall d :: d != c ==> Get(r.tq, d) == Get(tq, d)
    ensures |Get(tq, ClassOfChoice(choice)).items| > 0 ==> TotalLen(r.tq) + 1 == TotalLen(tq)
    ensures IsEmpty(tq) ==> r.item == DefaultItem() && r.tq == tq
  {
    if !IsEmpty(tq) then
      var c := ClassOfChoice(choice);
      var d := Dequeue(Get(tq, c));
      TxDequeueResult(d.item, With(tq, c, d.queue))
    else TxDequeueResult(DefaultItem(), tq)
  }

  /** `tokenReqHig` / `tokenReqMid` / `tokenReqLow`. */
  function TokenReq(tq: TxQueue, c: QueueClass): (r: int)
    ensures r == 1 <==> |Get(tq, c).items| > 0
    ensures r == 0 <==> |Get(tq, c).items| == 0
  {
    if |Get(tq, c).items| > 0 then 1 else 0
  }

  /** A selected class always has something to send, so dequeueing it
      removes exactly one item from the set. */
  lemma SelectedClassDequeuesOne(tq: TxQueue, tokens: ClassTokens)
    requires SelectQueueToSend(tq, tokens).Some?
    ensures var c := SelectQueueToSend(tq, tokens).value;
            TotalLen(DoDequeue(tq, Index(c)).tq) + 1 == TotalLen(tq)
            && DoDequeue(tq, Index(c)).item == Get(tq, c).items[0]
  {
  }
}
