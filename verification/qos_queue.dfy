/** One bounded FIFO class queue (`QosQueue`) and the item it stores. */
module QosQueue {
  import opened Wrappers

  type FaceId = nat

  /** No face occurs twice. */
  predicate Distinct(xs: seq<FaceId>) {
    forall a, b :: 0 <= a < b < |xs| ==> xs[a] != xs[b]
  }

  /** Opaque handle of a pending-interest table entry. */
  type PitRef = nat
  newtype Byte = x: int | 0 <= x < 256

  /** Default capacity of every class queue. */
  const QUEUE_SIZE: nat := 10

  datatype PacketKind = Invalid | Interest | Data | Nack

  /** The numeric value of each packet kind in the source enumeration. */
  function KindCode(k: PacketKind): (r: int)
    ensures -1 <= r <= 2
    ensures r == -1 <==> k == Invalid
  {
    match k
    case Invalid => -1
    case Interest => 0
    case Data => 1
    case Nack => 2
  }

  /** A queued packet: its wire encoding, its kind, the pending entry it
      belongs to and the faces it arrived on and leaves through. */
  datatype QueueItem = QueueItem(
    wire: seq<Byte>,
    kind: PacketKind,
    pitEntry: Option<PitRef>,
    inFace: Option<FaceId>,
    outFace: Option<FaceId>)

  /** `QueueItem()`: what the queue hands out when it has nothing. */
  function DefaultItem(): QueueItem {
    QueueItem([], Invalid, None, None, None)
  }

  /** `QueueItem(&pitEntry)`: only the pending entry is set; the caller fills
      in kind, wire and faces afterwards. */
  function ItemFor(pe: PitRef): QueueItem {
    QueueItem([], Invalid, Some(pe), None, None)
  }

  datatype Queue = Queue(
    items: seq<QueueItem>,  // head first
    maxSize: nat,
    weight: nat,
    lastVft: nat)
  {
    /** The capacity invariant the strategies rely on. */
    predicate WithinCapacity() {
      |items| <= maxSize
    }
  }

  /** `QosQueue()`. */
  function NewQueue(): (q: Queue)
    ensures q.items == [] && q.maxSize == QUEUE_SIZE && q.weight == 0 && q.lastVft == 0
  {
    Queue([], QUEUE_SIZE, 0, 0)
  }

  function SetMaxQueueSize(q: Queue, size: nat): (r: Queue)
    ensures r.maxSize == size
    ensures r.items == q.items && r.weight == q.weight && r.lastVft == q.lastVft
  {
    q.(maxSize := size)
  }

  function SetWeight(q: Queue, weight: nat): (r: Queue)
    ensures r.weight == weight
    ensures r.items == q.items && r.maxSize == q.maxSize && r.lastVft == q.lastVft
  {
    q.(weight := weight)
  }

  function SetLastVirtualFinishTime(q: Queue, lvft: nat): (r: Queue)
    ensures r.lastVft == lvft
    ensures r.items == q.items && r.maxSize == q.maxSize && r.weight == q.weight
  {
    q.(lastVft := lvft)
  }

  /** `IsEmpty`: a queue is empty exactly when a dequeue hands out the
      default item and leaves it as it was. */
  predicate IsEmpty(q: Queue): (r: bool)
    ensures r <==> Dequeue(q).queue == q
    ensures r ==> Dequeue(q).item == DefaultItem()
  {
    |q.items| == 0
  }

  datatype EnqueueResult = EnqueueResult(ok: bool, queue: Queue)

  /** `Enqueue`: appends at the back unless the queue is full. */
  function Enqueue(q: Queue, item: QueueItem): (r: EnqueueResult)
    ensures r.ok <==> |q.items| < q.maxSize
    ensures r.ok ==> r.queue.items == q.items + [item]
    ensures !r.ok ==> r.queue == q
    ensures r.queue.maxSize == q.maxSize && r.queue.weight == q.weight
    ensures r.queue.lastVft == q.lastVft
    ensures q.WithinCapacity() ==> r.queue.WithinCapacity()
  {
    if |q.items| < q.maxSize then EnqueueResult(true, q.(items := q.items + [item]))
    else EnqueueResult(false, q)
  }

  datatype DequeueResult = DequeueResult(item: QueueItem, queue: Queue)

  /** `Dequeue`: removes and returns the head; on an empty queue returns the
      default item and changes nothing. */
  function Dequeue(q: Queue): (r: DequeueResult)
    ensures |q.items| > 0 ==> r.item == q.items[0] && r.queue.items == q.items[1..]
    ensures |q.items| > 0 ==> |r.queue.items| == |q.items| - 1
    ensures |q.items| == 0 ==> r.item == DefaultItem() && r.queue == q
    ensures r.item.kind == Invalid ==> |q.items| == 0 || q.items[0].kind == Invalid
    ensures r.queue.maxSize == q.maxSize && r.queue.weight == q.weight
    ensures r.queue.lastVft == q.lastVft
  {
    if |q.items| > 0 then DequeueResult(q.items[0], q.(items := q.items[1..]))
    else DequeueResult(DefaultItem(), q)
  }

  /** `GetFirstElement`: what `Dequeue` would hand out, without removing it. */
  function GetFirstElement(q: Queue): (r: QueueItem)
    ensures r == Dequeue(q).item
    ensures IsEmpty(q) ==> r.kind == Invalid && r.pitEntry == None
    ensures IsEmpty(q) ==> r.inFace == None && r.outFace == None
  {
    if |q.items| > 0 then q.items[0] else DefaultItem()
  }

  /** Enqueues `xs` one by one, ignoring failures as the strategies do. */
  function EnqueueAll(q: Queue, xs: seq<QueueItem>): Queue
    decreases |xs|
  {
    if |xs| == 0 then q else EnqueueAll(Enqueue(q, xs[0]).queue, xs[1..])
  }

  /** Dequeues `n` times and collects the items. */
  function DequeueN(q: Queue, n: nat): seq<QueueItem>
    decreases n
  {
    if n == 0 then [] else [Dequeue(q).item] + DequeueN(Dequeue(q).queue, n - 1)
  }

  /** While there is room, enqueueing a batch appends all of it in order. */
  lemma {:induction false} EnqueueAllAppends(q: Queue, xs: seq<QueueItem>)
    requires |q.items| + |xs| <= q.maxSize
    ensures EnqueueAll(q, xs).items == q.items + xs
    ensures EnqueueAll(q, xs).maxSize == q.maxSize
    decreases |xs|
  {
    if |xs| > 0 {
      var q1 := Enqueue(q, xs[0]).queue;
      assert q1.items == q.items + [xs[0]];
      EnqueueAllAppends(q1, xs[1..]);
      assert q.items + [xs[0]] + xs[1..] == q.items + xs;
    }
  }

  /** Dequeueing `n` times returns the first `n` items in queue order. */
  lemma {:induction false} DequeueNIsPrefix(q: Queue, n: nat)
    requires n <= |q.items|
    ensures DequeueN(q, n) == q.items[..n]
    decreases n
  {
    if n > 0 {
      var d := Dequeue(q);
      DequeueNIsPrefix(d.queue, n - 1);
      assert d.queue.items[..n - 1] == q.items[1..n];
      assert [q.items[0]] + q.items[1..n] == q.items[..n];
    }
  }

  /** FIFO round trip: whatever is enqueued into a fresh queue, up to its
      capacity, comes back out unchanged and in insertion order. */
  lemma FifoRoundTrip(xs: seq<QueueItem>)
    requires |xs| <= QUEUE_SIZE
    ensures DequeueN(EnqueueAll(NewQueue(), xs), |xs|) == xs
  {
    EnqueueAllAppends(NewQueue(), xs);
    DequeueNIsPrefix(EnqueueAll(NewQueue(), xs), |xs|);
    assert EnqueueAll(NewQueue(), xs).items[..|xs|] == xs;
  }

  /** A fresh queue takes exactly `QUEUE_SIZE` items: the next enqueue fails
      and leaves the queue as it was. */
  lemma FreshQueueHoldsQueueSize(xs: seq<QueueItem>, extra: QueueItem)
    requires |xs| == QUEUE_SIZE
    ensures !Enqueue(EnqueueAll(NewQueue(), xs), extra).ok
    ensures Enqueue(EnqueueAll(NewQueue(), xs), extra).queue == EnqueueAll(NewQueue(), xs)
  {
    EnqueueAllAppends(NewQueue(), xs);
  }
}
