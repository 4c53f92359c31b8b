/** A per-class token bucket shared by all faces of a node (`TokenBucket`). */
module TokenBucket {
  import opened QosQueue

  /** Token and need counts are doubles in the source but only ever take
      integral values (capacity is an int, refill adds 1, sends consume 1). */
  datatype Bucket = Bucket(
    tokens: map<FaceId, int>,
    need: map<FaceId, int>,
    capacity: int,
    hasFaces: bool)

  /** `TokenBucket()`. */
  function NewBucket(): (b: Bucket)
    ensures b.tokens == map[] && b.need == map[] && b.capacity == 0 && !b.hasFaces
  {
    Bucket(map[], map[], 0, false)
  }

  /** The token count a drain pass reads for `face`: an untracked face counts
      as holding a full bucket. */
  function Available(b: Bucket, face: FaceId): int {
    if face in b.tokens then b.tokens[face] else b.capacity
  }

  /** Every tracked count lies in `[lo, capacity]`. */
  predicate Bounded(b: Bucket, lo: int) {
    forall f :: f in b.tokens ==> lo <= b.tokens[f] <= b.capacity
  }

  /** `addToken`: one more token for every tracked face below capacity.
      Reading `m_need[face]` with `operator[]` also creates a zero need for
      every tracked face that had none. */
  function AddToken(b: Bucket): (r: Bucket)
    ensures r.tokens.Keys == b.tokens.Keys
    ensures forall f :: f in b.tokens && b.tokens[f] < b.capacity ==> r.tokens[f] == b.tokens[f] + 1
    ensures forall f :: f in b.tokens && b.tokens[f] >= b.capacity ==> r.tokens[f] == b.tokens[f]
    ensures r.need.Keys == b.need.Keys + b.tokens.Keys
    ensures forall f :: f in b.need ==> r.need[f] == b.need[f]
    ensures forall f :: f in r.need && f !in b.need ==> r.need[f] == 0
    ensures r.capacity == b.capacity && r.hasFaces == b.hasFaces
  {
    var tokens := map f | f in b.tokens :: if b.tokens[f] < b.capacity then b.tokens[f] + 1 else b.tokens[f];
    var need := map f | f in b.need.Keys + b.tokens.Keys :: if f in b.need then b.need[f] else 0;
    Bucket(tokens, need, b.capacity, b.hasFaces)
  }

  /** `consumeToken`: an untracked face first gets a full bucket; then the
      amount is subtracted with no lower clamp. No other face changes. */
  function ConsumeToken(b: Bucket, amount: int, face: FaceId): (r: Bucket)
    ensures r.tokens.Keys == b.tokens.Keys + {face}
    ensures r.tokens[face] == Available(b, face) - amount
    ensures forall f :: f in b.tokens && f != face ==> r.tokens[f] == b.tokens[f]
    ensures r.need == b.need && r.capacity == b.capacity && r.hasFaces == b.hasFaces
  {
    var start := if face in b.tokens then b.tokens[face] else b.capacity;
    b.(tokens := b.tokens[face := start - amount])
  }

  /** `m_need[face] = n`. */
  function SetNeed(b: Bucket, face: FaceId, n: int): (r: Bucket)
    ensures r.need == b.need[face := n]
    ensures r.tokens == b.tokens && r.capacity == b.capacity && r.hasFaces == b.hasFaces
  {
    b.(need := b.need[face := n])
  }

  /** Refilling keeps every count that starts in `[lo, capacity]` there, for
      any lower bound `lo`: refill never pushes a count past capacity. */
  lemma AddTokenKeepsBound(b: Bucket, lo: int)
    requires Bounded(b, lo)
    ensures Bounded(AddToken(b), lo)
  {
  }

  /** Refill moves a count toward capacity by at most one token. */
  lemma AddTokenStepsByOne(b: Bucket, face: FaceId)
    requires face in b.tokens
    ensures Available(AddToken(b), face) - Available(b, face) in {0, 1}
    ensures Available(AddToken(b), face) <= b.capacity || Available(AddToken(b), face) == Available(b, face)
  {
  }

  /** Consuming one token and then refilling restores the face's count,
      provided it was not above capacity. */
  lemma ConsumeThenRefillRestores(b: Bucket, face: FaceId)
    requires Available(b, face) <= b.capacity
    ensures Available(AddToken(ConsumeToken(b, 1, face)), face) == Available(b, face)
  {
  }

  /** The count is not clamped: consuming from an untracked face of a fresh
      bucket (capacity 0) leaves it negative. */
  lemma ConsumeCanGoNegative(face: FaceId)
    ensures Available(ConsumeToken(NewBucket(), 1, face), face) == -1
  {
  }
}
