/** QosStrategy2's per-prefix loss statistics (`FaceStats` in `m_faceStats`):
    per-face absolute and relative loss rates kept as exponentially weighted
    moving averages, and the bootstrap counter that gates their use. */
module LossEstimator {
  import opened Names
  import opened QosQueue
  import opened NextHops

  /** Weight of the newest sample in every loss-rate update. */
  const BETA: real := 0.833

  /** Sends a prefix must exceed before its statistics are trusted. */
  const BOOTSTRAP_SENDS: nat := 3

  /** One prefix's statistics. The latency fields of the source are never
      read or written by the strategy and are not modelled. */
  datatype FaceStats = FaceStats(
    abs: map<FaceId, real>,
    rel: map<FaceId, real>,
    bootstrapped: bool,
    totalSent: nat)

  /** `m_faceStats`, keyed by the prefix (its URI in the source). */
  type StatsTable = map<Name, FaceStats>

  /** `rates[f]` with `operator[]`: a face never seen reads as zero loss. */
  function Rate(rates: map<FaceId, real>, f: FaceId): (r: real)
    ensures f !in rates ==> r == 0.0
    ensures RatesIn01(rates) ==> 0.0 <= r <= 1.0
  {
    if f in rates then rates[f] else 0.0
  }

  predicate RatesIn01(rates: map<FaceId, real>) {
    forall f :: f in rates ==> 0.0 <= rates[f] <= 1.0
  }

  /** Every loss rate of the prefix is a probability. */
  predicate WellFormed(st: FaceStats) {
    RatesIn01(st.abs) && RatesIn01(st.rel)
  }

  /** The faces `initialize` seeds: next hops that are not the blocked
      arrival face of the entry's first in-record and do not violate scope. */
  predicate Seeded(hops: seq<NextHop>, frontFace: FaceId, f: FaceId) {
    exists i :: 0 <= i < |hops| && hops[i].face == f &&
                !SameFaceBlocked(hops[i], frontFace) && !hops[i].violatesScope
  }

  function SeededFaces(hops: seq<NextHop>, frontFace: FaceId): (r: set<FaceId>)
    ensures forall f :: f in r <==> Seeded(hops, frontFace, f)
  {
    set i | 0 <= i < |hops| && !SameFaceBlocked(hops[i], frontFace) && !hops[i].violatesScope :: hops[i].face
  }

  /** `initialize`: a fresh, not yet bootstrapped entry with zero loss on
      every usable next hop. */
  function Initialize(hops: seq<NextHop>, frontFace: FaceId): (st: FaceStats)
    ensures WellFormed(st) && !st.bootstrapped && st.totalSent == 0
    ensures forall f :: f in st.abs <==> Seeded(hops, frontFace, f)
    ensures forall f :: f in st.rel <==> Seeded(hops, frontFace, f)
    ensures forall f :: Rate(st.abs, f) == 0.0 && Rate(st.rel, f) == 0.0
  {
    var faces := SeededFaces(hops, frontFace);
    FaceStats(map f | f in faces :: 0.0, map f | f in faces :: 0.0, false, 0)
  }

  /** The bootstrap test of `afterReceiveInterest`: count one more send and
      trust the statistics once more than `BOOTSTRAP_SENDS` were counted. */
  function CountSend(st: FaceStats): (r: FaceStats)
    ensures r.totalSent == st.totalSent + 1
    ensures r.bootstrapped <==> st.bootstrapped || st.totalSent + 1 > BOOTSTRAP_SENDS
    ensures r.abs == st.abs && r.rel == st.rel
  {
    var n := st.totalSent + 1;
    st.(totalSent := n, bootstrapped := st.bootstrapped || n > BOOTSTRAP_SENDS)
  }

  /** `n` gated interests in a row: counting sends never touches the loss
      rates. */
  function CountSends(st: FaceStats, n: nat): (r: FaceStats)
    ensures r.abs == st.abs && r.rel == st.rel
    ensures n == 0 ==> r == st
    decreases n
  {
    if n == 0 then st else CountSends(CountSend(st), n - 1)
  }

  /** A fresh entry is bootstrapped exactly from its fourth gated interest on. */
  lemma {:induction false} BootstrapAfterFourthSend(st: FaceStats, n: nat)
    requires !st.bootstrapped && st.totalSent == 0
    ensures CountSends(st, n).bootstrapped <==> n > BOOTSTRAP_SENDS
    ensures CountSends(st, n).totalSent == n
  {
    CountSendsFrom(st, n);
  }

  lemma {:induction false} CountSendsFrom(st: FaceStats, n: nat)
    ensures CountSends(st, n).totalSent == st.totalSent + n
    ensures CountSends(st, n).bootstrapped <==> st.bootstrapped || (n > 0 && st.totalSent + n > BOOTSTRAP_SENDS)
    decreases n
  {
    if n > 0 {
      CountSendsFrom(CountSend(st), n - 1);
    }
  }

  /** `getFaceProb`: zero before bootstrap, otherwise one minus the face's
      absolute loss rate, or its relative loss rate when `relative` is set.
      A fan-out pass reads the first fresh candidate of the pass with the
      absolute rate and every later candidate of that pass with the relative
      rate. */
  function FaceProb(st: FaceStats, f: FaceId, relative: bool): (r: real)
    ensures !st.bootstrapped ==> r == 0.0
    ensures WellFormed(st) ==> 0.0 <= r <= 1.0
    ensures st.bootstrapped && !relative ==> r + Rate(st.abs, f) == 1.0
    ensures st.bootstrapped && relative ==> r + Rate(st.rel, f) == 1.0
  {
    if !st.bootstrapped then 0.0
    else if !relative then 1.0 - Rate(st.abs, f)
    else 1.0 - Rate(st.rel, f)
  }

  /** A successful retrieval: `beta * 0 + (1 - beta) * x`. */
  function Decay(x: real): (r: real)
    ensures 0.0 <= x <= 1.0 ==> 0.0 <= r <= x
    ensures x > 0.0 ==> r < x
    ensures x == 0.0 ==> r == 0.0
  {
    BETA * 0.0 + (1.0 - BETA) * x
  }

  /** A loss: `beta * 1 + (1 - beta) * x`. */
  function TowardOne(x: real): (r: real)
    ensures 0.0 <= x <= 1.0 ==> x <= r <= 1.0
    ensures x < 1.0 ==> r > x
    ensures x == 1.0 ==> r == 1.0
  {
    BETA * 1.0 + (1.0 - BETA) * x
  }

  function MarkLoss(rates: map<FaceId, real>, f: FaceId): (r: map<FaceId, real>)
    ensures r.Keys == rates.Keys + {f}
    ensures r[f] == TowardOne(Rate(rates, f))
    ensures forall g :: g in rates && g != f ==> r[g] == rates[g]
    ensures RatesIn01(rates) ==> RatesIn01(r)
  {
    rates[f := TowardOne(Rate(rates, f))]
  }

  /** The loop over out-records in `beforeSatisfyInterest`: every upstream
      other than the one that answered is charged a loss, on its absolute
      rate only. */
  function ChargeOthers(rates: map<FaceId, real>, inFace: FaceId, outs: seq<FaceId>): (r: map<FaceId, real>)
    ensures forall g :: g in r <==> g in rates || (g in outs && g != inFace)
    ensures forall g :: g !in outs ==> Rate(r, g) == Rate(rates, g)
    ensures Rate(r, inFace) == Rate(rates, inFace)
    ensures RatesIn01(rates) ==> RatesIn01(r)
    ensures RatesIn01(rates) ==> forall g :: Rate(rates, g) <= Rate(r, g)
    ensures RatesIn01(rates) ==> forall g :: g in outs && g != inFace ==> TowardOne(Rate(rates, g)) <= Rate(r, g)
    ensures Distinct(outs) ==> forall g :: g in outs && g != inFace ==> Rate(r, g) == TowardOne(Rate(rates, g))
    decreases |outs|
  {
    if |outs| == 0 then rates
    else
      var next := if outs[0] == inFace then rates else MarkLoss(rates, outs[0]);
      var rest := ChargeOthers(next, inFace, outs[1..]);
      assert forall g :: g in outs <==> g == outs[0] || g in outs[1..];
      DistinctTail(outs);
      rest
  }

  /** The tail of a list without repeats has none either, and lacks the head. */
  lemma DistinctTail(outs: seq<FaceId>)
    requires |outs| > 0
    ensures Distinct(outs) ==> Distinct(outs[1..]) && outs[0] !in outs[1..]
  {
    if Distinct(outs) {
      forall j | 0 <= j < |outs| - 1 ensures outs[1..][j] != outs[0] {
        assert outs[1..][j] == outs[j + 1];
      }
    }
  }

  /** `beforeSatisfyInterest` on one prefix's statistics: the answering face
      is credited a success on both rates; every other upstream of the entry
      is charged a loss on its absolute rate. */
  function SatisfyUpdate(st: FaceStats, inFace: FaceId, outs: seq<FaceId>): (r: FaceStats)
    ensures WellFormed(st) ==> WellFormed(r)
    ensures Rate(r.abs, inFace) == Decay(Rate(st.abs, inFace))
    ensures r.rel == st.rel[inFace := Decay(Rate(st.rel, inFace))]
    ensures WellFormed(st) ==> forall g :: g != inFace ==> Rate(st.abs, g) <= Rate(r.abs, g)
    ensures WellFormed(st) ==> forall g :: g in outs && g != inFace ==> TowardOne(Rate(st.abs, g)) <= Rate(r.abs, g)
    ensures Distinct(outs) ==> forall g :: g in outs && g != inFace ==> Rate(r.abs, g) == TowardOne(Rate(st.abs, g))
    ensures forall g :: g != inFace && g !in outs ==> Rate(r.abs, g) == Rate(st.abs, g)
    ensures r.bootstrapped == st.bootstrapped && r.totalSent == st.totalSent
  {
    var abs := st.abs[inFace := Decay(Rate(st.abs, inFace))];
    var rel := st.rel[inFace := Decay(Rate(st.rel, inFace))];
    st.(abs := ChargeOthers(abs, inFace, outs), rel := rel)
  }

  /** `beforeExpirePendingInterest` AS WRITTEN: the second statement of the
      loop overwrites the absolute rate with a loss applied to the relative
      rate, which itself is never updated on expiry. */
  function ExpireAsWritten(st: FaceStats, outs: seq<FaceId>): (r: FaceStats)
    ensures forall g :: g in outs ==> Rate(r.abs, g) == TowardOne(Rate(st.rel, g))
    ensures forall g :: g !in outs ==> Rate(r.abs, g) == Rate(st.abs, g)
    ensures r.rel == st.rel
    ensures WellFormed(st) ==> WellFormed(r)
    ensures r.bootstrapped == st.bootstrapped && r.totalSent == st.totalSent
    decreases |outs|
  {
    if |outs| == 0 then st
    else
      var f := outs[0];
      var first := st.abs[f := TowardOne(Rate(st.abs, f))];
      var second := first[f := TowardOne(Rate(st.rel, f))];
      assert forall g :: g in outs <==> g == f || g in outs[1..];
      ExpireAsWritten(st.(abs := second), outs[1..])
  }

  /** An expiry is a loss on every upstream, yet as written it can lower the
      absolute loss estimate: a face at loss 1 whose relative rate is 0 ends
      at 0.833. */
  lemma ExpireAsWrittenCanLowerLoss(f: FaceId)
    ensures var st := FaceStats(map[f := 1.0], map[f := 0.0], true, 4);
            var r := ExpireAsWritten(st, [f]);
            Rate(r.abs, f) == 0.833 && Rate(r.abs, f) < Rate(st.abs, f)
  {
  }

  /** Charges every face of `outs` a loss. */
  function MarkLosses(rates: map<FaceId, real>, outs: seq<FaceId>): (r: map<FaceId, real>)
    ensures forall g :: g in r <==> g in rates || g in outs
    ensures forall g :: g !in outs ==> Rate(r, g) == Rate(rates, g)
    ensures RatesIn01(rates) ==> RatesIn01(r)
    ensures RatesIn01(rates) ==> forall g :: Rate(rates, g) <= Rate(r, g)
    ensures RatesIn01(rates) ==> forall g :: g in outs ==> TowardOne(Rate(rates, g)) <= Rate(r, g)
    ensures Distinct(outs) ==> forall g :: g in outs ==> Rate(r, g) == TowardOne(Rate(rates, g))
    decreases |outs|
  {
    if |outs| == 0 then rates
    else
      var rest := MarkLosses(MarkLoss(rates, outs[0]), outs[1..]);
      assert forall g :: g in outs <==> g == outs[0] || g in outs[1..];
      DistinctTail(outs);
      rest
  }

  /** `beforeExpirePendingInterest` as evidently intended: an expiry charges
      every upstream a loss on both its absolute and its relative rate. */
  function ExpireUpdate(st: FaceStats, outs: seq<FaceId>): (r: FaceStats)
    ensures WellFormed(st) ==> WellFormed(r)
    ensures WellFormed(st) ==> forall g :: g in outs ==>
              TowardOne(Rate(st.abs, g)) <= Rate(r.abs, g) && TowardOne(Rate(st.rel, g)) <= Rate(r.rel, g)
    ensures WellFormed(st) ==> forall g :: Rate(st.abs, g) <= Rate(r.abs, g) && Rate(st.rel, g) <= Rate(r.rel, g)
    ensures Distinct(outs) ==> forall g :: g in outs ==>
              Rate(r.abs, g) == TowardOne(Rate(st.abs, g)) && Rate(r.rel, g) == TowardOne(Rate(st.rel, g))
    ensures forall g :: g !in outs ==> Rate(r.abs, g) == Rate(st.abs, g) && Rate(r.rel, g) == Rate(st.rel, g)
    ensures r.bootstrapped == st.bootstrapped && r.totalSent == st.totalSent
  {
    st.(abs := MarkLosses(st.abs, outs), rel := MarkLosses(st.rel, outs))
  }

  /** The corrected expiry never lowers a loss estimate: in particular the
      case that the as-written update gets wrong now stays at 1. */
  lemma ExpireUpdateKeepsLoss(f: FaceId)
    ensures var st := FaceStats(map[f := 1.0], map[f := 0.0], true, 4);
            Rate(ExpireUpdate(st, [f]).abs, f) == 1.0
  {
    var st := FaceStats(map[f := 1.0], map[f := 0.0], true, 4);
    assert WellFormed(st);
    assert f in [f];
  }

  /** The key `afterReceiveInterest` files statistics under: the interest
      name without its last component. */
  function StatsKey(name: Name): (r: Name)
    ensures |name| >= 1 ==> |r| == |name| - 1
    ensures r <= name
  {
    DropLast(name, 1)
  }

  /** The key the satisfy and expiry handlers use AS WRITTEN: the name
      without its last two components. */
  function StatsKeyAsWritten(name: Name): (r: Name)
    ensures |name| >= 2 ==> |r| == |name| - 2
  {
    DropLast(name, 2)
  }

  /** Every loss rate in the table is a probability. */
  predicate TableWellFormed(tbl: StatsTable) {
    forall k :: k in tbl ==> WellFormed(tbl[k])
  }

  /** Applies an update to one prefix's statistics if the prefix is known;
      an unknown prefix leaves the table as it is. */
  function UpdateEntry(tbl: StatsTable, key: Name, st: FaceStats): (r: StatsTable)
    ensures key in tbl ==> r == tbl[key := st]
    ensures key !in tbl ==> r == tbl
  {
    if key in tbl then tbl[key := st] else tbl
  }

  /** `beforeSatisfyInterest` AS WRITTEN, keyed by the data name minus two components. */
  function OnSatisfyAsWritten(tbl: StatsTable, dataName: Name, inFace: FaceId, outs: seq<FaceId>): (r: StatsTable)
    ensures r.Keys == tbl.Keys
    ensures forall k :: k in tbl && k != StatsKeyAsWritten(dataName) ==> r[k] == tbl[k]
    ensures StatsKeyAsWritten(dataName) in tbl ==>
              r[StatsKeyAsWritten(dataName)] == SatisfyUpdate(tbl[StatsKeyAsWritten(dataName)], inFace, outs)
    ensures TableWellFormed(tbl) ==> TableWellFormed(r)
  {
    var key := StatsKeyAsWritten(dataName);
    if key in tbl then UpdateEntry(tbl, key, SatisfyUpdate(tbl[key], inFace, outs)) else tbl
  }

  /** As written, answering an interest whose name has at least two
      components never touches the statistics its own forwarding reads. */
  lemma SatisfyAsWrittenMissesOwnEntry(tbl: StatsTable, name: Name, inFace: FaceId, outs: seq<FaceId>)
    ensures |name| >= 2 && StatsKey(name) in tbl ==>
              OnSatisfyAsWritten(tbl, name, inFace, outs)[StatsKey(name)] == tbl[StatsKey(name)]
  {
    if |name| >= 2 {
      DropLastDistinct(name);
    }
  }

  /** `beforeExpirePendingInterest` AS WRITTEN: keyed by the name minus two
      components, with the overwriting update of `ExpireAsWritten`. */
  function OnExpireAsWritten(tbl: StatsTable, name: Name, outs: seq<FaceId>): (r: StatsTable)
    ensures r.Keys == tbl.Keys
    ensures forall k :: k in tbl && k != StatsKeyAsWritten(name) ==> r[k] == tbl[k]
    ensures StatsKeyAsWritten(name) in tbl ==>
              r[StatsKeyAsWritten(name)] == ExpireAsWritten(tbl[StatsKeyAsWritten(name)], outs)
    ensures TableWellFormed(tbl) ==> TableWellFormed(r)
  {
    var key := StatsKeyAsWritten(name);
    if key in tbl then UpdateEntry(tbl, key, ExpireAsWritten(tbl[key], outs)) else tbl
  }

  /** As written, the expiry of an entry whose name has at least two
      components never touches the statistics its forwarding filed. */
  lemma ExpireAsWrittenMissesOwnEntry(tbl: StatsTable, name: Name, outs: seq<FaceId>)
    ensures |name| >= 2 && StatsKey(name) in tbl ==>
              OnExpireAsWritten(tbl, name, outs)[StatsKey(name)] == tbl[StatsKey(name)]
  {
    if |name| >= 2 {
      DropLastDistinct(name);
    }
  }

  /** `beforeSatisfyInterest` with the corrected key: the entry read when the
      interest was forwarded is the one updated. */
  function OnSatisfyCorrected(tbl: StatsTable, name: Name, inFace: FaceId, outs: seq<FaceId>): (r: StatsTable)
    ensures r.Keys == tbl.Keys
    ensures forall k :: k in tbl && k != StatsKey(name) ==> r[k] == tbl[k]
    ensures StatsKey(name) in tbl ==> r[StatsKey(name)] == SatisfyUpdate(tbl[StatsKey(name)], inFace, outs)
  {
    var key := StatsKey(name);
    if key in tbl then UpdateEntry(tbl, key, SatisfyUpdate(tbl[key], inFace, outs)) else tbl
  }

  /** `beforeExpirePendingInterest` with the corrected key and update. */
  function OnExpireCorrected(tbl: StatsTable, name: Name, outs: seq<FaceId>): (r: StatsTable)
    ensures r.Keys == tbl.Keys
    ensures forall k :: k in tbl && k != StatsKey(name) ==> r[k] == tbl[k]
    ensures StatsKey(name) in tbl ==> r[StatsKey(name)] == ExpireUpdate(tbl[StatsKey(name)], outs)
  {
    var key := StatsKey(name);
    if key in tbl then UpdateEntry(tbl, key, ExpireUpdate(tbl[key], outs)) else tbl
  }

  /** Satisfy and expiry updates keep every loss rate a probability. */
  lemma UpdatesKeepRatesProbabilities(tbl: StatsTable, name: Name, inFace: FaceId, outs: seq<FaceId>)
    requires TableWellFormed(tbl)
    ensures TableWellFormed(OnSatisfyCorrected(tbl, name, inFace, outs))
    ensures TableWellFormed(OnExpireCorrected(tbl, name, outs))
  {
  }
}
