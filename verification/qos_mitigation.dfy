/** `QosMitigation`: watches the prefixes of the last hundred satisfied or
    expired interests, keeps an aggregate loss estimate, and when losses run
    high marks the most frequent prefix as suspicious; interests under a
    suspicious prefix that keeps losing are demoted to the lowest class. */
module QosMitigation {
  import opened Names
  import opened LossEstimator

  /** Length of the sliding window of recent prefixes. */
  const WINDOW: nat := 100
  /** Aggregate loss above which the window is searched for a culprit. */
  const ALARM_LEVEL: real := 0.6
  /** Estimate above which a monitored prefix is demoted. */
  const DEMOTE_LEVEL: real := 0.8
  /** Class index a demoted interest gets. */
  const DEMOTED_TYPE: int := 3
  /** The success targets the strategy configures, one per class index. */
  const SUCCESS_TARGETS: seq<real> := [1.0, 1.0, 0.4, 0.0]

  /** `lastHundred`, `monitored` and `totalLossRate`. */
  datatype Mitigation = Mitigation(window: seq<Name>, monitored: map<Name, real>, totalLossRate: real)

  predicate Valid(m: Mitigation) {
    && |m.window| <= WINDOW
    && 0.0 <= m.totalLossRate <= 1.0
    && forall p :: p in m.monitored ==> 0.0 <= m.monitored[p] <= 1.0
  }

  function Initial(): (m: Mitigation)
    ensures Valid(m)
  {
    Mitigation([], map[], 0.0)
  }

  /** `pkt.getSubName(0, pkt.size() - 1)`. */
  function PrefixOf(name: Name): (r: Name)
    ensures |name| == 0 ==> r == []
    ensures |name| > 0 ==> r + [name[|name| - 1]] == name
  {
    DropLast(name, 1)
  }

  /** `getPrType`: a name under a monitored prefix whose estimate exceeds
      the demotion level gets the lowest class; anything else keeps the
      class `base` the underlying strategy assigns. */
  function PrType(m: Mitigation, name: Name, base: int): (r: int)
    ensures PrefixOf(name) in m.monitored && m.monitored[PrefixOf(name)] > DEMOTE_LEVEL ==> r == DEMOTED_TYPE
    ensures !(PrefixOf(name) in m.monitored && m.monitored[PrefixOf(name)] > DEMOTE_LEVEL) ==> r == base
  {
    var p := PrefixOf(name);
    if p in m.monitored && m.monitored[p] > DEMOTE_LEVEL then DEMOTED_TYPE else base
  }

  /** The success target an interest is held to once classified: the entry of
      the configured targets at its class index. Demotion never raises it,
      and a demoted interest carries no delivery requirement at all. */
  function SuccessTarget(m: Mitigation, name: Name, base: nat): (r: real)
    requires base < |SUCCESS_TARGETS|
    ensures r <= SUCCESS_TARGETS[base]
    ensures 0.0 <= r
    ensures PrefixOf(name) in m.monitored && m.monitored[PrefixOf(name)] > DEMOTE_LEVEL ==> r == 0.0
  {
    SUCCESS_TARGETS[PrType(m, name, base)]
  }

  /** `push_back` then drop the oldest entry once the window overflows. */
  function Push(window: seq<Name>, p: Name): (r: seq<Name>)
    requires |window| <= WINDOW
    ensures |r| <= WINDOW && |r| > 0 && r[|r| - 1] == p
    ensures |window| < WINDOW ==> r == window + [p]
    ensures |window| == WINDOW ==> r == window[1..] + [p]
  {
    var w := window + [p];
    if |w| > WINDOW then w[1..] else w
  }

  /** A retrieval under `name`: the prefix's estimate, or the aggregate when
      the prefix is not monitored, decays toward 0. */
  function OnSatisfy(m: Mitigation, name: Name): (r: Mitigation)
    requires Valid(m)
    ensures Valid(r)
    ensures r.window == Push(m.window, PrefixOf(name))
    ensures r.monitored.Keys == m.monitored.Keys
    ensures PrefixOf(name) in m.monitored ==>
              r.monitored[PrefixOf(name)] <= m.monitored[PrefixOf(name)] && r.totalLossRate == m.totalLossRate
    ensures PrefixOf(name) !in m.monitored ==> r.monitored == m.monitored && r.totalLossRate <= m.totalLossRate
    ensures PrefixOf(name) in m.monitored ==> r.monitored[PrefixOf(name)] == Decay(m.monitored[PrefixOf(name)])
    ensures PrefixOf(name) !in m.monitored ==> r.totalLossRate == Decay(m.totalLossRate)
    ensures forall p :: p in m.monitored && p != PrefixOf(name) ==> r.monitored[p] == m.monitored[p]
  {
    var p := PrefixOf(name);
    var w := Push(m.window, p);
    if p in m.monitored then Mitigation(w, m.monitored[p := Decay(m.monitored[p])], m.totalLossRate)
    else Mitigation(w, m.monitored, Decay(m.totalLossRate))
  }

  /** Occurrences of `x` in `w`. */
  function Occurrences(w: seq<Name>, x: Name): nat
    decreases |w|
  {
    if |w| == 0 then 0
    else Occurrences(w[..|w| - 1], x) + (if w[|w| - 1] == x then 1 else 0)
  }

  lemma OccurrencesStep(w: seq<Name>, i: nat, x: Name)
    requires i < |w|
    ensures Occurrences(w[..i + 1], x) == Occurrences(w[..i], x) + (if w[i] == x then 1 else 0)
  {
    assert w[..i + 1][..i] == w[..i];
  }

  /** The most frequent prefix, its count, and the prefix length `at` by
      which it had reached that count. */
  datatype Popular = Popular(name: Name, count: nat, at: nat)

  /** The prefix `w[..i]` has been scanned; `best` first reached the
      running maximum `maxCount` within the first `at` entries, strictly
      ahead of every other prefix. */
  ghost predicate Leader(w: seq<Name>, i: nat, p: Popular)
    requires i <= |w|
  {
    && (forall x :: Occurrences(w[..i], x) <= p.count)
    && p.at <= i
    && (p.count == 0 <==> i == 0)
    && (p.count > 0 ==> p.at > 0 && Occurrences(w[..p.at], p.name) == p.count &&
                        forall x :: x != p.name ==> Occurrences(w[..p.at], x) < p.count)
  }

  /** The counting loop of `findSusFlow` from position `i` on: a prefix
      replaces the leader only when its running count strictly exceeds the
      maximum so far, so among equally frequent prefixes the first to reach
      the count wins. */
  function ScanPopular(w: seq<Name>, i: nat, lead: Popular): (r: Popular)
    requires i <= |w| && Leader(w, i, lead)
    ensures Leader(w, |w|, r)
    decreases |w| - i
  {
    if i == |w| then lead
    else
      var next := NextLeader(w, i, lead);
      LeaderStep(w, i, lead);
      ScanPopular(w, i + 1, next)
  }

  /** One iteration: count `w[i]` and compare with strict `>`. */
  function NextLeader(w: seq<Name>, i: nat, lead: Popular): Popular
    requires i < |w|
  {
    var c := Occurrences(w[..i + 1], w[i]);
    if c > lead.count then Popular(w[i], c, i + 1) else lead
  }

  lemma LeaderStep(w: seq<Name>, i: nat, lead: Popular)
    requires i < |w| && Leader(w, i, lead)
    ensures Leader(w, i + 1, NextLeader(w, i, lead))
  {
    var before, after := w[..i], w[..i + 1];
    var c := Occurrences(after, w[i]);
    forall x ensures Occurrences(after, x) == Occurrences(before, x) + (if w[i] == x then 1 else 0) {
      OccurrencesStep(w, i, x);
    }
    var next := NextLeader(w, i, lead);
    forall x ensures Occurrences(after, x) <= next.count {
      assert Occurrences(before, x) <= lead.count;
    }
    if c > lead.count {
      forall x | x != w[i] ensures Occurrences(after, x) < c {
        assert Occurrences(before, x) <= lead.count;
      }
    }
  }

  function MostPopular(w: seq<Name>): (r: Popular)
    ensures forall x :: Occurrences(w, x) <= r.count
    ensures r.at <= |w|
    ensures |w| == 0 ==> r.name == []
  {
    assert w[..0] == [];
    assert w[..|w|] == w;
    ScanPopular(w, 0, Popular([], 0, 0))
  }

  /** The prefix `findSusFlow` picks occurs in the window at least as often
      as any other, and got to its count strictly before every other prefix
      did. An empty window gives the empty name. */
  lemma MostPopularIsFirstMaximum(w: seq<Name>)
    ensures var r := MostPopular(w);
            && (|w| == 0 ==> r.name == [])
            && (|w| > 0 ==> r.name in w && r.count == Occurrences(w, r.name))
            && (forall x :: Occurrences(w, x) <= r.count)
            && r.at <= |w|
            && (|w| > 0 ==> forall x :: x != r.name ==> Occurrences(w[..r.at], x) < r.count)
  {
    var r := MostPopular(w);
    assert w[..|w|] == w;
    if |w| > 0 {
      OccurrencesGrow(w, r.at, r.name);
      if r.name !in w {
        OccurrencesAbsent(w[..r.at], r.name);
      }
    }
  }

  lemma {:induction false} OccurrencesGrow(w: seq<Name>, k: nat, x: Name)
    requires k <= |w|
    ensures Occurrences(w[..k], x) <= Occurrences(w, x)
    decreases |w| - k
  {
    if k < |w| {
      OccurrencesStep(w, k, x);
      OccurrencesGrow(w, k + 1, x);
    } else {
      assert w[..k] == w;
    }
  }

  lemma {:induction false} OccurrencesAbsent(w: seq<Name>, x: Name)
    requires x !in w
    ensures Occurrences(w, x) == 0
    decreases |w|
  {
    if |w| > 0 {
      assert forall k :: 0 <= k < |w| - 1 ==> w[..|w| - 1][k] == w[k];
      OccurrencesAbsent(w[..|w| - 1], x);
    }
  }

  /** `findSusFlow`: the most frequent prefix of the window becomes
      monitored with estimate 0, the aggregate resets, the window empties. */
  function FindSusFlow(m: Mitigation): (r: Mitigation)
    requires Valid(m)
    ensures Valid(r)
    ensures r.window == [] && r.totalLossRate == 0.0
    ensures r.monitored.Keys == m.monitored.Keys + {MostPopular(m.window).name}
    ensures r.monitored[MostPopular(m.window).name] == 0.0
    ensures forall p :: p in m.monitored && p != MostPopular(m.window).name ==> r.monitored[p] == m.monitored[p]
  {
    Mitigation([], m.monitored[MostPopular(m.window).name := 0.0], 0.0)
  }

  /** `beforeExpirePendingInterest`: a rejected entry changes nothing;
      otherwise the prefix's estimate, or the aggregate, moves toward 1, and
      a full window with a high aggregate triggers `findSusFlow`. */
  function OnExpire(m: Mitigation, name: Name, rejected: bool): (r: Mitigation)
    requires Valid(m)
    ensures Valid(r)
    ensures rejected ==> r == m
    ensures !rejected ==>
              var p := PrefixOf(name);
              var pushed := Push(m.window, p);
              var total := if p in m.monitored then m.totalLossRate else TowardOne(m.totalLossRate);
              (r.window == [] <==> total > ALARM_LEVEL && |pushed| == WINDOW)
    ensures !rejected && r.window != [] ==>
              var p := PrefixOf(name);
              && r.window == Push(m.window, p)
              && (p in m.monitored ==> r.monitored == m.monitored[p := TowardOne(m.monitored[p])] && r.totalLossRate == m.totalLossRate)
              && (p !in m.monitored ==> r.monitored == m.monitored && r.totalLossRate == TowardOne(m.totalLossRate))
    ensures !rejected && r.window == [] ==>
              var p := PrefixOf(name);
              var culprit := MostPopular(Push(m.window, p)).name;
              && r.totalLossRate == 0.0
              && r.monitored.Keys == m.monitored.Keys + {culprit}
              && r.monitored[culprit] == 0.0
              && (forall q :: q in m.monitored && q != culprit ==>
                    r.monitored[q] == (if q == p then TowardOne(m.monitored[q]) else m.monitored[q]))
  {
    if rejected then m
    else
      var p := PrefixOf(name);
      var w := Push(m.window, p);
      var m1 := if p in m.monitored then Mitigation(w, m.monitored[p := TowardOne(m.monitored[p])], m.totalLossRate)
                else Mitigation(w, m.monitored, TowardOne(m.totalLossRate));
      if m1.totalLossRate > ALARM_LEVEL && |m1.window| == WINDOW then FindSusFlow(m1) else m1
  }

  /** An expiry under a monitored prefix raises that prefix's estimate, and
      a retrieval lowers it, unless the search for a culprit resets it. */
  lemma MonitoredEstimateMoves(m: Mitigation, name: Name)
    requires Valid(m) && PrefixOf(name) in m.monitored
    ensures var p := PrefixOf(name);
            var e := OnExpire(m, name, false);
            e.window != [] ==> m.monitored[p] <= e.monitored[p]
    ensures OnSatisfy(m, name).monitored[PrefixOf(name)] <= m.monitored[PrefixOf(name)]
  {
  }

  /** Once the window has been found full with a high aggregate, the
      culprit prefix is monitored with estimate 0, so it is not demoted
      until it loses again. */
  lemma CulpritStartsClean(m: Mitigation, name: Name, base: int)
    requires Valid(m)
    requires OnExpire(m, name, false).window == []
    ensures var r := OnExpire(m, name, false);
            forall n :: PrefixOf(n) == MostPopular(Push(m.window, PrefixOf(name))).name ==> PrType(r, n, base) == base
  {
  }
}
