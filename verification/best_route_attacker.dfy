/** `BestRouteStrategyAttacker`: classic best-route forwarding with a side
    channel. While the simulated clock is before `checktime`, every interest
    addressed to a photovoltaic (`PV…`) or battery (`BESS…`) device that is
    not itself attack traffic is counted per device. The first interest at
    or after `checktime` closes the period: the most counted device becomes
    this node's target, and `checktime` moves to the next ten-second
    boundary. The counts are never cleared, so they accumulate across
    periods. */
module BestRouteAttacker {
  import opened Names
  import opened Wrappers
  import opened NextHops
  import opened QosQueue

  /** Length of a counting period, in seconds. */
  const PERIOD: int := 10
  /** Largest simulator context for which a target is recorded. */
  const MAX_CONTEXT: nat := 3600
  /** The name the maximum is compared against: one component made of a
      backslash and a zero. */
  const SENTINEL: Name := ["\\0"]
  /** The name the running maximum starts from, with count 0. */
  const START: Name := ["0"]

  /** `name.getSubName(i, 1).toUri()`: a negative `i` counts from the end, a
      start before the first component is clamped to it, and a start past the
      last component gives the empty name, whose URI is `/`. */
  function ComponentUri(name: Name, i: int): (r: string)
    ensures |r| >= 1 && r[0] == '/'
    ensures 0 <= i < |name| ==> r == "/" + name[i]
    ensures -|name| <= i < 0 ==> r == "/" + name[|name| + i]
    ensures i >= |name| ==> r == "/"
  {
    var start := if i < 0 then i + |name| else i;
    var s := if start < 0 then 0 else start;
    if s < |name| then "/" + name[s] else "/"
  }

  /** `getSubName(3, 1)`: the device the interest is addressed to. */
  function Device(name: Name): Name {
    if 3 < |name| then [name[3]] else []
  }

  /** The counting filter, on URI strings as the source writes it: the
      device starts with `/PV` or `/BESS` and the traffic-type component
      (the second to last) does not contain `attack`. */
  predicate Counted(name: Name)
    ensures Counted(name) ==> |name| >= 4
  {
    var device := ComponentUri(name, 3);
    && (StartsWith(device, "/PV") || StartsWith(device, "/BESS"))
    && !Contains(ComponentUri(name, -2), "attack")
  }

  /** A device name that can be counted. */
  predicate CountableDevice(d: Name) {
    |d| == 1 && (StartsWith(d[0], "PV") || StartsWith(d[0], "BESS"))
  }

  lemma SlashPrefix(c: string, p: string)
    ensures StartsWith("/" + c, "/" + p) <==> StartsWith(c, p)
  {
    if StartsWith(c, p) {
      assert ("/" + c)[..|p| + 1] == "/" + p;
    }
    if StartsWith("/" + c, "/" + p) {
      assert c[..|p|] == ("/" + c)[1..|p| + 1];
      assert ("/" + p)[1..] == p;
    }
  }

  lemma SlashContains(c: string)
    ensures Contains("/" + c, "attack") <==> Contains(c, "attack")
  {
    assert ("/" + c)[1..] == c;
    assert !StartsWith("/" + c, "attack") by {
      assert ("/" + c)[0] == '/';
    }
  }

  /** The URI-level filter counts exactly the names with at least four
      components whose fourth component starts with `PV` or `BESS` and whose
      second to last component does not contain `attack`. */
  lemma CountedIff(name: Name)
    ensures Counted(name) <==>
              && |name| >= 4
              && (StartsWith(name[3], "PV") || StartsWith(name[3], "BESS"))
              && !Contains(name[|name| - 2], "attack")
  {
    if |name| >= 4 {
      SlashPrefix(name[3], "PV");
      SlashPrefix(name[3], "BESS");
      SlashContains(name[|name| - 2]);
    } else {
      assert ComponentUri(name, 3) == "/";
    }
  }

  /** A counted interest's device is a countable device name. */
  lemma CountedDevice(name: Name)
    requires Counted(name)
    ensures CountableDevice(Device(name))
  {
    CountedIff(name);
  }

  /** `nameDetails`: a device's count and the payload length of its most
      recent interest. */
  datatype Details = Details(count: nat, payload: nat)

  /** The per-instance state: `nameMap` and `checktime`. */
  datatype Attacker = Attacker(nameMap: map<Name, Details>, checktime: int)

  /** The structure shared by every node: `popMap`, `targetMap`, `setMap`
      and `lastClear`. */
  datatype Shared = Shared(popMap: map<Name, nat>, targetMap: map<nat, Name>, setMap: map<nat, bool>, lastClear: int)

  /** Every key of `nameMap` is a countable device. */
  predicate DevicesOnly(a: Attacker) {
    forall d :: d in a.nameMap ==> CountableDevice(d)
  }

  /** `popMap` agrees with this instance's counts, as it does while this
      instance is the only one writing to it. */
  predicate Mirrored(a: Attacker, sh: Shared) {
    forall d :: d in a.nameMap ==> d in sh.popMap && sh.popMap[d] == a.nameMap[d].count
  }

  /** The counting branch for one interest. A first sighting sets both the
      count and `popMap` to 1; a later one adds 1 to both, where a missing
      `popMap` entry starts from 0. */
  function Count(a: Attacker, sh: Shared, name: Name, payload: nat): (r: (Attacker, Shared))
    ensures !Counted(name) ==> r == (a, sh)
    ensures Counted(name) ==> r.0.nameMap.Keys == a.nameMap.Keys + {Device(name)}
    ensures Counted(name) ==> r.0.nameMap[Device(name)].count ==
                                (if Device(name) in a.nameMap then a.nameMap[Device(name)].count else 0) + 1
    ensures Counted(name) ==> r.0.nameMap[Device(name)].payload == payload
    ensures forall d :: d in a.nameMap && d != Device(name) ==> r.0.nameMap[d] == a.nameMap[d]
    ensures Counted(name) ==>
              && Device(name) in r.1.popMap
              && r.1.popMap[Device(name)] == (if Device(name) in a.nameMap && Device(name) in sh.popMap then sh.popMap[Device(name)] else 0) + 1
    ensures forall d :: d in sh.popMap && d != Device(name) ==> d in r.1.popMap && r.1.popMap[d] == sh.popMap[d]
    ensures r.0.checktime == a.checktime
    ensures r.1.targetMap == sh.targetMap && r.1.setMap == sh.setMap && r.1.lastClear == sh.lastClear
    ensures DevicesOnly(a) ==> DevicesOnly(r.0)
    ensures Mirrored(a, sh) ==> Mirrored(r.0, r.1)
  {
    if !Counted(name) then (a, sh)
    else
      var d := Device(name);
      CountedDevice(name);
      if d !in a.nameMap then
        (a.(nameMap := a.nameMap[d := Details(1, payload)]), sh.(popMap := sh.popMap[d := 1]))
      else
        var pop := if d in sh.popMap then sh.popMap[d] else 0;
        (a.(nameMap := a.nameMap[d := Details(a.nameMap[d].count + 1, payload)]), sh.(popMap := sh.popMap[d := pop + 1]))
  }

  /** The number of names in `names` that pass the filter and are addressed
      to device `d`. */
  function Tally(names: seq<Name>, d: Name): nat
    decreases |names|
  {
    if |names| == 0 then 0
    else Tally(names[..|names| - 1], d) + (if Counted(names[|names| - 1]) && Device(names[|names| - 1]) == d then 1 else 0)
  }

  /** Counting a run of interests, all inside the period, in arrival order. */
  function CountAll(a: Attacker, sh: Shared, names: seq<Name>, payload: nat): (r: (Attacker, Shared))
    decreases |names|
  {
    if |names| == 0 then (a, sh)
    else
      var prev := CountAll(a, sh, names[..|names| - 1], payload);
      Count(prev.0, prev.1, names[|names| - 1], payload)
  }

  /** Starting from no counts, a device's count after a run of interests is
      the number of interests in the run that passed the filter and were
      addressed to it, and it has an entry exactly when that number is
      positive. */
  lemma {:induction false} CountIsTally(a: Attacker, sh: Shared, names: seq<Name>, payload: nat, d: Name)
    requires a.nameMap == map[]
    ensures var r := CountAll(a, sh, names, payload).0;
            && (d in r.nameMap <==> Tally(names, d) > 0)
            && (d in r.nameMap ==> r.nameMap[d].count == Tally(names, d))
    decreases |names|
  {
    if |names| > 0 {
      CountIsTally(a, sh, names[..|names| - 1], payload, d);
    }
  }

  /** `entryWithMaxValue`: the running maximum over the entries in the
      map's iteration order `order`, replaced only on a strictly greater
      count, so the first entry to carry the largest count wins. */
  function MaxEntry(m: map<Name, Details>, order: seq<Name>): (r: (Name, Details))
    requires forall k :: 0 <= k < |order| ==> order[k] in m
    ensures forall k :: 0 <= k < |order| ==> m[order[k]].count <= r.1.count
    ensures r.1.count == 0 ==> r == (START, Details(0, 0))
    ensures r.1.count > 0 ==>
              exists k :: 0 <= k < |order| && r == (order[k], m[order[k]]) &&
                          forall j :: 0 <= j < k ==> m[order[j]].count < r.1.count
    decreases |order|
  {
    if |order| == 0 then (START, Details(0, 0))
    else
      var prefix := order[..|order| - 1];
      var best := MaxEntry(m, prefix);
      var last := order[|order| - 1];
      assert forall k :: 0 <= k < |prefix| ==> order[k] == prefix[k];
      if m[last].count > best.1.count then
        (last, m[last])
      else
        best
  }

  /** `(int(now) / 10) * 10 + 10`, with C++'s truncating conversion and
      division. */
  function NextCheck(nowSec: real): (r: int)
    ensures r % PERIOD == 0
  {
    TruncDiv(Trunc(nowSec), PERIOD) * PERIOD + PERIOD
  }

  /** `int(x)`: truncation toward zero. */
  function Trunc(x: real): int {
    if x >= 0.0 then x.Floor else -((-x).Floor)
  }

  /** C++ integer division by a positive divisor: truncation toward zero. */
  function TruncDiv(a: int, b: int): int
    requires b > 0
  {
    if a >= 0 then a / b else -((-a) / b)
  }

  /** The next checktime is a multiple of ten strictly after the current
      time; for a non-negative clock it is the first such multiple, so a
      period never lasts longer than ten seconds. */
  lemma NextCheckIsNextBoundary(nowSec: real)
    ensures NextCheck(nowSec) % PERIOD == 0
    ensures Trunc(nowSec) < NextCheck(nowSec)
    ensures nowSec < NextCheck(nowSec) as real
    ensures nowSec >= 0.0 ==> NextCheck(nowSec) - PERIOD <= nowSec.Floor
  {
    var t := Trunc(nowSec);
    if t >= 0 {
      assert TruncDiv(t, PERIOD) * PERIOD <= t < TruncDiv(t, PERIOD) * PERIOD + PERIOD;
    } else {
      assert TruncDiv(t, PERIOD) * PERIOD >= t;
      assert (-nowSec).Floor as real <= -nowSec;
    }
  }

  /** `lastClear` is raised to the new checktime when it is not already past
      it. */
  function RaiseLastClear(lastClear: int, checktime: int): (r: int)
    ensures lastClear <= r && checktime <= r
    ensures r == lastClear || r == checktime
  {
    if lastClear <= checktime then checktime else lastClear
  }

  /** The closing branch: pick the maximum, record it as `node`'s target when
      its count is positive, it is not the sentinel name and the context is at
      most 3600, then move `checktime` and `lastClear`. */
  function Close(a: Attacker, sh: Shared, order: seq<Name>, nowSec: real, context: nat, node: nat): (r: (Attacker, Shared))
    requires forall k :: 0 <= k < |order| ==> order[k] in a.nameMap
    ensures r.0.nameMap == a.nameMap && r.1.popMap == sh.popMap
    ensures r.0.checktime % PERIOD == 0 && nowSec < r.0.checktime as real
    ensures sh.lastClear <= r.1.lastClear && r.0.checktime <= r.1.lastClear
    ensures node in r.1.targetMap && (node !in sh.targetMap || r.1.targetMap[node] != sh.targetMap[node]) ==>
              node in r.1.setMap && r.1.setMap[node]
    ensures forall n :: n != node ==>
              (n in r.1.targetMap <==> n in sh.targetMap) && (n in sh.targetMap ==> r.1.targetMap[n] == sh.targetMap[n])
  {
    var best := MaxEntry(a.nameMap, order);
    var sh1 := if best.1.count != 0 && best.0 != SENTINEL && context <= MAX_CONTEXT
               then sh.(targetMap := sh.targetMap[node := best.0], setMap := sh.setMap[node := true])
               else sh;
    var ct := NextCheck(nowSec);
    NextCheckIsNextBoundary(nowSec);
    (a.(checktime := ct), sh1.(lastClear := RaiseLastClear(sh.lastClear, ct)))
  }

  lemma SentinelIsNoDevice()
    ensures !CountableDevice(SENTINEL)
  {
    assert SENTINEL[0][0] == '\\';
  }

  /** When every counted key is a device, the sentinel test never fires: a
      period closes with a new target for `node` exactly when some device has
      a positive count and the context is at most 3600, and the target is a
      device with the largest count, the first such in iteration order. */
  lemma CloseRecordsMostCounted(a: Attacker, sh: Shared, order: seq<Name>, nowSec: real, context: nat, node: nat)
    requires forall k :: 0 <= k < |order| ==> order[k] in a.nameMap
    requires forall d :: d in a.nameMap ==> d in order
    requires DevicesOnly(a)
    ensures var r := Close(a, sh, order, nowSec, context, node).1;
            var recorded := (exists d :: d in a.nameMap && a.nameMap[d].count > 0) && context <= MAX_CONTEXT;
            && (recorded ==> node in r.targetMap && node in r.setMap && r.setMap[node] && r.targetMap[node] in a.nameMap &&
                             CountableDevice(r.targetMap[node]) &&
                             forall d :: d in a.nameMap ==> a.nameMap[d].count <= a.nameMap[r.targetMap[node]].count)
            && (!recorded ==> r.targetMap == sh.targetMap && r.setMap == sh.setMap)
  {
    var best := MaxEntry(a.nameMap, order);
    forall d | d in a.nameMap ensures a.nameMap[d].count <= best.1.count {
      var k :| 0 <= k < |order| && order[k] == d;
    }
    if best.1.count > 0 {
      var k :| 0 <= k < |order| && best == (order[k], a.nameMap[order[k]]) &&
               forall j :: 0 <= j < k ==> a.nameMap[order[j]].count < best.1.count;
      assert CountableDevice(best.0);
      SentinelIsNoDevice();
    }
  }

  /** The result of one interest: both states and the next-hop decision. A
      `NoRoute` decision stands for the Nack with reason NO_ROUTE followed by
      rejecting the pending interest. */
  datatype Reply = Reply(attacker: Attacker, shared: Shared, choice: Choice)

  /** `afterReceiveInterest`. `nowSec` is the simulated time in seconds,
      `order` the iteration order of `nameMap`, `context` and `node` the
      simulator context and its node id, `entry` the per-entry suppression
      verdict and `clock` the time against which out-record expiry is
      compared. Forwarding is the classic best-route choice without the link
      test. */
  function OnInterest(a: Attacker, sh: Shared, name: Name, payload: nat, nowSec: real, order: seq<Name>,
                      context: nat, node: nat, hops: seq<NextHop>, inFace: FaceId, entry: RetxDecision,
                      clock: int): (r: Reply)
    requires forall k :: 0 <= k < |order| ==> order[k] in a.nameMap
    ensures r.choice == Suppressed <==> entry == Suppress
    ensures r.choice == NoRoute <==> entry == New && !AnyEligible(hops, inFace, false)
    ensures r.choice == NoRetryHop <==> entry == Forward && !AnyEligible(hops, inFace, false)
    ensures r.choice.SendTo? ==> exists i :: 0 <= i < |hops| && hops[i].face == r.choice.face && Eligible(hops[i], inFace, false, 0, false)
    ensures entry == New ==>
              forall i :: 0 <= i < |hops| && Eligible(hops[i], inFace, false, 0, false) &&
                          (forall j :: 0 <= j < i ==> !Eligible(hops[j], inFace, false, 0, false)) ==>
                          r.choice == SendTo(hops[i].face)
    ensures entry == Forward ==>
              forall i :: 0 <= i < |hops| && Eligible(hops[i], inFace, true, clock, false) &&
                          (forall j :: 0 <= j < i ==> !Eligible(hops[j], inFace, true, clock, false)) ==>
                          r.choice == SendTo(hops[i].face)
    ensures entry == Forward && AnyEligible(hops, inFace, false) &&
            (forall j :: 0 <= j < |hops| ==> !Eligible(hops[j], inFace, true, clock, false)) ==>
              exists i :: 0 <= i < |hops| && r.choice == SendTo(hops[i].face) && EarliestAmong(hops, inFace, false, |hops|, Some(i))
    ensures nowSec < a.checktime as real ==> r.attacker.checktime == a.checktime && r.shared.targetMap == sh.targetMap
    ensures nowSec < a.checktime as real ==> (r.attacker, r.shared) == Count(a, sh, name, payload)
    ensures !(nowSec < a.checktime as real) ==> (r.attacker, r.shared) == Close(a, sh, order, nowSec, context, node)
    ensures !(nowSec < a.checktime as real) ==> r.attacker.nameMap == a.nameMap && nowSec < r.attacker.checktime as real
    ensures forall d :: d in a.nameMap ==> d in r.attacker.nameMap && a.nameMap[d].count <= r.attacker.nameMap[d].count
    ensures sh.lastClear <= r.shared.lastClear
  {
    var counted := if nowSec < a.checktime as real then Count(a, sh, name, payload)
                   else Close(a, sh, order, nowSec, context, node);
    Reply(counted.0, counted.1, BestRouteChoice(hops, inFace, entry, clock, false))
  }
}
