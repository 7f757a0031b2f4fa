/**
 The maxUpdate quota: moving Waiting applications to Pending, step by step, without
 having more of a step in flight than its bound allows.
 */
module Quota {
  import opened Options
  import opened Appset
  import opened Decimal

  //////// Counting ////////

  /** The bucket an application is counted in; one that no step selects counts in the first. */
  function Bucket(stepMap: map<string, nat>, name: string): (b: nat)
  {
    if name in stepMap then stepMap[name] else 0
  }

  predicate InFlight(s: AppStatus)
  {
    s.status.Pending? || s.status.Progressing?
  }

  predicate Eligible(s: AppStatus, appsToSync: set<string>)
  {
    s.status.Waiting? && s.application in appsToSync
  }

  /** How many of the first n entries are in bucket b. */
  function TotalCount(ss: seq<AppStatus>, stepMap: map<string, nat>, b: nat, n: nat): (c: nat)
    requires n <= |ss|
  {
    if n == 0 then 0
    else TotalCount(ss, stepMap, b, n - 1) + (if Bucket(stepMap, ss[n - 1].application) == b then 1 else 0)
  }

  function InFlightCount(ss: seq<AppStatus>, stepMap: map<string, nat>, b: nat, n: nat): (c: nat)
    requires n <= |ss|
  {
    if n == 0 then 0
    else InFlightCount(ss, stepMap, b, n - 1) +
         (if Bucket(stepMap, ss[n - 1].application) == b && InFlight(ss[n - 1]) then 1 else 0)
  }

  function EligibleCount(ss: seq<AppStatus>, stepMap: map<string, nat>, appsToSync: set<string>, b: nat,
      n: nat): (c: nat)
    requires n <= |ss|
  {
    if n == 0 then 0
    else EligibleCount(ss, stepMap, appsToSync, b, n - 1) +
         (if Bucket(stepMap, ss[n - 1].application) == b && Eligible(ss[n - 1], appsToSync) then 1 else 0)
  }

  /** The step, counted from zero, that entry i is counted for. */
  ghost predicate CountedFor(ss: seq<AppStatus>, stepMap: map<string, nat>, b: nat, i: nat)
    requires i < |ss|
  {
    var name := ss[i].application;
    (name in stepMap && stepMap[name] == b) || (name !in stepMap && b == 0)
  }

  ghost function OfStep(ss: seq<AppStatus>, stepMap: map<string, nat>, b: nat, n: nat): (r: set<nat>)
    requires n <= |ss|
  {
    set i: nat | i < n && CountedFor(ss, stepMap, b, i)
  }

  ghost function FlyingOf(ss: seq<AppStatus>, stepMap: map<string, nat>, b: nat, n: nat): (r: set<nat>)
    requires n <= |ss|
  {
    set i: nat | i < n && CountedFor(ss, stepMap, b, i) && (ss[i].status.Pending? || ss[i].status.Progressing?)
  }

  ghost function WaitingOf(ss: seq<AppStatus>, stepMap: map<string, nat>, appsToSync: set<string>, b: nat,
                           n: nat): (r: set<nat>)
    requires n <= |ss|
  {
    set i: nat | i < n && CountedFor(ss, stepMap, b, i) && ss[i].status.Waiting? && ss[i].application in appsToSync
  }

  /** The three counts are numbers of entries: of the step, of those in flight, and of those Waiting and released. */
  lemma {:induction false} CountsAre(ss: seq<AppStatus>, stepMap: map<string, nat>, appsToSync: set<string>, b: nat,
                                     n: nat)
    requires n <= |ss|
    ensures TotalCount(ss, stepMap, b, n) == |OfStep(ss, stepMap, b, n)|
    ensures InFlightCount(ss, stepMap, b, n) == |FlyingOf(ss, stepMap, b, n)|
    ensures EligibleCount(ss, stepMap, appsToSync, b, n) == |WaitingOf(ss, stepMap, appsToSync, b, n)|
    decreases n
  {
    hide OfStep, FlyingOf, WaitingOf;
    if n == 0 {
      CountsNone(ss, stepMap, appsToSync, b);
    } else {
      CountsAre(ss, stepMap, appsToSync, b, n - 1);
      OfStepNext(ss, stepMap, b, n);
      FlyingNext(ss, stepMap, b, n);
      WaitingNext(ss, stepMap, appsToSync, b, n);
    }
  }

  lemma CountsNone(ss: seq<AppStatus>, stepMap: map<string, nat>, appsToSync: set<string>, b: nat)
    ensures OfStep(ss, stepMap, b, 0) == {} && FlyingOf(ss, stepMap, b, 0) == {}
    ensures WaitingOf(ss, stepMap, appsToSync, b, 0) == {}
  {
  }

  lemma OfStepNext(ss: seq<AppStatus>, stepMap: map<string, nat>, b: nat, n: nat)
    requires 0 < n <= |ss|
    ensures |OfStep(ss, stepMap, b, n)| ==
            |OfStep(ss, stepMap, b, n - 1)| + (if Bucket(stepMap, ss[n - 1].application) == b then 1 else 0)
  {
    assert OfStep(ss, stepMap, b, n) ==
        OfStep(ss, stepMap, b, n - 1) + (if CountedFor(ss, stepMap, b, n - 1) then {n - 1} else {});
  }

  lemma FlyingNext(ss: seq<AppStatus>, stepMap: map<string, nat>, b: nat, n: nat)
    requires 0 < n <= |ss|
    ensures |FlyingOf(ss, stepMap, b, n)| ==
            |FlyingOf(ss, stepMap, b, n - 1)| +
            (if Bucket(stepMap, ss[n - 1].application) == b && InFlight(ss[n - 1]) then 1 else 0)
  {
    assert FlyingOf(ss, stepMap, b, n) ==
        FlyingOf(ss, stepMap, b, n - 1) +
            (if CountedFor(ss, stepMap, b, n - 1) && InFlight(ss[n - 1]) then {n - 1} else {});
  }

  lemma WaitingNext(ss: seq<AppStatus>, stepMap: map<string, nat>, appsToSync: set<string>, b: nat, n: nat)
    requires 0 < n <= |ss|
    ensures |WaitingOf(ss, stepMap, appsToSync, b, n)| ==
            |WaitingOf(ss, stepMap, appsToSync, b, n - 1)| +
            (if Bucket(stepMap, ss[n - 1].application) == b && Eligible(ss[n - 1], appsToSync) then 1 else 0)
  {
    assert WaitingOf(ss, stepMap, appsToSync, b, n) ==
        WaitingOf(ss, stepMap, appsToSync, b, n - 1) +
            (if CountedFor(ss, stepMap, b, n - 1) && Eligible(ss[n - 1], appsToSync) then {n - 1} else {});
  }

  //////// The bound of a step ////////

  function Percent(text: string): (r: Option<int>)
  {
    if text != [] && text[|text| - 1] == '%' then Atoi(text[..|text| - 1]) else None
  }

  /** A percentage rounds down but not below one, unless it is written 0%; other text acts as one. */
  function Bound(m: MaxUpdate, total: nat): (r: int)
    ensures m.IntValue? ==> r == m.n
    ensures m.StringValue? && m.text != "0%" && Percent(m.text).None? ==> r == 1
    ensures m.StringValue? && m.text != "0%" && Percent(m.text).Some? && Percent(m.text).value * total < 100 ==> r == 1
    ensures m.StringValue? && Percent(m.text).Some? && 100 <= Percent(m.text).value * total ==>
              100 * r <= Percent(m.text).value * total < 100 * (r + 1)
  {
    match m
    case IntValue(n) => n
    case StringValue(text) =>
      var scaled := match Percent(text) case None => 0 case Some(p) => p * total / 100;
      if text != "0%" && scaled < 1 then 1 else scaled
  }

  /** The bound of bucket b for these entries; None is no bound. */
  function BucketBound(ss: seq<AppStatus>, stepMap: map<string, nat>, steps: seq<RolloutStep>, b: nat): (r: Option<int>)
    requires b < |steps|
  {
    match steps[b].maxUpdate
    case None => None
    case Some(m) => Some(Bound(m, TotalCount(ss, stepMap, b, |ss|)))
  }

  //////// Who is promoted ////////

  /** Entry i is promoted when it and the eligible entries before it fit in what the bound leaves. */
  predicate Promoted(ss: seq<AppStatus>, stepMap: map<string, nat>, steps: seq<RolloutStep>,
                     appsToSync: set<string>, i: nat)
    requires i < |ss| && Bucket(stepMap, ss[i].application) < |steps|
  {
    var b := Bucket(stepMap, ss[i].application);
    var bound := BucketBound(ss, stepMap, steps, b);
    && Eligible(ss[i], appsToSync)
    && (bound.Some? ==>
          InFlightCount(ss, stepMap, b, |ss|) + EligibleCount(ss, stepMap, appsToSync, b, i) < bound.value)
  }

  function Promote(s: AppStatus, now: int): (r: AppStatus)
  {
    s.(status := Pending, lastTransitionTime := Some(now), message := MovedToPending)
  }

  function Min(a: int, b: int): (r: int) { if a <= b then a else b }
  function Max(a: int, b: int): (r: int) { if a >= b then a else b }

  /** How many of the first n entries of bucket b are promoted. */
  function PromotedCount(ss: seq<AppStatus>, stepMap: map<string, nat>, steps: seq<RolloutStep>,
                         appsToSync: set<string>, b: nat, n: nat): (c: nat)
    requires n <= |ss| && b < |steps|
    requires InRange(ss, stepMap, |steps|)
  {
    if n == 0 then 0
    else PromotedCount(ss, stepMap, steps, appsToSync, b, n - 1) +
         (if Bucket(stepMap, ss[n - 1].application) == b && Promoted(ss, stepMap, steps, appsToSync, n - 1) then 1
             else 0)
  }

  /** The bucket of every recorded application is one of the steps. */
  predicate InRange(ss: seq<AppStatus>, stepMap: map<string, nat>, length: nat)
  {
    forall i :: 0 <= i < |ss| ==> Bucket(stepMap, ss[i].application) < length
  }

  /** Exactly the first of the eligible entries are promoted, as many as the bound leaves. */
  lemma {:induction false} PromotesFirst(ss: seq<AppStatus>, stepMap: map<string, nat>, steps: seq<RolloutStep>,
                                         appsToSync: set<string>, b: nat, n: nat)
    requires n <= |ss| && b < |steps| && InRange(ss, stepMap, |steps|)
    ensures var eligible := EligibleCount(ss, stepMap, appsToSync, b, n);
            PromotedCount(ss, stepMap, steps, appsToSync, b, n) ==
            match BucketBound(ss, stepMap, steps, b)
            case None => eligible
            case Some(bound) => Min(eligible, Max(0, bound - InFlightCount(ss, stepMap, b, |ss|)))
  {
    hide BucketBound, InFlightCount;
    if n > 0 { PromotesFirst(ss, stepMap, steps, appsToSync, b, n - 1); }
  }

  /**
   The promotion of one pass.  The step map may come from a strategy with more steps than
   the one in force; None is the index out of range that this leads to.
   */
  method UpdateProgress(ss: seq<AppStatus>, strategy: Option<Strategy>, stepMap: map<string, nat>,
                        appsToSync: set<string>, now: int)
    returns (result: Option<seq<AppStatus>>)
    ensures result.Some? <==> Steps(strategy) == [] || InRange(ss, stepMap, |Steps(strategy)|)
    ensures Steps(strategy) == [] ==> result == Some([])
    ensures Steps(strategy) != [] && result.Some? ==>
              Advanced(ss, result.value, stepMap, Steps(strategy), appsToSync, now)
    ensures Steps(strategy) != [] && result.Some? ==>
              forall k :: 0 <= k < |ss| && result.value[k] != ss[k] ==>
                && ss[k].status.Waiting? && ss[k].application in appsToSync
                && result.value[k] == ss[k].(status := Pending, lastTransitionTime := Some(now),
                                             message := MovedToPending)
  {
    hide BucketBound, Promoted, PromotedCount, InFlightCount, TotalCount, EligibleCount;
    var steps := Steps(strategy);
    var r := [];
    if steps == [] { return Some(r); }
    var ok, total, updating := CountEntries(ss, stepMap, |steps|);
    if !ok { return None; }
    ZeroCounts(ss, stepMap, steps, appsToSync);
    var i := 0;
    while i < |ss|
      invariant 0 <= i <= |ss|
      invariant |r| == i
      invariant forall k :: 0 <= k < i ==>
                  r[k] == if Promoted(ss, stepMap, steps, appsToSync, k) then Promote(ss[k], now) else ss[k]
      invariant forall b :: 0 <= b < |steps| ==> total[b] == TotalCount(ss, stepMap, b, |ss|)
      invariant forall b :: 0 <= b < |steps| ==>
                  updating[b] == InFlightCount(ss, stepMap, b, |ss|) +
                      PromotedCount(ss, stepMap, steps, appsToSync, b, i)
    {
      var s := ss[i];
      var b := Bucket(stepMap, s.application);
      var allowed := true;
      if steps[b].maxUpdate.Some? {
        allowed := updating[b] < Bound(steps[b].maxUpdate.value, total[b]);
      }
      DecidesPromotion(ss, stepMap, steps, appsToSync, i);
      CountsNext(ss, stepMap, steps, appsToSync, i);
      if s.status.Waiting? && s.application in appsToSync && allowed {
        s := Promote(s, now);
        updating[b] := updating[b] + 1;
      }
      r := r + [s];
      i := i + 1;
    }
    OnlyReleasedChange(ss, r, stepMap, steps, appsToSync, now);
    return Some(r);
  }

  /** r is ss with the promoted entries moved to Pending and nothing else changed. */
  ghost predicate Advanced(ss: seq<AppStatus>, r: seq<AppStatus>, stepMap: map<string, nat>,
                           steps: seq<RolloutStep>, appsToSync: set<string>, now: int)
    requires InRange(ss, stepMap, |steps|)
  {
    && |r| == |ss|
    && forall k :: 0 <= k < |ss| ==>
         r[k] == if Promoted(ss, stepMap, steps, appsToSync, k) then Promote(ss[k], now) else ss[k]
  }

  lemma OnlyReleasedChange(ss: seq<AppStatus>, r: seq<AppStatus>, stepMap: map<string, nat>, steps: seq<RolloutStep>,
                           appsToSync: set<string>, now: int)
    requires InRange(ss, stepMap, |steps|) && Advanced(ss, r, stepMap, steps, appsToSync, now)
    ensures forall k :: 0 <= k < |ss| && r[k] != ss[k] ==>
              && ss[k].status.Waiting? && ss[k].application in appsToSync
              && r[k] == ss[k].(status := Pending, lastTransitionTime := Some(now), message := MovedToPending)
  {
    hide BucketBound, InFlightCount, EligibleCount;
  }

  /** The counters of the first loop, one slot a step; ok unless an application falls outside. */
  method CountEntries(ss: seq<AppStatus>, stepMap: map<string, nat>, length: nat)
    returns (ok: bool, total: array<int>, updating: array<int>)
    ensures ok <==> InRange(ss, stepMap, length)
    ensures fresh(total) && fresh(updating) && total != updating
    ensures total.Length == length == updating.Length
    ensures ok ==> forall b :: 0 <= b < length ==> total[b] == TotalCount(ss, stepMap, b, |ss|)
    ensures ok ==> forall b :: 0 <= b < length ==> updating[b] == InFlightCount(ss, stepMap, b, |ss|)
  {
    ok := true;
    total := new int[length](_ => 0);
    updating := new int[length](_ => 0);
    var i := 0;
    while i < |ss|
      invariant 0 <= i <= |ss|
      invariant forall j :: 0 <= j < i ==> Bucket(stepMap, ss[j].application) < length
      invariant forall b :: 0 <= b < length ==> total[b] == TotalCount(ss, stepMap, b, i)
      invariant forall b :: 0 <= b < length ==> updating[b] == InFlightCount(ss, stepMap, b, i)
    {
      var b := Bucket(stepMap, ss[i].application);
      if b >= total.Length {
        ok := false;
        return;
      }
      total[b] := total[b] + 1;
      if ss[i].status.Pending? || ss[i].status.Progressing? { updating[b] := updating[b] + 1; }
      i := i + 1;
    }
  }

  lemma ZeroCounts(ss: seq<AppStatus>, stepMap: map<string, nat>, steps: seq<RolloutStep>, appsToSync: set<string>)
    requires InRange(ss, stepMap, |steps|)
    ensures forall b :: 0 <= b < |steps| ==> PromotedCount(ss, stepMap, steps, appsToSync, b, 0) == 0
  {
  }

  lemma CountsNext(ss: seq<AppStatus>, stepMap: map<string, nat>, steps: seq<RolloutStep>,
                   appsToSync: set<string>, i: nat)
    requires i < |ss| && InRange(ss, stepMap, |steps|)
    ensures forall b :: 0 <= b < |steps| ==>
              PromotedCount(ss, stepMap, steps, appsToSync, b, i + 1) ==
              PromotedCount(ss, stepMap, steps, appsToSync, b, i) +
              (if b == Bucket(stepMap, ss[i].application) && Promoted(ss, stepMap, steps, appsToSync, i) then 1 else 0)
  {
    hide Promoted;
  }

  /** The running counter decides promotion the way the ranks do. */
  lemma DecidesPromotion(ss: seq<AppStatus>, stepMap: map<string, nat>, steps: seq<RolloutStep>,
                         appsToSync: set<string>, i: nat)
    requires i < |ss| && InRange(ss, stepMap, |steps|)
    ensures var b := Bucket(stepMap, ss[i].application);
            Promoted(ss, stepMap, steps, appsToSync, i) <==>
            Eligible(ss[i], appsToSync) &&
            (steps[b].maxUpdate.Some? ==>
               InFlightCount(ss, stepMap, b, |ss|) + PromotedCount(ss, stepMap, steps, appsToSync, b, i) <
               Bound(steps[b].maxUpdate.value, TotalCount(ss, stepMap, b, |ss|)))
  {
    hide InFlightCount, PromotedCount, EligibleCount, TotalCount, Bound;
    PromotesFirst(ss, stepMap, steps, appsToSync, Bucket(stepMap, ss[i].application), i);
  }

  //////// What a pass guarantees ////////

  lemma {:induction false} CountAfter(ss: seq<AppStatus>, r: seq<AppStatus>, stepMap: map<string, nat>,
                                      steps: seq<RolloutStep>, appsToSync: set<string>, now: int, b: nat,
                                      n: nat)
    requires b < |steps| && InRange(ss, stepMap, |steps|) && n <= |ss|
    requires Advanced(ss, r, stepMap, steps, appsToSync, now)
    ensures InFlightCount(r, stepMap, b, n) ==
            InFlightCount(ss, stepMap, b, n) + PromotedCount(ss, stepMap, steps, appsToSync, b, n)
  {
    hide BucketBound, EligibleCount;
    if n > 0 {
      CountAfter(ss, r, stepMap, steps, appsToSync, now, b, n - 1);
      assert r[n - 1] == if Promoted(ss, stepMap, steps, appsToSync, n - 1) then Promote(ss[n - 1], now) else ss[n - 1];
    }
  }

  /**
   After a pass over a bounded step, the step has in flight what it had plus the number
   promoted; a pass that promotes ends within the bound, and one that promotes nothing
   either had nothing eligible or was already at the bound.
   */
  lemma PassWithinBound(ss: seq<AppStatus>, r: seq<AppStatus>, stepMap: map<string, nat>,
                        steps: seq<RolloutStep>, appsToSync: set<string>, now: int, b: nat)
    requires b < |steps| && InRange(ss, stepMap, |steps|) && steps[b].maxUpdate.Some?
    requires Advanced(ss, r, stepMap, steps, appsToSync, now)
    ensures var bound := Bound(steps[b].maxUpdate.value, TotalCount(ss, stepMap, b, |ss|));
            var before := InFlightCount(ss, stepMap, b, |ss|);
            var after := InFlightCount(r, stepMap, b, |r|);
            var eligible := EligibleCount(ss, stepMap, appsToSync, b, |ss|);
            && after == before + Min(eligible, Max(0, bound - before))
            && (after > before ==> after <= bound)
            && (after == before <==> eligible == 0 || before >= bound)
  {
    hide InFlightCount, PromotedCount, EligibleCount, TotalCount, Bound;
    PromotesFirst(ss, stepMap, steps, appsToSync, b, |ss|);
    CountAfter(ss, r, stepMap, steps, appsToSync, now, b, |ss|);
  }

  /** A step with nothing in flight and something eligible moves, unless its bound is 0% or an integer below one. */
  lemma IdleStepMoves(ss: seq<AppStatus>, r: seq<AppStatus>, stepMap: map<string, nat>, steps: seq<RolloutStep>,
                      appsToSync: set<string>, now: int, b: nat)
    requires b < |steps| && InRange(ss, stepMap, |steps|)
    requires Advanced(ss, r, stepMap, steps, appsToSync, now)
    requires InFlightCount(ss, stepMap, b, |ss|) == 0
    requires EligibleCount(ss, stepMap, appsToSync, b, |ss|) > 0
    ensures InFlightCount(r, stepMap, b, |r|) == 0 <==>
            steps[b].maxUpdate.Some? &&
            (match steps[b].maxUpdate.value
             case IntValue(n) => n < 1
             case StringValue(text) => text == "0%")
  {
    hide InFlightCount, PromotedCount, EligibleCount, TotalCount;
    CountAfter(ss, r, stepMap, steps, appsToSync, now, b, |ss|);
    PromotesFirst(ss, stepMap, steps, appsToSync, b, |ss|);
    ZeroPercent(TotalCount(ss, stepMap, b, |ss|));
  }

  /** A percentage is the number spelled before the percent sign, and other text is none. */
  lemma PercentOf(n: int, text: string)
    requires -0x8000_0000_0000_0000 <= n <= 0x7fff_ffff_ffff_ffff
    ensures Percent(Itoa(n) + "%") == Some(n)
    ensures Percent(text) == Some(n) <==> text != [] && text[|text| - 1] == '%' && Spells(text[..|text| - 1], n)
  {
    var t := Itoa(n) + "%";
    assert t[..|t| - 1] == Itoa(n);
    AtoiOfItoa(n);
    if text != [] { AtoiIff(text[..|text| - 1], n); }
  }

  lemma ZeroPercent(total: nat)
    ensures Percent("0%") == Some(0)
    ensures Bound(StringValue("0%"), total) == 0
  {
    assert "0%"[..1] == "0";
    assert "0"[..0] == "";
    assert Digits("") == Some(0);
    assert Digits("0") == Some(0);
    assert 0 * total / 100 == 0;
  }
}
