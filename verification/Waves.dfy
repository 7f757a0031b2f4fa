/** Wave gating: a step is released once every application of the steps before it is Healthy. */
module Waves {
  import opened Options
  import opened Appset
  import opened Selection
  import opened Quota

  /** name has an entry and its entry is Healthy. */
  predicate HealthyIn(ss: seq<AppStatus>, name: string)
  {
    var i := FindStatus(ss, name);
    i >= 0 && ss[i].status.Healthy?
  }

  predicate Settled(names: seq<string>, current: set<string>, ss: seq<AppStatus>)
  {
    forall n | n in names :: n in current && HealthyIn(ss, n)
  }

  /** The first step at or after k that holds the rollout up, or the number of steps. */
  function FirstBlocked(dep: seq<seq<string>>, current: set<string>, ss: seq<AppStatus>, k: nat): (r: nat)
    requires k <= |dep|
    ensures k <= r <= |dep|
    ensures forall i :: k <= i < r ==> Settled(dep[i], current, ss)
    ensures r < |dep| ==> !Settled(dep[r], current, ss)
    decreases |dep| - k
  {
    if k == |dep| || !Settled(dep[k], current, ss) then k else FirstBlocked(dep, current, ss, k + 1)
  }

  /** The applications of the steps up to and including k. */
  ghost function UpTo(dep: seq<seq<string>>, k: int): (r: set<string>)
  {
    set i, n | 0 <= i < |dep| && i <= k && n in dep[i] :: n
  }

  /** The released set is the union of the steps up to the first one that is not settled. */
  method GetAppsToSync(ss: seq<AppStatus>, dep: seq<seq<string>>, apps: seq<App>) returns (r: set<string>)
    ensures r == UpTo(dep, FirstBlocked(dep, AppNames(apps), ss, 0))
  {
    var current: set<string> := {};
    for i := 0 to |apps|
      invariant current == AppNames(apps[..i])
    {
      assert apps[..i + 1] == apps[..i] + [apps[i]];
      current := current + {apps[i].name};
    }
    assert apps[..|apps|] == apps;
    r := {};
    var k := 0;
    while k < |dep|
      invariant 0 <= k <= |dep|
      invariant r == UpTo(dep, k - 1)
      invariant FirstBlocked(dep, current, ss, 0) == FirstBlocked(dep, current, ss, k)
    {
      r := AddAll(r, dep[k]);
      assert r == UpTo(dep, k);
      var next := IsSettled(dep[k], current, ss);
      if !next { return; }
      k := k + 1;
    }
    assert UpTo(dep, |dep| - 1) == UpTo(dep, |dep|);
  }

  method AddAll(s: set<string>, names: seq<string>) returns (r: set<string>)
    ensures r == s + set n | n in names
  {
    r := s;
    for i := 0 to |names|
      invariant r == s + set n | n in names[..i]
    {
      r := r + {names[i]};
    }
    assert names[..|names|] == names;
  }

  method IsSettled(names: seq<string>, current: set<string>, ss: seq<AppStatus>) returns (next: bool)
    ensures next == Settled(names, current, ss)
  {
    next := true;
    for i := 0 to |names|
      invariant next
      invariant forall j :: 0 <= j < i ==> names[j] in current && HealthyIn(ss, names[j])
    {
      if names[i] !in current { return false; }
      var idx := FindStatus(ss, names[i]);
      if idx == -1 { return false; }
      if !ss[idx].status.Healthy? { return false; }
    }
  }

  //////// The reported condition ////////

  datatype RolloutCondition = RolloutProgressing(step: int) | RolloutComplete

  /** Every entry recorded for step k is Healthy; recorded steps count from 1. */
  predicate StepDone(ss: seq<AppStatus>, k: int)
  {
    forall s | s in ss :: s.step == k + 1 ==> s.status.Healthy?
  }

  function FirstUndone(ss: seq<AppStatus>, count: nat, k: nat): (r: nat)
    requires k <= count
    ensures k <= r <= count
    ensures forall i :: k <= i < r ==> StepDone(ss, i)
    ensures r < count ==> !StepDone(ss, r)
    decreases count - k
  {
    if k == count || !StepDone(ss, k) then k else FirstUndone(ss, count, k + 1)
  }

  /** For each step recorded, whether all its entries are Healthy. */
  method CompletedSteps(ss: seq<AppStatus>) returns (completed: map<int, bool>)
    ensures forall n :: n in completed ==> (completed[n] <==> StepDone(ss, n - 1))
    ensures forall n :: n !in completed ==> StepDone(ss, n - 1)
  {
    hide StepDone;
    completed := map[];
    NoneDone();
    for i := 0 to |ss|
      invariant forall n :: n in completed ==> (completed[n] <==> StepDone(ss[..i], n - 1))
      invariant forall n :: n !in completed ==> StepDone(ss[..i], n - 1)
    {
      var n, done := ss[i].step, ss[i].status.Healthy?;
      forall k: int ensures StepDone(ss[..i + 1], k) <==> StepDone(ss[..i], k) && (k + 1 == n ==> done) {
        StepDoneNext(ss, i, k);
      }
      completed := completed[n := if n in completed then completed[n] && done else done];
    }
    assert ss[..|ss|] == ss;
  }

  lemma NoneDone()
    ensures forall k: int, ss: seq<AppStatus> {:trigger StepDone(ss[..0], k)} :: StepDone(ss[..0], k)
  {
  }

  lemma StepDoneNext(ss: seq<AppStatus>, i: nat, k: int)
    requires i < |ss|
    ensures StepDone(ss[..i + 1], k) <==> StepDone(ss[..i], k) && (ss[i].step == k + 1 ==> ss[i].status.Healthy?)
  {
    assert ss[..i + 1] == ss[..i] + [ss[i]];
  }

  method GetProgressingCondition(strategy: Option<Strategy>, ss: seq<AppStatus>) returns (c: Option<RolloutCondition>)
    ensures c.None? <==> !IsRollingSync(strategy)
    ensures c.Some? ==> var k := FirstUndone(ss, |Steps(strategy)|, 0);
                        c.value == if k < |Steps(strategy)| then RolloutProgressing(k + 1) else RolloutComplete
  {
    hide StepDone;
    if !IsRollingSync(strategy) { return None; }
    var completed := CompletedSteps(ss);
    var steps := Steps(strategy);
    var k := 0;
    while k < |steps|
      invariant 0 <= k <= |steps|
      invariant FirstUndone(ss, |steps|, 0) == FirstUndone(ss, |steps|, k)
    {
      if k + 1 in completed && !completed[k + 1] { return Some(RolloutProgressing(k + 1)); }
      assert StepDone(ss, (k + 1) - 1);
      k := k + 1;
    }
    return Some(RolloutComplete);
  }

  //////// Gate and report agree ////////

  function GetAppStep(name: string, stepMap: map<string, nat>): (r: int)
  {
    if name in stepMap then stepMap[name] + 1 else -1
  }

  /** The step map gives each listed name its least step. */
  ghost predicate Agrees(dep: seq<seq<string>>, stepMap: map<string, nat>)
  {
    && (forall i, n :: 0 <= i < |dep| && n in dep[i] ==> n in stepMap && stepMap[n] <= i)
    && (forall n :: n in stepMap ==> stepMap[n] < |dep| && n in dep[stepMap[n]])
  }

  lemma BuiltAgrees(steps: seq<RolloutStep>, apps: seq<App>, dep: seq<seq<string>>, p: Places)
    requires UniqueApps(apps) && ListsAre(dep, steps, apps) && InOrder(p, apps, |dep|)
    requires forall a | a in apps :: Placed(steps, a, p)
    ensures Agrees(dep, p.stepMap)
  {
    hide Selects;
    forall i, n | 0 <= i < |dep| && n in dep[i]
      ensures n in p.stepMap && p.stepMap[n] <= i
    {
      var a :| a in apps && a.name == n && Selects(steps[i], a);
      var mine := StepsOf(steps, a);
      assert i in mine && Placed(steps, a, p);
      var j :| 0 <= j < |mine| && mine[j] == i;
      assert mine[0] <= mine[j];
    }
    forall n | n in p.stepMap
      ensures p.stepMap[n] < |dep| && n in dep[p.stepMap[n]]
    {
      var a :| a in apps && a.name == n;
      assert Placed(steps, a, p);
      assert StepsOf(steps, a)[0] in StepsOf(steps, a);
    }
  }

  /** One entry for each current application, its step taken from the step map. */
  ghost predicate UpToDate(ss: seq<AppStatus>, current: set<string>, stepMap: map<string, nat>)
  {
    && UniqueStatuses(ss)
    && (set s | s in ss :: s.application) == current
    && forall s | s in ss :: s.step == GetAppStep(s.application, stepMap)
  }

  lemma EntryOf(ss: seq<AppStatus>, s: AppStatus)
    requires UniqueStatuses(ss) && s in ss
    ensures FindStatus(ss, s.application) >= 0 && ss[FindStatus(ss, s.application)] == s
  {
    var i :| 0 <= i < |ss| && ss[i] == s;
  }

  /** Some application of step k exists and is not Healthy. */
  ghost predicate Unhealthy(dep: seq<seq<string>>, current: set<string>, ss: seq<AppStatus>, k: nat)
    requires k < |dep|
  {
    exists n :: n in dep[k] && n in current && !HealthyIn(ss, n)
  }

  /** The first step reported unfinished is the first with an application that exists and is not Healthy. */
  lemma ReportsFirstUnhealthy(dep: seq<seq<string>>, current: set<string>, ss: seq<AppStatus>,
                              stepMap: map<string, nat>, k: nat)
    requires Agrees(dep, stepMap) && UpToDate(ss, current, stepMap)
    requires k < |dep|
    requires forall i :: 0 <= i < k ==> StepDone(ss, i)
    ensures StepDone(ss, k) <==> !Unhealthy(dep, current, ss, k)
  {
    if !StepDone(ss, k) {
      var s :| s in ss && s.step == k + 1 && !s.status.Healthy?;
      EntryOf(ss, s);
      assert stepMap[s.application] == k;
      assert s.application in dep[k] && s.application in current && !HealthyIn(ss, s.application);
    }
    if Unhealthy(dep, current, ss, k) {
      var n :| n in dep[k] && n in current && !HealthyIn(ss, n);
      var s :| s in ss && s.application == n;
      EntryOf(ss, s);
      var j := stepMap[n];
      assert j < k ==> StepDone(ss, j);
      assert s.step == k + 1;
    }
  }

  /**
   Against the step k that holds the rollout up: the report names exactly k + 1 when an
   application of step k exists and is not Healthy, which is always so when every listed
   application exists; and the rollout is reported complete exactly when every listed
   application that exists is Healthy.
   */
  lemma ReportMatchesGate(dep: seq<seq<string>>, current: set<string>, ss: seq<AppStatus>, stepMap: map<string, nat>)
    requires Agrees(dep, stepMap) && UpToDate(ss, current, stepMap)
    ensures var k := FirstBlocked(dep, current, ss, 0);
            var reported := FirstUndone(ss, |dep|, 0);
            && (k < |dep| ==> (reported == k <==> Unhealthy(dep, current, ss, k)))
            && ((forall i, n :: 0 <= i < |dep| && n in dep[i] ==> n in current) ==> reported == k)
            && (reported == |dep| <==> forall i, n :: 0 <= i < |dep| && n in dep[i] && n in current ==>
                 HealthyIn(ss, n))
  {
    hide HealthyIn, FirstBlocked, FirstUndone, StepDone, Agrees, UpToDate;
    var k := FirstBlocked(dep, current, ss, 0);
    var reported := FirstUndone(ss, |dep|, 0);
    if reported < |dep| { ReportsFirstUnhealthy(dep, current, ss, stepMap, reported); }
    DoneAreHealthy(dep, current, ss, stepMap, reported);
    assert reported < k ==> Settled(dep[reported], current, ss);
    if k < |dep| && k < reported { assert !Unhealthy(dep, current, ss, k); }
    if reported < |dep| {
      assert Unhealthy(dep, current, ss, reported);
    } else {
      forall i, n | 0 <= i < |dep| && n in dep[i] && n in current
        ensures HealthyIn(ss, n)
      {
        assert !Unhealthy(dep, current, ss, i);
      }
    }
  }

  lemma {:induction false} DoneAreHealthy(dep: seq<seq<string>>, current: set<string>, ss: seq<AppStatus>,
                                          stepMap: map<string, nat>, k: nat)
    requires Agrees(dep, stepMap) && UpToDate(ss, current, stepMap)
    requires k <= |dep|
    requires forall i :: 0 <= i < k ==> StepDone(ss, i)
    ensures forall i :: 0 <= i < k ==> !Unhealthy(dep, current, ss, i)
  {
    if k > 0 {
      DoneAreHealthy(dep, current, ss, stepMap, k - 1);
      ReportsFirstUnhealthy(dep, current, ss, stepMap, k - 1);
    }
  }

  /** Promotion touches no Healthy entry, so gate and report read the same health before and after it. */
  lemma PromotionKeepsHealth(ss: seq<AppStatus>, r: seq<AppStatus>, stepMap: map<string, nat>,
                             steps: seq<RolloutStep>, toSync: set<string>, now: int, name: string)
    requires InRange(ss, stepMap, |steps|) && Advanced(ss, r, stepMap, steps, toSync, now)
    ensures HealthyIn(r, name) <==> HealthyIn(ss, name)
  {
    hide Promoted;
    var i, j := FindStatus(ss, name), FindStatus(r, name);
    forall k | 0 <= k < |ss|
      ensures r[k].application == ss[k].application
      ensures r[k].status.Healthy? <==> ss[k].status.Healthy?
    {
      OnlyWaitingPromoted(ss, stepMap, steps, toSync, k);
    }
  }

  lemma OnlyWaitingPromoted(ss: seq<AppStatus>, stepMap: map<string, nat>, steps: seq<RolloutStep>,
                            toSync: set<string>, k: nat)
    requires InRange(ss, stepMap, |steps|) && k < |ss|
    ensures Promoted(ss, stepMap, steps, toSync, k) ==> ss[k].status.Waiting? && ss[k].application in toSync
  {
  }
}
