/**
 One rollout pass over an ApplicationSet: evaluate the statuses, store them, gate the
 steps, promote, store again, report.  A write that is made copies the whole ApplicationSet
 back from the server, spec included, while the step map stays the one built at the start.
 */
module Pass {
  import opened Options
  import opened Appset
  import opened Selection
  import opened Quota
  import opened Waves
  import opened Rollout
  import Runs

  /** What a pass starts from, and the strategy that comes back with each write, if one does. */
  datatype Input = Input(
    start: seq<AppStatus>,
    strategy: Option<Strategy>,
    apps: seq<App>,
    desired: seq<App>,
    observedAt: int,
    advancedAt: int,
    firstFound: Option<Option<Strategy>>,
    secondFound: Option<Option<Strategy>>)

  /** What a pass went through: steps, step map, statuses after each half, strategies after each write. */
  datatype Trail = Trail(
    dep: seq<seq<string>>,
    stepMap: map<string, nat>,
    evaluated: seq<AppStatus>,
    mid: seq<AppStatus>,
    second: Option<Strategy>,
    advanced: seq<AppStatus>,
    third: Option<Strategy>)

  /** The strategy in force after a write that may have brought another one back. */
  function InForce(strategy: Option<Strategy>, written: bool, found: Option<Option<Strategy>>): (r: Option<Strategy>)
  {
    if written && found.Some? then found.value else strategy
  }

  ghost predicate Timed(ss: seq<AppStatus>)
  {
    forall s | s in ss :: s.lastTransitionTime.Some?
  }

  /** Every application of every step exists. */
  ghost predicate AllExist(dep: seq<seq<string>>, current: set<string>)
  {
    forall i, n :: 0 <= i < |dep| && n in dep[i] ==> n in current
  }

  /** The first half: evaluated and stored, with the steps and the step map of the strategy at the start. */
  ghost predicate FirstHalf(x: Input, t: Trail)
  {
    && ListsAre(t.dep, Steps(x.strategy), x.desired)
    && (UniqueApps(x.desired) ==> Agrees(t.dep, t.stepMap))
    && (forall n | n in t.stepMap :: t.stepMap[n] < |t.dep|)
    && Evaluated(x.start, x.apps, x.desired, t.stepMap, x.observedAt, t.evaluated)
    && Persisted(x.start, t.evaluated, t.mid)
    && t.second == InForce(x.strategy, !Unchanged(x.start, t.evaluated), x.firstFound)
  }

  /** The second half, under the strategy now in force: promoted and stored again. */
  ghost predicate SecondHalf(x: Input, t: Trail, released: set<string>, ss: seq<AppStatus>)
  {
    && (if Steps(t.second) == [] then t.advanced == []
        else InRange(t.mid, t.stepMap, |Steps(t.second)|) &&
             Advanced(t.mid, t.advanced, t.stepMap, Steps(t.second), released, x.advancedAt))
    && Persisted(t.mid, t.advanced, ss)
    && t.third == InForce(t.second, !Unchanged(t.mid, t.advanced), x.secondFound)
  }

  /** done is false when the pass ends with an index out of range, the first half stored. */
  ghost predicate Passed(x: Input, done: bool, released: set<string>, ss: seq<AppStatus>, t: Trail)
  {
    && FirstHalf(x, t)
    && released == UpTo(t.dep, FirstBlocked(t.dep, AppNames(x.apps), t.mid, 0))
    && (done <==> Steps(t.second) == [] || InRange(t.mid, t.stepMap, |Steps(t.second)|))
    && (if done then SecondHalf(x, t, released, ss) else ss == t.mid)
  }

  /** What is reported when the gate stopped at step k of the steps built at the start. */
  function Report(k: nat, built: nat, strategy: Option<Strategy>): (r: Option<RolloutCondition>)
  {
    if !IsRollingSync(strategy) then None
    else if k < built && k < |Steps(strategy)| then Some(RolloutProgressing(k + 1))
    else Some(RolloutComplete)
  }

  method EvaluateAndStore(x: Input) returns (t: Trail)
    requires IsRollingSync(x.strategy) && Steps(x.strategy) != []
    requires Timed(x.start)
    ensures FirstHalf(x, t)
  {
    hide Evaluated, Persisted, Unchanged, Agrees, ListsAre;
    var dep, places, issues := BuildAppDependencyList(x.strategy, x.desired);
    if UniqueApps(x.desired) { BuiltAgrees(Steps(x.strategy), x.desired, dep, places); }
    SafeWhenTimed(x.start, x.apps, x.desired, places.stepMap, x.observedAt);
    var evaluated := EvaluateStatuses(x.start, x.apps, x.desired, places.stepMap, x.observedAt);
    var mid, wrote := SetStatuses(x.start, evaluated);
    t := Trail(dep, places.stepMap, evaluated, mid, InForce(x.strategy, wrote, x.firstFound), [], None);
  }

  /**
   A pass.  With distinct names and every selected application in existence, the condition
   reports exactly the step the gate stopped at, as far as the strategy now has that step.
   */
  method PerformProgressiveSyncs(x: Input)
    returns (done: bool, released: set<string>, ss: seq<AppStatus>, condition: Option<RolloutCondition>, trail: Trail)
    requires IsRollingSync(x.strategy) && Steps(x.strategy) != []
    requires Timed(x.start)
    ensures Passed(x, done, released, ss, trail)
    ensures done && Reportable(x, trail) ==>
              condition == Report(FirstBlocked(trail.dep, AppNames(x.apps), trail.mid, 0), |trail.dep|, trail.third)
  {
    hide FirstBlocked, FirstUndone, FirstHalf, Advanced, Persisted, Unchanged, UpTo, Reportable, InRange;
    trail := EvaluateAndStore(x);
    released := GetAppsToSync(trail.mid, trail.dep, x.apps);
    var advanced := UpdateProgress(trail.mid, trail.second, trail.stepMap, released, x.advancedAt);
    if advanced.None? {
      return false, released, trail.mid, None, trail;
    }
    var wrote;
    ss, wrote := SetStatuses(trail.mid, advanced.value);
    SameFirstHalf(x, trail, advanced.value, InForce(trail.second, wrote, x.secondFound));
    trail := trail.(advanced := advanced.value, third := InForce(trail.second, wrote, x.secondFound));
    done := true;
    condition := GetProgressingCondition(trail.third, ss);
    if Reportable(x, trail) { PassReports(x, released, ss, trail); }
  }

  /** The strategy changes only with a write, and then to what the write brought back. */
  lemma StrategyByWrite(x: Input, released: set<string>, ss: seq<AppStatus>, t: Trail)
    requires Passed(x, true, released, ss, t)
    ensures t.second != x.strategy ==> !Unchanged(x.start, t.evaluated) && x.firstFound == Some(t.second)
    ensures t.third != t.second ==> !Unchanged(t.mid, t.advanced) && x.secondFound == Some(t.third)
    ensures !Unchanged(x.start, t.evaluated) && x.firstFound.Some? ==> t.second == x.firstFound.value
    ensures !Unchanged(t.mid, t.advanced) && x.secondFound.Some? ==> t.third == x.secondFound.value
  {
    hide Evaluated, Persisted, Unchanged, Agrees, ListsAre, FirstBlocked, UpTo, Advanced, InRange;
  }

  lemma SameFirstHalf(x: Input, t: Trail, advanced: seq<AppStatus>, third: Option<Strategy>)
    requires FirstHalf(x, t)
    ensures FirstHalf(x, t.(advanced := advanced, third := third))
  {
    hide Evaluated, Persisted, Unchanged, Agrees, ListsAre;
  }

  /** Distinct names, every selected application in existence, and steps left. */
  ghost predicate Reportable(x: Input, t: Trail)
  {
    && Steps(t.second) != [] && UniqueApps(x.apps) && UniqueApps(x.desired) && UniqueStatuses(x.start)
    && AllExist(t.dep, AppNames(x.apps))
  }

  lemma PassReports(x: Input, released: set<string>, ss: seq<AppStatus>, t: Trail)
    requires Passed(x, true, released, ss, t) && Reportable(x, t)
    ensures var k, count := FirstBlocked(t.dep, AppNames(x.apps), t.mid, 0), |Steps(t.third)|;
            FirstUndone(ss, count, 0) == if k < |t.dep| && k < count then k else count
  {
    hide Evaluated, Advanced, Persisted, Unchanged, UpTo, AllExist, Agrees, UpToDate, ListsAre, FirstBlocked,
        FirstUndone;
    EvaluatedUpToDate(x.start, x.apps, x.desired, t.stepMap, x.observedAt, t.evaluated, t.mid);
    AdvancedUpToDate(t.mid, t.advanced, ss, AppNames(x.apps), t.stepMap, Steps(t.second), released, x.advancedAt);
    SameGate(t.dep, AppNames(x.apps), t.mid, ss, 0);
    ReportsGate(t.dep, AppNames(x.apps), ss, t.stepMap, |Steps(t.third)|);
  }

  /** The first unfinished step among count steps, when the entries know of the steps built only. */
  lemma ReportsGate(dep: seq<seq<string>>, current: set<string>, ss: seq<AppStatus>, stepMap: map<string, nat>,
                    count: nat)
    requires Agrees(dep, stepMap) && UpToDate(ss, current, stepMap) && AllExist(dep, current)
    ensures var k := FirstBlocked(dep, current, ss, 0);
            FirstUndone(ss, count, 0) == if k < |dep| && k < count then k else count
  {
    hide FirstBlocked, FirstUndone, HealthyIn, StepDone;
    ReportMatchesGate(dep, current, ss, stepMap);
    forall i | |dep| <= i ensures StepDone(ss, i) {
      NoEntryBeyond(dep, current, ss, stepMap, i);
    }
  }

  lemma NoEntryBeyond(dep: seq<seq<string>>, current: set<string>, ss: seq<AppStatus>,
                      stepMap: map<string, nat>, i: nat)
    requires Agrees(dep, stepMap) && UpToDate(ss, current, stepMap) && |dep| <= i
    ensures StepDone(ss, i)
  {
  }

  lemma SafeWhenTimed(ss: seq<AppStatus>, apps: seq<App>, desired: seq<App>, stepMap: map<string, nat>, now: int)
    requires Timed(ss)
    ensures SafeToRead(ss, apps, desired, stepMap, now)
  {
    forall a | a in apps ensures HasTimeToRead(Current(ss, a, stepMap, now), a, desired) {
      var f := FindStatus(ss, a.name);
      assert f >= 0 ==> ss[f] in ss;
    }
  }

  lemma EvaluatedUpToDate(start: seq<AppStatus>, apps: seq<App>, desired: seq<App>, stepMap: map<string, nat>,
                          now: int, r: seq<AppStatus>, m: seq<AppStatus>)
    requires UniqueApps(apps) && UniqueStatuses(start)
    requires Evaluated(start, apps, desired, stepMap, now, r) && Persisted(start, r, m)
    ensures UpToDate(m, AppNames(apps), stepMap)
  {
    hide Persisted, Moves;
    forall k | 0 <= k < |r|
      ensures r[k].application == apps[k].name && r[k].step == GetAppStep(apps[k].name, stepMap)
    {
      var cur := Current(start, apps[k], stepMap, now);
      MovesKeeps(cur, apps[k], desired, GetAppStep(apps[k].name, stepMap), now, r[k]);
    }
    forall n ensures n in Names(r) <==> n in AppNames(apps) {
      if n in Names(r) { var k :| 0 <= k < |r| && r[k].application == n; assert apps[k] in apps; }
      if n in AppNames(apps) { var k :| 0 <= k < |apps| && apps[k].name == n; assert r[k] in r; }
    }
    PersistedEntries(start, r, m);
  }

  lemma MovesKeeps(cur: AppStatus, app: App, desired: seq<App>, step: int, now: int, r: AppStatus)
    requires Moves(cur, app, desired, step, now, r)
    ensures r.application == cur.application && r.step == step
  {
  }

  lemma AdvancedUpToDate(mid: seq<AppStatus>, r: seq<AppStatus>, m: seq<AppStatus>, current: set<string>,
                         stepMap: map<string, nat>, steps: seq<RolloutStep>, toSync: set<string>, now: int)
    requires UpToDate(mid, current, stepMap)
    requires InRange(mid, stepMap, |steps|) && Advanced(mid, r, stepMap, steps, toSync, now) && Persisted(mid, r, m)
    ensures UpToDate(m, current, stepMap)
    ensures forall n :: HealthyIn(m, n) <==> HealthyIn(mid, n)
  {
    hide Persisted, Promoted, HealthyIn, GetAppStep;
    assert forall k :: 0 <= k < |r| ==> r[k].application == mid[k].application && r[k].step == mid[k].step;
    forall n ensures n in Names(r) <==> n in Names(mid) {
      if n in Names(r) { var k :| 0 <= k < |r| && r[k].application == n; assert mid[k] in mid; }
      if n in Names(mid) { var k :| 0 <= k < |mid| && mid[k].application == n; assert r[k] in r; }
    }
    assert forall s | s in r :: s.step == GetAppStep(s.application, stepMap);
    PersistedEntries(mid, r, m);
    forall n ensures HealthyIn(m, n) <==> HealthyIn(mid, n) {
      PromotionKeepsHealth(mid, r, stepMap, steps, toSync, now, n);
      PersistingKeepsHealth(mid, r, m, n);
    }
  }

  lemma PersistingKeepsHealth(cur: seq<AppStatus>, computed: seq<AppStatus>, r: seq<AppStatus>, n: string)
    requires UniqueStatuses(cur) && UniqueStatuses(computed) && Persisted(cur, computed, r)
    ensures HealthyIn(r, n) <==> HealthyIn(computed, n)
  {
    hide Persisted;
    PersistedEntries(cur, computed, r);
    var i, j := FindStatus(r, n), FindStatus(computed, n);
    assert i >= 0 ==> r[i] in r;
    assert j >= 0 ==> computed[j] in computed && n in Names(computed);
    assert i >= 0 ==> n in Names(r);
    if i >= 0 {
      var c: AppStatus :| c in computed && c.application == n && c.status == r[i].status;
      EntryOf(computed, c);
    }
  }

  lemma {:induction false} SameGate(dep: seq<seq<string>>, current: set<string>,
                                    a: seq<AppStatus>, b: seq<AppStatus>, k: nat)
    requires k <= |dep|
    requires forall n :: HealthyIn(b, n) <==> HealthyIn(a, n)
    ensures FirstBlocked(dep, current, a, k) == FirstBlocked(dep, current, b, k)
    decreases |dep| - k
  {
    hide HealthyIn;
    if k < |dep| { SameGate(dep, current, a, b, k + 1); }
  }

  //////// What a pass releases and promotes ////////

  /** Every application of every step before i exists and is Healthy. */
  ghost predicate ClearedFor(dep: seq<seq<string>>, current: set<string>, ss: seq<AppStatus>, i: nat)
    requires i <= |dep|
  {
    forall j, n :: 0 <= j < i && n in dep[j] ==> n in current && HealthyIn(ss, n)
  }

  lemma ReleasedIsCleared(dep: seq<seq<string>>, current: set<string>, ss: seq<AppStatus>, name: string)
    ensures name in UpTo(dep, FirstBlocked(dep, current, ss, 0)) <==>
              exists i :: 0 <= i < |dep| && name in dep[i] && ClearedFor(dep, current, ss, i)
  {
    hide HealthyIn, FirstBlocked;
    var k := FirstBlocked(dep, current, ss, 0);
    if name in UpTo(dep, k) {
      var i :| 0 <= i < |dep| && i <= k && name in dep[i];
      forall j, n | 0 <= j < i && n in dep[j] ensures n in current && HealthyIn(ss, n) {
        assert Settled(dep[j], current, ss);
      }
      assert ClearedFor(dep, current, ss, i);
    }
    if i :| 0 <= i < |dep| && name in dep[i] && ClearedFor(dep, current, ss, i) {
      assert forall j :: 0 <= j < i ==> Settled(dep[j], current, ss);
      assert i <= k;
    }
  }

  /** A pass that gets through is two steps of a run, or an observation and a clearing of the list. */
  lemma PassIsTwoSteps(x: Input, released: set<string>, ss: seq<AppStatus>, t: Trail, stored: set<seq<AppStatus>>)
    requires UniqueApps(x.apps) && Passed(x, true, released, ss, t)
    ensures var w0, w1 := Runs.World(stored, x.start), Runs.World(stored + {t.mid}, t.mid);
            var steps := Steps(t.second);
            var e := if steps == [] then Runs.Clear else Runs.Advance(t.stepMap, steps, released, x.advancedAt);
            && Runs.Next(w0, Runs.Observe(x.apps, x.desired, t.stepMap, x.observedAt), w1)
            && Runs.Next(w1, e, Runs.World(stored + {t.mid} + {ss}, ss))
  {
    hide Evaluated, Advanced, Persisted, ListsAre, Agrees, FirstBlocked, UpTo, Unchanged, InRange;
    assert Runs.Computed(x.start, Runs.Observe(x.apps, x.desired, t.stepMap, x.observedAt), t.evaluated);
    var steps := Steps(t.second);
    var e := if steps == [] then Runs.Clear else Runs.Advance(t.stepMap, steps, released, x.advancedAt);
    assert Runs.Computed(t.mid, e, t.advanced);
  }

  predicate PendingIn(ss: seq<AppStatus>, name: string)
  {
    var i := FindStatus(ss, name);
    i >= 0 && ss[i].status.Pending?
  }

  /** An entry that a pass makes Pending is of a step before which every application exists and is Healthy. */
  lemma NewlyPendingIsCleared(x: Input, done: bool, released: set<string>, ss: seq<AppStatus>, t: Trail, s: AppStatus)
    requires UniqueApps(x.apps) && UniqueStatuses(x.start) && Passed(x, done, released, ss, t)
    requires s in ss && s.status.Pending? && !PendingIn(t.mid, s.application)
    ensures exists k :: 0 <= k < |t.dep| && s.application in t.dep[k] && ClearedFor(t.dep, AppNames(x.apps), t.mid, k)
  {
    hide Evaluated, Persisted, ListsAre, Agrees, FirstBlocked, UpTo, ClearedFor, Promoted, PendingIn, UpToDate,
        Unchanged;
    EvaluatedUpToDate(x.start, x.apps, x.desired, t.stepMap, x.observedAt, t.evaluated, t.mid);
    MidUnique(t.mid, AppNames(x.apps), t.stepMap);
    if !done {
      PendingEntry(t.mid, s);
    } else {
      assert Steps(t.second) == [] ==> UniqueStatuses(t.advanced);
      assert UniqueStatuses(t.advanced);
      PersistedEntries(t.mid, t.advanced, ss);
      var c: AppStatus :| c in t.advanced && c.application == s.application && c.status == s.status;
      var k :| 0 <= k < |t.advanced| && t.advanced[k] == c;
      OnlyWaitingPromoted(t.mid, t.stepMap, Steps(t.second), released, k);
      if !Promoted(t.mid, t.stepMap, Steps(t.second), released, k) { PendingEntry(t.mid, t.mid[k]); }
      ReleasedIsCleared(t.dep, AppNames(x.apps), t.mid, s.application);
    }
  }

  lemma MidUnique(ss: seq<AppStatus>, current: set<string>, stepMap: map<string, nat>)
    requires UpToDate(ss, current, stepMap)
    ensures UniqueStatuses(ss)
  {
  }

  lemma PendingEntry(ss: seq<AppStatus>, s: AppStatus)
    requires UniqueStatuses(ss) && s in ss && s.status.Pending?
    ensures PendingIn(ss, s.application)
  {
    EntryOf(ss, s);
  }

  //////// Steps removed while a pass runs ////////

  /** The first write brought back a strategy with fewer steps, but not none. */
  predicate LosesSteps(before: nat, after: nat)
  {
    0 < after < before
  }

  /** A pass whose strategy keeps its steps, or loses all of them, stays in range. */
  lemma KeptStepsAreEnough(x: Input, done: bool, released: set<string>, ss: seq<AppStatus>, t: Trail)
    requires Passed(x, done, released, ss, t) && !LosesSteps(|Steps(x.strategy)|, |Steps(t.second)|)
    requires Steps(x.strategy) != []
    ensures done
  {
    hide Evaluated, Persisted, Agrees, FirstBlocked, UpTo, Unchanged, Advanced;
  }

  /** A step that selects nothing without the label, and one that selects everything. */
  const NOTHING := RolloutStep([MatchExpression("k", "In", ["v"])], None)

  const EVERYTHING := RolloutStep([], None)

  function LastSelects(n: nat): (r: Strategy)
    requires n > 0
    ensures Steps(Some(r)) == seq(n, i => if i == n - 1 then EVERYTHING else NOTHING)
  {
    Strategy("RollingSync", Some(seq(n, i => if i == n - 1 then EVERYTHING else NOTHING)))
  }

  const NEW_APP := App("a", map[], Spec("", None), [], "", "", None, None, [], None)

  lemma SelectsByStep()
    ensures NamesIn(EVERYTHING, [NEW_APP]) == ["a"] && NamesIn(NOTHING, [NEW_APP]) == []
  {
    assert [NEW_APP][..0] == [];
    assert Selects(EVERYTHING, NEW_APP);
    assert NOTHING.matchExpressions[0] in NOTHING.matchExpressions;
    assert !Selects(NOTHING, NEW_APP);
  }

  lemma LastStepListed(n: nat, dep: seq<seq<string>>, stepMap: map<string, nat>)
    requires n > 0 && dep == seq(n, i => if i == n - 1 then ["a"] else []) && stepMap == map["a" := n - 1]
    ensures ListsAre(dep, Steps(Some(LastSelects(n))), [NEW_APP]) && Agrees(dep, stepMap)
  {
    SelectsByStep();
    var steps := Steps(Some(LastSelects(n)));
    forall i | 0 <= i < |dep| ensures dep[i] == NamesIn(steps[i], [NEW_APP]) {
      assert steps[i] == if i == n - 1 then EVERYTHING else NOTHING;
    }
  }

  lemma RecordsNewApp(n: nat, stepMap: map<string, nat>, entry: AppStatus)
    requires n > 0 && stepMap == map["a" := n - 1] && entry == AppStatus("a", [], Some(1), NoStatusFound, Waiting, n)
    ensures Evaluated([], [NEW_APP], [NEW_APP], stepMap, 1, [entry])
    ensures !Unchanged([], [entry]) && Persisted([], [entry], [entry])
  {
    assert DesiredSpec([NEW_APP], "a") == Some(NEW_APP.spec);
    assert Current([], NEW_APP, stepMap, 1) == entry;
    assert Moves(entry, NEW_APP, [NEW_APP], n, 1, entry);
  }

  /** An application of the last of n steps, recorded by a pass during which a user leaves m of them. */
  lemma RemovedStepsPanic(n: nat, m: nat) returns (x: Input, released: set<string>, ss: seq<AppStatus>, t: Trail)
    requires LosesSteps(n, m)
    ensures Timed(x.start) && IsRollingSync(x.strategy) && |Steps(x.strategy)| == n
    ensures Passed(x, false, released, ss, t) && |Steps(t.second)| == m
  {
    hide Evaluated, Persisted, Unchanged, Agrees, ListsAre, FirstBlocked, UpTo;
    x := Input([], Some(LastSelects(n)), [NEW_APP], [NEW_APP], 1, 2, Some(Some(LastSelects(m))), None);
    var entry := AppStatus("a", [], Some(1), NoStatusFound, Waiting, n);
    var dep := seq(n, i => if i == n - 1 then ["a"] else []);
    t := Trail(dep, map["a" := n - 1], [entry], [entry], Some(LastSelects(m)), [], None);
    ss := [entry];
    LastStepListed(n, dep, t.stepMap);
    RecordsNewApp(n, t.stepMap, entry);
    released := UpTo(dep, FirstBlocked(dep, AppNames(x.apps), ss, 0));
    assert FirstHalf(x, t);
    assert Bucket(t.stepMap, ss[0].application) == n - 1;
  }

  /**
   Every pass from n steps to m stays in range exactly when the steps are not reduced to
   fewer, or are all removed.
   */
  lemma InRangeIff(n: nat, m: nat)
    requires n > 0
    ensures (forall x, done, released, ss, t ::
               Passed(x, done, released, ss, t) && |Steps(x.strategy)| == n && |Steps(t.second)| == m ==> done)
              <==> !LosesSteps(n, m)
  {
    hide Passed;
    if LosesSteps(n, m) {
      var x, released, ss, t := RemovedStepsPanic(n, m);
    } else {
      forall x, done, released, ss, t |
        Passed(x, done, released, ss, t) && |Steps(x.strategy)| == n && |Steps(t.second)| == m
        ensures done
      {
        KeptStepsAreEnough(x, done, released, ss, t);
      }
    }
  }
}
