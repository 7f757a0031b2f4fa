/** Which applications belong to which rollout step. */
module Selection {
  import opened Options
  import opened Appset

  datatype Issues = Issues(
    invalidMatchExpressions: seq<(nat, string)>,
    duplicateAppSelections: map<string, seq<nat>>,
    emptySteps: seq<nat>)

  //////// What selection means ////////

  /** A missing label fails only the operator In; an unknown operator fails on a present label. */
  predicate Accepts(e: MatchExpression, labels: map<string, string>)
  {
    if e.key !in labels then e.operator != "In"
    else if e.operator == "In" then labels[e.key] in e.values
    else e.operator == "NotIn" && labels[e.key] !in e.values
  }

  predicate Selects(step: RolloutStep, app: App)
  {
    forall e | e in step.matchExpressions :: Accepts(e, app.labels)
  }

  /** The steps below k that select app, ascending. */
  function StepsBelow(steps: seq<RolloutStep>, app: App, k: nat): (r: seq<nat>)
    requires k <= |steps|
    ensures forall i :: i in r <==> 0 <= i < k && Selects(steps[i], app)
    ensures forall i, j :: 0 <= i < j < |r| ==> r[i] < r[j]
  {
    if k == 0 then []
    else
      var r := StepsBelow(steps, app, k - 1);
      assert forall i :: 0 <= i < |r| ==> r[i] in r;
      if Selects(steps[k - 1], app) then r + [k - 1] else r
  }

  function StepsOf(steps: seq<RolloutStep>, app: App): (r: seq<nat>)
  {
    StepsBelow(steps, app, |steps|)
  }

  /** The names step selects, in the order of the applications. */
  function NamesIn(step: RolloutStep, apps: seq<App>): (r: seq<string>)
    ensures forall n :: n in r <==> exists a :: a in apps && a.name == n && Selects(step, a)
  {
    if apps == [] then []
    else
      var last := apps[|apps| - 1];
      NamesIn(step, apps[..|apps| - 1]) + (if Selects(step, last) then [last.name] else [])
  }

  /** The unknown operator that made app fail step, if that is how it failed. */
  function UnknownOperator(es: seq<MatchExpression>, app: App): (r: Option<string>)
  {
    if es == [] then None
    else if Accepts(es[0], app.labels) then UnknownOperator(es[1..], app)
    else if es[0].key in app.labels && es[0].operator != "In" && es[0].operator != "NotIn" then Some(es[0].operator)
    else None
  }

  //////// The code ////////

  /** None is the error for an unknown operator. */
  function LabelMatched(val: string, e: MatchExpression): (r: Option<bool>)
    ensures r.None? <==> e.operator != "In" && e.operator != "NotIn"
    ensures e.operator == "In" ==> r == Some(val in e.values)
    ensures e.operator == "NotIn" ==> r == Some(val !in e.values)
    ensures forall labels: map<string, string> ::
              e.key in labels && labels[e.key] == val ==> (r == Some(true) <==> Accepts(e, labels))
  {
    if e.operator != "In" && e.operator != "NotIn" then None
    else if val in e.values then Some(e.operator == "In")
    else Some(e.operator == "NotIn")
  }

  /** The match expressions of step i against app, in order, stopping at the first that fails. */
  method MatchStep(app: App, i: nat, step: RolloutStep, issues: seq<(nat, string)>)
    returns (selected: bool, issues': seq<(nat, string)>)
    ensures selected == Selects(step, app)
    ensures selected <==> forall e | e in step.matchExpressions ::
              && (e.operator == "In" ==> e.key in app.labels && app.labels[e.key] in e.values)
              && (e.operator == "NotIn" && e.key in app.labels ==> app.labels[e.key] !in e.values)
              && (e.operator != "In" && e.operator != "NotIn" ==> e.key !in app.labels)
    ensures var op := UnknownOperator(step.matchExpressions, app);
            issues' == if op.Some? && (i, op.value) !in issues then issues + [(i, op.value)] else issues
  {
    var es := step.matchExpressions;
    selected, issues' := true, issues;
    var k := 0;
    while k < |es|
      invariant 0 <= k <= |es|
      invariant forall j :: 0 <= j < k ==> Accepts(es[j], app.labels)
      invariant UnknownOperator(es, app) == UnknownOperator(es[k..], app)
    {
      var e := es[k];
      assert es[k..][1..] == es[k + 1..];
      if e.key in app.labels {
        var matched := LabelMatched(app.labels[e.key], e);
        assert matched == Some(true) <==> Accepts(e, app.labels);
        if matched.None? && (i, e.operator) !in issues {
          issues' := issues + [(i, e.operator)];
          selected := false;
          return;
        }
        if matched != Some(true) {
          selected := false;
          return;
        }
      } else if e.operator == "In" {
        selected := false;
        return;
      }
      k := k + 1;
    }
  }

  /** Where applications were placed: their first step, and all steps of those placed twice. */
  datatype Places = Places(stepMap: map<string, nat>, duplicates: map<string, seq<nat>>)

  /** name was selected by step i. */
  function Record(p: Places, name: string, i: nat): (r: Places)
  {
    if name !in p.stepMap then p.(stepMap := p.stepMap[name := i])
    else
      var earlier := if name in p.duplicates then p.duplicates[name] else [p.stepMap[name]];
      p.(duplicates := p.duplicates[name := earlier + [i]])
  }

  function RecordAll(p: Places, name: string, ks: seq<nat>): (r: Places)
  {
    if ks == [] then p else Record(RecordAll(p, name, ks[..|ks| - 1]), name, ks[|ks| - 1])
  }

  /** A name not seen before keeps its first step, and all its steps if there are several. */
  lemma {:induction false} RecordsAll(p: Places, name: string, ks: seq<nat>)
    requires name !in p.stepMap && name !in p.duplicates
    ensures RecordAll(p, name, ks) ==
            Places(if ks == [] then p.stepMap else p.stepMap[name := ks[0]],
                   if |ks| >= 2 then p.duplicates[name := ks] else p.duplicates)
    decreases |ks|
  {
    if ks != [] {
      var front := ks[..|ks| - 1];
      RecordsAll(p, name, front);
      assert front + [ks[|ks| - 1]] == ks;
      if |front| == 1 { assert front == [ks[0]]; }
    }
  }

  lemma {:induction false} RecordsOnly(p: Places, name: string, ks: seq<nat>)
    requires p.duplicates.Keys <= p.stepMap.Keys
    ensures var q := RecordAll(p, name, ks);
            && q.duplicates.Keys <= q.stepMap.Keys <= p.stepMap.Keys + {name}
            && (forall n :: n in p.stepMap ==> n in q.stepMap && q.stepMap[n] == p.stepMap[n])
            && (name in q.stepMap && name !in p.stepMap ==> q.stepMap[name] in ks)
            && (forall n :: n != name && n in q.duplicates ==> n in p.duplicates && q.duplicates[n] == p.duplicates[n])
            && (forall n :: n != name && n in p.duplicates ==> n in q.duplicates)
    decreases |ks|
  {
    if ks != [] { RecordsOnly(p, name, ks[..|ks| - 1]); }
  }

  /** The issues list after app was held against the steps below k. */
  function ReportBelow(invalid: seq<(nat, string)>, steps: seq<RolloutStep>, app: App, k: nat): (r: seq<(nat, string)>)
    requires k <= |steps|
    ensures Distinct(invalid) ==> Distinct(r)
    ensures forall x :: x in r <==> x in invalid || (x.0 < k && Reports(steps, app, x))
  {
    if k == 0 then invalid
    else
      var r := ReportBelow(invalid, steps, app, k - 1);
      var op := UnknownOperator(steps[k - 1].matchExpressions, app);
      assert forall i :: 0 <= i < |r| ==> r[i] in r;
      if op.Some? && (k - 1, op.value) !in r then r + [(k - 1, op.value)] else r
  }

  ghost predicate Distinct<T>(s: seq<T>)
  {
    forall i, j :: 0 <= i < j < |s| ==> s[i] != s[j]
  }

  /** app failed the step of x on the unknown operator of x. */
  predicate Reports(steps: seq<RolloutStep>, app: App, x: (nat, string))
  {
    x.0 < |steps| && UnknownOperator(steps[x.0].matchExpressions, app) == Some(x.1)
  }

  method RecordStep(p: Places, name: string, i: nat) returns (q: Places)
    ensures q == Record(p, name, i)
  {
    if name in p.stepMap {
      var dups := p.duplicates;
      if name !in dups { dups := dups[name := [p.stepMap[name]]]; }
      dups := dups[name := dups[name] + [i]];
      q := p.(duplicates := dups);
    } else {
      q := p.(stepMap := p.stepMap[name := i]);
    }
  }

  lemma NextStep(app: App, steps: seq<RolloutStep>, i: nat, p: Places, invalid: seq<(nat, string)>)
    requires i < |steps|
    ensures var q := RecordAll(p, app.name, StepsBelow(steps, app, i));
            RecordAll(p, app.name, StepsBelow(steps, app, i + 1)) ==
            if Selects(steps[i], app) then Record(q, app.name, i) else q
    ensures var op := UnknownOperator(steps[i].matchExpressions, app);
            var r := ReportBelow(invalid, steps, app, i);
            ReportBelow(invalid, steps, app, i + 1) ==
            if op.Some? && (i, op.value) !in r then r + [(i, op.value)] else r
  {
    hide Selects, UnknownOperator, Record;
    var ks := StepsBelow(steps, app, i);
    if Selects(steps[i], app) {
      assert (ks + [i])[..|ks|] == ks;
    }
  }

  /** dep' is dep with app's name added to the lists of the steps below i that select it. */
  ghost predicate Extended(dep: seq<seq<string>>, dep': seq<seq<string>>, steps: seq<RolloutStep>, app: App, i: nat)
  {
    && |dep'| == |dep| == |steps|
    && forall k :: 0 <= k < |dep| ==> dep'[k] == dep[k] + (if k < i && Selects(steps[k], app) then [app.name] else [])
  }

  lemma ExtendedNext(dep: seq<seq<string>>, dep': seq<seq<string>>, steps: seq<RolloutStep>, app: App, i: nat)
    requires i < |steps| && Extended(dep, dep', steps, app, i)
    ensures Extended(dep, if Selects(steps[i], app) then dep'[i := dep'[i] + [app.name]] else dep', steps, app, i + 1)
  {
    hide Selects;
  }

  lemma NothingYet(app: App, steps: seq<RolloutStep>, dep: seq<seq<string>>, p: Places, invalid: seq<(nat, string)>)
    requires |dep| == |steps|
    ensures Extended(dep, dep, steps, app, 0)
    ensures RecordAll(p, app.name, StepsBelow(steps, app, 0)) == p
    ensures ReportBelow(invalid, steps, app, 0) == invalid
  {
  }

  /** One application against every step. */
  method PlaceApp(app: App, steps: seq<RolloutStep>, dep: seq<seq<string>>, places: Places, invalid: seq<(nat, string)>)
    returns (dep': seq<seq<string>>, places': Places, invalid': seq<(nat, string)>)
    requires |dep| == |steps|
    ensures Extended(dep, dep', steps, app, |steps|)
    ensures places' == RecordAll(places, app.name, StepsOf(steps, app))
    ensures invalid' == ReportBelow(invalid, steps, app, |steps|)
  {
    hide Selects, UnknownOperator, Record, RecordAll, StepsBelow, ReportBelow, Extended;
    dep', places', invalid' := dep, places, invalid;
    NothingYet(app, steps, dep, places, invalid);
    var i := 0;
    while i < |steps|
      invariant 0 <= i <= |steps|
      invariant |dep'| == |dep|
      invariant Extended(dep, dep', steps, app, i)
      invariant places' == RecordAll(places, app.name, StepsBelow(steps, app, i))
      invariant invalid' == ReportBelow(invalid, steps, app, i)
    {
      NextStep(app, steps, i, places, invalid);
      ExtendedNext(dep, dep', steps, app, i);
      var selected;
      selected, invalid' := MatchStep(app, i, steps[i], invalid');
      if selected {
        dep' := dep'[i := dep'[i] + [app.name]];
        places' := RecordStep(places', app.name, i);
      }
      i := i + 1;
    }
  }

  /** The steps whose list of names is empty, ascending. */
  function EmptySteps(dep: seq<seq<string>>, k: nat): (r: seq<nat>)
    requires k <= |dep|
    ensures forall i :: i in r <==> 0 <= i < k && dep[i] == []
    ensures forall i, j :: 0 <= i < j < |r| ==> r[i] < r[j]
  {
    if k == 0 then []
    else
      var r := EmptySteps(dep, k - 1);
      assert forall i :: 0 <= i < |r| ==> r[i] in r;
      if dep[k - 1] == [] then r + [k - 1] else r
  }

  /** a is mapped to its least selecting step, and recorded with all of them when there are several. */
  predicate Placed(steps: seq<RolloutStep>, a: App, p: Places)
  {
    var mine := StepsOf(steps, a);
    && (a.name in p.stepMap <==> mine != [])
    && (a.name in p.stepMap ==> p.stepMap[a.name] == mine[0])
    && (a.name in p.duplicates <==> |mine| >= 2)
    && (a.name in p.duplicates ==> p.duplicates[a.name] == mine)
  }

  ghost predicate InOrder(p: Places, apps: seq<App>, bound: nat)
  {
    && p.duplicates.Keys <= p.stepMap.Keys <= AppNames(apps)
    && forall n :: n in p.stepMap ==> p.stepMap[n] < bound
  }

  lemma PlacesNext(steps: seq<RolloutStep>, apps: seq<App>, k: nat, p: Places)
    requires k < |apps| && InOrder(p, apps[..k], |steps|)
    requires UniqueApps(apps) ==> forall j :: 0 <= j < k ==> Placed(steps, apps[j], p)
    ensures var q := RecordAll(p, apps[k].name, StepsOf(steps, apps[k]));
            && InOrder(q, apps[..k + 1], |steps|)
            && (UniqueApps(apps) ==> forall j :: 0 <= j <= k ==> Placed(steps, apps[j], q))
  {
    hide Selects, RecordAll;
    var a := apps[k];
    var ks := StepsOf(steps, a);
    RecordsOnly(p, a.name, ks);
    assert apps[..k + 1] == apps[..k] + [a];
    if UniqueApps(apps) {
      assert a.name !in AppNames(apps[..k]);
      RecordsAll(p, a.name, ks);
    }
  }

  ghost predicate ListsAre(dep: seq<seq<string>>, steps: seq<RolloutStep>, apps: seq<App>)
  {
    |dep| == |steps| && forall i :: 0 <= i < |dep| ==> dep[i] == NamesIn(steps[i], apps)
  }

  ghost predicate InvalidAre(invalid: seq<(nat, string)>, steps: seq<RolloutStep>, apps: seq<App>)
  {
    Distinct(invalid) && forall x :: x in invalid <==> exists a :: a in apps && Reports(steps, a, x)
  }

  lemma ListsNext(dep: seq<seq<string>>, dep': seq<seq<string>>, steps: seq<RolloutStep>, apps: seq<App>, k: nat)
    requires k < |apps| && ListsAre(dep, steps, apps[..k])
    requires Extended(dep, dep', steps, apps[k], |steps|)
    ensures ListsAre(dep', steps, apps[..k + 1])
  {
    hide Selects;
    assert apps[..k + 1][..k] == apps[..k];
  }

  lemma InvalidNext(invalid: seq<(nat, string)>, steps: seq<RolloutStep>, apps: seq<App>, k: nat)
    requires k < |apps| && InvalidAre(invalid, steps, apps[..k])
    ensures InvalidAre(ReportBelow(invalid, steps, apps[k], |steps|), steps, apps[..k + 1])
  {
    hide Reports, ReportBelow;
    assert apps[..k + 1] == apps[..k] + [apps[k]];
    var r := ReportBelow(invalid, steps, apps[k], |steps|);
    forall x ensures x in r <==> exists a :: a in apps[..k + 1] && Reports(steps, a, x) {
      Bounded(steps, apps[k], x);
      if x in invalid {
        var a :| a in apps[..k] && Reports(steps, a, x);
        assert a in apps[..k + 1];
      }
      if Reports(steps, apps[k], x) { assert apps[k] in apps[..k + 1]; }
    }
  }

  lemma Bounded(steps: seq<RolloutStep>, app: App, x: (nat, string))
    ensures Reports(steps, app, x) ==> x.0 < |steps|
  {
  }

  method BuildAppDependencyList(strategy: Option<Strategy>, apps: seq<App>)
    returns (dep: seq<seq<string>>, places: Places, issues: Issues)
    ensures ListsAre(dep, Steps(strategy), apps)
    ensures InOrder(places, apps, |dep|)
    ensures UniqueApps(apps) ==> forall a | a in apps :: Placed(Steps(strategy), a, places)
    ensures issues.duplicateAppSelections == places.duplicates
    ensures issues.emptySteps == EmptySteps(dep, |dep|)
    ensures InvalidAre(issues.invalidMatchExpressions, Steps(strategy), apps)
  {
    hide Selects, RecordAll, Placed, ReportBelow, Reports, InvalidAre, Extended;
    var steps := Steps(strategy);
    dep := seq(|steps|, _ => []);
    places := Places(map[], map[]);
    var invalid: seq<(nat, string)> := [];
    NoneInvalid(steps);
    var k := 0;
    while k < |apps|
      invariant 0 <= k <= |apps|
      invariant ListsAre(dep, steps, apps[..k])
      invariant InOrder(places, apps[..k], |steps|)
      invariant UniqueApps(apps) ==> forall j :: 0 <= j < k ==> Placed(steps, apps[j], places)
      invariant InvalidAre(invalid, steps, apps[..k])
    {
      PlacesNext(steps, apps, k, places);
      InvalidNext(invalid, steps, apps, k);
      ghost var dep0 := dep;
      dep, places, invalid := PlaceApp(apps[k], steps, dep, places, invalid);
      ListsNext(dep0, dep, steps, apps, k);
      k := k + 1;
    }
    assert apps[..|apps|] == apps;
    issues := Issues(invalid, places.duplicates, EmptySteps(dep, |dep|));
  }

  lemma NoneInvalid(steps: seq<RolloutStep>)
    ensures forall apps: seq<App> {:trigger InvalidAre([], steps, apps[..0])} :: InvalidAre([], steps, apps[..0])
  {
  }
}
