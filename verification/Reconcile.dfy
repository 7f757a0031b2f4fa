/**
 One reconcile of an ApplicationSet with a rolling sync: a rollout pass, then the sync
 operations it attaches to the applications about to be written.
 */
module Reconcile {
  import opened Options
  import opened Appset
  import opened Selection
  import opened Quota
  import opened Waves
  import opened Rollout
  import opened Pass

  //////// Attaching sync operations ////////

  /** The automated part of the sync policy, if there is one. */
  function Automation(app: App): (r: Option<Automated>)
  {
    if app.spec.syncPolicy.Some? then app.spec.syncPolicy.value.automated else None
  }

  predicate AutomatedEnabled(app: App)
  {
    && app.spec.syncPolicy.Some?
    && app.spec.syncPolicy.value.automated.Some?
    && app.spec.syncPolicy.value.automated.value.enabled != Some(false)
  }

  /** Everything of a spec but whether automated sync is on. */
  ghost predicate SameButAutomation(a: App, b: App)
  {
    && b == a.(spec := b.spec, operation := b.operation)
    && b.spec.content == a.spec.content
    && (b.spec != a.spec ==>
          && AutomatedEnabled(a) && b.spec.syncPolicy.Some?
          && b.spec.syncPolicy.value == a.spec.syncPolicy.value.(automated := b.spec.syncPolicy.value.automated)
          && b.spec.syncPolicy.value.automated ==
             Some(Automated(Some(false), a.spec.syncPolicy.value.automated.value.prune)))
  }

  /** The operation a released, Pending application gets. */
  ghost predicate Requests(app: App, q: SyncRequest)
  {
    && (q.prune <==> Automation(app).Some? && Automation(app).value.enabled != Some(false) &&
                     Automation(app).value.prune)
    && q.retryLimit == (if app.spec.syncPolicy.Some? && app.spec.syncPolicy.value.retryLimit.Some?
                        then app.spec.syncPolicy.value.retryLimit.value else 5)
    && q.syncOptions == (if app.spec.syncPolicy.Some? then app.spec.syncPolicy.value.syncOptions else [])
  }

  ghost predicate Triggers(ss: seq<AppStatus>, released: set<string>, app: App, out: App)
  {
    && SameButAutomation(app, out) && !AutomatedEnabled(out)
    && (Automation(out).Some? ==> Automation(out).value.enabled == Some(false))
    && (if app.name in released && PendingIn(ss, app.name)
        then out.operation.Some? && Requests(app, out.operation.value)
        else out.operation == app.operation)
  }

  method SyncDesiredApplications(ss: seq<AppStatus>, released: set<string>, desired: seq<App>) returns (r: seq<App>)
    ensures |r| == |desired|
    ensures forall i :: 0 <= i < |r| ==> Triggers(ss, released, desired[i], r[i])
    ensures forall a | a in r && Automation(a).Some? :: Automation(a).value.enabled == Some(false)
  {
    r := [];
    for i := 0 to |desired|
      invariant |r| == i
      invariant forall j :: 0 <= j < i ==> Triggers(ss, released, desired[j], r[j])
    {
      var app := desired[i];
      var prune := false;
      if AutomatedEnabled(app) {
        var policy := app.spec.syncPolicy.value;
        prune := policy.automated.value.prune;
        app := app.(spec := app.spec.(syncPolicy :=
          Some(policy.(automated := Some(policy.automated.value.(enabled := Some(false)))))));
      }
      var pending := false;
      var idx := FindStatus(ss, app.name);
      if idx > -1 && ss[idx].status.Pending? {
        pending := true;
      }
      if app.name in released && pending {
        app := SyncApplication(app, prune);
      }
      r := r + [app];
    }
  }

  function SyncApplication(app: App, prune: bool): (r: App)
    ensures r == app.(operation := r.operation) && r.operation.Some?
    ensures r.operation.value.prune <==> prune && app.spec.syncPolicy.Some?
    ensures r.operation.value.retryLimit == 5 ||
            (app.spec.syncPolicy.Some? && app.spec.syncPolicy.value.retryLimit == Some(r.operation.value.retryLimit))
    ensures app.spec.syncPolicy.Some? && app.spec.syncPolicy.value.retryLimit.Some? ==>
              app.spec.syncPolicy.value.retryLimit == Some(r.operation.value.retryLimit)
    ensures app.spec.syncPolicy.Some? ==> r.operation.value.syncOptions == app.spec.syncPolicy.value.syncOptions
    ensures app.spec.syncPolicy.None? ==> r.operation.value.syncOptions == []
  {
    var p := app.spec.syncPolicy;
    var limit := if p.Some? && p.value.retryLimit.Some? then p.value.retryLimit.value else 5;
    var options := if p.Some? then p.value.syncOptions else [];
    app.(operation := Some(SyncRequest(p.Some? && prune, limit, options)))
  }

  //////// The whole reconcile ////////

  /** Drops the applications that failed validation. */
  method KeepValid(desired: seq<App>, invalid: set<string>) returns (r: seq<App>)
    ensures r == Valid(desired, invalid)
  {
    r := [];
    for i := 0 to |desired|
      invariant r == Valid(desired[..i], invalid)
    {
      assert desired[..i + 1][..i] == desired[..i];
      if desired[i].name !in invalid { r := r + [desired[i]]; }
    }
    assert desired[..|desired|] == desired;
  }

  function Valid(desired: seq<App>, invalid: set<string>): (r: seq<App>)
    ensures forall a :: a in r <==> a in desired && a.name !in invalid
  {
    if desired == [] then []
    else
      var last := desired[|desired| - 1];
      assert desired == desired[..|desired| - 1] + [last];
      Valid(desired[..|desired| - 1], invalid) + (if last.name !in invalid then [last] else [])
  }

  /** What comes back when recording a validation error re-reads the ApplicationSet. */
  datatype Reread = Reread(strategy: Option<Strategy>, statuses: seq<AppStatus>)

  /** The statuses that decide who is synced: those at the start, unless re-read in between. */
  function Snapshot(start: seq<AppStatus>, reread: Option<Reread>): (r: seq<AppStatus>)
  {
    if reread.Some? then reread.value.statuses else start
  }

  function StrategyNow(strategy: Option<Strategy>, reread: Option<Reread>): (r: Option<Strategy>)
  {
    if reread.Some? then reread.value.strategy else strategy
  }

  /** A reconcile that gets through: its pass, what was re-read, and the applications to be written. */
  datatype Round = Round(input: Input, reread: Option<Reread>, released: set<string>, ss: seq<AppStatus>,
      trail: Trail, out: seq<App>)

  /** The list is re-read only after a validation error of a generated application. */
  ghost predicate Reconciled(invalid: set<string>, x: Round)
  {
    var valid := Valid(x.input.desired, invalid);
    && IsRollingSync(x.input.strategy) && Steps(x.input.strategy) != [] && Timed(x.input.start)
    && invalid <= AppNames(x.input.desired) && (x.reread.Some? ==> invalid != {})
    && Passed(x.input, true, x.released, x.ss, x.trail)
    && |x.out| == |valid|
    && forall i :: 0 <= i < |valid| ==>
         if Steps(StrategyNow(x.input.strategy, x.reread)) != []
         then Triggers(Snapshot(x.input.start, x.reread), x.released, valid[i], x.out[i])
         else x.out[i] == valid[i]
  }

  /**
   A reconcile; it ends early exactly when its pass does.  A sync operation is attached only
   to an application that the statuses read have Pending, and before one of whose steps
   every application exists and is Healthy in this pass.
   */
  method ReconcileRollout(input: Input, invalid: set<string>, reread: Option<Reread>)
    returns (done: bool, out: seq<App>, ss: seq<AppStatus>, x: Round)
    requires IsRollingSync(input.strategy) && Steps(input.strategy) != []
    requires Timed(input.start)
    requires invalid <= AppNames(input.desired) && (reread.Some? ==> invalid != {})
    ensures x.input == input && x.reread == reread && x.out == out && x.ss == ss
    ensures if done then Reconciled(invalid, x) else Passed(input, false, x.released, ss, x.trail) && out == []
    ensures done ==> forall i :: 0 <= i < |out| && out[i].operation != Valid(input.desired, invalid)[i].operation ==>
              var name := Valid(input.desired, invalid)[i].name;
              && PendingIn(Snapshot(input.start, reread), name)
              && exists k :: 0 <= k < |x.trail.dep| && name in x.trail.dep[k] &&
                             ClearedFor(x.trail.dep, AppNames(input.apps), x.trail.mid, k)
  {
    hide FirstBlocked, UpTo, FirstHalf, SecondHalf, SameButAutomation, AutomatedEnabled, PendingIn, ClearedFor,
        Requests;
    var released, condition, trail;
    done, released, ss, condition, trail := PerformProgressiveSyncs(input);
    if !done {
      out, x := [], Round(input, reread, released, ss, trail, []);
      return;
    }
    var valid := KeepValid(input.desired, invalid);
    out := valid;
    if Steps(StrategyNow(input.strategy, reread)) != [] {
      out := SyncDesiredApplications(Snapshot(input.start, reread), released, valid);
    }
    x := Round(input, reread, released, ss, trail, out);
    forall i | 0 <= i < |out| && out[i].operation != valid[i].operation
      ensures exists k :: 0 <= k < |trail.dep| && valid[i].name in trail.dep[k] &&
                          ClearedFor(trail.dep, AppNames(input.apps), trail.mid, k)
    {
      assert Triggers(Snapshot(input.start, reread), released, valid[i], out[i]);
      ReleasedIsCleared(trail.dep, AppNames(input.apps), trail.mid, valid[i].name);
    }
  }

  //////// What a re-read in between does ////////

  /** Whoever is synced was Pending when the reconcile began. */
  ghost predicate SyncsOnlyPendingAtStart(invalid: set<string>, x: Round)
    requires Reconciled(invalid, x)
  {
    var valid := Valid(x.input.desired, invalid);
    forall i :: 0 <= i < |valid| && x.out[i].operation != valid[i].operation ==> PendingIn(x.input.start, valid[i].name)
  }

  ghost predicate TurnsAutomationOff(x: Round)
  {
    forall i :: 0 <= i < |x.out| ==> !AutomatedEnabled(x.out[i])
  }

  /** Over all reconciles, whoever is synced was Pending at the start exactly when validation finds no error. */
  lemma PendingAtStartIff(invalid: set<string>)
    ensures (forall x :: Reconciled(invalid, x) ==> SyncsOnlyPendingAtStart(invalid, x)) <==> invalid == {}
  {
    hide Reconciled;
    if invalid == {} {
      forall x | Reconciled(invalid, x) ensures SyncsOnlyPendingAtStart(invalid, x) { NoErrorNoReread(invalid, x); }
    } else {
      var x := SyncedInThePassThatPromoted(invalid);
    }
  }

  /** Over all reconciles, automated sync is off in what is written exactly when validation finds no error. */
  lemma AutomationOffIff(invalid: set<string>)
    ensures (forall x :: Reconciled(invalid, x) ==> TurnsAutomationOff(x)) <==> invalid == {}
  {
    hide Reconciled, AutomatedEnabled;
    if invalid == {} {
      forall x | Reconciled(invalid, x) ensures TurnsAutomationOff(x) { NoErrorNoReread(invalid, x); }
    } else {
      var x := StrategyDroppedInBetween(invalid);
      assert AutomatedEnabled(x.out[0]);
    }
  }

  lemma NoErrorNoReread(invalid: set<string>, x: Round)
    requires Reconciled(invalid, x) && invalid == {}
    ensures SyncsOnlyPendingAtStart(invalid, x) && TurnsAutomationOff(x)
  {
    hide Passed, PendingIn, AutomatedEnabled, SameButAutomation, Requests;
    var valid := Valid(x.input.desired, invalid);
    forall i | 0 <= i < |valid|
      ensures !AutomatedEnabled(x.out[i])
      ensures x.out[i].operation != valid[i].operation ==> PendingIn(x.input.start, valid[i].name)
    {
      assert Triggers(x.input.start, x.released, valid[i], x.out[i]);
    }
  }

  //////// Reconciles with a validation error ////////

  /** A name longer than every one of the set. */
  lemma FreshName(names: set<string>) returns (n: string)
    ensures n !in names && forall m | m in names :: |m| < |n|
    decreases names
  {
    if names == {} {
      n := "";
    } else {
      var m :| m in names;
      var shorter := FreshName(names - {m});
      n := seq(|shorter| + |m| + 1, _ => 'a');
      assert forall k | k in names :: k == m || k in names - {m};
    }
  }

  /** One application for each name. */
  lemma AppsNamed(names: set<string>) returns (r: seq<App>)
    ensures UniqueApps(r) && AppNames(r) == names
    decreases names
  {
    if names == {} {
      r := [];
    } else {
      var m :| m in names;
      var others := AppsNamed(names - {m});
      r := others + [NEW_APP.(name := m)];
      assert forall a | a in others :: a.name in AppNames(others);
      forall k ensures k in AppNames(r) <==> k in names {
        if k in names && k != m {
          assert k in AppNames(others);
          var a :| a in others && a.name == k;
          assert a in r;
        }
        assert NEW_APP.(name := m) in r;
      }
    }
  }

  /** Of app and others that fail validation, app is what is left and what its name stands for. */
  lemma {:induction false} OnlyFirstValid(app: App, others: seq<App>, invalid: set<string>)
    requires app.name !in invalid && forall a | a in others :: a.name in invalid
    ensures Valid([app] + others, invalid) == [app]
    ensures DesiredSpec([app] + others, app.name) == Some(app.spec)
    decreases |others|
  {
    var all := [app] + others;
    if others == [] {
      assert all == [app] && all[..0] == [];
      assert Valid([], invalid) == [];
    } else {
      var n := |others| - 1;
      assert all[..|all| - 1] == [app] + others[..n] && all[|all| - 1] == others[n];
      assert others[n] in others;
      OnlyFirstValid(app, others[..n], invalid);
    }
  }

  lemma {:induction false} SelectsAll(apps: seq<App>)
    ensures forall n :: n in NamesIn(EVERYTHING, apps) <==> n in AppNames(apps)
  {
    forall n ensures n in NamesIn(EVERYTHING, apps) <==> n in AppNames(apps) {
      assert forall a :: Selects(EVERYTHING, a);
      if n in AppNames(apps) {
        var a :| a in apps && a.name == n;
      }
    }
  }

  /** A pass in which app, Waiting at the start, becomes Pending; others are desired and do not exist. */
  lemma PromotingPass(app: App, others: seq<App>, invalid: set<string>)
    returns (x: Input, released: set<string>, ss: seq<AppStatus>, t: Trail)
    requires app.name !in invalid && AppNames(others) == invalid
    requires app.sync != "Synced" && app.revisions == []
    ensures x.strategy == Some(LastSelects(1)) && x.desired == [app] + others && x.apps == [app] && Timed(x.start)
    ensures app.name in released && PendingIn(ss, app.name) && !PendingIn(x.start, app.name)
    ensures Passed(x, true, released, ss, t)
  {
    hide Evaluated, Persisted, Unchanged, Advanced, InRange, UpTo, FirstBlocked, DesiredSpec, PendingIn, ListsAre;
    hide Agrees, NamesIn, Valid, LastSelects;
    var desired := [app] + others;
    forall a | a in others ensures a.name in invalid { assert a.name in AppNames(others); }
    OnlyFirstValid(app, others, invalid);
    var entry := AppStatus(app.name, [], Some(0), NoStatusFound, Waiting, 1);
    x := Input([entry], Some(LastSelects(1)), [app], desired, 1, 2, None, None);
    var dep := [NamesIn(EVERYTHING, desired)];
    var stepMap: map<string, nat> := map n | n in AppNames(desired) :: 0;
    OneStep(app, others, dep, stepMap);
    PromotesOnlyEntry(app, desired, dep, stepMap, entry);
    ss := [Promote(entry, 2)];
    t := Trail(dep, stepMap, [entry], [entry], x.strategy, ss, x.strategy);
    released := UpTo(dep, FirstBlocked(dep, AppNames([app]), [entry], 0));
    assert Steps(x.strategy) == [EVERYTHING];
    assert FirstHalf(x, t);
    assert SecondHalf(x, t, released, ss);
  }

  lemma OneStep(app: App, others: seq<App>, dep: seq<seq<string>>, stepMap: map<string, nat>)
    requires dep == [NamesIn(EVERYTHING, [app] + others)]
    requires stepMap == map n | n in AppNames([app] + others) :: 0
    ensures ListsAre(dep, Steps(Some(LastSelects(1))), [app] + others) && Agrees(dep, stepMap)
    ensures app.name in dep[0] && app.name in stepMap
  {
    SelectsAll([app] + others);
    assert Steps(Some(LastSelects(1))) == [EVERYTHING];
    assert app in [app] + others;
  }

  lemma PromotesOnlyEntry(app: App, desired: seq<App>, dep: seq<seq<string>>, stepMap: map<string, nat>,
                          entry: AppStatus)
    requires entry == AppStatus(app.name, [], Some(0), NoStatusFound, Waiting, 1)
    requires app.sync != "Synced" && app.revisions == [] && DesiredSpec(desired, app.name) == Some(app.spec)
    requires |dep| == 1 && app.name in dep[0] && app.name in stepMap && stepMap[app.name] == 0
    ensures Evaluated([entry], [app], desired, stepMap, 1, [entry])
    ensures Unchanged([entry], [entry]) && Persisted([entry], [entry], [entry])
    ensures var released := UpTo(dep, FirstBlocked(dep, AppNames([app]), [entry], 0));
            && app.name in released
            && InRange([entry], stepMap, 1) &&
                 Advanced([entry], [Promote(entry, 2)], stepMap, [EVERYTHING], released, 2)
    ensures Persisted([entry], [Promote(entry, 2)], [Promote(entry, 2)])
    ensures PendingIn([Promote(entry, 2)], app.name) && !PendingIn([entry], app.name)
  {
    var start := [entry];
    assert FindStatus(start, app.name) == 0 && FindStatus([Promote(entry, 2)], app.name) == 0;
    assert Moves(entry, app, desired, 1, 1, entry);
    assert !HealthyIn(start, app.name);
    assert FirstBlocked(dep, AppNames([app]), start, 0) == 0;
    var released := UpTo(dep, 0);
    assert dep[0] == dep[0] && app.name in released;
    assert Promoted(start, stepMap, [EVERYTHING], released, 0);
    assert Promote(entry, 2) in [Promote(entry, 2)];
  }

  /**
   Whenever validation fails for some applications: an application Waiting at the start that
   the same reconcile promotes, stores, reads back and syncs.
   */
  lemma SyncedInThePassThatPromoted(invalid: set<string>) returns (x: Round)
    requires invalid != {}
    ensures Reconciled(invalid, x) && x.reread == Some(Reread(x.input.strategy, x.ss))
    ensures !SyncsOnlyPendingAtStart(invalid, x)
  {
    hide Passed, PendingIn;
    var n := FreshName(invalid);
    var others := AppsNamed(invalid);
    var app := NEW_APP.(name := n);
    var input, released, ss, t := PromotingPass(app, others, invalid);
    forall a | a in others ensures a.name in invalid { assert a.name in AppNames(others); }
    OnlyFirstValid(app, others, invalid);
    DesiredNames(app, others, invalid);
    x := Round(input, Some(Reread(input.strategy, ss)), released, ss, t, [SyncApplication(app, false)]);
    TriggersNew(ss, released, n);
    hide Triggers;
    assert Triggers(ss, released, app, x.out[0]);
  }

  lemma TriggersNew(ss: seq<AppStatus>, released: set<string>, n: string)
    requires n in released && PendingIn(ss, n)
    ensures var app := NEW_APP.(name := n);
            Triggers(ss, released, app, SyncApplication(app, false)) &&
            SyncApplication(app, false).operation != app.operation
  {
    hide PendingIn;
  }

  /** Whenever validation fails for some applications: one written with automated sync still on. */
  lemma StrategyDroppedInBetween(invalid: set<string>) returns (x: Round)
    requires invalid != {}
    ensures Reconciled(invalid, x) && x.reread.Some? && x.reread.value.strategy.None?
    ensures |x.out| == 1 && AutomatedEnabled(x.out[0])
  {
    hide Passed, PendingIn;
    var n := FreshName(invalid);
    var others := AppsNamed(invalid);
    var app := NEW_APP.(name := n, spec := Spec("", Some(SyncPolicy(Some(Automated(None, false)), None, []))));
    var input, released, ss, t := PromotingPass(app, others, invalid);
    forall a | a in others ensures a.name in invalid { assert a.name in AppNames(others); }
    OnlyFirstValid(app, others, invalid);
    DesiredNames(app, others, invalid);
    x := Round(input, Some(Reread(None, ss)), released, ss, t, [app]);
  }

  lemma DesiredNames(app: App, others: seq<App>, invalid: set<string>)
    requires AppNames(others) == invalid
    ensures invalid <= AppNames([app] + others)
  {
    forall n | n in invalid ensures n in AppNames([app] + others) {
      var a :| a in others && a.name == n;
      assert a in [app] + others;
    }
  }
}
