/** The per-application state machine of a rollout, and the status list that is persisted. */
module Rollout {
  import opened Options
  import opened Appset
  import opened Waves

  //////// One application ////////

  /** The desired spec of name; a later application of the same name replaces an earlier one. */
  function DesiredSpec(desired: seq<App>, name: string): (r: Option<Spec>)
  {
    if desired == [] then None
    else
      var last := desired[|desired| - 1];
      if last.name == name then Some(last.spec) else DesiredSpec(desired[..|desired| - 1], name)
  }

  predicate SpecDiffers(desired: seq<App>, app: App)
  {
    var d := DesiredSpec(desired, app.name);
    d.Some? && d.value != app.spec
  }

  /** The application has moved on from what cur records. */
  predicate Changed(cur: AppStatus, app: App, desired: seq<App>)
  {
    cur.targetRevisions != app.revisions || SpecDiffers(desired, app)
  }

  predicate HasError(app: App)
  {
    InvalidSpecError in app.conditions || UnknownError in app.conditions
  }

  /** The entry of app, or the one it starts with. */
  function Current(ss: seq<AppStatus>, app: App, stepMap: map<string, nat>, now: int): (r: AppStatus)
    ensures r.application == app.name
  {
    var i := FindStatus(ss, app.name);
    if i == -1 then
      AppStatus(app.name, app.revisions, Some(now), NoStatusFound, Waiting, GetAppStep(app.name, stepMap))
    else ss[i]
  }

  /** The application was refreshed after the transition to Pending, as far as is known. */
  predicate Refreshed(cur: AppStatus, app: App)
  {
    app.reconciledAt.None? || (cur.lastTransitionTime.Some? && app.reconciledAt.value > cur.lastTransitionTime.value)
  }

  /** The path that reads the transition time of a Pending entry has one to read. */
  predicate HasTimeToRead(cur: AppStatus, app: App, desired: seq<App>)
  {
    cur.status.Pending? && !Changed(cur, app, desired) && Refreshed(cur, app) && app.operationState.Some?
    ==> cur.lastTransitionTime.Some?
  }

  predicate StartedAfter(cur: AppStatus, app: App)
  {
    app.operationState.Some? && cur.lastTransitionTime.Some? &&
        app.operationState.value.startedAt > cur.lastTransitionTime.value
  }

  method NextStatus(cur: AppStatus, app: App, desired: seq<App>, specChanged: bool, step: int, now: int)
    returns (r: AppStatus)
    requires HasTimeToRead(cur, app, desired)
    requires specChanged == SpecDiffers(desired, app)
    ensures Moves(cur, app, desired, step, now, r)
  {
    r := cur.(step := step);
    var revisionsChanged := cur.targetRevisions != app.revisions;
    if revisionsChanged || specChanged {
      r := r.(targetRevisions := app.revisions,
              message := if revisionsChanged && specChanged then RevisionAndSpecChanged
                         else if revisionsChanged then RevisionChanged else SpecChanged,
              status := Waiting,
              lastTransitionTime := Some(now));
    }
    if r.status.Waiting? {
      if app.sync == "Synced" {
        if app.health == "Healthy" {
          r := r.(lastTransitionTime := Some(now), status := Healthy, message := SyncedHealthy);
        } else {
          r := r.(lastTransitionTime := Some(now), status := Progressing, message := SyncedProgressing);
        }
      }
    } else {
      if cur.status.Pending? {
        if app.reconciledAt.None? ||
            (r.lastTransitionTime.Some? && app.reconciledAt.value > r.lastTransitionTime.value) {
          if app.operationState.Some? && app.operationState.value.startedAt > cur.lastTransitionTime.value {
            var phase := app.operationState.value.phase;
            r := r.(lastTransitionTime := Some(now), status := Progressing,
                    message := if phase.Succeeded? then PendingSucceeded
                               else if phase.Failed? || phase.Errored? then PendingCompleted else PendingProgressing);
          } else if HasError(app) {
            r := r.(lastTransitionTime := Some(now), status := Progressing, message := CannotSync);
          }
        }
      }
      if cur.status.Progressing? {
        if app.health == "Healthy" && app.sync == "Synced" {
          r := r.(lastTransitionTime := Some(now), status := Healthy, message := BecameHealthy);
        }
      }
    }
  }

  /** The reason recorded with a move, by what was observed. */
  function MoveMessage(cur: AppStatus, app: App, desired: seq<App>): (m: Message)
  {
    if Changed(cur, app, desired) || cur.status.Waiting? then
      if app.sync == "Synced" then (if app.health == "Healthy" then SyncedHealthy else SyncedProgressing)
      else if cur.targetRevisions == app.revisions then SpecChanged
      else if SpecDiffers(desired, app) then RevisionAndSpecChanged else RevisionChanged
    else if cur.status.Progressing? then BecameHealthy
    else if !StartedAfter(cur, app) then CannotSync
    else if app.operationState.value.phase.Succeeded? then PendingSucceeded
    else if app.operationState.value.phase.Failed? || app.operationState.value.phase.Errored? then PendingCompleted
    else PendingProgressing
  }

  /**
   The state machine: for each status, exactly when an entry ends a pass in it.  A change
   of revision or spec sends an entry back to the start; Pending is never entered here.
   */
  ghost predicate Moves(cur: AppStatus, app: App, desired: seq<App>, step: int, now: int, r: AppStatus)
  {
    var restarted := Changed(cur, app, desired) || cur.status.Waiting?;
    var synced := app.sync == "Synced";
    var broken := InvalidSpecError in app.conditions || UnknownError in app.conditions;
    var left := Refreshed(cur, app) && (StartedAfter(cur, app) || broken);
    && r.application == cur.application && r.step == step && r.targetRevisions == app.revisions
    && (r.status.Waiting? <==> restarted && !synced)
    && (r.status.Pending? <==> !restarted && cur.status.Pending? && !left)
    && (r.status.Progressing? <==>
          (restarted && synced && app.health != "Healthy") ||
          (!restarted && cur.status.Pending? && left) ||
          (!restarted && cur.status.Progressing? && !(synced && app.health == "Healthy")))
    && (r.status.Healthy? <==>
          (synced && app.health == "Healthy" && (restarted || cur.status.Progressing?)) ||
          (!restarted && cur.status.Healthy?))
    && (if Changed(cur, app, desired) || r.status != cur.status
        then r.lastTransitionTime == Some(now) && r.message == MoveMessage(cur, app, desired)
        else r.lastTransitionTime == cur.lastTransitionTime && r.message == cur.message)
  }

  ghost predicate SafeToRead(ss: seq<AppStatus>, apps: seq<App>, desired: seq<App>, stepMap: map<string, nat>, now: int)
  {
    forall a | a in apps :: HasTimeToRead(Current(ss, a, stepMap, now), a, desired)
  }

  /** r[i] is what became of the entry of apps[i]. */
  ghost predicate Evaluated(ss: seq<AppStatus>, apps: seq<App>, desired: seq<App>, stepMap: map<string, nat>,
                            now: int, r: seq<AppStatus>)
  {
    && |r| == |apps|
    && forall i :: 0 <= i < |apps| ==>
         Moves(Current(ss, apps[i], stepMap, now), apps[i], desired, GetAppStep(apps[i].name, stepMap), now, r[i])
  }

  method EvaluateStatuses(ss: seq<AppStatus>, apps: seq<App>, desired: seq<App>, stepMap: map<string, nat>, now: int)
    returns (r: seq<AppStatus>)
    requires SafeToRead(ss, apps, desired, stepMap, now)
    ensures Evaluated(ss, apps, desired, stepMap, now, r)
    ensures forall i :: 0 <= i < |r| ==>
              r[i].application == apps[i].name &&
              r[i].step == if apps[i].name in stepMap then stepMap[apps[i].name] + 1 else -1
  {
    hide Moves;
    var specs := DesiredMap(desired);
    r := [];
    for i := 0 to |apps|
      invariant |r| == i
      invariant Evaluated(ss, apps[..i], desired, stepMap, now, r)
      invariant forall j :: 0 <= j < i ==>
                  r[j].application == apps[j].name &&
                  r[j].step == if apps[j].name in stepMap then stepMap[apps[j].name] + 1 else -1
    {
      var app := apps[i];
      var cur := Current(ss, app, stepMap, now);
      var specChanged := app.name in specs && specs[app.name] != app.spec;
      var next := NextStatus(cur, app, desired, specChanged, GetAppStep(cur.application, stepMap), now);
      NamedAndStepped(cur, app, desired, stepMap, now, next);
      r := r + [next];
    }
    assert apps[..|apps|] == apps;
  }

  lemma NamedAndStepped(cur: AppStatus, app: App, desired: seq<App>, stepMap: map<string, nat>, now: int, r: AppStatus)
    requires Moves(cur, app, desired, GetAppStep(app.name, stepMap), now, r) && cur.application == app.name
    ensures r.application == app.name && r.step == if app.name in stepMap then stepMap[app.name] + 1 else -1
  {
  }

  /**
   An application without an entry gets one: Waiting for a first sync, with the message that
   none was found, unless it is already synced or its spec is about to change.
   */
  lemma FirstEntry(ss: seq<AppStatus>, app: App, desired: seq<App>, stepMap: map<string, nat>, now: int, r: AppStatus)
    requires FindStatus(ss, app.name) == -1
    requires Moves(Current(ss, app, stepMap, now), app, desired, GetAppStep(app.name, stepMap), now, r)
    ensures r.application == app.name && r.targetRevisions == app.revisions && r.lastTransitionTime == Some(now)
    ensures r.status ==
            if app.sync != "Synced" then Waiting else if app.health == "Healthy" then Healthy else Progressing
    ensures r.message ==
            if app.sync == "Synced" then (if app.health == "Healthy" then SyncedHealthy else SyncedProgressing)
            else if SpecDiffers(desired, app) then SpecChanged else NoStatusFound
  {
  }

  method DesiredMap(desired: seq<App>) returns (m: map<string, Spec>)
    ensures forall n :: n in m <==> DesiredSpec(desired, n).Some?
    ensures forall n :: n in m ==> DesiredSpec(desired, n) == Some(m[n])
  {
    m := map[];
    for i := 0 to |desired|
      invariant forall n :: n in m <==> DesiredSpec(desired[..i], n).Some?
      invariant forall n :: n in m ==> DesiredSpec(desired[..i], n) == Some(m[n])
    {
      assert desired[..i + 1][..i] == desired[..i];
      m := m[desired[i].name := desired[i].spec];
    }
    assert desired[..|desired|] == desired;
  }

  //////// The persisted list ////////

  predicate Le(a: string, b: string)
  {
    a == [] || (b != [] && (a[0] < b[0] || (a[0] == b[0] && Le(a[1..], b[1..]))))
  }

  lemma {:induction false} LeTotal(a: string, b: string)
    ensures Le(a, b) || Le(b, a)
    decreases |a|
  {
    if a != [] && b != [] && a[0] == b[0] { LeTotal(a[1..], b[1..]); }
  }

  lemma {:induction false} LeTransitive(a: string, b: string, c: string)
    requires Le(a, b) && Le(b, c)
    ensures Le(a, c)
    decreases |a|
  {
    if a != [] && a[0] == b[0] && b[0] == c[0] { LeTransitive(a[1..], b[1..], c[1..]); }
  }

  ghost predicate SortedByName(ss: seq<AppStatus>)
  {
    forall i, j :: 0 <= i < j < |ss| ==> Le(ss[i].application, ss[j].application)
  }

  method SortByName(ss: seq<AppStatus>) returns (r: seq<AppStatus>)
    ensures multiset(r) == multiset(ss)
    ensures SortedByName(r)
  {
    r := [];
    for i := 0 to |ss|
      invariant multiset(r) == multiset(ss[..i])
      invariant SortedByName(r)
    {
      r := InsertByName(r, ss[i]);
      assert ss[..i + 1] == ss[..i] + [ss[i]];
    }
    assert ss[..|ss|] == ss;
  }

  method InsertByName(ss: seq<AppStatus>, s: AppStatus) returns (r: seq<AppStatus>)
    requires SortedByName(ss)
    ensures multiset(r) == multiset(ss) + multiset{s}
    ensures SortedByName(r)
  {
    hide Le, SortedByName;
    var k := 0;
    while k < |ss| && Le(ss[k].application, s.application)
      invariant 0 <= k <= |ss|
      invariant forall i :: 0 <= i < k ==> Le(ss[i].application, s.application)
    {
      k := k + 1;
    }
    r := ss[..k] + [s] + ss[k..];
    assert ss == ss[..k] + ss[k..];
    InsertedSorted(ss, k, s);
  }

  lemma InsertedSorted(ss: seq<AppStatus>, k: nat, s: AppStatus)
    requires SortedByName(ss) && k <= |ss|
    requires forall i :: 0 <= i < k ==> Le(ss[i].application, s.application)
    requires k < |ss| ==> !Le(ss[k].application, s.application)
    ensures SortedByName(ss[..k] + [s] + ss[k..])
  {
    hide Le;
    forall j | k <= j < |ss| ensures Le(s.application, ss[j].application) {
      LeTotal(ss[k].application, s.application);
      if k < j { LeTransitive(s.application, ss[k].application, ss[j].application); }
    }
  }

  /** Nothing the persistence step looks at differs; target revisions and times are not looked at. */
  predicate Unchanged(cur: seq<AppStatus>, computed: seq<AppStatus>)
  {
    && |computed| == |cur|
    && forall s | s in computed ::
         var i := FindStatus(cur, s.application);
         i >= 0 && cur[i].status == s.status && cur[i].step == s.step && cur[i].message == s.message
  }

  ghost predicate Persisted(cur: seq<AppStatus>, computed: seq<AppStatus>, r: seq<AppStatus>)
  {
    if Unchanged(cur, computed) then r == cur
    else multiset(r) == multiset(computed) && SortedByName(r)
  }

  /** An entry of the name, status, step and message of s is in the list. */
  ghost predicate Stored(ss: seq<AppStatus>, s: AppStatus)
  {
    exists e :: e in ss && e.application == s.application && e.status == s.status && e.step == s.step &&
                e.message == s.message
  }

  /** Whatever is computed is to be found in the list kept, a changed message included. */
  lemma EachStored(cur: seq<AppStatus>, computed: seq<AppStatus>, r: seq<AppStatus>)
    requires Persisted(cur, computed, r)
    ensures forall s | s in computed :: Stored(r, s)
  {
    forall s | s in computed ensures Stored(r, s) {
      if Unchanged(cur, computed) {
        assert cur[FindStatus(cur, s.application)] in r;
      } else {
        SameMembers(r, computed);
        assert s in r;
      }
    }
  }

  method SetStatuses(cur: seq<AppStatus>, computed: seq<AppStatus>) returns (r: seq<AppStatus>, needUpdate: bool)
    ensures Persisted(cur, computed, r)
    ensures needUpdate <==> !Unchanged(cur, computed)
    ensures forall s | s in computed :: Stored(r, s)
  {
    needUpdate := false;
    if |computed| != |cur| {
      needUpdate := true;
    } else {
      var i := 0;
      while i < |computed| && !needUpdate
        invariant 0 <= i <= |computed|
        invariant !needUpdate ==> forall j :: 0 <= j < i ==>
                    var k := FindStatus(cur, computed[j].application);
                    k >= 0 && cur[k].status == computed[j].status && cur[k].step == computed[j].step &&
                        cur[k].message == computed[j].message
        invariant needUpdate ==> !Unchanged(cur, computed)
      {
        var k := FindStatus(cur, computed[i].application);
        if k == -1 {
          needUpdate := true;
        } else if cur[k].status != computed[i].status || cur[k].step != computed[i].step ||
            cur[k].message != computed[i].message {
          needUpdate := true;
        }
        i := i + 1;
      }
    }
    if needUpdate { r := SortByName(computed); } else { r := cur; }
    EachStored(cur, computed, r);
  }

  //////// Names ////////

  ghost function Names(ss: seq<AppStatus>): set<string>
  {
    set s | s in ss :: s.application
  }

  lemma {:induction false} NamesCount(ss: seq<AppStatus>)
    ensures |Names(ss)| <= |ss|
    ensures |Names(ss)| == |ss| <==> UniqueStatuses(ss)
    decreases |ss|
  {
    if ss != [] {
      hide UniqueStatuses, Names;
      var front, last := ss[..|ss| - 1], ss[|ss| - 1];
      assert ss == front + [last];
      NamesCount(front);
      OneMoreName(front, last);
    } else {
      assert Names(ss) == {};
    }
  }

  lemma OneMoreName(front: seq<AppStatus>, last: AppStatus)
    ensures Names(front + [last]) == Names(front) + {last.application}
    ensures UniqueStatuses(front + [last]) <==> UniqueStatuses(front) && last.application !in Names(front)
  {
    var ss := front + [last];
    assert forall i :: 0 <= i < |front| ==> ss[i] == front[i];
    assert forall i :: 0 <= i < |front| ==> front[i].application in Names(front);
    if last.application in Names(front) {
      var s :| s in front && s.application == last.application;
      var i :| 0 <= i < |front| && front[i] == s;
      assert ss[i].application == ss[|front|].application;
    }
    if UniqueStatuses(ss) {
      forall i, j | 0 <= i < j < |front| ensures front[i].application != front[j].application {
        assert ss[i].application != ss[j].application;
      }
    }
  }

  /** Each stored entry stands for one computed entry: the same name, status, step and message. */
  lemma PersistedEntries(cur: seq<AppStatus>, computed: seq<AppStatus>, r: seq<AppStatus>)
    requires UniqueStatuses(cur) && UniqueStatuses(computed)
    requires Persisted(cur, computed, r)
    ensures UniqueStatuses(r) && Names(r) == Names(computed)
    ensures forall s | s in r :: exists c ::
              c in computed && c.application == s.application && c.status == s.status && c.step == s.step &&
                  c.message == s.message && (s == c || s in cur)
  {
    NamesCount(cur);
    NamesCount(computed);
    if Unchanged(cur, computed) {
      forall c | c in computed ensures c.application in Names(cur) {
        assert cur[FindStatus(cur, c.application)] in cur;
      }
      assert Names(computed) <= Names(cur);
      SameSize(Names(computed), Names(cur));
      forall s | s in r
        ensures exists c :: c in computed && c.application == s.application && c.status == s.status &&
                  c.step == s.step && c.message == s.message && (s == c || s in cur)
      {
        assert s.application in Names(computed);
        var c :| c in computed && c.application == s.application;
        EntryOf(cur, s);
      }
    } else {
      SameMembers(r, computed);
      NamesCount(r);
      assert Names(r) == Names(computed);
    }
  }

  lemma SameSize(a: set<string>, b: set<string>)
    requires a <= b && |a| == |b|
    ensures a == b
  {
    assert |b| == |a| + |b - a|;
  }

  lemma SameMembers(a: seq<AppStatus>, b: seq<AppStatus>)
    requires multiset(a) == multiset(b)
    ensures |a| == |b| && forall s :: s in a <==> s in b
  {
    assert |multiset(a)| == |a| && |multiset(b)| == |b|;
    forall s ensures s in a <==> s in b {
      assert s in a <==> s in multiset(a);
      assert s in b <==> s in multiset(b);
    }
  }
}
