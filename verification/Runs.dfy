/**
 Runs of rollout passes.  The applications may change arbitrarily between steps; a pass
 may read any status list ever stored; a computed list may or may not reach the store.
 */
module Runs {
  import opened Options
  import opened Appset
  import opened Quota
  import opened Waves
  import opened Rollout

  datatype World = World(stored: set<seq<AppStatus>>, memory: seq<AppStatus>)

  datatype Event =
    | Load
    | Observe(apps: seq<App>, desired: seq<App>, stepMap: map<string, nat>, now: int)
    | Advance(stepMap: map<string, nat>, steps: seq<RolloutStep>, toSync: set<string>, now: int)
    | Clear

  ghost predicate Computed(ss: seq<AppStatus>, e: Event, r: seq<AppStatus>)
    requires !e.Load?
  {
    match e
    case Observe(apps, desired, stepMap, now) => UniqueApps(apps) && Evaluated(ss, apps, desired, stepMap, now, r)
    case Advance(stepMap, steps, toSync, now) => InRange(ss, stepMap, |steps|) &&
        Advanced(ss, r, stepMap, steps, toSync, now)
    case Clear => r == []
  }

  ghost predicate Next(w: World, e: Event, w': World)
  {
    if e.Load? then w'.stored == w.stored && w'.memory in w.stored
    else
      && (w'.stored == w.stored || w'.stored == w.stored + {w'.memory})
      && exists r :: Computed(w.memory, e, r) && Persisted(w.memory, r, w'.memory)
  }

  ghost predicate IsRun(ws: seq<World>, es: seq<Event>)
  {
    && |ws| == |es| + 1
    && ws[0] == World({[]}, [])
    && forall i :: 0 <= i < |es| ==> Next(ws[i], es[i], ws[i + 1])
  }

  //////// What every recorded entry stands for ////////

  /** An earlier pass found the entry's application Waiting and released it. */
  ghost predicate ReleasedBefore(ws: seq<World>, es: seq<Event>, i: nat, s: AppStatus)
    requires |ws| == |es| + 1 && i <= |es|
  {
    exists j, c ::
      0 <= j < i && es[j].Advance? && s.application in es[j].toSync &&
      c in ws[j].memory && c.application == s.application && c.status.Waiting?
  }

  /** An earlier pass observed the entry's application Synced and Healthy at the entry's revisions. */
  ghost predicate SeenHealthyBefore(es: seq<Event>, i: nat, s: AppStatus)
    requires i <= |es|
  {
    exists j, a ::
      0 <= j < i && es[j].Observe? && a in es[j].apps && a.name == s.application &&
      a.revisions == s.targetRevisions && a.sync == "Synced" && a.health == "Healthy"
  }

  ghost predicate Earned(ws: seq<World>, es: seq<Event>, i: nat, s: AppStatus)
    requires |ws| == |es| + 1 && i <= |es|
  {
    && s.lastTransitionTime.Some?
    && (s.status.Pending? ==> ReleasedBefore(ws, es, i, s))
    && (s.status.Healthy? ==> SeenHealthyBefore(es, i, s))
  }

  ghost predicate GoodList(ws: seq<World>, es: seq<Event>, i: nat, ss: seq<AppStatus>)
    requires |ws| == |es| + 1 && i <= |es|
  {
    && UniqueStatuses(ss)
    && forall s | s in ss :: Earned(ws, es, i, s)
  }

  lemma GoodLater(ws: seq<World>, es: seq<Event>, i: nat, ss: seq<AppStatus>)
    requires |ws| == |es| + 1 && i < |es|
    requires GoodList(ws, es, i, ss)
    ensures GoodList(ws, es, i + 1, ss)
  {
    forall s | s in ss ensures Earned(ws, es, i + 1, s) {
      EarnedLater(ws, es, i, s);
    }
  }

  lemma EarnedLater(ws: seq<World>, es: seq<Event>, i: nat, s: AppStatus)
    requires |ws| == |es| + 1 && i < |es|
    requires Earned(ws, es, i, s)
    ensures Earned(ws, es, i + 1, s)
  {
  }

  lemma EntryMoves(cur: AppStatus, app: App, desired: seq<App>, step: int, now: int, r: AppStatus)
    requires Moves(cur, app, desired, step, now, r)
    ensures r.application == cur.application && r.targetRevisions == app.revisions && r.step == step
    ensures r.lastTransitionTime == Some(now) || r.lastTransitionTime == cur.lastTransitionTime
    ensures r.status.Pending? ==> cur.status.Pending? && r.targetRevisions == cur.targetRevisions
    ensures r.status.Healthy? ==> (app.sync == "Synced" && app.health == "Healthy") ||
                                  (cur.status.Healthy? && !Changed(cur, app, desired))
  {
  }

  lemma ObservedEarned(ws: seq<World>, es: seq<Event>, i: nat, r: seq<AppStatus>, k: nat)
    requires |ws| == |es| + 1 && i < |es| && es[i].Observe?
    requires GoodList(ws, es, i, ws[i].memory)
    requires Computed(ws[i].memory, es[i], r)
    requires k < |r|
    ensures Earned(ws, es, i + 1, r[k])
  {
    hide Moves;
    var e, ss := es[i], ws[i].memory;
    var a := e.apps[k];
    var cur := Current(ss, a, e.stepMap, e.now);
    EntryMoves(cur, a, e.desired, GetAppStep(a.name, e.stepMap), e.now, r[k]);
    var f := FindStatus(ss, a.name);
    if f >= 0 {
      assert cur in ss;
      EarnedLater(ws, es, i, cur);
      if r[k].status.Pending? {
        assert ReleasedBefore(ws, es, i, cur);
        var j, c :| 0 <= j < i && es[j].Advance? && cur.application in es[j].toSync &&
                    c in ws[j].memory && c.application == cur.application && c.status.Waiting?;
        assert ReleasedBefore(ws, es, i + 1, r[k]);
      }
    }
    if r[k].status.Healthy? {
      if a.sync == "Synced" && a.health == "Healthy" {
        assert a in es[i].apps;
      } else {
        assert SeenHealthyBefore(es, i, cur);
      }
      assert SeenHealthyBefore(es, i + 1, r[k]);
    }
  }

  lemma AdvancedEarned(ws: seq<World>, es: seq<Event>, i: nat, r: seq<AppStatus>, k: nat)
    requires |ws| == |es| + 1 && i < |es| && es[i].Advance?
    requires GoodList(ws, es, i, ws[i].memory)
    requires Computed(ws[i].memory, es[i], r)
    requires k < |r|
    ensures r[k].application == ws[i].memory[k].application
    ensures Earned(ws, es, i + 1, r[k])
  {
    hide Promoted;
    var e, ss := es[i], ws[i].memory;
    OnlyWaitingPromoted(ss, e.stepMap, e.steps, e.toSync, k);
    assert ss[k] in ss;
    EarnedLater(ws, es, i, ss[k]);
  }

  lemma ComputedGood(ws: seq<World>, es: seq<Event>, i: nat, r: seq<AppStatus>)
    requires |ws| == |es| + 1 && i < |es| && !es[i].Load?
    requires GoodList(ws, es, i, ws[i].memory)
    requires Computed(ws[i].memory, es[i], r)
    ensures GoodList(ws, es, i + 1, r)
  {
    hide Earned, Promoted, Moves;
    forall k | 0 <= k < |r| ensures Earned(ws, es, i + 1, r[k]) {
      if es[i].Observe? { ObservedEarned(ws, es, i, r, k); }
      if es[i].Advance? { AdvancedEarned(ws, es, i, r, k); }
    }
    if es[i].Observe? {
      ObservedNames(ws[i].memory, es[i], r);
    }
    if es[i].Advance? {
      forall k | 0 <= k < |r| ensures r[k].application == ws[i].memory[k].application {
        AdvancedEarned(ws, es, i, r, k);
      }
    }
  }

  lemma ObservedNames(ss: seq<AppStatus>, e: Event, r: seq<AppStatus>)
    requires e.Observe? && Computed(ss, e, r)
    ensures |r| == |e.apps| && forall k :: 0 <= k < |r| ==> r[k].application == e.apps[k].name
    ensures UniqueStatuses(r) && Names(r) == AppNames(e.apps)
  {
    hide Moves;
    forall k | 0 <= k < |r| ensures r[k].application == e.apps[k].name {
      var a := e.apps[k];
      EntryMoves(Current(ss, a, e.stepMap, e.now), a, e.desired, GetAppStep(a.name, e.stepMap), e.now, r[k]);
    }
    forall n ensures n in Names(r) <==> n in AppNames(e.apps) {
      if n in Names(r) {
        var k :| 0 <= k < |r| && r[k].application == n;
        assert e.apps[k] in e.apps;
      }
      if n in AppNames(e.apps) {
        var k :| 0 <= k < |e.apps| && e.apps[k].name == n;
        assert r[k] in r;
      }
    }
  }

  lemma PersistedGood(ws: seq<World>, es: seq<Event>, i: nat, cur: seq<AppStatus>, computed: seq<AppStatus>,
                      r: seq<AppStatus>)
    requires |ws| == |es| + 1 && i <= |es|
    requires GoodList(ws, es, i, cur) && GoodList(ws, es, i, computed) && Persisted(cur, computed, r)
    ensures GoodList(ws, es, i, r)
  {
    hide Earned, SortedByName, Unchanged, Persisted;
    PersistedEntries(cur, computed, r);
  }

  ghost predicate AllGood(ws: seq<World>, es: seq<Event>, i: nat, lists: set<seq<AppStatus>>)
    requires |ws| == |es| + 1 && i <= |es|
  {
    forall ss | ss in lists :: GoodList(ws, es, i, ss)
  }

  lemma StepGood(ws: seq<World>, es: seq<Event>, i: nat)
    requires IsRun(ws, es) && i < |es|
    requires GoodList(ws, es, i, ws[i].memory) && AllGood(ws, es, i, ws[i].stored)
    ensures GoodList(ws, es, i + 1, ws[i + 1].memory) && AllGood(ws, es, i + 1, ws[i + 1].stored)
  {
    hide GoodList, Computed, Persisted;
    assert Next(ws[i], es[i], ws[i + 1]);
    forall ss | ss in ws[i].stored ensures GoodList(ws, es, i + 1, ss) {
      GoodLater(ws, es, i, ss);
    }
    GoodLater(ws, es, i, ws[i].memory);
    if !es[i].Load? {
      var r :| Computed(ws[i].memory, es[i], r) && Persisted(ws[i].memory, r, ws[i + 1].memory);
      ComputedGood(ws, es, i, r);
      PersistedGood(ws, es, i + 1, ws[i].memory, r, ws[i + 1].memory);
    }
  }

  /**
   Over every run: each status list, in memory or stored, names no application twice, and
   each entry carries a transition time, is Pending only after its application was found
   Waiting and released, and is Healthy only after its application was observed Synced and
   Healthy at the recorded revisions.
   */
  lemma {:induction false} EveryEntryIsEarned(ws: seq<World>, es: seq<Event>, i: nat)
    requires IsRun(ws, es) && i <= |es|
    ensures GoodList(ws, es, i, ws[i].memory)
    ensures AllGood(ws, es, i, ws[i].stored)
    decreases i
  {
    if i > 0 {
      EveryEntryIsEarned(ws, es, i - 1);
      StepGood(ws, es, i - 1);
    }
  }

  /** Whatever is observed next, the transition time read on the Pending path is there. */
  lemma NeverReadsMissingTime(ws: seq<World>, es: seq<Event>, i: nat, apps: seq<App>, desired: seq<App>,
                              stepMap: map<string, nat>, now: int)
    requires IsRun(ws, es) && i <= |es|
    ensures SafeToRead(ws[i].memory, apps, desired, stepMap, now)
  {
    EveryEntryIsEarned(ws, es, i);
    forall a | a in apps ensures HasTimeToRead(Current(ws[i].memory, a, stepMap, now), a, desired) {
      var f := FindStatus(ws[i].memory, a.name);
      assert f >= 0 ==> ws[i].memory[f] in ws[i].memory;
    }
  }

  //////// What one step does ////////

  /** s was already in memory in this way and its application has not moved on. */
  ghost predicate Kept(ss: seq<AppStatus>, a: App, desired: seq<App>, status: RolloutStatus)
  {
    exists c :: c in ss && c.application == a.name && c.status == status && !Changed(c, a, desired)
  }

  /**
   After an observation: one entry for each observed application, with its current step; a
   Pending entry was Pending before; a Healthy one was observed Synced and Healthy now or
   was Healthy before; in both latter cases with revisions and spec unchanged.
   */
  lemma ObservationKeeps(ws: seq<World>, es: seq<Event>, i: nat)
    requires IsRun(ws, es) && i < |es| && es[i].Observe?
    ensures UpToDate(ws[i + 1].memory, AppNames(es[i].apps), es[i].stepMap)
    ensures forall s | s in ws[i + 1].memory :: exists a ::
              && a in es[i].apps && a.name == s.application
              && (s.status.Pending? ==> Kept(ws[i].memory, a, es[i].desired, Pending))
              && (s.status.Healthy? ==>
                   (a.sync == "Synced" && a.health == "Healthy") || Kept(ws[i].memory, a, es[i].desired, Healthy))
  {
    hide Moves, Persisted, Evaluated, Kept, GetAppStep;
    EveryEntryIsEarned(ws, es, i);
    var e, cur, m := es[i], ws[i].memory, ws[i + 1].memory;
    assert Next(ws[i], e, ws[i + 1]);
    var r: seq<AppStatus> :| Computed(cur, e, r) && Persisted(cur, r, m);
    ObservedNames(cur, e, r);
    PersistedEntries(cur, r, m);
    forall s | s in m
      ensures s.step == GetAppStep(s.application, e.stepMap)
      ensures exists a ::
                && a in e.apps && a.name == s.application
                && (s.status.Pending? ==> Kept(cur, a, e.desired, Pending))
                && (s.status.Healthy? ==>
                     (a.sync == "Synced" && a.health == "Healthy") || Kept(cur, a, e.desired, Healthy))
    {
      var c: AppStatus :| c in r && c.application == s.application && c.status == s.status && c.step == s.step &&
          (s == c || s in cur);
      var k :| 0 <= k < |r| && r[k] == c;
      ObservedEntry(cur, e, r, k);
      assert e.apps[k] in e.apps;
    }
  }

  lemma ObservedEntry(ss: seq<AppStatus>, e: Event, r: seq<AppStatus>, k: nat)
    requires e.Observe? && Computed(ss, e, r) && k < |r|
    ensures r[k].step == GetAppStep(r[k].application, e.stepMap)
    ensures r[k].status.Pending? ==> Kept(ss, e.apps[k], e.desired, Pending)
    ensures r[k].status.Healthy? ==>
              (e.apps[k].sync == "Synced" && e.apps[k].health == "Healthy") || Kept(ss, e.apps[k], e.desired, Healthy)
  {
    var a := e.apps[k];
    var cur := Current(ss, a, e.stepMap, e.now);
    assert Moves(cur, a, e.desired, GetAppStep(a.name, e.stepMap), e.now, r[k]);
    assert FindStatus(ss, a.name) >= 0 ==> cur in ss;
  }

  /** A promotion step changes nothing but released Waiting entries, which become Pending. */
  lemma AdvanceKeeps(ws: seq<World>, es: seq<Event>, i: nat)
    requires IsRun(ws, es) && i < |es| && es[i].Advance?
    ensures Names(ws[i + 1].memory) == Names(ws[i].memory)
    ensures forall s | s in ws[i + 1].memory :: exists c ::
              && c in ws[i].memory && c.application == s.application && c.step == s.step
              && (s == c || (c.status.Waiting? && s.status.Pending? && s.application in es[i].toSync))
  {
    hide Persisted, Promoted;
    EveryEntryIsEarned(ws, es, i);
    var e, cur, m := es[i], ws[i].memory, ws[i + 1].memory;
    assert Next(ws[i], e, ws[i + 1]);
    var r: seq<AppStatus> :| Computed(cur, e, r) && Persisted(cur, r, m);
    forall k | 0 <= k < |r|
      ensures r[k].application == cur[k].application && r[k].step == cur[k].step
      ensures r[k] == cur[k] || (cur[k].status.Waiting? && r[k].status.Pending? && r[k].application in e.toSync)
    {
      OnlyWaitingPromoted(cur, e.stepMap, e.steps, e.toSync, k);
    }
    forall n ensures n in Names(r) <==> n in Names(cur) {
      if n in Names(r) { var k :| 0 <= k < |r| && r[k].application == n; assert cur[k] in cur; }
      if n in Names(cur) { var k :| 0 <= k < |cur| && cur[k].application == n; assert r[k] in r; }
    }
    PersistedEntries(cur, r, m);
    forall s | s in m && s !in cur
      ensures exists c :: && c in cur && c.application == s.application && c.step == s.step
                          && (s == c || (c.status.Waiting? && s.status.Pending? && s.application in e.toSync))
    {
      assert s in r;
      var k :| 0 <= k < |r| && r[k] == s;
      assert cur[k] in cur;
    }
  }
}
