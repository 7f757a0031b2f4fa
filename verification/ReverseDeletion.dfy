/**
 Deleting the applications of an ApplicationSet in the reverse of its rollout order.  The
 server may lose applications at any moment; a read may fail, or may still show an
 application that is gone.
 */
module ReverseDeletion {
  import opened Options
  import opened Appset
  import opened Selection

  datatype Live = Live(app: App, deletedAt: Option<int>)

  /** An accepted deletion and the applications on the server when it was accepted. */
  datatype Deletion = Deletion(app: App, present: set<App>)

  datatype Read = Found(deletedAt: Option<int>) | Absent | ReadFailed

  datatype Reply = Accepted | Missing | Refused

  datatype Reason = CannotRead | StillThere | CannotDelete

  datatype Outcome = Requeue | Completed | Error(reason: Reason)

  const STUCK_AFTER := 120

  /** Seen terminating for too long. */
  predicate Stuck(read: Read, now: int)
  {
    read.Found? && read.deletedAt.Some? && now - read.deletedAt.value > STUCK_AFTER
  }

  ghost predicate Named(apps: map<string, Live>)
  {
    forall n | n in apps :: apps[n].app.name == n
  }

  /** Applications may go, or be marked for deletion, and nothing else. */
  ghost predicate Shrunk(before: map<string, Live>, after: map<string, Live>)
  {
    after.Keys <= before.Keys && forall n | n in after :: after[n].app == before[n].app
  }

  ghost predicate Listed(current: seq<App>, apps: map<string, Live>)
  {
    forall a :: a in current <==> a.name in apps && a == apps[a.name].app
  }

  ghost predicate TakenFrom(d: Deletion, name: string, apps: map<string, Live>)
  {
    d.app.name == name && forall a | a in d.present + {d.app} :: a.name in apps && a == apps[a.name].app
  }

  /** ds is ds0 with the deletion of name from apps added. */
  ghost predicate Logged(ds0: seq<Deletion>, ds: seq<Deletion>, name: string, apps: map<string, Live>)
  {
    |ds| == |ds0| + 1 && ds == ds0 + [ds[|ds0|]] && TakenFrom(ds[|ds0|], name, apps)
  }

  predicate Selected(steps: seq<RolloutStep>, a: App)
  {
    StepsOf(steps, a) != []
  }

  /** No application of a later step than the deleted one was there. */
  ghost predicate InReverse(steps: seq<RolloutStep>, d: Deletion)
  {
    && Selected(steps, d.app)
    && forall b | b in d.present && Selected(steps, b) :: StepsOf(steps, b)[0] <= StepsOf(steps, d.app)[0]
  }

  ghost predicate AllInReverse(steps: seq<RolloutStep>, ds: seq<Deletion>)
  {
    forall d | d in ds :: InReverse(steps, d)
  }

  class Server {
    var apps: map<string, Live>
    ghost var deletions: seq<Deletion>
    ghost var lastRead: Read
    ghost var lastReply: Reply

    /** What others do to the applications at any moment. */
    method Disturb()
      requires Named(apps)
      modifies this`apps
      ensures Named(apps) && Shrunk(old(apps), apps)
    {
      var kept: set<string> := *;
      var marked: map<string, int> := *;
      apps := map n | n in apps && n in kept :: if n in marked then apps[n].(deletedAt := Some(marked[n])) else apps[n];
    }

    method List() returns (r: seq<App>)
      requires Named(apps)
      ensures UniqueApps(r)
      ensures Listed(r, apps)
    {
      r := [];
      var rest := apps.Keys;
      while rest != {}
        invariant rest <= apps.Keys
        invariant UniqueApps(r)
        invariant forall a :: a in r <==> a.name in apps && a.name !in rest && a == apps[a.name].app
        decreases |rest|
      {
        var n :| n in rest;
        r := r + [apps[n].app];
        rest := rest - {n};
      }
    }

    method Get(name: string) returns (r: Read)
      requires Named(apps)
      modifies this`apps, this`lastRead
      ensures Named(apps) && Shrunk(old(apps), apps)
      ensures r.Absent? ==> name !in apps
      ensures lastRead == r
    {
      Disturb();
      var fails: bool := *;
      var stale: bool := *;
      if fails {
        r := ReadFailed;
      } else if name in apps {
        r := Found(apps[name].deletedAt);
      } else if stale {
        var at: Option<int> := *;
        r := Found(at);
      } else {
        r := Absent;
      }
      lastRead := r;
    }

    method Delete(name: string, now: int) returns (r: Reply)
      requires Named(apps)
      modifies this`apps, this`deletions, this`lastReply
      ensures Named(apps) && Shrunk(old(apps), apps)
      ensures lastReply == r
      ensures r.Missing? ==> name !in apps
      ensures !r.Accepted? ==> deletions == old(deletions)
      ensures r.Accepted? ==> Logged(old(deletions), deletions, name, old(apps))
    {
      Disturb();
      var refuses: bool := *;
      var removed: bool := *;
      if refuses {
        r := Refused;
      } else if name !in apps {
        r := Missing;
      } else {
        deletions := deletions + [Deletion(apps[name].app, set n | n in apps :: apps[n].app)];
        apps := if removed then apps - {name} else apps[name := apps[name].(deletedAt := Some(now))];
        r := Accepted;
      }
      lastReply := r;
    }
  }

  datatype DeleteInOrder = DeleteInOrder(name: string, step: int)

  ghost predicate SortedByStep(xs: seq<DeleteInOrder>)
  {
    forall i, j :: 0 <= i < j < |xs| ==> xs[i].step <= xs[j].step
  }

  method InsertByStep(xs: seq<DeleteInOrder>, x: DeleteInOrder) returns (r: seq<DeleteInOrder>)
    requires SortedByStep(xs)
    ensures SortedByStep(r)
    ensures forall y :: y in r <==> y in xs || y == x
  {
    hide SortedByStep;
    var k := 0;
    while k < |xs| && xs[k].step <= x.step
      invariant 0 <= k <= |xs|
      invariant forall i :: 0 <= i < k ==> xs[i].step <= x.step
    {
      k := k + 1;
    }
    r := xs[..k] + [x] + xs[k..];
    assert xs == xs[..k] + xs[k..];
    InsertedSorted(xs, k, x);
  }

  lemma InsertedSorted(xs: seq<DeleteInOrder>, k: nat, x: DeleteInOrder)
    requires SortedByStep(xs) && k <= |xs|
    requires forall i :: 0 <= i < k ==> xs[i].step <= x.step
    requires k < |xs| ==> xs[k].step > x.step
    ensures SortedByStep(xs[..k] + [x] + xs[k..])
  {
    assert forall i :: k <= i < |xs| ==> xs[k].step <= xs[i].step;
  }

  /** The selected applications, last step first; the order within a step is arbitrary. */
  method ReverseOrder(stepMap: map<string, nat>, stepLength: int) returns (r: seq<DeleteInOrder>)
    ensures SortedByStep(r)
    ensures forall x :: x in r <==> x.name in stepMap && x.step == stepLength - stepMap[x.name] - 1
  {
    r := [];
    var rest := stepMap.Keys;
    while rest != {}
      invariant rest <= stepMap.Keys
      invariant SortedByStep(r)
      invariant forall x :: x in r <==>
                  x.name in stepMap && x.name !in rest && x.step == stepLength - stepMap[x.name] - 1
      decreases |rest|
    {
      var n :| n in rest;
      r := InsertByStep(r, DeleteInOrder(n, stepLength - stepMap[n] - 1));
      rest := rest - {n};
    }
  }

  ghost predicate Gone(order: seq<DeleteInOrder>, i: nat, apps: map<string, Live>)
    requires i <= |order|
  {
    forall k :: 0 <= k < i ==> order[k].name !in apps
  }

  lemma ShrunkFurther(order: seq<DeleteInOrder>, i: nat, a: map<string, Live>, b: map<string, Live>,
                      c: map<string, Live>)
    requires i <= |order| && Gone(order, i, b) && Shrunk(a, b) && Shrunk(b, c)
    ensures Gone(order, i, c) && Shrunk(a, c)
  {
  }

  /** What to delete, in which order. */
  method PlanDeletion(strategy: Option<Strategy>, current: seq<App>) returns (order: seq<DeleteInOrder>, places: Places)
    requires IsRollingSync(strategy) && UniqueApps(current)
    ensures Planned(Steps(strategy), current, places, order)
  {
    hide StepsOf, ListsAre, InvalidAre, InOrder, Placed;
    var dep, issues;
    dep, places, issues := BuildAppDependencyList(strategy, current);
    order := ReverseOrder(places.stepMap, |Steps(strategy)|);
  }

  method PerformReverseDeletion(server: Server, strategy: Option<Strategy>, now: int) returns (outcome: Outcome)
    requires IsRollingSync(strategy)
    requires Named(server.apps)
    modifies server
    ensures Named(server.apps) && Shrunk(old(server.apps), server.apps)
    ensures old(server.deletions) <= server.deletions
    ensures AllInReverse(Steps(strategy), server.deletions[|old(server.deletions)|..])
    ensures |server.deletions| == |old(server.deletions)| + (if outcome.Requeue? then 1 else 0)
    ensures outcome.Completed? ==> forall n | n in server.apps :: !Selected(Steps(strategy), server.apps[n].app)
    ensures outcome.Requeue? ==> server.lastReply.Accepted? && server.lastRead.Found? && !Stuck(server.lastRead, now)
    ensures outcome == Error(CannotRead) ==> server.lastRead.ReadFailed?
    ensures outcome == Error(StillThere) ==> Stuck(server.lastRead, now)
    ensures outcome == Error(CannotDelete) ==> server.lastReply.Refused?
  {
    hide StepsOf, Named, Shrunk, Listed, TakenFrom, Planned, Gone, Selected, InReverse;
    ghost var steps, apps0, deletions0 := Steps(strategy), server.apps, server.deletions;
    var current := server.List();
    var order, places := PlanDeletion(strategy, current);
    assert Gone(order, 0, server.apps) && Shrunk(apps0, server.apps) by { Start(order, apps0); }
    var i := 0;
    while i < |order|
      invariant 0 <= i <= |order|
      invariant Named(server.apps) && Shrunk(apps0, server.apps)
      invariant server.deletions == deletions0
      invariant Gone(order, i, server.apps)
    {
      ghost var apps1 := server.apps;
      var read := server.Get(order[i].name);
      ShrunkFurther(order, i, apps0, apps1, server.apps);
      if read.ReadFailed? { return Error(CannotRead); }
      if read.Found? {
        if read.deletedAt.Some? && now - read.deletedAt.value > STUCK_AFTER { return Error(StillThere); }
        ghost var apps2 := server.apps;
        var reply := server.Delete(order[i].name, now);
        ShrunkFurther(order, i, apps0, apps2, server.apps);
        if reply.Refused? { return Error(CannotDelete); }
        if reply.Accepted? {
          DeletedInReverse(steps, current, places, order, i, apps0, apps2, server.deletions[|deletions0|]);
          return Requeue;
        }
      }
      GoneNext(order, i, server.apps);
      i := i + 1;
    }
    NoneLeft(steps, current, places, order, apps0, server.apps);
    return Completed;
  }

  lemma Start(order: seq<DeleteInOrder>, apps: map<string, Live>)
    ensures Gone(order, 0, apps) && Shrunk(apps, apps)
  {
  }

  lemma GoneNext(order: seq<DeleteInOrder>, i: nat, apps: map<string, Live>)
    requires i < |order| && Gone(order, i, apps) && order[i].name !in apps
    ensures Gone(order, i + 1, apps)
  {
  }

  ghost predicate Planned(steps: seq<RolloutStep>, current: seq<App>, places: Places, order: seq<DeleteInOrder>)
  {
    && (forall a | a in current :: Placed(steps, a, places))
    && SortedByStep(order)
    && forall x :: x in order <==> x.name in places.stepMap && x.step == |steps| - places.stepMap[x.name] - 1
  }

  /** A selected application is in the order, at its least step. */
  lemma InPlan(steps: seq<RolloutStep>, current: seq<App>, places: Places, order: seq<DeleteInOrder>, a: App)
    requires Planned(steps, current, places, order) && a in current
    ensures Selected(steps, a) <==> exists k :: 0 <= k < |order| && order[k].name == a.name
    ensures forall k :: 0 <= k < |order| && order[k].name == a.name ==>
              Selected(steps, a) && order[k].step == |steps| - StepsOf(steps, a)[0] - 1
  {
    hide StepsOf;
    assert Placed(steps, a, places);
    if Selected(steps, a) {
      var x := DeleteInOrder(a.name, |steps| - places.stepMap[a.name] - 1);
      assert x in order;
    }
    forall k | 0 <= k < |order| && order[k].name == a.name
      ensures Selected(steps, a) && order[k].step == |steps| - StepsOf(steps, a)[0] - 1
    {
      assert order[k] in order;
    }
  }

  lemma DeletedInReverse(steps: seq<RolloutStep>, current: seq<App>, places: Places, order: seq<DeleteInOrder>, i: nat,
                         apps0: map<string, Live>, apps1: map<string, Live>, d: Deletion)
    requires Planned(steps, current, places, order) && i < |order|
    requires Listed(current, apps0)
    requires Shrunk(apps0, apps1) && Named(apps0)
    requires Gone(order, i, apps1)
    requires TakenFrom(d, order[i].name, apps1)
    ensures InReverse(steps, d)
  {
    hide StepsOf, Planned, Selected;
    assert d.app in d.present + {d.app};
    assert d.app in current;
    InPlan(steps, current, places, order, d.app);
    assert SortedByStep(order) by { Sorted(steps, current, places, order); }
    forall b | b in d.present && Selected(steps, b)
      ensures SelectedStep(steps, b) <= SelectedStep(steps, d.app)
    {
      assert b in d.present + {d.app};
      assert b in current;
      InPlan(steps, current, places, order, b);
      var k :| 0 <= k < |order| && order[k].name == b.name;
      assert k >= i;
    }
    FinishInReverse(steps, d);
  }

  ghost function SelectedStep(steps: seq<RolloutStep>, a: App): int
    requires Selected(steps, a)
  {
    StepsOf(steps, a)[0]
  }

  lemma Sorted(steps: seq<RolloutStep>, current: seq<App>, places: Places, order: seq<DeleteInOrder>)
    requires Planned(steps, current, places, order)
    ensures SortedByStep(order)
  {
  }

  lemma FinishInReverse(steps: seq<RolloutStep>, d: Deletion)
    requires Selected(steps, d.app)
    requires forall b | b in d.present && Selected(steps, b) :: SelectedStep(steps, b) <= SelectedStep(steps, d.app)
    ensures InReverse(steps, d)
  {
    hide StepsOf, Selected;
    assert forall b | b in d.present && Selected(steps, b) :: SelectedStep(steps, b) <= SelectedStep(steps, d.app);
  }

  lemma NoneLeft(steps: seq<RolloutStep>, current: seq<App>, places: Places, order: seq<DeleteInOrder>,
                 apps0: map<string, Live>, apps1: map<string, Live>)
    requires Planned(steps, current, places, order)
    requires Listed(current, apps0)
    requires Shrunk(apps0, apps1) && Named(apps0)
    requires Gone(order, |order|, apps1)
    ensures forall n | n in apps1 :: !Selected(steps, apps1[n].app)
  {
    hide StepsOf, Planned, Selected;
    forall n | n in apps1 ensures !Selected(steps, apps1[n].app) {
      InPlan(steps, current, places, order, apps1[n].app);
    }
  }

  /** One call: the strategy the ApplicationSet has by then, and the time. */
  datatype Call = Call(strategy: Option<Strategy>, now: int)

  /** madeBy gives each deletion the call that made it: no call made two, and each was in reverse for its call. */
  ghost predicate MadeInReverse(calls: seq<Call>, n: nat, ds: seq<Deletion>, madeBy: seq<nat>)
    requires n <= |calls|
  {
    && |madeBy| == |ds|
    && (forall i :: 0 <= i < |ds| ==> madeBy[i] < n && InReverse(Steps(calls[madeBy[i]].strategy), ds[i]))
    && forall i, j :: 0 <= i < j < |ds| ==> madeBy[i] < madeBy[j]
  }

  lemma MadeNext(calls: seq<Call>, n: nat, ds: seq<Deletion>, madeBy: seq<nat>, d: Deletion)
    requires n < |calls| && MadeInReverse(calls, n, ds, madeBy)
    ensures MadeInReverse(calls, n + 1, ds, madeBy)
    ensures InReverse(Steps(calls[n].strategy), d) ==> MadeInReverse(calls, n + 1, ds + [d], madeBy + [n])
  {
    hide InReverse;
  }

  /**
   Any sequence of calls, each with its own strategy, with the applications changed
   arbitrarily in between: every deletion was in reverse order for the call that made it,
   and no call made two.
   */
  method CallRepeatedly(server: Server, calls: seq<Call>) returns (ghost madeBy: seq<nat>)
    requires Named(server.apps) && server.deletions == []
    modifies server
    ensures MadeInReverse(calls, |calls|, server.deletions, madeBy)
  {
    hide InReverse;
    madeBy := [];
    for i := 0 to |calls|
      invariant Named(server.apps)
      invariant MadeInReverse(calls, i, server.deletions, madeBy)
    {
      var others: map<string, Live> := *;
      server.apps := map n | n in others && others[n].app.name == n :: others[n];
      ghost var before := server.deletions;
      if IsRollingSync(calls[i].strategy) {
        var outcome := PerformReverseDeletion(server, calls[i].strategy, calls[i].now);
        if outcome.Requeue? {
          ghost var d := server.deletions[|before|];
          assert server.deletions == before + [d];
          assert d in server.deletions[|before|..];
          MadeNext(calls, i, before, madeBy, d);
          madeBy := madeBy + [i];
        } else {
          assert server.deletions == before;
          if before != [] { MadeNext(calls, i, before, madeBy, before[0]); }
        }
      } else if before != [] {
        MadeNext(calls, i, before, madeBy, before[0]);
      }
    }
  }
}
