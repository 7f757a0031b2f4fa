/** Running and cleaning up the hooks that surround a deletion. */
module Hooks {
  import opened Options

  datatype HookType = PreDelete | PostDelete

  /** From most to least healthy. */
  datatype Health = Healthy | Suspended | Progressing | Missing | Degraded | Unknown

  datatype Policy = HookSucceeded | HookFailed | BeforeHookCreation

  /** health is None when no check is defined; a check may also fail. */
  datatype Object = Object(kinds: set<HookType>, health: Option<Health>, checkFails: bool, terminating: bool,
      annotated: seq<Policy>)

  datatype CreateReply = Created | AlreadyExists | CreateFailed

  datatype Outcome = Done | Waiting | Failed

  type Live = map<string, Object>

  function HealthOf(o: Object): (h: Health)
  {
    if o.health.Some? then o.health.value else Healthy
  }

  //////// Executing ////////

  /** A hook of the wanted kind that is not among the live objects. */
  ghost predicate Absent(kind: HookType, targets: map<string, Object>, live: Live, k: string)
  {
    k in targets && kind in targets[k].kinds && !(k in live && kind in live[k].kinds)
  }

  ghost predicate IsRunning(kind: HookType, live: Live, k: string)
  {
    k in live && kind in live[k].kinds
  }

  /** Every wanted hook is there and none that runs is unfinished or failed. */
  ghost predicate Executed(kind: HookType, targets: map<string, Object>, live: Live, replies: map<string, CreateReply>)
  {
    && (forall k | Absent(kind, targets, live, k) :: k in replies && replies[k].AlreadyExists?)
    && (forall k | IsRunning(kind, live, k) ::
         !live[k].checkFails && live[k].health != Some(Progressing) && live[k].health != Some(Degraded))
  }

  ghost predicate CreateFails(kind: HookType, targets: map<string, Object>, live: Live,
                              replies: map<string, CreateReply>)
  {
    exists k :: Absent(kind, targets, live, k) && (k !in replies || replies[k].CreateFailed?)
  }

  ghost predicate Creates(kind: HookType, targets: map<string, Object>, live: Live, replies: map<string, CreateReply>)
  {
    exists k :: Absent(kind, targets, live, k) && k in replies && replies[k].Created?
  }

  method CreateMissing(kind: HookType, targets: map<string, Object>, live: Live, replies: map<string, CreateReply>)
    returns (created: set<string>, ok: bool)
    ensures forall k :: k in created ==> Absent(kind, targets, live, k) && k in replies && replies[k].Created?
    ensures ok <==> forall k | Absent(kind, targets, live, k) :: k in replies && !replies[k].CreateFailed?
    ensures ok ==> forall k | Absent(kind, targets, live, k) && replies[k].Created? :: k in created
  {
    created, ok := {}, true;
    var rest := targets.Keys;
    while rest != {}
      invariant rest <= targets.Keys && ok
      invariant forall k :: k in created ==> Absent(kind, targets, live, k) && k in replies && replies[k].Created?
      invariant forall k | Absent(kind, targets, live, k) && k !in rest :: k in replies && !replies[k].CreateFailed?
      invariant forall k | Absent(kind, targets, live, k) && k !in rest && replies[k].Created? :: k in created
      decreases |rest|
    {
      var k :| k in rest;
      rest := rest - {k};
      if kind in targets[k].kinds && !(k in live && kind in live[k].kinds) {
        if k !in replies || replies[k].CreateFailed? { return created, false; }
        if replies[k].Created? { created := created + {k}; }
      }
    }
  }

  method CheckRunning(kind: HookType, live: Live) returns (progressing: nat, failed: set<string>, ok: bool)
    ensures ok <==> forall k | IsRunning(kind, live, k) :: !live[k].checkFails
    ensures ok ==> (progressing == 0 <==> forall k | IsRunning(kind, live, k) :: !HealthOf(live[k]).Progressing?)
    ensures ok ==> forall k :: k in failed <==> IsRunning(kind, live, k) && HealthOf(live[k]).Degraded?
  {
    progressing, failed, ok := 0, {}, true;
    var rest := live.Keys;
    while rest != {}
      invariant rest <= live.Keys && ok
      invariant forall k | IsRunning(kind, live, k) && k !in rest :: !live[k].checkFails
      invariant progressing == 0 <==>
                  forall k | IsRunning(kind, live, k) && k !in rest :: !HealthOf(live[k]).Progressing?
      invariant forall k :: k in failed <==> IsRunning(kind, live, k) && k !in rest && HealthOf(live[k]).Degraded?
      decreases |rest|
    {
      var k :| k in rest;
      rest := rest - {k};
      if kind in live[k].kinds {
        assert IsRunning(kind, live, k);
        if live[k].checkFails { return progressing, failed, false; }
        match HealthOf(live[k]) {
          case Progressing => progressing := progressing + 1;
          case Degraded => failed := failed + {k};
          case _ =>
        }
      }
    }
  }

  /** Failed hooks are deleted so that they can run again, but only when none had to be created. */
  method ExecuteHooks(kind: HookType, targets: map<string, Object>, live: Live, replies: map<string, CreateReply>)
    returns (outcome: Outcome, created: set<string>, deleted: set<string>)
    ensures outcome.Done? <==> Executed(kind, targets, live, replies)
    ensures outcome.Failed? <==> CreateFails(kind, targets, live, replies) ||
                                 (!Creates(kind, targets, live, replies) && exists k ::
                                     IsRunning(kind, live, k) && (live[k].checkFails || HealthOf(live[k]).Degraded?))
    ensures outcome.Done? ==> created == {} && deleted == {}
    ensures (&& outcome.Failed? && !CreateFails(kind, targets, live, replies)
             && forall k | IsRunning(kind, live, k) :: !live[k].checkFails) ==> deleted != {}
    ensures forall k | k in created :: Absent(kind, targets, live, k)
    ensures forall k | k in deleted :: IsRunning(kind, live, k) && HealthOf(live[k]).Degraded?
    ensures deleted != {} ==>
              created == {} && forall k | IsRunning(kind, live, k) && HealthOf(live[k]).Degraded? :: k in deleted
    ensures outcome.Waiting? ==>
              forall k | Absent(kind, targets, live, k) && k in replies && replies[k].Created? :: k in created
  {
    hide Absent, IsRunning;
    deleted := {};
    var ok;
    created, ok := CreateMissing(kind, targets, live, replies);
    if !ok { return Failed, created, {}; }
    if |created| > 0 {
      var k :| k in created;
      return Waiting, created, {};
    }
    var progressing, failed;
    progressing, failed, ok := CheckRunning(kind, live);
    if !ok { return Failed, created, {}; }
    if |failed| > 0 {
      var k :| k in failed;
      return Failed, created, failed;
    }
    if progressing > 0 { return Waiting, created, {}; }
    assert failed == {};
    return Done, created, {};
  }

  //////// Cleaning up ////////

  function Rank(h: Health): (r: nat)
  {
    match h
    case Healthy => 0
    case Suspended => 1
    case Progressing => 2
    case Missing => 3
    case Degraded => 4
    case Unknown => 5
  }

  /** The policies in force: one that never applies here when none is annotated. */
  function DeletePolicies(o: Object): (r: seq<Policy>)
    ensures r != []
  {
    if o.annotated == [] then [BeforeHookCreation] else o.annotated
  }

  /** worst is the health of the least healthy hook of the kind, or Healthy. */
  ghost predicate IsWorst(kind: HookType, live: Live, worst: Health)
  {
    && (forall k | IsRunning(kind, live, k) :: Rank(HealthOf(live[k])) <= Rank(worst))
    && (worst.Healthy? || exists k :: IsRunning(kind, live, k) && HealthOf(live[k]) == worst)
  }

  predicate ToDelete(o: Object, worst: Health)
  {
    || DeletePolicies(o) == []
    || (HookFailed in DeletePolicies(o) && worst.Degraded?)
    || (HookSucceeded in DeletePolicies(o) && worst.Healthy?)
  }

  method WorstHealth(kind: HookType, live: Live) returns (hooks: set<string>, worst: Health, ok: bool)
    ensures ok <==> forall k | IsRunning(kind, live, k) :: !live[k].checkFails
    ensures ok ==> IsWorst(kind, live, worst) && forall k :: k in hooks <==> IsRunning(kind, live, k)
  {
    hooks, worst, ok := {}, Healthy, true;
    var rest := live.Keys;
    while rest != {}
      invariant rest <= live.Keys && ok
      invariant forall k | IsRunning(kind, live, k) && k !in rest ::
                  !live[k].checkFails && Rank(HealthOf(live[k])) <= Rank(worst)
      invariant worst.Healthy? || exists k :: IsRunning(kind, live, k) && HealthOf(live[k]) == worst
      invariant forall k :: k in hooks <==> IsRunning(kind, live, k) && k !in rest
      decreases |rest|
    {
      var k :| k in rest;
      rest := rest - {k};
      if kind in live[k].kinds {
        assert IsRunning(kind, live, k);
        if live[k].checkFails { return hooks, worst, false; }
        if Rank(HealthOf(live[k])) > Rank(worst) { worst := HealthOf(live[k]); }
        hooks := hooks + {k};
      }
    }
  }

  method ShouldDelete(o: Object, worst: Health) returns (r: bool)
    ensures r == ToDelete(o, worst)
  {
    var policies := DeletePolicies(o);
    if |policies| == 0 { return true; }
    for i := 0 to |policies|
      invariant forall j :: 0 <= j < i ==>
                  !(policies[j].HookFailed? && worst.Degraded?) && !(policies[j].HookSucceeded? && worst.Healthy?)
    {
      if (policies[i].HookFailed? && worst.Degraded?) || (policies[i].HookSucceeded? && worst.Healthy?) { return true; }
    }
    return false;
  }

  /** Done exactly when no hook of the kind is due for deletion; deletes those not yet terminating. */
  method CleanupHooks(kind: HookType, live: Live, refused: set<string>)
    returns (outcome: Outcome, deleted: set<string>, worst: Health)
    ensures outcome.Done? ==> deleted == {} && IsWorst(kind, live, worst)
    ensures (forall k | IsRunning(kind, live, k) :: !live[k].checkFails) ==>
              && IsWorst(kind, live, worst)
              && (outcome.Done? <==> forall k | IsRunning(kind, live, k) :: !ToDelete(live[k], worst))
    ensures forall k | k in deleted :: IsRunning(kind, live, k) && ToDelete(live[k], worst) && !live[k].terminating
    ensures outcome.Waiting? ==>
              forall k | IsRunning(kind, live, k) && ToDelete(live[k], worst) && !live[k].terminating :: k in deleted
    ensures outcome.Failed? <==>
              exists k ::
                && IsRunning(kind, live, k)
                && (live[k].checkFails || (ToDelete(live[k], worst) && !live[k].terminating && k in refused))
  {
    hide IsRunning, IsWorst, ToDelete;
    deleted := {};
    var hooks, health, ok := WorstHealth(kind, live);
    worst := health;
    if !ok { return Failed, {}, worst; }
    if |hooks| == 0 { return Done, {}, worst; }
    var pending := 0;
    var rest := hooks;
    assert forall k | k in hooks :: k in live by { RunningIsLive(kind, live); }
    while rest != {}
      invariant rest <= hooks
      invariant pending >= 0 && (pending == 0 <==> forall k | k in hooks - rest :: !ToDelete(live[k], health))
      invariant forall k :: k in deleted <==> k in hooks - rest && ToDelete(live[k], health) && !live[k].terminating
      invariant deleted !! refused
      decreases |rest|
    {
      var k :| k in rest;
      rest := rest - {k};
      assert hooks - rest == hooks - (rest + {k}) + {k};
      var should := ShouldDelete(live[k], health);
      if should {
        pending := pending + 1;
        if !live[k].terminating {
          if k in refused { return Failed, deleted, worst; }
          deleted := deleted + {k};
        }
      }
    }
    if pending > 0 { return Waiting, deleted, worst; }
    assert deleted == {};
    return Done, deleted, worst;
  }

  lemma RunningIsLive(kind: HookType, live: Live)
    ensures forall k | IsRunning(kind, live, k) :: k in live
  {
  }

  /** The outcome that a hook names as a reason to delete it has come about. */
  ghost predicate NamedOutcomeOccurred(kind: HookType, live: Live, o: Object)
  {
    || (HookSucceeded in o.annotated &&
        forall k | IsRunning(kind, live, k) :: live[k].health == None || live[k].health == Some(Healthy))
    || (HookFailed in o.annotated &&
        (exists k :: IsRunning(kind, live, k) && live[k].health == Some(Degraded)) &&
        forall k | IsRunning(kind, live, k) :: live[k].health != Some(Unknown))
  }

  /**
   Clean-up intends to delete a hook without a delete policy whatever the health, but a
   default policy stands in for none.  So it is done, and its finalizer goes, with hooks of
   the kind still live, exactly when for each of them no outcome that it names occurred: all
   hooks Healthy for success, one Degraded and none Unknown for failure.
   */
  lemma CleanupDependsOnPolicy(kind: HookType, live: Live, worst: Health)
    requires IsWorst(kind, live, worst)
    ensures (forall k | IsRunning(kind, live, k) :: !ToDelete(live[k], worst)) <==>
            forall k | IsRunning(kind, live, k) :: !NamedOutcomeOccurred(kind, live, live[k])
  {
    hide ToDelete, NamedOutcomeOccurred;
    forall k | IsRunning(kind, live, k)
      ensures ToDelete(live[k], worst) <==> NamedOutcomeOccurred(kind, live, live[k])
    {
      DeletedForNamedOutcome(kind, live, worst, k);
    }
  }

  lemma DeletedForNamedOutcome(kind: HookType, live: Live, worst: Health, k: string)
    requires IsWorst(kind, live, worst) && IsRunning(kind, live, k)
    ensures ToDelete(live[k], worst) <==> NamedOutcomeOccurred(kind, live, live[k])
  {
    assert worst.Healthy? <==> forall j | IsRunning(kind, live, j) :: HealthOf(live[j]).Healthy? by {
      assert worst.Healthy? ==> forall j | IsRunning(kind, live, j) :: Rank(HealthOf(live[j])) <= 0;
    }
    assert worst.Unknown? <==> exists j :: IsRunning(kind, live, j) && HealthOf(live[j]).Unknown?;
    assert worst.Degraded? ==> forall j | IsRunning(kind, live, j) :: Rank(HealthOf(live[j])) <= 4;
  }

  /**
   A live hook that names no outcome is never due for deletion, whatever the health of the
   hooks; so with only such hooks live, clean-up is done and all of them stay.
   */
  lemma UnannotatedHookStays(kind: HookType, live: Live, worst: Health)
    requires IsWorst(kind, live, worst)
    ensures forall k | IsRunning(kind, live, k) && live[k].annotated == [] :: !ToDelete(live[k], worst)
    ensures (forall k | IsRunning(kind, live, k) :: live[k].annotated == []) ==>
              forall k | IsRunning(kind, live, k) :: !ToDelete(live[k], worst)
  {
    hide IsWorst, IsRunning;
    forall k | k in live && live[k].annotated == [] ensures !ToDelete(live[k], worst) {
      assert DeletePolicies(live[k]) == [BeforeHookCreation];
    }
    RunningIsLive(kind, live);
  }
}
