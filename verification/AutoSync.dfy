/**
 Automated sync and its guard against syncing the same revision for ever, together with
 what a sync records in the operation state that the guard reads.
 */
module AutoSync {
  import opened Options
  import opened Appset
  import opened Operation

  datatype Policy = Policy(automated: bool, prune: bool, allowEmpty: bool, selfHeal: bool, retry: Option<(int, bool)>)

  /** What the spec asks for and the revisions it resolves to. */
  datatype Target = Target(multi: bool, source: string, revision: string, revisions: seq<string>)

  datatype Resource = Resource(synced: bool, requiresPruning: bool)

  datatype Comparison = Comparison(status: string, resources: seq<Resource>, mayHaveChanges: bool)

  datatype Decision = Skip | Refuse | Start(request: Request)

  //////// Deciding ////////

  predicate Successful(p: Phase) { p.Succeeded? }

  predicate AlreadyAttempted(state: Option<State>, target: Target, compareRevisions: bool)
  {
    state.Some? &&
    match state.value.result
    case None => Completed(state.value.phase)
    case Some(r) =>
      && (compareRevisions ==> if target.multi then r.revisions == target.revisions else r.revision == target.revision)
      && r.source == target.source
  }

  function Limit(policy: Policy): int { if policy.retry.Some? then policy.retry.value.0 else 5 }
  predicate RefreshesOnRetry(policy: Policy) { policy.retry.Some? && policy.retry.value.1 }

  function Requested(policy: Policy, target: Target): (q: Request)
    ensures q.limit == Limit(policy) && (q.refresh <==> RefreshesOnRetry(policy))
    ensures q.revision == target.revision && q.revisions == target.revisions && q.source == target.source
  {
    Request(Limit(policy), RefreshesOnRetry(policy), target.revision, target.revisions, target.source)
  }

  /** Something is out of sync that a sync may touch, and nothing else is going on. */
  ghost predicate Candidate(app: Stored, deleting: bool, policy: Policy, cmp: Comparison)
  {
    && policy.automated && app.operation.None? && !deleting && cmp.status == "OutOfSync"
    && (policy.prune || exists r :: r in cmp.resources && !r.synced && !r.requiresPruning)
  }

  /** Syncing would prune everything and that is not allowed. */
  ghost predicate WipesOut(policy: Policy, cmp: Comparison)
  {
    policy.prune && !policy.allowEmpty && forall r | r in cmp.resources :: r.requiresPruning
  }

  /** The last operation does not stand in the way: not this attempt, or healing it is due. */
  ghost predicate MayAttempt(app: Stored, policy: Policy, target: Target, backingOff: bool)
  {
    AlreadyAttempted(app.state, target, true) ==> Successful(app.state.value.phase) && policy.selfHeal && !backingOff
  }

  ghost predicate Due(app: Stored, deleting: bool, policy: Policy, target: Target, cmp: Comparison, backingOff: bool)
  {
    Candidate(app, deleting, policy, cmp) && MayAttempt(app, policy, target, backingOff) && !WipesOut(policy, cmp)
  }

  /** How the last operation ended, if it was for what target asks: its revisions and its source. */
  function Attempted(app: Stored, target: Target): (p: Option<Phase>)
    ensures app.state.None? ==> p.None?
    ensures app.state.Some? && app.state.value.result.None? ==>
              p == if Completed(app.state.value.phase) then Some(app.state.value.phase) else None
    ensures app.state.Some? && app.state.value.result.Some? ==>
              var r := app.state.value.result.value;
              p == if r.source == target.source && target.multi && r.revisions == target.revisions
                   then Some(app.state.value.phase)
                   else if r.source == target.source && !target.multi && r.revision == target.revision
                   then Some(app.state.value.phase) else None
  {
    if AlreadyAttempted(app.state, target, true) then Some(app.state.value.phase) else None
  }

  method Decide(app: Stored, deleting: bool, policy: Policy, target: Target, cmp: Comparison, backingOff: bool)
    returns (d: Decision)
    ensures d.Start? <==> Due(app, deleting, policy, target, cmp, backingOff)
    ensures d.Start? ==> d.request == Requested(policy, target)
    ensures d.Start? ==> d.request.revision == target.revision && d.request.revisions == target.revisions &&
                         d.request.source == target.source
    ensures d.Start? ==> d.request.limit == (if policy.retry.Some? then policy.retry.value.0 else 5) &&
                         d.request.refresh == (policy.retry.Some? && policy.retry.value.1)
    ensures Candidate(app, deleting, policy, cmp) && !WipesOut(policy, cmp) ==>
              match Attempted(app, target)
              case None => d.Start?
              case Some(phase) =>
                if !phase.Succeeded? then d.Refuse?
                else if policy.selfHeal && !backingOff then d.Start? else d.Skip?
    ensures d.Refuse? <==> Candidate(app, deleting, policy, cmp) &&
                           ((AlreadyAttempted(app.state, target, true) && !Successful(app.state.value.phase)) ||
                            (MayAttempt(app, policy, target, backingOff) && WipesOut(policy, cmp)))
  {
    if !policy.automated { return Skip; }
    if app.operation.Some? { return Skip; }
    if deleting { return Skip; }
    if cmp.status != "OutOfSync" { return Skip; }
    if !policy.prune {
      var pruneOnly := true;
      var i := 0;
      while i < |cmp.resources| && pruneOnly
        invariant 0 <= i <= |cmp.resources|
        invariant pruneOnly <==> forall j :: 0 <= j < i ==> cmp.resources[j].synced || cmp.resources[j].requiresPruning
      {
        if !cmp.resources[i].synced && !cmp.resources[i].requiresPruning { pruneOnly := false; }
        i := i + 1;
      }
      if pruneOnly { return Skip; }
    }
    var compareRevisions := cmp.mayHaveChanges || cmp.status == "OutOfSync";
    if AlreadyAttempted(app.state, target, compareRevisions) {
      if !Successful(app.state.value.phase) { return Refuse; }
      if !policy.selfHeal { return Skip; }
      if backingOff { return Skip; }
    }
    if policy.prune && !policy.allowEmpty {
      var allNeedPrune := true;
      for i := 0 to |cmp.resources|
        invariant allNeedPrune <==> forall j :: 0 <= j < i ==> cmp.resources[j].requiresPruning
      {
        if !cmp.resources[i].requiresPruning { allNeedPrune := false; }
      }
      if allNeedPrune { return Refuse; }
    }
    return Start(Requested(policy, target));
  }

  /** SetAppOperation: refused while another operation is there; erases the last state. */
  function Initiated(stored: Stored, q: Request): (r: Stored)
  {
    if stored.operation.Some? then stored else Stored(Some(q), None)
  }

  //////// What a sync records ////////

  /** How far a sync gets, up to the phase the engine reports. */
  datatype Progress = NoSyncId | Blocked | CompareFailed | Compared(loaded: bool, phase: Phase)

  function NewSyncResult(q: Request, target: Target): (r: SyncResult)
    ensures r.revision == q.revision && r.revisions == q.revisions
    ensures q.source != "" ==> r.source == q.source
    ensures q.source == "" ==> r.source == target.source
  {
    SyncResult(q.revision, q.revisions, if q.source != "" then q.source else target.source)
  }

  /** A manifest load that fails keeps a single source's revision and drops those of several. */
  function Recorded(r: SyncResult, target: Target, loaded: bool): (s: SyncResult)
  {
    if target.multi then SyncResult("", if loaded then target.revisions else [], r.source)
    else SyncResult(if loaded then target.revision else r.revision, [], r.source)
  }

  /** The phase and result SyncAppState leaves in a state. */
  function SyncAppState(s: State, target: Target, p: Progress): (r: State)
    ensures r == s.(phase := r.phase, result := r.result)
    ensures r.phase == match p
                       case NoSyncId => Errored
                       case Blocked => s.phase
                       case CompareFailed => Errored
                       case Compared(_, phase) => PhaseLeft(s, phase)
    ensures p.Blocked? || p.CompareFailed? ==>
              r.result == if s.result.Some? then s.result else Some(NewSyncResult(s.request, target))
    ensures !p.NoSyncId? ==> r.result.Some?
    ensures p.Compared? ==>
              r.result.value.source ==
              if s.result.Some? then s.result.value.source else NewSyncResult(s.request, target).source
    ensures p.NoSyncId? ==> r.result == s.result
    ensures p.Compared? && p.loaded && target.multi ==> r.result.value.revisions == target.revisions
    ensures p.Compared? && p.loaded && !target.multi ==> r.result.value.revision == target.revision
    ensures p.Compared? && !p.loaded && target.multi ==> r.result.value.revisions == []
    ensures p.Compared? ==> if target.multi then r.result.value.revision == "" else r.result.value.revisions == []
    ensures !target.multi && (p.CompareFailed? || (p.Compared? && !p.loaded)) ==>
              r.result.value.revision == if s.result.Some? then s.result.value.revision else s.request.revision
  {
    var base := if s.result.Some? then s.result.value else NewSyncResult(s.request, target);
    match p
    case NoSyncId => s.(phase := Errored)
    case Blocked => s.(result := Some(base))
    case CompareFailed => s.(phase := Errored, result := Some(base))
    case Compared(loaded, phase) =>
      s.(phase := PhaseLeft(s, phase), result := Some(Recorded(base, target, loaded)))
  }

  /** The outcome env reports is one that a sync of the state opened can have. */
  ghost predicate Possible(app: Stored, env: Env, timeout: int, target: Target)
    requires app.operation.Some?
  {
    var s := Opened(app, env, timeout);
    match env.outcome
    case NoProject => true
    case Synced(phase, result) => exists p :: SyncAppState(s, target, p) == s.(phase := phase, result := result)
    case Panicked(result) => exists p :: SyncAppState(s, target, p).result == result
  }

  //////// Runs ////////

  datatype Event = Compare(cmp: Comparison, deleting: bool, backingOff: bool) | Process(env: Env) | Terminate

  datatype Life = Life(stored: Stored, started: nat)

  ghost predicate Follows(policy: Policy, target: Target, timeout: int, a: Life, e: Event, b: Life)
  {
    match e
    case Compare(cmp, deleting, backingOff) =>
      b == if Due(a.stored, deleting, policy, target, cmp, backingOff)
           then Life(Initiated(a.stored, Requested(policy, target)), a.started + 1) else a
    case Process(env) =>
      b == a || (a.stored.operation.Some? && Possible(a.stored, env, timeout, target) &&
          b == a.(stored := After(a.stored, env, timeout)))
    case Terminate => b == a.(stored := Terminated(a.stored))
  }

  ghost predicate IsLife(policy: Policy, target: Target, timeout: int, ls: seq<Life>, es: seq<Event>)
  {
    && |ls| == |es| + 1
    && ls[0].started == 0 && ls[0].stored.operation.None? &&
         (ls[0].stored.state.Some? ==> Completed(ls[0].stored.state.value.phase))
    && forall i :: 0 <= i < |es| ==> Follows(policy, target, timeout, ls[i], es[i], ls[i + 1])
  }

  /** Only a single source whose retries keep the revision is sure to record what it attempted. */
  predicate RecordsAttempts(policy: Policy, target: Target)
  {
    !target.multi && (!RefreshesOnRetry(policy) || Limit(policy) == 0)
  }

  /** The result names the revision and source that were asked for. */
  predicate NamesTarget(r: Option<SyncResult>, target: Target)
  {
    r.Some? ==> r.value.revision == target.revision && r.value.source == target.source
  }

  /** Before the operation anything; then the operation with its own state; then that state, completed. */
  ghost predicate Once(policy: Policy, target: Target, l: Life)
  {
    if l.started == 0 then l.stored.operation.None?
    else
      && l.started == 1
      && (l.stored.operation.None? ==> l.stored.state.Some? && Completed(l.stored.state.value.phase))
      && (l.stored.operation.Some? ==> l.stored.operation == Some(Requested(policy, target)))
      && (l.stored.state.Some? ==>
            var s := l.stored.state.value;
            && NamesTarget(s.result, target)
            && s.request == Requested(policy, target)
            && s.retryCount >= 0
            && (l.stored.operation.Some? ==> !Completed(s.phase))
            && (Limit(policy) == 0 && !Completed(s.phase) ==> s.finishedAt.None?))
  }

  lemma SyncNamesTarget(s: State, target: Target, p: Progress)
    requires !target.multi && NamesTarget(s.result, target)
    requires s.request.revision == target.revision && s.request.source == target.source
    ensures NamesTarget(SyncAppState(s, target, p).result, target)
  {
  }

  lemma OpenedNamesTarget(policy: Policy, target: Target, l: Life, env: Env, timeout: int)
    requires RecordsAttempts(policy, target) && Once(policy, target, l) && l.stored.operation.Some?
    ensures var s, o := Opened(l.stored, env, timeout), Open(l.stored, env, timeout);
            && NamesTarget(s.result, target) && s.request == Requested(policy, target) && s.retryCount >= 0
            && (!o.GiveUp? ==> !Completed(s.phase))
            && (Limit(policy) == 0 && !o.GiveUp? ==> s.finishedAt.None?)
            && (l.stored.state.Some? ==> !o.Begin? && s.retryCount == l.stored.state.value.retryCount)
  {
  }

  lemma MidwayNamesTarget(policy: Policy, target: Target, l: Life, env: Env, timeout: int)
    requires RecordsAttempts(policy, target) && Once(policy, target, l) && l.stored.operation.Some?
    ensures var m := Disturbed(Midway(l.stored, env, timeout), env.terminatedLast);
            Once(policy, target, l.(stored := m)) && (!Open(l.stored, env, timeout).GiveUp? ==> m.operation.Some?)
  {
    hide Opened;
    OpenedNamesTarget(policy, target, l, env, timeout);
  }

  /** Writing a state of this operation keeps the invariant. */
  lemma WriteNamesTarget(policy: Policy, target: Target, l: Life, m: Stored, c: State, now: int, same: bool)
    requires RecordsAttempts(policy, target) && Once(policy, target, l) && l.stored.operation.Some?
    requires Once(policy, target, l.(stored := m)) && m.operation.Some?
    requires NamesTarget(c.result, target) && c.request == Requested(policy, target) && c.retryCount >= 0
    requires Limit(policy) == 0 && !Completed(c.phase) ==> c.finishedAt.None?
    requires same ==> InProgress(l.stored)
    ensures Once(policy, target, l.(stored := Written(m, l.stored, c, now, same)))
  {
  }

  lemma ClosedNamesTarget(policy: Policy, target: Target, s: State, env: Env, seen: Phase, p: Progress)
    requires RecordsAttempts(policy, target)
    requires NamesTarget(s.result, target) && s.request == Requested(policy, target) && s.retryCount >= 0
    requires Limit(policy) == 0 ==> s.finishedAt.None?
    requires match env.outcome
             case NoProject => true
             case Synced(phase, result) => SyncAppState(s, target, p) == s.(phase := phase, result := result)
             case Panicked(result) => SyncAppState(s, target, p).result == result
    ensures var c := Closed(s, env, seen);
            && NamesTarget(c.result, target) && c.request == Requested(policy, target) && c.retryCount >= 0
            && (Limit(policy) == 0 ==> c.finishedAt.None?)
  {
    SyncNamesTarget(s, target, p);
    hide SyncAppState;
  }

  lemma ProcessKeepsOnce(policy: Policy, target: Target, timeout: int, l: Life, env: Env)
    requires RecordsAttempts(policy, target) && Once(policy, target, l)
    requires l.stored.operation.Some? && Possible(l.stored, env, timeout, target)
    ensures Once(policy, target, l.(stored := After(l.stored, env, timeout)))
  {
    hide Closed, Opened, Open, Midway, SyncAppState, Written;
    var app := l.stored;
    var o, s := Open(app, env, timeout), Opened(app, env, timeout);
    OpenedNamesTarget(policy, target, l, env, timeout);
    MidwayNamesTarget(policy, target, l, env, timeout);
    if !o.Wait? && !o.GiveUp? {
      var seen := PhaseOf(Midway(app, env, timeout));
      var p: Progress :| match env.outcome
                         case NoProject => true
                         case Synced(phase, result) => SyncAppState(s, target, p) ==
                             s.(phase := phase, result := result)
                         case Panicked(result) => SyncAppState(s, target, p).result == result;
      ClosedNamesTarget(policy, target, s, env, seen, p);
      var m := Disturbed(Midway(app, env, timeout), env.terminatedLast);
      WriteNamesTarget(policy, target, l, m, Closed(s, env, seen), env.now, SameAsRead(app, env));
    }
  }

  lemma StepKeepsOnce(policy: Policy, target: Target, timeout: int, a: Life, e: Event, b: Life)
    requires RecordsAttempts(policy, target) && !policy.selfHeal
    requires Once(policy, target, a) && Follows(policy, target, timeout, a, e, b)
    ensures Once(policy, target, b)
  {
    hide After, Possible;
    if e.Process? && b != a { ProcessKeepsOnce(policy, target, timeout, a, e.env); }
  }

  lemma {:induction false} StartsOnce(policy: Policy, target: Target, timeout: int, ls: seq<Life>,
                                      es: seq<Event>, i: nat)
    requires RecordsAttempts(policy, target) && !policy.selfHeal
    requires IsLife(policy, target, timeout, ls, es) && i <= |es|
    ensures Once(policy, target, ls[i])
    decreases i
  {
    hide Follows, Once;
    if i > 0 {
      StartsOnce(policy, target, timeout, ls, es, i - 1);
      assert Follows(policy, target, timeout, ls[i - 1], es[i - 1], ls[i]);
      StepKeepsOnce(policy, target, timeout, ls[i - 1], es[i - 1], ls[i]);
    } else {
      StartsAtNone(policy, target, ls[0]);
    }
  }

  lemma StartsAtNone(policy: Policy, target: Target, l: Life)
    requires l.started == 0 && l.stored.operation.None?
    ensures Once(policy, target, l)
  {
  }

  //////// When the guard fails ////////

  const OUT_OF_SYNC := Comparison("OutOfSync", [Resource(false, false)], true)

  const COMPARE := Compare(OUT_OF_SYNC, false, false)

  function Meets(outcome: Outcome): Env
  {
    Env(0, 0, Some(0), outcome, true, false, false, false, true, false)
  }

  lemma DueAgain(app: Stored, policy: Policy, target: Target)
    requires policy.automated && app.operation.None? && !AlreadyAttempted(app.state, target, true)
    ensures Due(app, false, policy, target, OUT_OF_SYNC, false)
  {
    assert Resource(false, false) in OUT_OF_SYNC.resources;
  }

  /** A first pass that works on a fresh operation and leaves it completed. */
  lemma EndsAtOnce(q: Request, result: Option<SyncResult>, timeout: int)
    requires q.limit == 0
    ensures var env := Meets(Synced(Errored, result));
            && Opened(Stored(Some(q), None), env, timeout) == State(q, Running, None, 0, None, 0)
            && After(Stored(Some(q), None), env, timeout) ==
                 Stored(None, Some(State(q, Errored, result, 0, Some(0), 0)))
  {
  }

  /** A first pass that fails and leaves the operation waiting to be retried. */
  lemma WaitsToRetry(q: Request, outcome: Outcome, result: Option<SyncResult>, timeout: int)
    requires q.limit != 0
    requires outcome == Synced(Failed, result) || (outcome.NoProject? && result.None?)
    ensures var env := Meets(outcome);
            && Opened(Stored(Some(q), None), env, timeout) == State(q, Running, None, 0, None, 0)
            && After(Stored(Some(q), None), env, timeout) ==
                 Stored(Some(q), Some(State(q, Running, result, 0, Some(0), 1)))
  {
  }

  /** The pass that ends a terminated operation with a failed sync. */
  lemma EndsTerminated(s: State, result: Option<SyncResult>, timeout: int)
    requires s.phase.Terminating? && result.Some? && s.retryCount != 0
    ensures var app, env := Stored(Some(s.request), Some(s)), Meets(Synced(Errored, result));
            var after := After(app, env, timeout);
            && Opened(app, env, timeout) == s
            && after.operation.None? && after.state.Some? && Completed(after.state.value.phase)
            && after.state.value.result == MergeResult(s.result, result)
  {
  }

  /** Several sources: a sync that fails to load the manifests forgets the revisions it was for. */
  lemma ForgetsRevisions(policy: Policy, target: Target, timeout: int) returns (ls: seq<Life>, es: seq<Event>)
    requires policy.automated && timeout >= 0 && target.multi && target.revisions != []
    ensures IsLife(policy, target, timeout, ls, es) && ls[|es|].started == 2
    ensures forall e | e in es && e.Process? :: !e.env.outcome.Panicked?
  {
    hide After, Opened;
    var q := Requested(policy, target);
    var l0, l1 := Life(Stored(None, None), 0), Life(Stored(Some(q), None), 1);
    DueAgain(l0.stored, policy, target);
    if Limit(policy) == 0 {
      var s := State(q, Running, None, 0, None, 0);
      var left := SyncAppState(s, target, Compared(false, Errored));
      EndsAtOnce(q, left.result, timeout);
      var env := Meets(Synced(Errored, left.result));
      assert SyncAppState(s, target, Compared(false, Errored)) == s.(phase := Errored, result := left.result);
      var l2 := l1.(stored := After(l1.stored, env, timeout));
      DueAgain(l2.stored, policy, target);
      ls, es := [l0, l1, l2, l1.(started := 2)], [COMPARE, Process(env), COMPARE];
    } else {
      WaitsToRetry(q, NoProject, None, timeout);
      var l2 := l1.(stored := After(l1.stored, Meets(NoProject), timeout));
      var l3 := l2.(stored := Terminated(l2.stored));
      var s := State(q, Terminating, None, 0, Some(0), 1);
      var left := SyncAppState(s, target, Compared(false, Errored));
      EndsTerminated(s, left.result, timeout);
      var env := Meets(Synced(Errored, left.result));
      assert SyncAppState(s, target, Compared(false, Errored)) == s.(phase := Errored, result := left.result);
      var l4 := l3.(stored := After(l3.stored, env, timeout));
      DueAgain(l4.stored, policy, target);
      ls := [l0, l1, l2, l3, l4, l1.(started := 2)];
      es := [COMPARE, Process(Meets(NoProject)), Terminate, Process(env), COMPARE];
    }
  }

  /** A retry that blanks the revision and fails before resolving it: over, or waiting once more. */
  lemma RetriesBlank(q: Request, first: SyncResult, blank: SyncResult, timeout: int)
    requires q.refresh && q.limit != 0 && timeout >= 0 && blank.revisions == first.revisions
    ensures var app, env := Stored(Some(q), Some(State(q, Running, Some(first), 0, Some(0), 1))),
              Meets(Synced(Errored, Some(blank)));
            && Opened(app, env, timeout) == State(q.(revision := "", revisions := []), Running, None, 0, None, 1)
            && After(app, env, timeout) ==
               if q.limit == 1 then Stored(None, Some(State(q, Errored, Some(blank), 0, Some(0), 1)))
               else Stored(Some(q), Some(State(q, Running, Some(blank), 0, Some(0), 2)))
  {
  }

  /** Retries with the latest revision: an attempt that fails before resolving it leaves none recorded. */
  lemma ForgetsOnRetry(policy: Policy, target: Target, timeout: int) returns (ls: seq<Life>, es: seq<Event>)
    requires policy.automated && timeout >= 0 && !target.multi && target.revision != ""
    requires RefreshesOnRetry(policy) && Limit(policy) != 0
    ensures IsLife(policy, target, timeout, ls, es) && ls[|es|].started == 2
    ensures forall e | e in es && e.Process? :: !e.env.outcome.Panicked?
  {
    hide After, Opened;
    var q := Requested(policy, target);
    var l0, l1 := Life(Stored(None, None), 0), Life(Stored(Some(q), None), 1);
    DueAgain(l0.stored, policy, target);
    var s1 := State(q, Running, None, 0, None, 0);
    var failed := SyncAppState(s1, target, Compared(true, Failed));
    var env1 := Meets(Synced(Failed, failed.result));
    WaitsToRetry(q, env1.outcome, failed.result, timeout);
    assert failed == s1.(phase := Failed, result := failed.result);
    var l2 := l1.(stored := After(l1.stored, env1, timeout));
    var s2 := State(q.(revision := "", revisions := []), Running, None, 0, None, 1);
    var left := SyncAppState(s2, target, CompareFailed);
    var env2 := Meets(Synced(Errored, left.result));
    RetriesBlank(q, failed.result.value, left.result.value, timeout);
    assert left == s2.(phase := Errored, result := left.result);
    var l3 := l2.(stored := After(l2.stored, env2, timeout));
    if q.limit == 1 {
      DueAgain(l3.stored, policy, target);
      ls, es := [l0, l1, l2, l3, l1.(started := 2)], [COMPARE, Process(env1), Process(env2), COMPARE];
    } else {
      var l4 := l3.(stored := Terminated(l3.stored));
      var s3 := State(q, Terminating, left.result, 0, Some(0), 2);
      EndsTerminated(s3, left.result, timeout);
      assert SyncAppState(s3, target, CompareFailed) == s3.(phase := Errored, result := left.result);
      var l5 := l4.(stored := After(l4.stored, env2, timeout));
      DueAgain(l5.stored, policy, target);
      ls := [l0, l1, l2, l3, l4, l5, l1.(started := 2)];
      es := [COMPARE, Process(env1), Process(env2), Terminate, Process(env2), COMPARE];
    }
  }

  /**
   With self-heal off, a fixed spec and fixed resolved revisions, at most one automated
   operation is ever started, exactly when there is a single source and retries, if any,
   keep the revision.
   */
  lemma AtMostOneIff(policy: Policy, target: Target, timeout: int)
    requires policy.automated && !policy.selfHeal && timeout >= 0
    requires if target.multi then target.revisions != [] else target.revision != ""
    ensures (forall ls: seq<Life>, es: seq<Event>, i: nat ::
               IsLife(policy, target, timeout, ls, es) && i < |ls| ==> ls[i].started <= 1)
              <==> RecordsAttempts(policy, target)
  {
    hide IsLife;
    if RecordsAttempts(policy, target) {
      forall ls: seq<Life>, es: seq<Event>, i: nat | IsLife(policy, target, timeout, ls, es) && i < |ls|
        ensures ls[i].started <= 1
      {
        LifeLength(policy, target, timeout, ls, es);
        StartsOnce(policy, target, timeout, ls, es, i);
      }
    } else {
      var ls: seq<Life>, es: seq<Event>;
      if target.multi { ls, es := ForgetsRevisions(policy, target, timeout); }
      else { ls, es := ForgetsOnRetry(policy, target, timeout); }
      LifeLength(policy, target, timeout, ls, es);
      assert ls[|es|].started > 1;
    }
  }

  lemma LifeLength(policy: Policy, target: Target, timeout: int, ls: seq<Life>, es: seq<Event>)
    requires IsLife(policy, target, timeout, ls, es)
    ensures |ls| == |es| + 1
  {
  }
}
