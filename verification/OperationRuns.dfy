/** Everything that can happen to one operation, from its request to its completion. */
module OperationRuns {
  import opened Options
  import opened Appset
  import opened Operation

  datatype Step = UserTerminates | Pass(env: Env)

  datatype World = World(stored: Stored, attempts: nat)

  /** Once the operation is gone nothing is left to process. */
  function Apply(w: World, e: Step, timeout: int): (r: World)
  {
    if w.stored.operation.None? then w
    else
      match e
      case UserTerminates => w.(stored := Terminated(w.stored))
      case Pass(env) =>
        World(After(w.stored, env, timeout), w.attempts + (if Attempts(Open(w.stored, env, timeout)) then 1 else 0))
  }

  function Run(w: World, es: seq<Step>, timeout: int): (r: World)
  {
    if es == [] then w else Apply(Run(w, es[..|es| - 1], timeout), es[|es| - 1], timeout)
  }

  //////// Attempts ////////

  /** An operation requested with the previous operation state erased. */
  function Fresh(q: Request): (w: World)
  {
    World(Stored(Some(q), None), 0)
  }

  /** Retries have been counted exactly: one more attempt than retries while running, as many while waiting. */
  ghost predicate Counted(q: Request, w: World)
  {
    && (w.stored.operation.Some? ==>
          match w.stored.state
          case None => w.attempts == 0
          case Some(s) =>
            && !Completed(s.phase) && s.request.limit == q.limit
            && 0 <= s.retryCount && (q.limit >= 0 ==> s.retryCount <= q.limit)
            && w.attempts == s.retryCount + (if s.finishedAt.None? then 1 else 0))
    && (q.limit >= 0 ==> w.attempts <= q.limit + 1)
    && (w.stored.operation.None? ==> w.stored.state.Some? && Completed(w.stored.state.value.phase))
    && (w.stored.operation.Some? ==> w.stored.operation == Some(q))
  }

  lemma MidwayCounts(q: Request, w: World, env: Env, timeout: int)
    requires Counted(q, w) && w.stored.operation.Some?
    ensures var s, o := Opened(w.stored, env, timeout), Open(w.stored, env, timeout);
            && (w.stored.state.Some? ==> s.retryCount == w.stored.state.value.retryCount)
            && s.request.limit == q.limit && (q.limit >= 0 ==> s.retryCount <= q.limit) && 0 <= s.retryCount
            && w.attempts + (if Attempts(o) then 1 else 0) == s.retryCount + (if s.finishedAt.None? then 1 else 0)
            && (!o.Wait? && !o.GiveUp? && s.finishedAt.Some? ==> s.phase.Terminating?)
            && (!o.GiveUp? ==>
                  && !Completed(s.phase)
                  && var m := Midway(w.stored, env, timeout);
                     && m.operation == Some(q) && m.state.Some? && m.state.value.request.limit == q.limit
                     && m.state.value.retryCount == s.retryCount && m.state.value.finishedAt == s.finishedAt
                     && !Completed(m.state.value.phase))
  {
  }

  lemma ClosedCounts(q: Request, s: State, env: Env, seen: Phase)
    requires s.request.limit == q.limit && 0 <= s.retryCount && (q.limit >= 0 ==> s.retryCount <= q.limit)
    ensures var c := Closed(s, env, seen);
            && c.request == s.request && 0 <= c.retryCount && (q.limit >= 0 ==> c.retryCount <= q.limit)
            && (WillRetry(s, env) ==> c.finishedAt.Some? && c.retryCount == s.retryCount + 1)
            && (!WillRetry(s, env) ==> c.finishedAt == s.finishedAt && c.retryCount == s.retryCount)
  {
  }

  lemma PassCounts(q: Request, w: World, env: Env, timeout: int)
    requires Counted(q, w) && w.stored.operation.Some?
    ensures Counted(q, Apply(w, Pass(env), timeout))
  {
    hide Closed, Opened, Midway, Open;
    var app := w.stored;
    var o, s := Open(app, env, timeout), Opened(app, env, timeout);
    MidwayCounts(q, w, env, timeout);
    ReadAgain(app, env, timeout);
    ClosedCounts(q, s, env, PhaseOf(Midway(app, env, timeout)));
  }

  /**
   Over every run: exactly one attempt more than the retries counted while an attempt runs,
   as many as the retries while waiting, and never more than Limit + 1.
   */
  lemma {:induction false} AttemptsBounded(q: Request, es: seq<Step>, timeout: int)
    ensures Counted(q, Run(Fresh(q), es, timeout))
    decreases |es|
  {
    if es != [] {
      hide After, Open;
      var w := Run(Fresh(q), es[..|es| - 1], timeout);
      AttemptsBounded(q, es[..|es| - 1], timeout);
      var e := es[|es| - 1];
      if w.stored.operation.Some? && e.Pass? { PassCounts(q, w, e.env, timeout); }
    }
  }

  //////// Termination ////////

  /** Terminating, or ended without another attempt. */
  ghost predicate StopsFrom(w0: World, w: World)
    requires w0.stored.state.Some?
  {
    && w.attempts == w0.attempts
    && (w.stored.operation.Some? ==> w.stored.operation == w0.stored.operation)
    && w.stored.state.Some?
    && w.stored.state.value.retryCount == w0.stored.state.value.retryCount
    && (if w.stored.operation.Some? then w.stored.state.value.phase.Terminating?
         else Completed(w.stored.state.value.phase))
  }

  lemma PassStops(w: World, env: Env, timeout: int)
    requires w.stored.operation.Some? && w.stored.state.Some? && w.stored.state.value.phase.Terminating?
    ensures StopsFrom(w, Apply(w, Pass(env), timeout))
  {
  }

  /** A terminating operation stays so until it completes, and is never retried. */
  lemma {:induction false} TerminatingAbsorbs(w: World, es: seq<Step>, timeout: int)
    requires w.stored.operation.Some? && w.stored.state.Some? && w.stored.state.value.phase.Terminating?
    ensures StopsFrom(w, Run(w, es, timeout))
    decreases |es|
  {
    if es != [] {
      hide After, Open;
      TerminatingAbsorbs(w, es[..|es| - 1], timeout);
      var u, e := Run(w, es[..|es| - 1], timeout), es[|es| - 1];
      if u.stored.operation.Some? && e.Pass? { PassStops(u, e.env, timeout); }
    }
  }

  /** A request reached the server at one of the three points of this pass, and was accepted. */
  ghost predicate Landed(app: Stored, env: Env, timeout: int)
  {
    || (env.terminatedEarly && app.state.Some?)
    || ((env.terminatedLate || env.terminatedLast) && !Open(app, env, timeout).GiveUp?)
  }

  /** The phase Terminating stands on the server when the pass reads the operation again. */
  ghost predicate StandsAtRead(app: Stored, env: Env, timeout: int)
  {
    var o := Open(app, env, timeout);
    || env.terminatedLate || o.TimeOut?
    || (o.Resume? && (env.terminatedEarly || PhaseOf(app).Terminating?))
  }

  /** The pass ends with exactly what it read, so that its final write is left out. */
  ghost predicate NothingToWrite(app: Stored, env: Env, timeout: int)
    requires app.operation.Some?
  {
    && Open(app, env, timeout).Resume? && PhaseOf(app).Running?
    && env.outcome == Synced(Running, app.state.value.result) && env.sameDetails
  }

  /**
   A request that lands during a pass is lost exactly when the pass schedules a retry, or
   when the attempt still runs, the request was not there to be read again - it came later,
   was overwritten by the first write, or the read failed - and the final write is made.
   */
  lemma TerminationLostIff(app: Stored, env: Env, timeout: int)
    requires app.operation.Some? && Landed(app, env, timeout)
    ensures var o, s := Open(app, env, timeout), Opened(app, env, timeout);
            PhaseOf(After(app, env, timeout)).Running? <==>
              && !o.Wait? && !o.GiveUp?
              && (WillRetry(s, env) ||
                  (&& StillRuns(s, env) && !NothingToWrite(app, env, timeout)
                   && !(env.readOk && StandsAtRead(app, env, timeout))))
  {
    hide Closed, Midway, Merge;
    ReadAgain(app, env, timeout);
    FinalWrite(app, env, timeout);
  }

  lemma ReadAgain(app: Stored, env: Env, timeout: int)
    requires app.operation.Some?
    ensures var o, m := Open(app, env, timeout), Midway(app, env, timeout);
            && (!o.GiveUp? ==> m.operation == app.operation && m.state.Some?)
            && (o.GiveUp? ==> m.operation.None? && PhaseOf(m).Errored?)
            && (!o.Wait? && !o.GiveUp? ==> (PhaseOf(m).Terminating? <==> StandsAtRead(app, env, timeout)))
            && (o.Resume? && !StandsAtRead(app, env, timeout) ==> m == app)
            && (o.Wait? ==> (PhaseOf(m).Terminating? <==> env.terminatedEarly || env.terminatedLate))
  {
  }

  /** What the final write does to the phase. */
  lemma FinalWrite(app: Stored, env: Env, timeout: int)
    requires app.operation.Some?
    ensures var o, m := Open(app, env, timeout), Midway(app, env, timeout);
            var c := Closed(Opened(app, env, timeout), env, PhaseOf(m));
            !o.Wait? && !o.GiveUp? && c.phase.Running? ==>
              (app.state == Some(c) && env.sameDetails <==> NothingToWrite(app, env, timeout))
  {
  }

  /** Such a run: the attempt fails while the user terminates it, and another is made. */
  lemma TerminationLost() returns (q: Request, es: seq<Step>)
    ensures |es| == 3 && es[1].Pass? && es[1].env.terminatedLate && forall e | e in es :: e.Pass? && e.env.readOk
    ensures Run(Fresh(q), es, 0).attempts == 2
    ensures var s := Run(Fresh(q), es, 0).stored.state; s.Some? && s.value.phase.Running?
  {
    q := Request(1, false, "", [], "");
    var running := Env(0, 0, None, Synced(Running, None), true, false, false, false, true, true);
    var failing := running.(outcome := Synced(Failed, None), terminatedLate := true);
    var retrying := running.(retryAt := Some(0));
    es := [Pass(running), Pass(failing), Pass(retrying)];
    RunThree(Fresh(q), Pass(running), Pass(failing), Pass(retrying), 0);
  }

  /** Without any retry: a request that comes after the re-read is overwritten in the first pass. */
  lemma TerminationOverwritten(q: Request, timeout: int) returns (e: Step)
    ensures e.Pass? && e.env.terminatedLast && e.env.readOk && Landed(Fresh(q).stored, e.env, timeout)
    ensures var w := Apply(Fresh(q), e, timeout); w.attempts == 1 && PhaseOf(w.stored).Running?
  {
    e := Pass(Env(0, 0, None, Synced(Running, None), true, false, false, true, true, false));
  }

  lemma RunThree(w: World, a: Step, b: Step, c: Step, timeout: int)
    ensures Run(w, [a, b, c], timeout) == Apply(Apply(Apply(w, a, timeout), b, timeout), c, timeout)
  {
    hide After, Open, Apply;
    assert [a, b, c][..2] == [a, b] && [a, b][..1] == [a] && [a][..0] == [];
    assert Run(w, [a], timeout) == Apply(w, a, timeout);
    assert Run(w, [a, b], timeout) == Apply(Apply(w, a, timeout), b, timeout);
  }

  //////// What is recorded ////////

  /** The result of an outcome, None when the project was not found. */
  function ResultOf(outcome: Outcome): (r: Option<SyncResult>)
  {
    match outcome
    case NoProject => None
    case Synced(_, result) => result
    case Panicked(result) => result
  }

  function ResultIn(stored: Stored): (r: Option<SyncResult>)
  {
    if stored.state.Some? then stored.state.value.result else None
  }

  /** Another attempt is allowed: not terminating, retries left, and a backoff that parses. */
  predicate MayRetry(s: State, env: Env)
  {
    !s.phase.Terminating? && (s.request.limit < 0 || s.retryCount < s.request.limit) && env.backoffOk
  }

  /** The state t records that the attempt of s failed and is to be made again. */
  ghost predicate Scheduled(s: State, env: Env, t: State)
  {
    t.phase.Running? && t.finishedAt == Some(env.now) && t.retryCount == s.retryCount + 1
  }

  /** The state t records the end of the operation. */
  ghost predicate Ended(env: Env, t: State, phase: Phase)
  {
    t.phase == phase && t.finishedAt == Some(env.now)
  }

  /** The phase in which a pass that worked on s leaves the stored state t, by what it met. */
  ghost predicate Records(s: State, env: Env, t: State)
  {
    match env.outcome
    case Panicked(_) => Ended(env, t, Errored)
    case NoProject => if MayRetry(s, env) then Scheduled(s, env, t) else Ended(env, t, Errored)
    case Synced(phase, _) =>
      match phase
      case Succeeded => Ended(env, t, Succeeded)
      case Errored => if MayRetry(s, env) then Scheduled(s, env, t) else Ended(env, t, Errored)
      case Failed =>
        if MayRetry(s, env) then Scheduled(s, env, t)
        else Ended(env, t, if MayRetry(s, env.(backoffOk := true)) then Errored else Failed)
      case Terminating => t.phase.Terminating?
      case Running => if s.phase.Terminating? then t.phase.Terminating? else t.phase.Running? || t.phase.Terminating?
  }

  /**
   Whatever a pass meets, unless it waits or gives up: the outcome of its attempt is
   recorded as it is, a failure that may be retried excepted; the operation goes exactly
   when that phase is an end; and the result is the one of the outcome, merged into the
   one that was there.
   */
  lemma RecordedOutcome(app: Stored, env: Env, timeout: int)
    requires app.operation.Some?
    requires !Open(app, env, timeout).Wait? && !Open(app, env, timeout).GiveUp?
    requires app.state.Some? ==> app.state.value.retryCount >= 0
    ensures var r, s := After(app, env, timeout), Opened(app, env, timeout);
            && r.state.Some? && Records(s, env, r.state.value)
            && r.operation == (if Completed(r.state.value.phase) then None else app.operation)
            && r.state.value.startedAt == (if InProgress(app) then app.state.value.startedAt else env.began)
            && r.state.value.result == MergeResult(ResultIn(app), ResultOf(env.outcome))
  {
    hide Closed, Midway, Merge, Opened, Open;
    var s, m := Opened(app, env, timeout), Midway(app, env, timeout);
    ReadAgain(app, env, timeout);
    MidwayKeeps(app, env, timeout);
    ClosesWith(s, env, PhaseOf(m));
    var last, t := Disturbed(m, env.terminatedLast), Stamped(Closed(s, env, PhaseOf(m)), env.now);
    if app.state == Some(t) && SameAsRead(app, env) {
      StaysAsRead(s, env, t, last.state.value);
    } else {
      WritesOutcome(s, env, t, last.state, app.state.Some? && app.state.value.finishedAt.Some? && t.finishedAt.None?);
    }
  }

  /** Nothing is left out of the final write but a state of an attempt that goes on. */
  lemma StaysAsRead(s: State, env: Env, t: State, u: State)
    requires Records(s, env, t) && !Completed(t.phase) && t.retryCount == s.retryCount
    requires u.phase.Terminating? || (u.phase == s.phase && (s.phase == t.phase || s.phase.Terminating?))
    ensures Records(s, env, u)
  {
  }

  lemma WritesOutcome(s: State, env: Env, t: State, existing: Option<State>, erase: bool)
    requires Records(s, env, t) && s.retryCount >= 0
    ensures var r := Merge(existing, t, erase);
            && Records(s, env, r)
            && (existing.Some? ==> r.result == MergeResult(existing.value.result, t.result))
  {
  }

  lemma MidwayKeeps(app: Stored, env: Env, timeout: int)
    requires app.operation.Some?
    requires !Open(app, env, timeout).Wait? && !Open(app, env, timeout).GiveUp?
    ensures var s, m := Opened(app, env, timeout), Midway(app, env, timeout);
            && m.state.Some? && m.state.value.result == ResultIn(app) && !Completed(s.phase)
            && (s.result.None? || s.result == ResultIn(app))
            && s.startedAt == (if InProgress(app) then app.state.value.startedAt else env.began)
            && s.retryCount == (if InProgress(app) then app.state.value.retryCount else 0)
            && m.state.value.startedAt == s.startedAt && (PhaseOf(m) == s.phase || PhaseOf(m).Terminating?)
            && (InProgress(app) ==> s.phase == PhaseOf(app) || s.phase.Terminating?)
  {
  }

  lemma ClosesWith(s: State, env: Env, seen: Phase)
    ensures var c := Closed(s, env, seen);
            && c.startedAt == s.startedAt
            && c.result == (if env.outcome.NoProject? then s.result else ResultOf(env.outcome))
            && Records(s, env, Stamped(c, env.now))
  {
  }

  /** A failed attempt is made again by the first pass at or after its time, and by none before. */
  lemma RetriesWhenDue(app: Stored, env: Env, timeout: int)
    requires app.operation.Some? && PhaseOf(app).Running? && app.state.Some? && app.state.value.finishedAt.Some?
    requires timeout == 0 || env.began <= app.state.value.startedAt + timeout
    ensures Attempts(Open(app, env, timeout)) <==> env.retryAt.Some? && env.retryAt.value <= env.began
    ensures env.retryAt.Some? && env.retryAt.value > env.began ==>
              After(app, env, timeout) ==
              Disturbed(app, env.terminatedEarly || env.terminatedLate || env.terminatedLast)
    ensures env.retryAt.None? ==>
              After(app, env, timeout).operation.None? && PhaseOf(After(app, env, timeout)).Errored?
  {
    hide Merge, Closed;
  }

  /** Within the timeout and without a request, no pass sets an operation terminating that its sync has not. */
  lemma NotTerminatedUnasked(app: Stored, env: Env, timeout: int)
    requires app.operation.Some? && !PhaseOf(app).Terminating?
    requires !env.terminatedEarly && !env.terminatedLate && !env.terminatedLast
    requires !(env.outcome.Synced? && env.outcome.phase.Terminating?)
    requires InProgress(app) && timeout != 0 ==> env.began <= app.state.value.startedAt + timeout
    ensures !PhaseOf(After(app, env, timeout)).Terminating?
  {
    hide Merge;
  }

  //////// Timeout ////////

  /** The first pass after the timeout leaves the operation terminating or completed. */
  lemma TimeoutEnforced(app: Stored, env: Env, timeout: int)
    requires app.operation.Some? && InProgress(app)
    requires timeout != 0 && env.began > app.state.value.startedAt + timeout
    ensures !Attempts(Open(app, env, timeout))
    ensures var p := PhaseOf(After(app, env, timeout)); p.Terminating? || Completed(p)
  {
  }

  //////// A previous operation state left in place ////////

  /** An operation requested on top of the completed state of an earlier one. */
  function OnTopOf(q: Request, previous: State): (w: World)
  {
    World(Stored(Some(q), Some(previous)), 0)
  }

  /** The limit of the request is written whole, or nothing is left of the previous one. */
  predicate LimitKept(q: Request, previous: State)
  {
    q.limit != 0 || previous.request.limit == 0 || 0 < previous.request.limit <= previous.retryCount
  }

  /** No more attempts than the limit allows, whichever limit the store now shows. */
  ghost predicate Limited(q: Request, previous: State, w: World)
  {
    && w.attempts <= q.limit + 1
    && (w.stored.operation.Some? ==>
          && w.stored.operation == Some(q) && w.stored.state.Some?
          && var s := w.stored.state.value;
             || s.phase.Terminating?
             || (s == previous && w.attempts == 0)
             || (&& s.phase.Running? && 0 <= s.retryCount && s.request.limit == MergeRequest(previous.request, q).limit
                 && (if s.finishedAt.None?
                     then w.attempts <= s.retryCount + 1 &&
                         (q.limit == 0 ==> s.request.limit == 0 || 0 < s.request.limit <= s.retryCount)
                     else w.attempts <= s.retryCount <= q.limit && 1 <= s.retryCount)))
  }

  lemma ClosedLimited(s: State, env: Env, seen: Phase)
    ensures var c := Closed(s, env, seen);
            && c.request == s.request && c.startedAt == s.startedAt
            && (WillRetry(s, env) ==> c.phase.Running? && c.finishedAt.Some? && c.retryCount == s.retryCount + 1)
            && (!WillRetry(s, env) ==> c.finishedAt == s.finishedAt && c.retryCount == s.retryCount)
  {
  }

  /** The first pass, on top of the earlier state. */
  lemma FirstPassLimited(q: Request, previous: State, env: Env, timeout: int)
    requires q.limit >= 0 && Completed(previous.phase) && previous.retryCount >= 0 && LimitKept(q, previous)
    ensures Limited(q, previous, Apply(OnTopOf(q, previous), Pass(env), timeout))
  {
    hide Closed, Midway;
    var app := OnTopOf(q, previous).stored;
    var s, m := Opened(app, env, timeout), Midway(app, env, timeout);
    FirstMidway(q, previous, env, timeout);
    ClosedLimited(s, env, PhaseOf(m));
  }

  lemma FirstMidway(q: Request, previous: State, env: Env, timeout: int)
    requires Completed(previous.phase)
    ensures var app := OnTopOf(q, previous).stored;
            var m := Midway(app, env, timeout);
            && Open(app, env, timeout).Begin?
            && m.operation == Some(q) && m.state.Some? && m.state.value.request == MergeRequest(previous.request, q)
            && m.state.value.retryCount == previous.retryCount && m.state.value.finishedAt.None?
  {
  }

  /** A later pass, on a state that has been taken over. */
  lemma LaterPassLimited(q: Request, previous: State, w: World, env: Env, timeout: int)
    requires q.limit >= 0 && LimitKept(q, previous)
    requires Limited(q, previous, w) && w.stored.operation.Some? && w.stored.state.value.phase.Running? &&
               w.stored.state.value != previous
    ensures Limited(q, previous, Apply(w, Pass(env), timeout))
  {
    hide Closed, Midway;
    var app := w.stored;
    var s, m, o := Opened(app, env, timeout), Midway(app, env, timeout), Open(app, env, timeout);
    ReadAgain(app, env, timeout);
    if !o.GiveUp? {
      LaterMidway(app, env, timeout);
      ClosedLimited(s, env, PhaseOf(m));
    }
  }

  lemma LaterMidway(app: Stored, env: Env, timeout: int)
    requires app.operation.Some? && app.state.Some? && app.state.value.phase.Running?
    requires !Open(app, env, timeout).GiveUp?
    ensures var s, m := Opened(app, env, timeout), Midway(app, env, timeout);
            && m.operation == app.operation && m.state.Some? &&
                 m.state.value.request.limit == s.request.limit == app.state.value.request.limit
            && m.state.value.retryCount == s.retryCount == app.state.value.retryCount &&
                 m.state.value.finishedAt == s.finishedAt
            && m.state.value.startedAt == s.startedAt
            && (s.phase.Terminating? ==> m.state.value.phase.Terminating?)
            && (m.state.value.phase.Running? || m.state.value.phase.Terminating?)
  {
  }

  lemma PassLimited(q: Request, previous: State, w: World, env: Env, timeout: int)
    requires q.limit >= 0 && Completed(previous.phase) && previous.retryCount >= 0 && LimitKept(q, previous)
    requires Limited(q, previous, w) && w.stored.operation.Some?
    ensures Limited(q, previous, Apply(w, Pass(env), timeout))
  {
    hide Apply;
    if w.stored.state.value.phase.Terminating? {
      PassStops(w, env, timeout);
    } else if w.stored.state.value == previous {
      FirstPassLimited(q, previous, env, timeout);
    } else {
      LaterPassLimited(q, previous, w, env, timeout);
    }
  }

  lemma {:induction false} KeptLimitBounds(q: Request, previous: State, es: seq<Step>, timeout: int)
    requires q.limit >= 0 && Completed(previous.phase) && previous.retryCount >= 0 && LimitKept(q, previous)
    ensures Limited(q, previous, Run(OnTopOf(q, previous), es, timeout))
    decreases |es|
  {
    if es != [] {
      hide After, Open;
      KeptLimitBounds(q, previous, es[..|es| - 1], timeout);
      var w, e := Run(OnTopOf(q, previous), es[..|es| - 1], timeout), es[|es| - 1];
      if w.stored.operation.Some? && e.Pass? { PassLimited(q, previous, w, e.env, timeout); }
    }
  }

  /** Three passes that make a second attempt of an operation that allows one. */
  lemma OneTooMany(q: Request, previous: State, timeout: int) returns (es: seq<Step>)
    requires q.limit == 0 && Completed(previous.phase) && previous.retryCount >= 0 && !LimitKept(q, previous) &&
               timeout >= 0
    ensures Run(OnTopOf(q, previous), es, timeout).attempts == 2
  {
    var t := previous.startedAt + 1;
    var running := Env(t, t, Some(t), Synced(Running, None), true, false, false, false, true, true);
    var failing := running.(outcome := Synced(Failed, None));
    es := [Pass(running), Pass(failing), Pass(running)];
    RunThree(OnTopOf(q, previous), es[0], es[1], es[2], timeout);
    var w1 := Apply(OnTopOf(q, previous), es[0], timeout);
    assert w1.attempts == 1 && w1.stored.operation == Some(q);
    assert w1.stored.state.value.finishedAt.None? && w1.stored.state.value.phase.Running? &&
        w1.stored.state.value.startedAt == t;
    assert RetriesLeft(w1.stored.state.value);
    var w2 := Apply(w1, es[1], timeout);
    assert w2.attempts == 1 && w2.stored.operation == Some(q);
    assert w2.stored.state.value.finishedAt == Some(t) && w2.stored.state.value.phase.Running?;
  }

  /**
   On top of an earlier state, Limit + 1 bounds the attempts of every run exactly when the
   request's limit survives the merge: it is not zero, or the earlier limit is zero or used up.
   */
  lemma BoundedIffLimitKept(q: Request, previous: State, timeout: int)
    requires q.limit >= 0 && Completed(previous.phase) && previous.retryCount >= 0 && timeout >= 0
    ensures (forall es :: Run(OnTopOf(q, previous), es, timeout).attempts <= q.limit + 1)
              <==> LimitKept(q, previous)
  {
    hide Run;
    if LimitKept(q, previous) {
      forall es
        ensures Run(OnTopOf(q, previous), es, timeout).attempts <= q.limit + 1
      {
        KeptLimitBounds(q, previous, es, timeout);
      }
    } else {
      var es := OneTooMany(q, previous, timeout);
    }
  }
}
