/**
 The life of one sync operation: attempts, retries, timeout and termination.  Status
 writes are merge patches that leave out zero values; termination requests by users may
 land between passes and, within a pass, before its first write, before its re-read of the
 operation and before its final write.
 */
module Operation {
  import opened Options
  import opened Appset

  /** The parts of a requested operation that the controller acts on. */
  datatype Request = Request(limit: int, refresh: bool, revision: string, revisions: seq<string>, source: string)

  datatype SyncResult = SyncResult(revision: string, revisions: seq<string>, source: string)

  datatype State = State(
    request: Request,
    phase: Phase,
    result: Option<SyncResult>,
    startedAt: int,
    finishedAt: Option<int>,
    retryCount: int)

  /** The operation and operation state of an application as stored. */
  datatype Stored = Stored(operation: Option<Request>, state: Option<State>)

  predicate Completed(p: Phase)
  {
    p.Failed? || p.Errored? || p.Succeeded?
  }

  predicate InProgress(app: Stored)
  {
    app.state.Some? && !Completed(app.state.value.phase)
  }

  /** What became of a sync: how SyncAppState left the state, or why it was not reached. */
  datatype Outcome = Synced(phase: Phase, result: Option<SyncResult>) | NoProject | Panicked(result: Option<SyncResult>)

  /**
   What a pass meets.  retryAt is None when the backoff does not parse.  sameDetails says
   that the parts of the state left out of State, the message and the resources synced, end
   as the pass read them.  The three flags are termination requests: before the first
   write, between it and the re-read, and between the re-read and the final write.
   */
  datatype Env = Env(
    began: int,
    now: int,
    retryAt: Option<int>,
    outcome: Outcome,
    backoffOk: bool,
    terminatedEarly: bool,
    terminatedLate: bool,
    terminatedLast: bool,
    readOk: bool,
    sameDetails: bool)

  const MAX_REQUEUE := 30

  //////// Writing the state ////////

  function MergeRequest(existing: Request, incoming: Request): (r: Request)
  {
    Request(
      if incoming.limit != 0 then incoming.limit else existing.limit,
      incoming.refresh || existing.refresh,
      if incoming.revision != "" then incoming.revision else existing.revision,
      if incoming.revisions != [] then incoming.revisions else existing.revisions,
      if incoming.source != "" then incoming.source else existing.source)
  }

  function MergeResult(existing: Option<SyncResult>, incoming: Option<SyncResult>): (r: Option<SyncResult>)
  {
    if incoming.None? then existing
    else if existing.Some? && incoming.value.revisions == []
        then Some(incoming.value.(revisions := existing.value.revisions))
    else incoming
  }

  /** A merge patch: zero values are not part of it; finishedAt is erased only on request. */
  function Merge(existing: Option<State>, s: State, eraseFinished: bool): (r: State)
    ensures r.phase == s.phase && r.startedAt == s.startedAt
    ensures existing.None? ==> r == s
    ensures existing.Some? && s.retryCount == 0 ==> r.retryCount == existing.value.retryCount
    ensures s.retryCount != 0 ==> r.retryCount == s.retryCount
    ensures existing.Some? && s.request.limit == 0 ==> r.request.limit == existing.value.request.limit
    ensures s.request.limit != 0 ==> r.request.limit == s.request.limit
    ensures r.request.refresh <==> s.request.refresh || (existing.Some? && existing.value.request.refresh)
    ensures existing.Some? && s.request.revision == "" ==> r.request.revision == existing.value.request.revision
    ensures s.request.revision != "" ==> r.request.revision == s.request.revision
    ensures existing.Some? && s.request.revisions == [] ==> r.request.revisions == existing.value.request.revisions
    ensures s.request.revisions != [] ==> r.request.revisions == s.request.revisions
    ensures existing.Some? && s.request.source == "" ==> r.request.source == existing.value.request.source
    ensures s.request.source != "" ==> r.request.source == s.request.source
    ensures existing.Some? && s.result.None? ==> r.result == existing.value.result
    ensures s.result.Some? ==> r.result.Some? && r.result.value.revision == s.result.value.revision &&
                               r.result.value.source == s.result.value.source
    ensures s.result.Some? && s.result.value.revisions == [] && existing.Some? && existing.value.result.Some? ==>
              r.result.value.revisions == existing.value.result.value.revisions
    ensures s.result.Some? && s.result.value.revisions != [] ==> r.result == s.result
    ensures s.finishedAt.Some? ==> r.finishedAt == s.finishedAt
    ensures existing.Some? && s.finishedAt.None? ==>
              r.finishedAt == if eraseFinished then None else existing.value.finishedAt
  {
    match existing
    case None => s
    case Some(o) =>
      State(
        MergeRequest(o.request, s.request),
        s.phase,
        MergeResult(o.result, s.result),
        s.startedAt,
        if s.finishedAt.Some? then s.finishedAt else if eraseFinished then None else o.finishedAt,
        if s.retryCount != 0 then s.retryCount else o.retryCount)
  }

  /** A patch applied again changes nothing more; one with no zero value leaves nothing of the earlier state. */
  lemma MergeAgain(existing: Option<State>, s: State, eraseFinished: bool)
    ensures var r := Merge(existing, s, eraseFinished); Merge(Some(r), s, eraseFinished) == r
    ensures var q := s.request;
            (q.limit != 0 && q.refresh && q.revision != "" && q.revisions != [] && q.source != "" &&
             s.result.Some? && s.result.value.revisions != [] && s.finishedAt.Some? && s.retryCount != 0) ==>
              Merge(existing, s, eraseFinished) == s
  {
  }

  function Stamped(s: State, now: int): (r: State)
  {
    if Completed(s.phase) then s.(finishedAt := Some(now)) else s
  }

  /** The store after the state s is written by a pass that had read app. */
  function Written(stored: Stored, app: Stored, s: State, now: int, sameDetails: bool): (r: Stored)
  {
    var t := Stamped(s, now);
    if app.state == Some(t) && sameDetails then stored
    else
      var erase := app.state.Some? && app.state.value.finishedAt.Some? && t.finishedAt.None?;
      Stored(if Completed(t.phase) then None else stored.operation, Some(Merge(stored.state, t, erase)))
  }

  /** A user's termination request. */
  function Terminated(stored: Stored): (r: Stored)
  {
    if stored.operation.None? || stored.state.None? then stored
    else stored.(state := Some(stored.state.value.(phase := Terminating)))
  }

  //////// One pass ////////

  /** How a pass opens. */
  datatype Opening = Resume | TimeOut | Wait | GiveUp | Retry | Begin

  function Open(app: Stored, env: Env, timeout: int): (o: Opening)
  {
    if !InProgress(app) then Begin
    else
      var s := app.state.value;
      if s.phase.Terminating? then Resume
      else if timeout != 0 && env.began > s.startedAt + timeout then TimeOut
      else if s.finishedAt.None? then Resume
      else if env.retryAt.None? then GiveUp
      else if env.retryAt.value > env.began then Wait
      else Retry
  }

  /** The state a pass works on. */
  function Opened(app: Stored, env: Env, timeout: int): (s: State)
    requires app.operation.Some?
    ensures Open(app, env, timeout).Begin? || s.startedAt == app.state.value.startedAt
  {
    match Open(app, env, timeout)
    case Begin => State(app.operation.value, Running, None, env.began, None, 0)
    case Resume => app.state.value
    case TimeOut => app.state.value.(phase := Terminating)
    case Wait => app.state.value
    case GiveUp => app.state.value.(phase := Errored)
    case Retry =>
      var s := app.state.value;
      s.(finishedAt := None, result := None,
         request := if s.request.refresh then s.request.(revision := "", revisions := []) else s.request)
  }

  predicate RetriesLeft(s: State)
  {
    s.retryCount < s.request.limit || s.request.limit < 0
  }

  /** The failed attempt of s will be followed by another. */
  predicate WillRetry(s: State, env: Env)
  {
    && (env.outcome.NoProject? || (env.outcome.Synced? && (env.outcome.phase.Failed? || env.outcome.phase.Errored?)))
    && !s.phase.Terminating? && RetriesLeft(s) && env.backoffOk
  }

  /** The phase a sync of s leaves: an operation that is terminating is ended or left so, never set running again. */
  function PhaseLeft(s: State, phase: Phase): (r: Phase)
    ensures r.Running? <==> phase.Running? && !s.phase.Terminating?
    ensures !phase.Running? ==> r == phase
  {
    if s.phase.Terminating? && phase.Running? then Terminating else phase
  }

  /** The sync of s was neither ended nor terminated. */
  predicate StillRuns(s: State, env: Env)
  {
    env.outcome.Synced? && PhaseLeft(s, env.outcome.phase).Running?
  }

  /** The state a pass that worked on s ends with; seen is the phase on the server. */
  function Closed(s: State, env: Env, seen: Phase): (r: State)
    ensures r.phase.Running? <==>
              WillRetry(s, env) ||
              (StillRuns(s, env) && !(env.readOk && seen.Terminating?))
    ensures r.retryCount == s.retryCount + (if WillRetry(s, env) then 1 else 0)
  {
    match env.outcome
    case Panicked(result) => s.(phase := Errored, result := result)
    case NoProject =>
      if WillRetry(s, env) then s.(phase := Running, finishedAt := Some(env.now), retryCount := s.retryCount + 1)
      else s.(phase := Errored)
    case Synced(phase, result) =>
      var t := s.(phase := PhaseLeft(s, phase), result := result);
      if t.phase.Running? && env.readOk && seen.Terminating? then t.(phase := Terminating)
      else if WillRetry(s, env) then t.(phase := Running, finishedAt := Some(env.now), retryCount := s.retryCount + 1)
      else if phase.Failed? && !s.phase.Terminating? && RetriesLeft(s) then t.(phase := Errored)
      else t
  }

  function PhaseOf(stored: Stored): (p: Phase)
  {
    if stored.state.Some? then stored.state.value.phase else Running
  }

  function Disturbed(stored: Stored, terminated: bool): (r: Stored)
  {
    if terminated then Terminated(stored) else stored
  }

  /** The store when the sync has been attempted and the operation is read again. */
  function Midway(app: Stored, env: Env, timeout: int): (r: Stored)
    requires app.operation.Some?
  {
    var o, early := Open(app, env, timeout), Disturbed(app, env.terminatedEarly);
    var first := if o.Resume? || o.Wait? then early
        else Written(early, app, Opened(app, env, timeout), env.began, true);
    Disturbed(first, env.terminatedLate)
  }

  /** What State leaves out is as it was read; the start time of a new operation never is. */
  predicate SameAsRead(app: Stored, env: Env)
  {
    env.sameDetails && InProgress(app)
  }

  function After(app: Stored, env: Env, timeout: int): (r: Stored)
    requires app.operation.Some?
  {
    var o, mid := Open(app, env, timeout), Midway(app, env, timeout);
    var last := Disturbed(mid, env.terminatedLast);
    if o.Wait? || o.GiveUp? then last
    else Written(last, app, Closed(Opened(app, env, timeout), env, PhaseOf(mid)), env.now, SameAsRead(app, env))
  }

  predicate Attempts(o: Opening)
  {
    o.Retry? || o.Begin?
  }

  class Application {
    var stored: Stored
    ghost var attempts: nat

    method Disturb(terminated: bool)
      modifies this`stored
      ensures stored == Disturbed(old(stored), terminated)
    {
      if terminated && stored.operation.Some? && stored.state.Some? {
        stored := stored.(state := Some(stored.state.value.(phase := Terminating)));
      }
    }

    method SetOperationState(app: Stored, state: State, now: int, sameDetails: bool) returns (t: State)
      modifies this`stored
      ensures t == Stamped(state, now)
      ensures stored == Written(old(stored), app, state, now, sameDetails)
    {
      t := state;
      if Completed(t.phase) { t := t.(finishedAt := Some(now)); }
      if app.state == Some(t) && sameDetails { return; }
      var erase := false;
      if app.state.Some? && app.state.value.finishedAt.Some? && t.finishedAt.None? { erase := true; }
      stored := stored.(state := Some(Merge(stored.state, t, erase)));
      if Completed(t.phase) { stored := stored.(operation := None); }
    }

    /** What SyncAppState and its surroundings do to the state; true when control is lost to a panic. */
    method Sync(state: State, env: Env) returns (s: State, panicked: bool)
      ensures panicked == env.outcome.Panicked?
      ensures s == match env.outcome
                   case Panicked(result) => state.(phase := Errored, result := result)
                   case NoProject => state.(phase := Errored)
                   case Synced(phase, result) => state.(phase := PhaseLeft(state, phase), result := result)
    {
      match env.outcome {
        case Panicked(result) => return state.(phase := Errored, result := result), true;
        case NoProject => return state.(phase := Errored), false;
        case Synced(phase, result) => return state.(phase := PhaseLeft(state, phase), result := result), false;
      }
    }

    /** Opens a pass; stop says that it ends here. */
    method OpenPass(app: Stored, env: Env, timeout: int) returns (state: State, stop: bool, requeueAfter: int)
      requires app.operation.Some?
      requires stored == Disturbed(app, env.terminatedEarly)
      modifies this
      ensures var o := Open(app, env, timeout);
              && stop == (o.Wait? || o.GiveUp?)
              && attempts == old(attempts) + (if Attempts(o) then 1 else 0)
              && state == Stamped(Opened(app, env, timeout), env.began)
              && stored == (if o.Resume? || o.Wait? then old(stored)
                            else Written(old(stored), app, Opened(app, env, timeout), env.began, true))
              && requeueAfter == (if o.Wait? then env.retryAt.value - env.began else MAX_REQUEUE)
    {
      requeueAfter, stop := MAX_REQUEUE, false;
      if InProgress(app) {
        state := app.state.value;
        if state.phase.Terminating? {
        } else if timeout != 0 && env.began > state.startedAt + timeout {
          state := state.(phase := Terminating);
          state := SetOperationState(app, state, env.began, true);
        } else if state.phase.Running? && state.finishedAt.Some? {
          if env.retryAt.None? {
            state := state.(phase := Errored);
            state := SetOperationState(app, state, env.began, true);
            stop := true;
            return;
          }
          var retryAfter := env.retryAt.value - env.began;
          if retryAfter > 0 {
            requeueAfter, stop := retryAfter, true;
            return;
          }
          if state.request.refresh {
            state := state.(request := state.request.(revision := "", revisions := []));
          }
          state := state.(finishedAt := None, result := None);
          state := SetOperationState(app, state, env.began, true);
          attempts := attempts + 1;
        }
      } else {
        state := State(app.operation.value, Running, None, env.began, None, 0);
        state := SetOperationState(app, state, env.began, true);
        attempts := attempts + 1;
      }
    }

    /** Decides what follows an attempt. */
    method ClosePass(work: State, env: Env) returns (state: State)
      ensures state == Closed(work, env, PhaseOf(stored))
    {
      var terminating := work.phase.Terminating?;
      var panicked;
      state, panicked := Sync(work, env);
      if panicked { return; }
      if state.phase.Running? {
        if env.readOk && stored.state.Some? && stored.state.value.phase.Terminating? {
          state := state.(phase := Terminating);
        }
      } else if state.phase.Failed? || state.phase.Errored? {
        if !terminating && (state.retryCount < state.request.limit || state.request.limit < 0) {
          if !env.backoffOk {
            state := state.(phase := Errored);
          } else {
            state := state.(phase := Running, finishedAt := Some(env.now), retryCount := state.retryCount + 1);
          }
        }
      }
    }

    /** A pass.  The next poll never comes later than the timeout of an operation not yet terminating. */
    method ProcessRequestedAppOperation(env: Env, timeout: int) returns (state: State, pollAt: int)
      requires stored.operation.Some?
      modifies this
      ensures stored == After(old(stored), env, timeout)
      ensures attempts == old(attempts) + (if Attempts(Open(old(stored), env, timeout)) then 1 else 0)
      ensures state.phase == PhaseOf(stored) || old(stored).state == Some(state)
      ensures timeout > 0 && !state.phase.Terminating? ==> pollAt <= state.startedAt + timeout
      ensures var latest := env.now + (if Open(old(stored), env, timeout).Wait? then env.retryAt.value - env.began
                                       else MAX_REQUEUE);
              pollAt <= latest && (pollAt < latest ==> pollAt == state.startedAt + timeout && timeout > 0)
    {
      hide Closed, Opened, Merge;
      var app := stored;
      Disturb(env.terminatedEarly);
      var stop, requeueAfter;
      state, stop, requeueAfter := OpenPass(app, env, timeout);
      Disturb(env.terminatedLate);
      if !stop {
        NotCompleted(app, env, timeout);
        state := ClosePass(state, env);
      }
      Disturb(env.terminatedLast);
      if !stop {
        state := SetOperationState(app, state, env.now, SameAsRead(app, env));
      } else {
        StoppedState(app, env, timeout);
      }
      pollAt := NextPoll(state, env.now, requeueAfter, timeout);
    }
  }

  lemma NotCompleted(app: Stored, env: Env, timeout: int)
    requires app.operation.Some?
    ensures var o := Open(app, env, timeout);
            !o.Wait? && !o.GiveUp? ==> Stamped(Opened(app, env, timeout), env.began) == Opened(app, env, timeout)
  {
  }

  lemma StoppedState(app: Stored, env: Env, timeout: int)
    requires app.operation.Some?
    ensures var o, s := Open(app, env, timeout), Opened(app, env, timeout);
            && (o.Wait? ==> app.state == Some(s) && Stamped(s, env.began) == s)
            && (o.GiveUp? ==> s.phase.Errored? && app.state != Some(Stamped(s, env.began)))
  {
  }

  function NextPoll(state: State, now: int, requeueAfter: int, timeout: int): (at: int)
    ensures at <= now + requeueAfter
    ensures at < now + requeueAfter ==> timeout > 0 && !state.phase.Terminating? && at == state.startedAt + timeout
    ensures timeout > 0 && !state.phase.Terminating? ==> at <= state.startedAt + timeout
  {
    var remaining := state.startedAt + timeout - now;
    now + (if timeout > 0 && !state.phase.Terminating? && remaining < requeueAfter then remaining else requeueAfter)
  }
}
