/**
 The deletion protocol of an application: five finalizers, removed in order as pre-delete
 hooks, the cascade, post-delete hooks and the two clean-ups are done.
 */
module Finalizers {
  import opened Options
  import Cascade
  import Hooks

  datatype Finalizer = PreDelete | Cascaded | PostDelete | PreCleanup | PostCleanup

  //////// What a pass meets ////////

  /** The hooks wanted, what is live, and how the server answers each creation. */
  datatype HookView = HookView(targets: map<string, Hooks.Object>, live: Hooks.Live,
      replies: map<string, Hooks.CreateReply>)

  /** What is live, the deletions refused, and what is live when read again. */
  datatype CascadeView = CascadeView(live: Cascade.Live, approved: bool, refused: set<string>,
      after: Option<Cascade.Live>)

  datatype CleanView = CleanView(live: Hooks.Live, refused: set<string>)

  /**
   All that a pass may meet: None for a phase whose objects cannot be read, and the
   finalizers whose removal is written.
   */
  datatype View = View(
    ready: bool,
    destination: bool,
    preHooks: Option<HookView>,
    cascade: Option<CascadeView>,
    postHooks: Option<HookView>,
    preClean: Option<CleanView>,
    postClean: Option<CleanView>,
    writes: set<Finalizer>,
    abandonWritten: bool)

  function HooksOf(view: View, kind: Hooks.HookType): (r: Option<HookView>)
  {
    if kind.PreDelete? then view.preHooks else view.postHooks
  }

  function CleanOf(view: View, kind: Hooks.HookType): (r: Option<CleanView>)
  {
    if kind.PreDelete? then view.preClean else view.postClean
  }

  //////// When a phase is done, and when it fails ////////

  ghost predicate HooksDone(kind: Hooks.HookType, met: HookView)
  {
    Hooks.Executed(kind, met.targets, met.live, met.replies)
  }

  ghost predicate HooksFail(kind: Hooks.HookType, met: HookView)
  {
    || Hooks.CreateFails(kind, met.targets, met.live, met.replies)
    || (!Hooks.Creates(kind, met.targets, met.live, met.replies) &&
        exists k :: Hooks.IsRunning(kind, met.live, k) &&
                    (met.live[k].checkFails || met.live[k].health == Some(Hooks.Degraded)))
  }

  /** Nothing was in the way, nothing was refused, and the re-read shows nothing that is to be deleted. */
  ghost predicate CascadeDone(met: CascadeView)
  {
    && !Cascade.Blocked(met.live, met.approved) && met.refused !! Cascade.Top(met.live)
    && met.after.Some? && forall k | k in met.after.value :: !met.after.value[k].deletable
  }

  ghost predicate CascadeFails(met: CascadeView)
  {
    !Cascade.Blocked(met.live, met.approved) && (!(met.refused !! Cascade.Top(met.live)) || met.after.None?)
  }

  /** Every hook of the kind can be checked, and for none has an outcome that it names come about. */
  ghost predicate CleanDone(kind: Hooks.HookType, met: CleanView)
  {
    forall k | Hooks.IsRunning(kind, met.live, k) ::
      !met.live[k].checkFails && !Hooks.NamedOutcomeOccurred(kind, met.live, met.live[k])
  }

  ghost predicate CleanFails(kind: Hooks.HookType, met: CleanView)
  {
    || (exists k :: Hooks.IsRunning(kind, met.live, k) && met.live[k].checkFails)
    || (exists k :: Hooks.IsRunning(kind, met.live, k) && !met.live[k].terminating && k in met.refused &&
                    Hooks.NamedOutcomeOccurred(kind, met.live, met.live[k]))
  }

  datatype Report = PhaseDone | Waiting | Error | NothingLeft | GaveUp

  /** What the phase of f reports: done, and its finalizer gone, waiting, or an error. */
  ghost function ReportOf(view: View, f: Finalizer): (r: Report)
  {
    var (read, fails, done) :=
      match f
      case PreDelete => HookState(Hooks.PreDelete, view.preHooks)
      case Cascaded =>
        (match view.cascade
         case None => (false, false, false)
         case Some(met) => (true, CascadeFails(met), CascadeDone(met)))
      case PostDelete => HookState(Hooks.PostDelete, view.postHooks)
      case PreCleanup => CleanState(Hooks.PreDelete, view.preClean)
      case PostCleanup => CleanState(Hooks.PostDelete, view.postClean);
    if !read || fails then Error else if !done then Waiting else if f in view.writes then PhaseDone else Error
  }

  ghost function HookState(kind: Hooks.HookType, met: Option<HookView>): (r: (bool, bool, bool))
  {
    if met.None? then (false, false, false) else (true, HooksFail(kind, met.value), HooksDone(kind, met.value))
  }

  ghost function CleanState(kind: Hooks.HookType, met: Option<CleanView>): (r: (bool, bool, bool))
  {
    if met.None? then (false, false, false) else (true, CleanFails(kind, met.value), CleanDone(kind, met.value))
  }

  //////// Traces ////////

  /** What a pass did, what it met there, and the finalizers on the server when it did it. */
  datatype Effect =
    | RanHooks(kind: Hooks.HookType, hooks: HookView, done: bool, present: set<Finalizer>)
    | DeletedObjects(objects: CascadeView, issued: set<string>, done: bool, present: set<Finalizer>)
    | CleanedHooks(kind: Hooks.HookType, left: CleanView, done: bool, present: set<Finalizer>)
    | Removed(finalizer: Finalizer, present: set<Finalizer>)
    | Abandoned(present: set<Finalizer>)

  /** The effect is of a pass that met view. */
  ghost predicate Shows(view: View, e: Effect)
  {
    match e
    case RanHooks(kind, met, _, _) => HooksOf(view, kind) == Some(met)
    case DeletedObjects(met, _, _, _) => view.cascade == Some(met)
    case CleanedHooks(kind, met, _, _) => CleanOf(view, kind) == Some(met)
    case Removed(f, _) => f in view.writes
    case Abandoned(_) => !view.destination && view.abandonWritten
  }

  /** A phase is said to be done exactly when it is, and the cascade deletes only in the greatest wave. */
  ghost predicate TellsTruth(e: Effect)
  {
    match e
    case RanHooks(kind, met, done, _) => done <==> HooksDone(kind, met)
    case DeletedObjects(met, issued, done, _) =>
      && (done <==> CascadeDone(met))
      && issued <= Cascade.Top(met.live)
      && (Cascade.Blocked(met.live, met.approved) ==> issued == {})
      && (done ==> issued == Cascade.Top(met.live))
    case CleanedHooks(kind, met, done, _) => done <==> CleanDone(kind, met)
    case _ => true
  }

  /** The finalizers that go before f. */
  function Before(f: Finalizer): (r: set<Finalizer>)
  {
    match f
    case PreDelete => {}
    case Cascaded => {PreDelete}
    case PostDelete => {PreDelete, Cascaded}
    case PreCleanup => {PreDelete, Cascaded, PostDelete}
    case PostCleanup => {PreDelete, Cascaded, PostDelete, PreCleanup}
  }

  /** The phase an effect belongs to. */
  function PhaseOf(e: Effect): (f: Finalizer)
    requires !e.Abandoned?
  {
    match e
    case RanHooks(kind, _, _, _) => HookPhaseOf(kind)
    case DeletedObjects(_, _, _, _) => Cascaded
    case CleanedHooks(kind, _, _, _) => CleanPhaseOf(kind)
    case Removed(f, _) => f
  }

  function HookPhaseOf(kind: Hooks.HookType): (f: Finalizer)
  {
    if kind.PreDelete? then PreDelete else PostDelete
  }

  function CleanPhaseOf(kind: Hooks.HookType): (f: Finalizer)
  {
    if kind.PreDelete? then PreCleanup else PostCleanup
  }

  /** The finalizer of the phase is there and those before it are gone. */
  ghost predicate InPhase(e: Effect)
  {
    e.Abandoned? || (PhaseOf(e) in e.present && Before(PhaseOf(e)) !! e.present)
  }

  predicate SaysDone(e: Effect)
  {
    match e
    case RanHooks(_, _, done, _) => done
    case DeletedObjects(_, _, done, _) => done
    case CleanedHooks(_, _, done, _) => done
    case Removed(_, _) => false
    case Abandoned(_) => false
  }

  /** The finalizers an effect leaves. */
  function Leaves(e: Effect): (r: set<Finalizer>)
  {
    match e
    case Removed(f, present) => present - {f}
    case Abandoned(_) => {}
    case _ => e.present
  }

  /** The step from a to b: finalizers go only by removal, and a removal right after its phase was done. */
  ghost predicate Continues(a: Effect, b: Effect)
  {
    && b.present == Leaves(a)
    && (b.Removed? ==> SaysDone(a) && PhaseOf(a) == b.finalizer)
  }

  ghost predicate Orderly(trace: seq<Effect>, finalizers: set<Finalizer>)
  {
    && (forall i :: 0 <= i < |trace| ==> InPhase(trace[i]) && TellsTruth(trace[i]))
    && (forall i :: 0 < i < |trace| ==> Continues(trace[i - 1], trace[i]))
    && (trace != [] ==> !trace[0].Removed? && finalizers == Leaves(trace[|trace| - 1]))
  }

  /** Adding an effect of a phase. */
  lemma Extends(trace: seq<Effect>, finalizers: set<Finalizer>, e: Effect)
    requires Orderly(trace, finalizers) && InPhase(e) && TellsTruth(e) && e.present == finalizers
    requires e.Removed? ==> trace != [] && SaysDone(trace[|trace| - 1]) && PhaseOf(trace[|trace| - 1]) == e.finalizer
    ensures Orderly(trace + [e], Leaves(e))
  {
    hide TellsTruth;
    var t := trace + [e];
    forall i | 0 < i < |t| ensures Continues(t[i - 1], t[i]) {
      if i < |trace| { assert t[i - 1] == trace[i - 1] && t[i] == trace[i]; }
    }
  }

  /** fs with the given hook finalizers all present or all absent, and no other change. */
  function Matching(fs: set<Finalizer>, hook: set<Finalizer>, wanted: bool): (r: set<Finalizer>)
    ensures r - hook == fs - hook
    ensures if wanted then hook <= r else hook !! r
  {
    if wanted then fs + hook else fs - hook
  }

  /** Whatever was added to the trace shows what the pass met. */
  ghost predicate Adds(view: View, trace: seq<Effect>, trace': seq<Effect>)
  {
    trace <= trace' && forall i :: |trace| <= i < |trace'| ==> Shows(view, trace'[i])
  }

  /** The phase of f reports as it must; its finalizer goes exactly when it is done. */
  ghost predicate Reported(report: Report, view: View, f: Finalizer, fs: set<Finalizer>, fs': set<Finalizer>,
                           trace: seq<Effect>, trace': seq<Effect>)
  {
    && report == ReportOf(view, f) && Adds(view, trace, trace')
    && fs' == (if report.PhaseDone? then fs - {f} else fs)
    && (report.PhaseDone? ==> |trace'| == |trace| + 2 && trace'[|trace| + 1] == Removed(f, fs))
    && (report.Waiting? ==> |trace'| == |trace| + 1 && !trace'[|trace|].Removed? && !SaysDone(trace'[|trace|]))
  }

  class Deletion {
    var finalizers: set<Finalizer>
    ghost var trace: seq<Effect>

    ghost predicate Valid()
      reads this
    {
      Orderly(trace, finalizers)
    }

    /** Removes f, the phase of which was just done; the write may fail. */
    method Remove(f: Finalizer, written: bool)
      requires Valid() && f in finalizers && Before(f) !! finalizers
      requires trace != [] && SaysDone(trace[|trace| - 1]) && PhaseOf(trace[|trace| - 1]) == f
      modifies this
      ensures Valid()
      ensures finalizers == if written then old(finalizers) - {f} else old(finalizers)
      ensures trace == old(trace) + (if written then [Removed(f, old(finalizers))] else [])
    {
      if written {
        Extends(trace, finalizers, Removed(f, finalizers));
        trace := trace + [Removed(f, finalizers)];
        finalizers := finalizers - {f};
      }
    }

    /** Removes all finalizers when the destination is unknown. */
    method Abandon(written: bool)
      requires Valid()
      modifies this
      ensures Valid()
      ensures finalizers == if written then {} else old(finalizers)
      ensures trace == old(trace) + (if written then [Abandoned(old(finalizers))] else [])
    {
      if written {
        Extends(trace, finalizers, Abandoned(finalizers));
        trace := trace + [Abandoned(finalizers)];
        finalizers := {};
      }
    }

    /** Runs the hooks of a kind. */
    method RunHooks(kind: Hooks.HookType, met: HookView) returns (outcome: Hooks.Outcome)
      requires Valid()
      requires HookPhaseOf(kind) in finalizers && Before(HookPhaseOf(kind)) !! finalizers
      modifies this`trace
      ensures Valid()
      ensures outcome.Done? <==> HooksDone(kind, met)
      ensures outcome.Failed? <==> HooksFail(kind, met)
      ensures trace == old(trace) + [RanHooks(kind, met, outcome.Done?, finalizers)]
    {
      var created, deleted;
      outcome, created, deleted := Hooks.ExecuteHooks(kind, met.targets, met.live, met.replies);
      Extends(trace, finalizers, RanHooks(kind, met, outcome.Done?, finalizers));
      trace := trace + [RanHooks(kind, met, outcome.Done?, finalizers)];
    }

    method CleanHooks(kind: Hooks.HookType, met: CleanView) returns (outcome: Hooks.Outcome)
      requires Valid()
      requires CleanPhaseOf(kind) in finalizers && Before(CleanPhaseOf(kind)) !! finalizers
      modifies this`trace
      ensures Valid()
      ensures outcome.Done? <==> CleanDone(kind, met)
      ensures outcome.Failed? <==> CleanFails(kind, met)
      ensures trace == old(trace) + [CleanedHooks(kind, met, outcome.Done?, finalizers)]
    {
      hide Hooks.NamedOutcomeOccurred, Hooks.IsWorst, Hooks.ToDelete, Hooks.IsRunning;
      var deleted, worst;
      outcome, deleted, worst := Hooks.CleanupHooks(kind, met.live, met.refused);
      CleanedFor(kind, met, worst);
      Extends(trace, finalizers, CleanedHooks(kind, met, outcome.Done?, finalizers));
      trace := trace + [CleanedHooks(kind, met, outcome.Done?, finalizers)];
    }

    method DeleteResources(met: CascadeView) returns (outcome: Cascade.Outcome)
      requires Valid() && Cascaded in finalizers && PreDelete !in finalizers
      modifies this`trace
      ensures Valid()
      ensures outcome.Finished? <==> CascadeDone(met)
      ensures outcome.Failed? <==> CascadeFails(met)
      ensures |trace| == |old(trace)| + 1 && trace[..|old(trace)|] == old(trace)
      ensures trace[|old(trace)|] == DeletedObjects(met, trace[|old(trace)|].issued, outcome.Finished?, finalizers)
    {
      hide Cascade.Top, Cascade.Blocked;
      var issued;
      issued, outcome := Cascade.DeleteResources(met.live, met.approved, met.refused, met.after);
      Extends(trace, finalizers, DeletedObjects(met, issued, outcome.Finished?, finalizers));
      trace := trace + [DeletedObjects(met, issued, outcome.Finished?, finalizers)];
    }

    /** A phase that runs hooks, and the removal of its finalizer once they are done. */
    method HookPhase(kind: Hooks.HookType, view: View) returns (report: Report)
      requires Valid()
      requires HookPhaseOf(kind) in finalizers && Before(HookPhaseOf(kind)) !! finalizers
      modifies this
      ensures Valid()
      ensures Reported(report, view, HookPhaseOf(kind), old(finalizers), finalizers, old(trace), trace)
    {
      hide Orderly, HooksDone, HooksFail;
      var met := HooksOf(view, kind);
      if met.None? { return Error; }
      var outcome := RunHooks(kind, met.value);
      if outcome.Failed? { return Error; }
      if !outcome.Done? { return Waiting; }
      var f := HookPhaseOf(kind);
      Remove(f, f in view.writes);
      return if f in view.writes then PhaseDone else Error;
    }

    method CleanupPhase(kind: Hooks.HookType, view: View) returns (report: Report)
      requires Valid()
      requires CleanPhaseOf(kind) in finalizers && Before(CleanPhaseOf(kind)) !! finalizers
      modifies this
      ensures Valid()
      ensures Reported(report, view, CleanPhaseOf(kind), old(finalizers), finalizers, old(trace), trace)
    {
      hide Orderly, CleanDone, CleanFails;
      var met := CleanOf(view, kind);
      if met.None? { return Error; }
      var outcome := CleanHooks(kind, met.value);
      if outcome.Failed? { return Error; }
      if !outcome.Done? { return Waiting; }
      var f := CleanPhaseOf(kind);
      Remove(f, f in view.writes);
      return if f in view.writes then PhaseDone else Error;
    }

    method CascadePhase(view: View) returns (report: Report)
      requires Valid() && Cascaded in finalizers && PreDelete !in finalizers
      modifies this
      ensures Valid()
      ensures Reported(report, view, Cascaded, old(finalizers), finalizers, old(trace), trace)
    {
      hide Orderly, CascadeDone, CascadeFails;
      if view.cascade.None? { return Error; }
      var outcome := DeleteResources(view.cascade.value);
      if outcome.Failed? { return Error; }
      if !outcome.Finished? { return Waiting; }
      Remove(Cascaded, Cascaded in view.writes);
      return if Cascaded in view.writes then PhaseDone else Error;
    }

    /**
     A pass: pre-delete hooks and, once those are done, the first other phase whose finalizer
     is there.  That phase reports as its objects say, and its finalizer goes exactly when it
     is done and the removal is written.
     */
    method FinalizeApplicationDeletion(view: View) returns (report: Report)
      requires Valid()
      modifies this
      ensures Valid() && finalizers <= old(finalizers) && Adds(view, old(trace), trace)
      ensures !view.ready ==> report.Error? && finalizers == old(finalizers)
      ensures view.ready && !view.destination ==>
                && report == (if view.abandonWritten then GaveUp else Error)
                && finalizers == (if view.abandonWritten then {} else old(finalizers))
      ensures && view.ready && view.destination && PreDelete in old(finalizers)
              && !ReportOf(view, PreDelete).PhaseDone? ==>
                report == ReportOf(view, PreDelete) && finalizers == old(finalizers)
      ensures view.ready && view.destination && (PreDelete in old(finalizers) ==> ReportOf(view, PreDelete).PhaseDone?)
                ==>
                var rest := old(finalizers) - {PreDelete};
                && (rest == {} ==> report.NothingLeft? && finalizers == {})
                && forall f | f in rest && Before(f) !! rest ::
                     report == ReportOf(view, f) && finalizers == if report.PhaseDone? then rest - {f} else rest
      ensures report.PhaseDone? ==>
                finalizers < old(finalizers) && |trace| > |old(trace)| && trace[|trace| - 1].Removed?
      ensures report.Waiting? ==>
                |trace| > |old(trace)| && !trace[|trace| - 1].Removed? && !SaysDone(trace[|trace| - 1])
    {
      hide Orderly, ReportOf, Shows;
      if !view.ready { return Error; }
      if !view.destination {
        Abandon(view.abandonWritten);
        ShowsAbandoned(view);
        return if view.abandonWritten then GaveUp else Error;
      }
      if PreDelete in finalizers {
        report := HookPhase(Hooks.PreDelete, view);
        if !report.PhaseDone? { return; }
      }
      assert finalizers == old(finalizers) - {PreDelete};
      if Cascaded in finalizers {
        report := CascadePhase(view);
      } else if PostDelete in finalizers {
        report := HookPhase(Hooks.PostDelete, view);
      } else if PreCleanup in finalizers {
        report := CleanupPhase(Hooks.PreDelete, view);
      } else if PostCleanup in finalizers {
        report := CleanupPhase(Hooks.PostDelete, view);
      } else {
        NoneLeft(finalizers);
        report := NothingLeft;
      }
    }

    /**
     A refresh outside deletion makes the hook finalizers match the hooks that exist; one
     that sees the deletion changes nothing.  The second write carries the first change too.
     */
    method RefreshFinalizers(deleting: bool, hasPreDelete: bool, hasPostDelete: bool, preWritten: bool,
                             postWritten: bool)
      modifies this`finalizers
      ensures deleting ==> finalizers == old(finalizers)
      ensures !deleting ==>
                var pre := Matching(old(finalizers), {PreDelete, PreCleanup}, hasPreDelete);
                var both := Matching(pre, {PostDelete, PostCleanup}, hasPostDelete);
                finalizers == if postWritten && both != pre then both else if preWritten then pre else old(finalizers)
    {
      var app := finalizers;
      if (hasPreDelete != (PreDelete in app) || hasPreDelete != (PreCleanup in app)) && !deleting {
        app := if hasPreDelete then app + {PreDelete, PreCleanup} else app - {PreDelete, PreCleanup};
        if preWritten { finalizers := app; }
      }
      if (hasPostDelete != (PostDelete in app) || hasPostDelete != (PostCleanup in app)) && !deleting {
        app := if hasPostDelete then app + {PostDelete, PostCleanup} else app - {PostDelete, PostCleanup};
        if postWritten { finalizers := app; }
      }
    }

    /** Any number of passes and of refreshes that see the deletion: at most five report a phase done. */
    method DeletionRun(events: seq<Event>) returns (done: nat)
      requires trace == []
      modifies this
      ensures Valid() && finalizers <= old(finalizers)
      ensures done <= 5
      ensures forall e | e in trace :: Witnessed(events, |events|, e)
    {
      hide Orderly;
      done := 0;
      NothingYet(finalizers);
      AtMostFive(finalizers);
      ghost var all := |finalizers|;
      for i := 0 to |events|
        invariant Valid() && finalizers <= old(finalizers)
        invariant done + |finalizers| <= all
        invariant forall e | e in trace :: Witnessed(events, i, e)
      {
        ghost var before, trace0 := finalizers, trace;
        match events[i] {
          case Refreshed(pre, post, preWritten, postWritten) =>
            RefreshFinalizers(true, pre, post, preWritten, postWritten);
          case Passed(view) =>
            var report := FinalizeApplicationDeletion(view);
            Smaller(finalizers, before);
            if report.PhaseDone? { done := done + 1; }
        }
        WitnessedNext(events, i, trace0, trace);
      }
    }
  }

  datatype Event = Refreshed(pre: bool, post: bool, preWritten: bool, postWritten: bool) | Passed(view: View)

  /** One of the first n passes met what the effect shows. */
  ghost predicate Witnessed(events: seq<Event>, n: nat, e: Effect)
    requires n <= |events|
  {
    exists i :: 0 <= i < n && events[i].Passed? && Shows(events[i].view, e)
  }

  lemma WitnessedNext(events: seq<Event>, i: nat, before: seq<Effect>, after: seq<Effect>)
    requires i < |events| && forall e | e in before :: Witnessed(events, i, e)
    requires if events[i].Passed? then Adds(events[i].view, before, after) else after == before
    ensures forall e | e in after :: Witnessed(events, i + 1, e)
  {
    hide Shows;
    forall k | 0 <= k < |after| ensures Witnessed(events, i + 1, after[k]) {
      if k < |before| {
        assert after[k] == before[k] && before[k] in before;
        var j :| 0 <= j < i && events[j].Passed? && Shows(events[j].view, before[k]);
        assert j < i + 1;
      } else {
        assert Shows(events[i].view, after[k]);
      }
    }
  }

  lemma NothingYet(fs: set<Finalizer>)
    ensures Orderly([], fs)
  {
  }

  lemma ShowsAbandoned(view: View)
    ensures !view.destination && view.abandonWritten ==> forall present :: Shows(view, Abandoned(present))
  {
  }

  /** Clean-up in terms of the outcomes that hooks name. */
  lemma CleanedFor(kind: Hooks.HookType, met: CleanView, worst: Hooks.Health)
    ensures Hooks.IsWorst(kind, met.live, worst) ==>
              forall k | Hooks.IsRunning(kind, met.live, k) ::
                Hooks.ToDelete(met.live[k], worst) <==> Hooks.NamedOutcomeOccurred(kind, met.live, met.live[k])
  {
    if Hooks.IsWorst(kind, met.live, worst) {
      forall k | Hooks.IsRunning(kind, met.live, k)
        ensures Hooks.ToDelete(met.live[k], worst) <==> Hooks.NamedOutcomeOccurred(kind, met.live, met.live[k])
      {
        Hooks.DeletedForNamedOutcome(kind, met.live, worst, k);
      }
    }
  }

  lemma NoneLeft(fs: set<Finalizer>)
    requires fs !! {PreDelete, Cascaded, PostDelete, PreCleanup, PostCleanup}
    ensures fs == {}
  {
    forall f ensures f !in fs {
      match f { case PreDelete => case Cascaded => case PostDelete => case PreCleanup => case PostCleanup => }
    }
  }

  lemma Smaller(a: set<Finalizer>, b: set<Finalizer>)
    requires a <= b
    ensures |a| <= |b| && (a < b ==> |a| < |b|)
  {
    assert |b| == |a| + |b - a|;
  }

  lemma AtMostFive(fs: set<Finalizer>)
    ensures |fs| <= 5
  {
    var all := {PreDelete, Cascaded, PostDelete, PreCleanup, PostCleanup};
    assert fs <= all by {
      forall f: Finalizer ensures f in all {
        match f { case PreDelete => case Cascaded => case PostDelete => case PreCleanup => case PostCleanup => }
      }
    }
    Smaller(fs, all);
  }

  //////// What the order of a trace means ////////

  lemma {:induction false} PresentShrinks(trace: seq<Effect>, fs: set<Finalizer>, i: nat, j: nat)
    requires Orderly(trace, fs) && i <= j < |trace|
    ensures trace[j].present <= trace[i].present
    decreases j
  {
    if i < j {
      PresentShrinks(trace, fs, i, j - 1);
      assert Continues(trace[j - 1], trace[j]);
    }
  }

  /**
   In every run with a resolvable destination: an effect of a phase comes only after the
   removal of each earlier finalizer that was there at the start.
   */
  lemma EarlierRemovedFirst(trace: seq<Effect>, fs: set<Finalizer>, j: nat, f: Finalizer)
    requires Orderly(trace, fs) && j < |trace|
    requires forall i :: 0 <= i < |trace| ==> !trace[i].Abandoned?
    requires f in trace[0].present && f in Before(PhaseOf(trace[j]))
    ensures exists i :: 0 <= i < j && RemovedWhenDone(trace, i, f)
  {
    assert f !in trace[j].present;
    LeavesOnlyByRemoval(trace, fs, j, f);
  }

  /** Effect i is the removal of f, and the effect before it said that the phase of f is done. */
  ghost predicate RemovedWhenDone(trace: seq<Effect>, i: int, f: Finalizer)
  {
    && 0 < i < |trace| && trace[i] == Removed(f, trace[i].present)
    && SaysDone(trace[i - 1]) && PhaseOf(trace[i - 1]) == f
  }

  lemma {:induction false} LeavesOnlyByRemoval(trace: seq<Effect>, fs: set<Finalizer>, j: nat, f: Finalizer)
    requires Orderly(trace, fs) && j < |trace|
    requires f in trace[0].present && f !in trace[j].present
    ensures exists i :: 0 <= i < j && (trace[i].Abandoned? || RemovedWhenDone(trace, i, f))
    decreases j
  {
    assert Continues(trace[j - 1], trace[j]);
    if f !in trace[j - 1].present {
      LeavesOnlyByRemoval(trace, fs, j - 1, f);
    } else if !trace[j - 1].Abandoned? {
      assert trace[j - 1].Removed?;
      assert Continues(trace[j - 2], trace[j - 1]);
      assert RemovedWhenDone(trace, j - 1, f);
    }
  }

  /**
   In every trace a finalizer is removed only right after what it stands for: all hooks of
   its kind run, or cleaned up as far as they name an outcome, and for the cascade nothing
   in the way, the whole greatest wave deleted, and a re-read that shows no object left to
   delete.
   */
  lemma RemovedForGood(trace: seq<Effect>, fs: set<Finalizer>, i: nat)
    requires Orderly(trace, fs) && i < |trace| && trace[i].Removed?
    ensures i > 0 && trace[i - 1].present == trace[i].present
    ensures var e := trace[i - 1];
            match trace[i].finalizer
            case PreDelete => e.RanHooks? && e.kind.PreDelete? && HooksDone(e.kind, e.hooks)
            case PostDelete => e.RanHooks? && e.kind.PostDelete? && HooksDone(e.kind, e.hooks)
            case Cascaded =>
              && e.DeletedObjects? && CascadeDone(e.objects) && e.issued == Cascade.Top(e.objects.live)
              && e.objects.after.Some? && forall k | k in e.objects.after.value :: !e.objects.after.value[k].deletable
            case PreCleanup => e.CleanedHooks? && e.kind.PreDelete? && CleanDone(e.kind, e.left)
            case PostCleanup => e.CleanedHooks? && e.kind.PostDelete? && CleanDone(e.kind, e.left)
  {
    hide HooksDone, CleanDone;
    assert i > 0;
    assert Continues(trace[i - 1], trace[i]) && TellsTruth(trace[i - 1]);
  }
}
