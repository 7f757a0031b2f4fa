/**
 Bringing forge branches up to GitHub by fast-forward only, while others move the same
 branches forward.  Commits form one immutable graph; a push that is not a fast-forward
 is refused, and a push that fails has changed nothing.
 */
module Mirror {
  import opened Options
  import opened MirrorPlan

  //////// The commit graph ////////

  type Graph = string -> set<string>

  /** A walk from a commit to one of its ancestors, parent by parent. */
  ghost predicate IsWalk(parents: Graph, path: seq<string>)
  {
    path != [] && forall i :: 0 < i < |path| ==> path[i] in parents(path[i - 1])
  }

  /** a is b or one of its ancestors. */
  ghost predicate Ancestor(parents: Graph, a: string, b: string)
  {
    exists path :: IsWalk(parents, path) && path[0] == b && path[|path| - 1] == a
  }

  lemma AncestorOfItself(parents: Graph, a: string)
    ensures Ancestor(parents, a, a)
  {
    assert IsWalk(parents, [a]);
  }

  lemma AncestorTransitive(parents: Graph, a: string, b: string, c: string)
    requires Ancestor(parents, a, b) && Ancestor(parents, b, c)
    ensures Ancestor(parents, a, c)
  {
    var down :| IsWalk(parents, down) && down[0] == b && down[|down| - 1] == a;
    var up :| IsWalk(parents, up) && up[0] == c && up[|up| - 1] == b;
    var path := up + down[1..];
    forall i | 0 < i < |path| ensures path[i] in parents(path[i - 1]) {
      if i >= |up| {
        var j := i - |up| + 1;
        assert path[i] == down[j];
        assert path[i - 1] == down[j - 1];
      }
    }
    assert IsWalk(parents, path);
    assert path[|path| - 1] == a;
  }

  //////// The forge ////////

  datatype Target = Target(org: string, name: string, branch: string)

  /** A push that was accepted, with the tip it replaced. */
  datatype Push = Push(target: Target, replaced: string, to: string)

  datatype TipReply = Tip(commit: string) | NotFound | TipFailed

  /** A question for the tip of a branch, what the branch was then, and the answer. */
  datatype TipRead = TipRead(target: Target, there: Option<string>, reply: TipReply)

  /** The answer may lack the commit, but is otherwise true. */
  ghost predicate AnswersTruly(r: TipRead)
  {
    match r.reply
    case Tip(commit) => r.there.Some? && (commit == "" || r.there == Some(commit))
    case NotFound => r.there.None?
    case TipFailed => true
  }

  /** GitHub's answer for a repository and branch when the n-th result is due. */
  type GitHub = (string, string, nat) -> TipReply

  /** How a command ends: an exit status, or no status at all. */
  datatype Exit = Ok | Status(code: int) | NoStatus

  function ExitCode(e: Exit): (c: int)
    requires !e.Ok?
  {
    if e.Status? then e.code else -1
  }

  type Tips = map<Target, string>

  /** No branch goes away and none moves but forward. */
  ghost predicate Forward(parents: Graph, before: Tips, after: Tips)
  {
    forall t | t in before :: t in after && Ancestor(parents, before[t], after[t])
  }

  lemma ForwardAll(parents: Graph, a: Tips, b: Tips, c: Tips)
    requires Forward(parents, a, b) && Forward(parents, b, c)
    ensures Forward(parents, a, c)
  {
    forall t | t in a ensures t in c && Ancestor(parents, a[t], c[t]) {
      AncestorTransitive(parents, a[t], b[t], c[t]);
    }
  }

  lemma ForwardSame(parents: Graph, a: Tips)
    ensures Forward(parents, a, a)
  {
    forall t | t in a ensures Ancestor(parents, a[t], a[t]) { AncestorOfItself(parents, a[t]); }
  }

  ghost predicate AllFastForward(parents: Graph, pushes: seq<Push>)
  {
    forall p | p in pushes :: Ancestor(parents, p.replaced, p.to)
  }

  class Forge {
    ghost const parents: Graph
    const ancestor: (string, string) -> bool
    var tips: Tips
    ghost var pushes: seq<Push>
    ghost var answers: seq<TipRead>
    ghost var failures: nat

    /** Git knows the graph, every push so far was a fast-forward, and every answer so far was true. */
    ghost predicate Valid()
      reads this
    {
      && (forall a, b :: ancestor(a, b) <==> Ancestor(parents, a, b))
      && AllFastForward(parents, pushes)
      && forall r | r in answers :: AnswersTruly(r)
    }

    /** Others move branches forward, or create some. */
    method Disturb()
      requires Valid()
      modifies this`tips
      ensures Valid() && Forward(parents, old(tips), tips)
    {
      var moved: map<Target, string> := *;
      ghost var before := tips;
      tips := map t | t in tips.Keys + moved.Keys ::
        if t in tips then (if t in moved && ancestor(tips[t], moved[t]) then moved[t] else tips[t]) else moved[t];
      forall t | t in before ensures t in tips && Ancestor(parents, before[t], tips[t]) {
        AncestorOfItself(parents, before[t]);
      }
    }

    method ReadTip(t: Target) returns (r: TipReply)
      requires Valid()
      modifies this`tips, this`answers, this`failures
      ensures Valid() && Forward(parents, old(tips), tips)
      ensures answers == old(answers) + [TipRead(t, if t in tips then Some(tips[t]) else None, r)]
      ensures failures == old(failures) + (if r.TipFailed? then 1 else 0)
    {
      Disturb();
      var fails: bool := *;
      var blank: bool := *;
      if fails {
        failures := failures + 1;
        r := TipFailed;
      } else if t !in tips {
        r := NotFound;
      } else {
        r := Tip(if blank then "" else tips[t]);
      }
      answers := answers + [TipRead(t, if t in tips then Some(tips[t]) else None, r)];
    }

    /** Preparing the store, or fetching a side into it. */
    method Prepare() returns (ok: bool)
      requires Valid()
      modifies this`failures
      ensures Valid()
      ensures failures == old(failures) + (if ok then 0 else 1)
    {
      ok := *;
      if !ok { failures := failures + 1; }
    }

    /** Status 1 is the answer no; any other failure is no answer. */
    method AskAncestor(a: string, b: string) returns (e: Exit)
      requires Valid()
      modifies this`failures
      ensures Valid()
      ensures e.Ok? ==> Ancestor(parents, a, b)
      ensures e == Status(1) ==> !Ancestor(parents, a, b)
      ensures failures == old(failures) + (if e.Ok? || e == Status(1) then 0 else 1)
    {
      var fails: bool := *;
      var code: int := *;
      if fails {
        failures := failures + 1;
        return if code == 1 || code == 0 then NoStatus else Status(code);
      }
      return if ancestor(a, b) then Ok else Status(1);
    }

    method PushTo(t: Target, to: string) returns (ok: bool)
      requires Valid() && t in tips
      modifies this`tips, this`pushes, this`failures
      ensures Valid() && Forward(parents, old(tips), tips)
      ensures !ok ==> pushes == old(pushes)
      ensures failures == old(failures) + (if ok then 0 else 1)
      ensures ok ==> |pushes| == |old(pushes)| + 1 && pushes == old(pushes) + [pushes[|old(pushes)|]] &&
                     pushes[|old(pushes)|].target == t && pushes[|old(pushes)|].to == to && tips[t] == to
    {
      Disturb();
      var fails: bool := *;
      if fails || !ancestor(tips[t], to) {
        failures := failures + 1;
        return false;
      }
      ghost var before := tips;
      pushes := pushes + [Push(t, tips[t], to)];
      tips := tips[t := to];
      forall u | u in before ensures u in tips && Ancestor(parents, before[u], tips[u]) {
        AncestorOfItself(parents, before[u]);
      }
      ForwardAll(parents, old(tips), before, tips);
      return true;
    }
  }

  datatype Outcome = InSync | Moved | Diverged | Skipped | Failed

  datatype Result = Result(entry: Entry, outcome: Outcome, from: string, to: string)

  function CountOf(rs: seq<Result>, o: Outcome): (n: nat)
  {
    if rs == [] then 0 else CountOf(rs[..|rs| - 1], o) + (if rs[|rs| - 1].outcome == o then 1 else 0)
  }

  function BranchOf(p: Planned): (branch: string)
    ensures p.github.defaultBranch != "" ==> branch == p.github.defaultBranch
    ensures p.github.defaultBranch == "" ==> branch == "main"
  {
    if p.github.defaultBranch == "" then "main" else p.github.defaultBranch
  }

  function TargetOf(p: Planned): (t: Target)
    ensures t.org == p.entry.org && t.name == p.entry.name && t.branch == BranchOf(p)
  {
    Target(p.entry.org, p.entry.name, BranchOf(p))
  }

  /** The pushes made since before: one of the given commit to the given target each, in order. */
  ghost predicate PushedTo(before: seq<Push>, after: seq<Push>, moves: seq<(Target, string)>)
  {
    && |after| == |before| + |moves| && before <= after
    && forall i :: 0 <= i < |moves| ==> (after[|before| + i].target, after[|before| + i].to) == moves[i]
  }

  /** The outcome for two tips that are known, unless a step failed: only an ancestor is moved up. */
  ghost predicate Decided(parents: Graph, forgeTip: string, githubTip: string, o: Outcome)
  {
    if forgeTip == githubTip then o.InSync?
    else if forgeTip == "" || githubTip == "" then o.Skipped?
    else o.Failed? || (if Ancestor(parents, forgeTip, githubTip) then o.Moved? else o.Diverged?)
  }

  /** Moves a branch up or refuses: a push is made exactly when the outcome is Moved, and of GitHub's tip. */
  method FastForward(forge: Forge, p: Planned, forgeTip: string, githubTip: string) returns (res: Result)
    requires forge.Valid() && TargetOf(p) in forge.tips
    modifies forge`tips, forge`pushes, forge`failures
    ensures forge.Valid() && Forward(forge.parents, old(forge.tips), forge.tips)
    ensures res.entry == p.entry && res.from == forgeTip && res.to == githubTip
    ensures Decided(forge.parents, forgeTip, githubTip, res.outcome)
    ensures PushedTo(old(forge.pushes), forge.pushes, if res.outcome.Moved? then [(TargetOf(p), githubTip)] else [])
    ensures forge.failures == old(forge.failures) + (if res.outcome.Failed? then 1 else 0)
  {
    hide Forward, Ancestor;
    ForwardSame(forge.parents, forge.tips);
    res := Result(p.entry, Failed, forgeTip, githubTip);
    if forgeTip == githubTip { return res.(outcome := InSync); }
    if forgeTip == "" || githubTip == "" { return res.(outcome := Skipped); }
    var workspace := forge.Prepare();
    if !workspace { return; }
    var fetchForge := forge.Prepare();
    if !fetchForge { return; }
    var fetchGithub := forge.Prepare();
    if !fetchGithub { return; }
    var answer := forge.AskAncestor(forgeTip, githubTip);
    if !answer.Ok? {
      if ExitCode(answer) != 1 { return; }
      return res.(outcome := Diverged);
    }
    var ok := forge.PushTo(TargetOf(p), githubTip);
    if !ok { return; }
    return res.(outcome := Moved);
  }

  function Natives(plan: seq<Planned>): (r: seq<Planned>)
    ensures forall p | p in r :: p in plan && p.entry.direction == "native"
  {
    if plan == [] then []
    else
      var last := plan[|plan| - 1];
      Natives(plan[..|plan| - 1]) + (if last.entry.direction == "native" then [last] else [])
  }

  /** Every native entry is among them, as often as planned, and no other is. */
  lemma {:induction false} AllNatives(plan: seq<Planned>, p: Planned)
    ensures multiset(Natives(plan))[p] == if p.entry.direction == "native" then multiset(plan)[p] else 0
    decreases |plan|
  {
    if plan != [] {
      var front, last := plan[..|plan| - 1], plan[|plan| - 1];
      assert plan == front + [last];
      AllNatives(front, p);
    }
  }

  /** The targets of the results that moved, each with the commit it was moved to. */
  function MovedTargets(ps: seq<Planned>, rs: seq<Result>): (r: seq<(Target, string)>)
    requires |rs| == |ps|
  {
    if rs == [] then []
    else
      MovedTargets(ps[..|ps| - 1], rs[..|rs| - 1]) +
          (if rs[|rs| - 1].outcome.Moved? then [(TargetOf(ps[|ps| - 1]), rs[|rs| - 1].to)] else [])
  }

  /**
   The result for p says what the forge and GitHub answered: from is the forge's tip and to
   GitHub's, and what became of them; without both tips it is skipped, and it has failed
   when the forge's could not be read.
   */
  ghost predicate Explains(parents: Graph, p: Planned, read: TipRead, github: TipReply, r: Result)
  {
    && r.entry == p.entry && read.target == TargetOf(p)
    && (if read.reply.Tip? && github.Tip?
        then r.from == read.reply.commit && r.to == github.commit &&
             Decided(parents, read.reply.commit, github.commit, r.outcome)
        else r.from == "" && r.to == "" && r.outcome == if read.reply.TipFailed? then Failed else Skipped)
  }

  function Asked(github: GitHub, p: Planned, n: nat): (r: TipReply)
  {
    github(p.github.fullName, BranchOf(p), n)
  }

  /** One result for each of ps, in order, explained by what was read for it. */
  ghost predicate AllExplained(parents: Graph, ps: seq<Planned>, before: seq<TipRead>, after: seq<TipRead>,
                               github: GitHub, rs: seq<Result>)
  {
    && |rs| == |ps| && |after| == |before| + |ps| && before <= after
    && forall i :: 0 <= i < |ps| ==> Explains(parents, ps[i], after[|before| + i], Asked(github, ps[i], i), rs[i])
  }

  lemma ExplainedNext(parents: Graph, ps: seq<Planned>, before: seq<TipRead>, after: seq<TipRead>, github: GitHub,
                      rs: seq<Result>, p: Planned, read: TipRead, r: Result)
    requires AllExplained(parents, ps, before, after, github, rs)
    requires Explains(parents, p, read, Asked(github, p, |ps|), r)
    ensures AllExplained(parents, ps + [p], before, after + [read], github, rs + [r])
  {
    hide Explains, Asked;
  }

  /** The step of the loop for one native entry, given GitHub's answer. */
  method ReconcileOne(forge: Forge, p: Planned, github: TipReply) returns (res: Result)
    requires forge.Valid()
    modifies forge
    ensures forge.Valid() && Forward(forge.parents, old(forge.tips), forge.tips)
    ensures |forge.answers| == |old(forge.answers)| + 1
    ensures forge.answers == old(forge.answers) + [forge.answers[|old(forge.answers)|]]
    ensures Explains(forge.parents, p, forge.answers[|old(forge.answers)|], github, res)
    ensures PushedTo(old(forge.pushes), forge.pushes, if res.outcome.Moved? then [(TargetOf(p), res.to)] else [])
    ensures forge.failures == old(forge.failures) + (if res.outcome.Failed? then 1 else 0)
  {
    hide Forward, Ancestor;
    ghost var start := forge.tips;
    var read := forge.ReadTip(TargetOf(p));
    if !read.Tip? {
      return Result(p.entry, if read.NotFound? then Skipped else Failed, "", "");
    }
    if !github.Tip? { return Result(p.entry, Skipped, "", ""); }
    ghost var middle := forge.tips;
    assert TargetOf(p) in middle by { assert AnswersTruly(forge.answers[|forge.answers| - 1]); }
    res := FastForward(forge, p, read.commit, github.commit);
    ForwardAll(forge.parents, start, middle, forge.tips);
  }

  /**
   One result for each native entry, in plan order, that says what was read; pushes go to
   exactly the targets that moved, and a result fails for each step that failed.
   */
  method Reconcile(forge: Forge, plan: seq<Planned>, github: GitHub) returns (out: seq<Result>)
    requires forge.Valid()
    modifies forge
    ensures forge.Valid() && Forward(forge.parents, old(forge.tips), forge.tips)
    ensures AllExplained(forge.parents, Natives(plan), old(forge.answers), forge.answers, github, out)
    ensures |out| == |Natives(plan)|
    ensures PushedTo(old(forge.pushes), forge.pushes, MovedTargets(Natives(plan), out))
    ensures CountOf(out, Failed) == forge.failures - old(forge.failures)
  {
    hide Forward, PushedTo, MovedTargets, Natives, CountOf, AllExplained, AnswersTruly, AllFastForward, Ancestor,
        Explains;
    out := [];
    ghost var start, pushes0, failures0, answers0 := forge.tips, forge.pushes, forge.failures, forge.answers;
    ForwardSame(forge.parents, start);
    NothingYet(forge.parents, plan, pushes0, answers0, github);
    for i := 0 to |plan|
      invariant forge.Valid() && Forward(forge.parents, start, forge.tips)
      invariant AllExplained(forge.parents, Natives(plan[..i]), answers0, forge.answers, github, out)
      invariant |out| == |Natives(plan[..i])| && PushedTo(pushes0, forge.pushes, MovedTargets(Natives(plan[..i]), out))
      invariant CountOf(out, Failed) == forge.failures - failures0
    {
      NativesNext(plan, i);
      if plan[i].entry.direction == "native" {
        ghost var tips1, pushes1, natives, answers1 := forge.tips, forge.pushes, Natives(plan[..i]), forge.answers;
        var res := ReconcileOne(forge, plan[i], github(plan[i].github.fullName, BranchOf(plan[i]), |out|));
        ForwardAll(forge.parents, start, tips1, forge.tips);
        MovedNext(natives, plan[i], out, res, pushes0, pushes1, forge.pushes);
        ExplainedNext(forge.parents, natives, answers0, answers1, github, out, plan[i], forge.answers[|answers1|], res);
        CountNext(out, res, Failed);
        out := out + [res];
      }
    }
    assert plan[..|plan|] == plan;
  }

  lemma NothingYet(parents: Graph, plan: seq<Planned>, pushes: seq<Push>, answers: seq<TipRead>, github: GitHub)
    ensures Natives(plan[..0]) == [] && CountOf([], Failed) == 0
    ensures PushedTo(pushes, pushes, MovedTargets([], []))
    ensures AllExplained(parents, [], answers, answers, github, [])
  {
  }

  lemma NativesNext(plan: seq<Planned>, i: nat)
    requires i < |plan|
    ensures plan[i].entry.direction == "native" ==> Natives(plan[..i + 1]) == Natives(plan[..i]) + [plan[i]]
    ensures plan[i].entry.direction != "native" ==> Natives(plan[..i + 1]) == Natives(plan[..i])
  {
    assert plan[..i + 1][..i] == plan[..i];
  }

  lemma CountNext(rs: seq<Result>, res: Result, o: Outcome)
    ensures CountOf(rs + [res], o) == CountOf(rs, o) + (if res.outcome == o then 1 else 0)
  {
    assert (rs + [res])[..|rs|] == rs;
  }

  lemma MovedNext(ps: seq<Planned>, p: Planned, rs: seq<Result>, res: Result, a: seq<Push>, b: seq<Push>, c: seq<Push>)
    requires |rs| == |ps| && PushedTo(a, b, MovedTargets(ps, rs))
    requires PushedTo(b, c, if res.outcome.Moved? then [(TargetOf(p), res.to)] else [])
    ensures PushedTo(a, c, MovedTargets(ps + [p], rs + [res]))
  {
    assert (ps + [p])[..|ps|] == ps && (rs + [res])[..|rs|] == rs;
    var ts := MovedTargets(ps, rs);
    var more := if res.outcome.Moved? then [(TargetOf(p), res.to)] else [];
    assert MovedTargets(ps + [p], rs + [res]) == ts + more;
    assert forall k :: 0 <= k < |b| ==> c[k] == b[k];
    forall i | 0 <= i < |ts + more| ensures (c[|a| + i].target, c[|a| + i].to) == (ts + more)[i] {
      if i < |ts| {
        assert c[|a| + i] == b[|a| + i];
      } else {
        assert more[0] == (c[|b| + 0].target, c[|b| + 0].to);
      }
    }
  }

  lemma {:induction false} MovedAreNative(ps: seq<Planned>, rs: seq<Result>, t: (Target, string))
    requires |rs| == |ps| && t in MovedTargets(ps, rs)
    ensures exists p :: p in ps && TargetOf(p) == t.0
    decreases |ps|
  {
    var n := |ps| - 1;
    assert ps == ps[..n] + [ps[n]];
    if t in MovedTargets(ps[..n], rs[..n]) {
      MovedAreNative(ps[..n], rs[..n], t);
    } else {
      assert TargetOf(ps[n]) == t.0;
    }
  }

  /** With distinct forge targets, no push goes to the repository of an entry that is not native. */
  lemma MirrorsUntouched(plan: seq<Planned>, out: seq<Result>, before: seq<Push>, after: seq<Push>, m: Planned, i: nat)
    requires |out| == |Natives(plan)| && PushedTo(before, after, MovedTargets(Natives(plan), out))
    requires forall i, j :: 0 <= i < j < |plan| ==>
               (plan[i].entry.org, plan[i].entry.name) != (plan[j].entry.org, plan[j].entry.name)
    requires m in plan && m.entry.direction != "native" && |before| <= i < |after|
    ensures (after[i].target.org, after[i].target.name) != (m.entry.org, m.entry.name)
  {
    var t := after[i].target;
    var moved := MovedTargets(Natives(plan), out)[i - |before|];
    assert t == moved.0;
    MovedAreNative(Natives(plan), out, moved);
    var p :| p in Natives(plan) && TargetOf(p) == t;
    var a :| 0 <= a < |plan| && plan[a] == p;
    var b :| 0 <= b < |plan| && plan[b] == m;
    assert a != b;
    assert a < b || b < a;
  }

  //////// Summary ////////

  function NeedHuman(rs: seq<Result>): (r: seq<Result>)
    ensures forall x :: x in r <==> x in rs && (x.outcome.Diverged? || x.outcome.Failed?)
    ensures |r| == CountOf(rs, Diverged) + CountOf(rs, Failed)
  {
    if rs == [] then []
    else
      var last := rs[|rs| - 1];
      assert rs == rs[..|rs| - 1] + [last];
      NeedHuman(rs[..|rs| - 1]) + (if last.outcome.Diverged? || last.outcome.Failed? then [last] else [])
  }

  lemma NothingCounted(rs: seq<Result>)
    ensures NeedHuman(rs[..0]) == [] && forall o :: CountOf(rs[..0], o) == 0
  {
  }

  lemma SummaryNext(rs: seq<Result>, i: nat)
    requires i < |rs|
    ensures forall o :: CountOf(rs[..i + 1], o) == CountOf(rs[..i], o) + (if rs[i].outcome == o then 1 else 0)
    ensures rs[i].outcome.Diverged? || rs[i].outcome.Failed? ==> NeedHuman(rs[..i + 1]) == NeedHuman(rs[..i]) + [rs[i]]
    ensures !rs[i].outcome.Diverged? && !rs[i].outcome.Failed? ==> NeedHuman(rs[..i + 1]) == NeedHuman(rs[..i])
  {
    assert rs[..i + 1] == rs[..i] + [rs[i]] && rs[..i + 1][..i] == rs[..i];
    forall o ensures CountOf(rs[..i + 1], o) == CountOf(rs[..i], o) + (if rs[i].outcome == o then 1 else 0) {
      CountNext(rs[..i], rs[i], o);
    }
  }

  method Summary(rs: seq<Result>) returns (counts: map<Outcome, nat>, needsHuman: seq<Result>)
    ensures forall o :: (o in counts <==> CountOf(rs, o) > 0) && (o in counts ==> counts[o] == CountOf(rs, o))
    ensures needsHuman == NeedHuman(rs)
  {
    hide CountOf, NeedHuman;
    counts, needsHuman := map[], [];
    NothingCounted(rs);
    for i := 0 to |rs|
      invariant forall o :: (o in counts <==> CountOf(rs[..i], o) > 0) &&
                  (o in counts ==> counts[o] == CountOf(rs[..i], o))
      invariant needsHuman == NeedHuman(rs[..i])
    {
      var o := rs[i].outcome;
      SummaryNext(rs, i);
      counts := counts[o := (if o in counts then counts[o] else 0) + 1];
      if o.Diverged? || o.Failed? { needsHuman := needsHuman + [rs[i]]; }
    }
    assert rs[..|rs|] == rs;
  }
}
