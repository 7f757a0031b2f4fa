/** Which declared repositories a mirror run acts on, and in which order. */
module MirrorPlan {
  import opened Options

  datatype Entry = Entry(org: string, name: string, direction: string)

  datatype Repo = Repo(fullName: string, size: int, defaultBranch: string)

  datatype Planned = Planned(entry: Entry, github: Repo)

  datatype Refusal = OrgNotOwned | BadDirection | Unresolved | Transferred | Claimed(claimant: Entry)

  const OWNED: set<string> :=
    {"hanzo-apps", "hanzo-dart", "hanzo-docs", "hanzo-go", "hanzo-js", "hanzo-ml", "hanzo-rs", "hanzoai",
     "hanzo-inc", "hanzobot", "hanzodao", "hanzoid", "hanzokv", "hanzozt", "luxfi"}

  /** What precedes the first slash, if there is one. */
  function CutAtSlash(s: string): (r: Option<string>)
    ensures r.Some? ==> '/' !in r.value && r.value + "/" <= s
    ensures r.None? <==> '/' !in s
  {
    if s == [] then None
    else if s[0] == '/' then Some([])
    else
      match CutAtSlash(s[1..])
      case None => None
      case Some(head) => Some([s[0]] + head)
  }

  predicate InOwnedOrg(full: string)
  {
    var org := CutAtSlash(full);
    org.Some? && org.value in OWNED
  }

  /** What precedes a slash and has none itself precedes the first. */
  lemma {:induction false} CutsHead(head: string, s: string)
    requires '/' !in head && head + "/" <= s
    ensures CutAtSlash(s) == Some(head)
    decreases |head|
  {
    if head == [] {
      assert s[0] == (head + "/")[0];
    } else {
      assert s[0] == (head + "/")[0] == head[0] && head[0] in head;
      assert head[1..] + "/" == (head + "/")[1..];
      assert forall c | c in head[1..] :: c in head;
      CutsHead(head[1..], s[1..]);
      assert [head[0]] + head[1..] == head;
    }
  }

  /** A full name is owned exactly when it is an owned org, a slash, and anything. */
  lemma OwnedIff(full: string)
    ensures InOwnedOrg(full) <==> exists org :: org in OWNED && '/' !in org && org + "/" <= full
  {
    if org :| org in OWNED && '/' !in org && org + "/" <= full { CutsHead(org, full); }
    if InOwnedOrg(full) { assert CutAtSlash(full).value + "/" <= full; }
  }

  type Resolver = (string, string) -> Option<Repo>

  /** The entry passes every check but the one against earlier entries. */
  predicate Claims(e: Entry, resolve: Resolver)
  {
    && e.org in OWNED && (e.direction == "native" || e.direction == "mirror")
    && resolve(e.org, e.name).Some? && InOwnedOrg(resolve(e.org, e.name).value.fullName)
  }

  function FullName(e: Entry, resolve: Resolver): string
    requires Claims(e, resolve)
  {
    resolve(e.org, e.name).value.fullName
  }

  /** Entry i is the first to claim the repository it resolves to. */
  predicate Accepted(entries: seq<Entry>, resolve: Resolver, i: nat)
    requires i < |entries|
  {
    && Claims(entries[i], resolve)
    && forall j :: 0 <= j < i && Claims(entries[j], resolve) ==>
         FullName(entries[j], resolve) != FullName(entries[i], resolve)
  }

  /** The accepted entries among the first n, in declared order. */
  function AcceptedOf(entries: seq<Entry>, resolve: Resolver, n: nat): (r: seq<Planned>)
    requires n <= |entries|
  {
    if n == 0 then []
    else
      var e := entries[n - 1];
      AcceptedOf(entries, resolve, n - 1) +
      (if Accepted(entries, resolve, n - 1) then [Planned(e, resolve(e.org, e.name).value)] else [])
  }

  ghost predicate DistinctRepos(ps: seq<Planned>)
  {
    forall i, j :: 0 <= i < j < |ps| ==> ps[i].github.fullName != ps[j].github.fullName
  }

  ghost predicate BySize(ps: seq<Planned>)
  {
    forall i, j :: 0 <= i < j < |ps| ==> ps[i].github.size <= ps[j].github.size
  }

  /** Those of a given size, in order. */
  function OfSize(ps: seq<Planned>, size: int): (r: seq<Planned>)
  {
    if ps == [] then []
    else OfSize(ps[..|ps| - 1], size) + (if ps[|ps| - 1].github.size == size then [ps[|ps| - 1]] else [])
  }

  /** r is ps sorted by size, equal sizes staying in order. */
  ghost predicate StablySorted(ps: seq<Planned>, r: seq<Planned>)
  {
    BySize(r) && |r| == |ps| && forall size :: OfSize(r, size) == OfSize(ps, size)
  }

  lemma {:induction false} OfSizeAppend(a: seq<Planned>, b: seq<Planned>, size: int)
    ensures OfSize(a + b, size) == OfSize(a, size) + OfSize(b, size)
    decreases |b|
  {
    if b == [] {
      assert a + b == a;
    } else {
      OfSizeAppend(a, b[..|b| - 1], size);
      assert (a + b)[..|a + b| - 1] == a + b[..|b| - 1];
    }
  }

  lemma {:induction false} OfSizeNone(ps: seq<Planned>, size: int)
    requires forall i :: 0 <= i < |ps| ==> ps[i].github.size != size
    ensures OfSize(ps, size) == []
    decreases |ps|
  {
    if ps != [] { OfSizeNone(ps[..|ps| - 1], size); }
  }

  lemma {:induction false} OfSizeMembers(ps: seq<Planned>, p: Planned)
    ensures p in ps <==> p in OfSize(ps, p.github.size)
    decreases |ps|
  {
    if ps != [] {
      OfSizeMembers(ps[..|ps| - 1], p);
      assert ps == ps[..|ps| - 1] + [ps[|ps| - 1]];
    }
  }

  lemma OfSizeOne(x: Planned, size: int)
    ensures OfSize([x], size) == if x.github.size == size then [x] else []
  {
    assert [x][..0] == [];
  }

  lemma Inserted(xs: seq<Planned>, x: Planned, k: nat, size: int)
    requires k <= |xs| && forall i :: k <= i < |xs| ==> xs[i].github.size > x.github.size
    ensures OfSize(xs[..k] + [x] + xs[k..], size) == OfSize(xs + [x], size)
  {
    hide OfSize;
    var a, b := xs[..k], xs[k..];
    assert a + b == xs;
    OfSizeAppend(a + [x], b, size);
    OfSizeAppend(a, [x], size);
    OfSizeAppend(a + b, [x], size);
    OfSizeAppend(a, b, size);
    OfSizeOne(x, size);
    if size == x.github.size { OfSizeNone(b, size); }
  }

  method InsertBySize(xs: seq<Planned>, x: Planned) returns (r: seq<Planned>)
    requires BySize(xs)
    ensures BySize(r) && |r| == |xs| + 1
    ensures forall size :: OfSize(r, size) == OfSize(xs + [x], size)
    ensures DistinctRepos(xs + [x]) ==> DistinctRepos(r)
  {
    hide OfSize;
    var k := |xs|;
    while k > 0 && xs[k - 1].github.size > x.github.size
      invariant 0 <= k <= |xs|
      invariant forall i :: k <= i < |xs| ==> xs[i].github.size > x.github.size
    {
      k := k - 1;
    }
    r := xs[..k] + [x] + xs[k..];
    forall size ensures OfSize(r, size) == OfSize(xs + [x], size) {
      Inserted(xs, x, k, size);
    }
    if DistinctRepos(xs + [x]) { DistinctInserted(xs, x, k); }
  }

  lemma DistinctInserted(xs: seq<Planned>, x: Planned, k: nat)
    requires k <= |xs| && DistinctRepos(xs + [x])
    ensures DistinctRepos(xs[..k] + [x] + xs[k..])
  {
    var all := xs + [x];
    forall i | 0 <= i < |xs| ensures xs[i].github.fullName != x.github.fullName {
      assert all[i] == xs[i] && all[|xs|] == x;
    }
    forall i, j | 0 <= i < j < |xs| ensures xs[i].github.fullName != xs[j].github.fullName {
      assert all[i] == xs[i] && all[j] == xs[j];
    }
  }

  method SortBySize(ps: seq<Planned>) returns (r: seq<Planned>)
    ensures StablySorted(ps, r)
    ensures DistinctRepos(ps) ==> DistinctRepos(r)
  {
    hide OfSize, DistinctRepos;
    r := [];
    EmptyIsDistinct();
    for i := 0 to |ps|
      invariant StablySorted(ps[..i], r)
      invariant DistinctRepos(ps) ==> DistinctRepos(r)
    {
      var x := ps[i];
      assert ps[..i + 1] == ps[..i] + [x];
      SortNext(ps, r, i);
      r := InsertBySize(r, x);
    }
    assert ps[..|ps|] == ps;
  }

  lemma EmptyIsDistinct()
    ensures DistinctRepos([]) && StablySorted([], [])
  {
  }

  lemma SortNext(ps: seq<Planned>, r: seq<Planned>, i: nat)
    requires i < |ps| && StablySorted(ps[..i], r)
    ensures forall size :: OfSize(r + [ps[i]], size) == OfSize(ps[..i] + [ps[i]], size)
    ensures DistinctRepos(ps) && DistinctRepos(r) ==> DistinctRepos(r + [ps[i]])
  {
    forall size ensures OfSize(r + [ps[i]], size) == OfSize(ps[..i] + [ps[i]], size) {
      OfSizeAppend(r, [ps[i]], size);
      OfSizeAppend(ps[..i], [ps[i]], size);
    }
    if DistinctRepos(ps) && DistinctRepos(r) {
      forall j | 0 <= j < |r| ensures r[j].github.fullName != ps[i].github.fullName {
        OfSizeMembers(r, r[j]);
        OfSizeMembers(ps[..i], r[j]);
        assert r[j] in ps[..i];
        var m :| 0 <= m < i && ps[m] == r[j];
      }
    }
  }

  //////// The plan ////////

  /** One of the first n entries claims f. */
  ghost predicate ClaimedAmong(entries: seq<Entry>, resolve: Resolver, n: nat, f: string)
    requires n <= |entries|
  {
    exists j :: 0 <= j < n && Claims(entries[j], resolve) && FullName(entries[j], resolve) == f
  }

  /** e is the entry among the first n that was accepted for f. */
  ghost predicate AcceptedFor(entries: seq<Entry>, resolve: Resolver, n: nat, f: string, e: Entry)
    requires n <= |entries|
  {
    exists j :: 0 <= j < n && Accepted(entries, resolve, j) && FullName(entries[j], resolve) == f && e == entries[j]
  }

  /** The claims recorded after n entries: each repository with its first claimant. */
  ghost predicate ClaimedBy(claimed: map<string, Entry>, entries: seq<Entry>, resolve: Resolver, n: nat)
    requires n <= |entries|
  {
    && (forall f :: f in claimed <==> ClaimedAmong(entries, resolve, n, f))
    && (forall f :: f in claimed ==> AcceptedFor(entries, resolve, n, f, claimed[f]))
  }

  lemma ClaimedAmongNext(entries: seq<Entry>, resolve: Resolver, n: nat, f: string)
    requires n < |entries|
    ensures ClaimedAmong(entries, resolve, n + 1, f) <==>
            ClaimedAmong(entries, resolve, n, f) || (Claims(entries[n], resolve) && FullName(entries[n], resolve) == f)
  {
    hide Claims, FullName;
  }

  lemma AcceptedForNext(entries: seq<Entry>, resolve: Resolver, n: nat, f: string, e: Entry)
    requires n < |entries|
    requires AcceptedFor(entries, resolve, n, f, e) ||
             (Accepted(entries, resolve, n) && FullName(entries[n], resolve) == f && e == entries[n])
    ensures AcceptedFor(entries, resolve, n + 1, f, e)
  {
    hide Claims, FullName;
    if AcceptedFor(entries, resolve, n, f, e) {
      var j :| 0 <= j < n && Accepted(entries, resolve, j) && FullName(entries[j], resolve) == f && e == entries[j];
      assert j < n + 1;
    }
  }

  lemma FirstClaimIsAccepted(entries: seq<Entry>, resolve: Resolver, n: nat)
    requires n < |entries| && Claims(entries[n], resolve)
    ensures Accepted(entries, resolve, n) <==> !ClaimedAmong(entries, resolve, n, FullName(entries[n], resolve))
  {
    hide Claims, FullName;
  }

  lemma ClaimedNext(claimed: map<string, Entry>, entries: seq<Entry>, resolve: Resolver, n: nat)
    requires n < |entries| && ClaimedBy(claimed, entries, resolve, n)
    ensures Claims(entries[n], resolve) ==>
              (Accepted(entries, resolve, n) <==> FullName(entries[n], resolve) !in claimed)
    ensures var next := if Accepted(entries, resolve, n) then claimed[FullName(entries[n], resolve) := entries[n]]
                        else claimed;
            ClaimedBy(next, entries, resolve, n + 1)
  {
    AcceptedClaims(entries, resolve, n);
    hide Claims, FullName, Accepted, ClaimedAmong, AcceptedFor;
    var next := if Accepted(entries, resolve, n) then claimed[FullName(entries[n], resolve) := entries[n]] else claimed;
    if Claims(entries[n], resolve) { FirstClaimIsAccepted(entries, resolve, n); }
    forall f ensures f in next <==> ClaimedAmong(entries, resolve, n + 1, f) {
      ClaimedAmongNext(entries, resolve, n, f);
    }
    forall f | f in next ensures AcceptedFor(entries, resolve, n + 1, f, next[f]) {
      AcceptedForNext(entries, resolve, n, f, next[f]);
    }
  }

  lemma AcceptedClaims(entries: seq<Entry>, resolve: Resolver, n: nat)
    requires n < |entries|
    ensures Accepted(entries, resolve, n) ==> Claims(entries[n], resolve)
  {
  }

  predicate KnownDirection(e: Entry)
  {
    e.direction == "native" || e.direction == "mirror"
  }

  /** The reason to refuse entry i: the first check that it fails. */
  ghost predicate RefusedFor(entries: seq<Entry>, resolve: Resolver, i: nat, why: Refusal)
    requires i < |entries|
  {
    var e := entries[i];
    match why
    case OrgNotOwned => e.org !in OWNED
    case BadDirection => e.org in OWNED && e.direction != "native" && e.direction != "mirror"
    case Unresolved => e.org in OWNED && KnownDirection(e) && resolve(e.org, e.name).None?
    case Transferred =>
      && e.org in OWNED && KnownDirection(e)
      && resolve(e.org, e.name).Some? && !InOwnedOrg(resolve(e.org, e.name).value.fullName)
    case Claimed(claimant) =>
      Claims(e, resolve) && AcceptedFor(entries, resolve, i, FullName(e, resolve), claimant)
  }

  /** Every refused index once, in order, with its reason. */
  ghost predicate Refuses(errs: seq<(nat, Refusal)>, entries: seq<Entry>, resolve: Resolver, n: nat)
    requires n <= |entries|
  {
    && (forall k :: 0 <= k < |errs| ==>
         errs[k].0 < n && !Accepted(entries, resolve, errs[k].0) && RefusedFor(entries, resolve, errs[k].0, errs[k].1))
    && (forall i, j :: 0 <= i < j < |errs| ==> errs[i].0 < errs[j].0)
    && |errs| + |AcceptedOf(entries, resolve, n)| == n
  }

  /** Resolves the entries and orders the accepted ones, smallest repository first. */
  method Plan(entries: seq<Entry>, resolve: Resolver) returns (out: seq<Planned>, errs: seq<(nat, Refusal)>)
    ensures StablySorted(AcceptedOf(entries, resolve, |entries|), out)
    ensures Refuses(errs, entries, resolve, |entries|)
    ensures DistinctRepos(out)
  {
    hide InOwnedOrg, Accepted, RefusedFor, StablySorted, DistinctRepos, ClaimedAmong, AcceptedFor, Refuses, Claims;
    hide AcceptedOf;
    NothingPlanned(entries, resolve);
    out, errs := [], [];
    var claimed: map<string, Entry> := map[];
    for i := 0 to |entries|
      invariant out == AcceptedOf(entries, resolve, i)
      invariant ClaimedBy(claimed, entries, resolve, i)
      invariant Refuses(errs, entries, resolve, i)
    {
      var e := entries[i];
      ClaimedNext(claimed, entries, resolve, i);
      var why := Check(e, resolve);
      if why.Some? {
        NotAccepted(entries, resolve, i, why.value);
        RefusesNext(errs, entries, resolve, i, why.value);
        errs := errs + [(i, why.value)];
      } else {
        var r := resolve(e.org, e.name).value;
        if r.fullName in claimed {
          TakenBefore(claimed, entries, resolve, i);
          RefusesNext(errs, entries, resolve, i, Claimed(claimed[r.fullName]));
          errs := errs + [(i, Claimed(claimed[r.fullName]))];
        } else {
          AcceptsNext(errs, entries, resolve, i);
          claimed := claimed[r.fullName := e];
          out := out + [Planned(e, r)];
        }
      }
    }
    AcceptedDistinct(entries, resolve, |entries|);
    out := SortBySize(out);
  }

  lemma NothingPlanned(entries: seq<Entry>, resolve: Resolver)
    ensures AcceptedOf(entries, resolve, 0) == [] && Refuses([], entries, resolve, 0)
    ensures ClaimedBy(map[], entries, resolve, 0)
  {
  }

  lemma RefusesNext(errs: seq<(nat, Refusal)>, entries: seq<Entry>, resolve: Resolver, i: nat, why: Refusal)
    requires i < |entries| && Refuses(errs, entries, resolve, i)
    requires !Accepted(entries, resolve, i) && RefusedFor(entries, resolve, i, why)
    ensures Refuses(errs + [(i, why)], entries, resolve, i + 1)
    ensures AcceptedOf(entries, resolve, i + 1) == AcceptedOf(entries, resolve, i)
  {
    hide Accepted, RefusedFor;
  }

  lemma AcceptsNext(errs: seq<(nat, Refusal)>, entries: seq<Entry>, resolve: Resolver, i: nat)
    requires i < |entries| && Refuses(errs, entries, resolve, i)
    requires Claims(entries[i], resolve) && Accepted(entries, resolve, i)
    ensures Refuses(errs, entries, resolve, i + 1)
    ensures var e := entries[i];
            AcceptedOf(entries, resolve, i + 1) ==
            AcceptedOf(entries, resolve, i) + [Planned(e, resolve(e.org, e.name).value)]
  {
    hide Accepted, RefusedFor;
  }

  /** The checks of a single entry, in order. */
  method Check(e: Entry, resolve: Resolver) returns (why: Option<Refusal>)
    ensures why.None? <==> Claims(e, resolve)
    ensures why.None? ==> resolve(e.org, e.name).Some? && resolve(e.org, e.name).value.fullName == FullName(e, resolve)
    ensures why.Some? ==> !why.value.Claimed? && RefusedFor([e], resolve, 0, why.value)
  {
    if e.org !in OWNED { return Some(OrgNotOwned); }
    if e.direction != "native" && e.direction != "mirror" { return Some(BadDirection); }
    var r := resolve(e.org, e.name);
    if r.None? { return Some(Unresolved); }
    if !InOwnedOrg(r.value.fullName) { return Some(Transferred); }
    return None;
  }

  lemma NotAccepted(entries: seq<Entry>, resolve: Resolver, i: nat, why: Refusal)
    requires i < |entries| && !Claims(entries[i], resolve)
    requires !why.Claimed? && RefusedFor([entries[i]], resolve, 0, why)
    ensures !Accepted(entries, resolve, i) && RefusedFor(entries, resolve, i, why)
  {
  }

  lemma TakenBefore(claimed: map<string, Entry>, entries: seq<Entry>, resolve: Resolver, i: nat)
    requires i < |entries| && ClaimedBy(claimed, entries, resolve, i) && Claims(entries[i], resolve) &&
               FullName(entries[i], resolve) in claimed
    ensures RefusedFor(entries, resolve, i, Claimed(claimed[FullName(entries[i], resolve)]))
  {
    hide Accepted;
  }

  /** p comes from an accepted entry among the first n. */
  ghost predicate FromAccepted(entries: seq<Entry>, resolve: Resolver, n: nat, p: Planned)
    requires n <= |entries|
  {
    exists i :: 0 <= i < n && Accepted(entries, resolve, i) &&
        p == Planned(entries[i], resolve(entries[i].org, entries[i].name).value)
  }

  lemma {:induction false} AcceptedDistinct(entries: seq<Entry>, resolve: Resolver, n: nat)
    requires n <= |entries|
    ensures DistinctRepos(AcceptedOf(entries, resolve, n))
    ensures forall p | p in AcceptedOf(entries, resolve, n) :: FromAccepted(entries, resolve, n, p)
    decreases n
  {
    if n > 0 {
      AcceptedDistinct(entries, resolve, n - 1);
      var before := AcceptedOf(entries, resolve, n - 1);
      forall p | p in before ensures FromAccepted(entries, resolve, n, p) {
        var i :| 0 <= i < n - 1 && Accepted(entries, resolve, i) &&
            p == Planned(entries[i], resolve(entries[i].org, entries[i].name).value);
      }
      if Accepted(entries, resolve, n - 1) {
        forall k | 0 <= k < |before| ensures before[k].github.fullName != FullName(entries[n - 1], resolve) {
          assert before[k] in before;
          assert FromAccepted(entries, resolve, n - 1, before[k]);
        }
      }
    }
  }

  /** What is planned: repositories of owned orgs, no two of them one repository or one forge target. */
  lemma PlannedTargets(entries: seq<Entry>, resolve: Resolver, out: seq<Planned>)
    requires StablySorted(AcceptedOf(entries, resolve, |entries|), out) && DistinctRepos(out)
    ensures forall p | p in out ::
              FromAccepted(entries, resolve, |entries|, p) && InOwnedOrg(p.github.fullName) && p.entry.org in OWNED
    ensures forall i, j :: 0 <= i < j < |out| ==>
              (out[i].entry.org, out[i].entry.name) != (out[j].entry.org, out[j].entry.name)
  {
    hide InOwnedOrg, OfSize;
    var n := |entries|;
    var acc := AcceptedOf(entries, resolve, n);
    AcceptedDistinct(entries, resolve, n);
    forall p | p in out ensures FromAccepted(entries, resolve, n, p) {
      OfSizeMembers(out, p);
      OfSizeMembers(acc, p);
    }
    forall i, j | 0 <= i < j < |out|
      ensures (out[i].entry.org, out[i].entry.name) != (out[j].entry.org, out[j].entry.name)
    {
      assert FromAccepted(entries, resolve, n, out[i]) && FromAccepted(entries, resolve, n, out[j]);
    }
  }
}
