/** Deleting an application's live objects, greatest sync wave first. */
module Cascade {
  import opened Options

  datatype Obj = Obj(wave: int, terminating: bool, deletable: bool, needsConfirmation: bool)

  type Live = map<string, Obj>

  //////// The leading wave ////////

  ghost predicate Descending(xs: seq<(string, int)>)
  {
    forall i, j :: 0 <= i < j < |xs| ==> xs[i].1 >= xs[j].1
  }

  method InsertByWave(xs: seq<(string, int)>, x: (string, int)) returns (r: seq<(string, int)>)
    requires Descending(xs)
    ensures Descending(r) && multiset(r) == multiset(xs) + multiset{x}
  {
    hide Descending;
    var k := 0;
    while k < |xs| && xs[k].1 >= x.1
      invariant 0 <= k <= |xs|
      invariant forall i :: 0 <= i < k ==> xs[i].1 >= x.1
    {
      k := k + 1;
    }
    r := xs[..k] + [x] + xs[k..];
    assert xs == xs[..k] + xs[k..];
    InsertedDescending(xs, k, x);
  }

  lemma InsertedDescending(xs: seq<(string, int)>, k: nat, x: (string, int))
    requires Descending(xs) && k <= |xs|
    requires forall i :: 0 <= i < k ==> xs[i].1 >= x.1
    requires k < |xs| ==> xs[k].1 < x.1
    ensures Descending(xs[..k] + [x] + xs[k..])
  {
    assert forall i :: k <= i < |xs| ==> xs[i].1 <= xs[k].1;
  }

  method SortByWave(xs: seq<(string, int)>) returns (r: seq<(string, int)>)
    ensures Descending(r) && multiset(r) == multiset(xs)
  {
    r := [];
    for i := 0 to |xs|
      invariant Descending(r) && multiset(r) == multiset(xs[..i])
    {
      r := InsertByWave(r, xs[i]);
      assert xs[..i + 1] == xs[..i] + [xs[i]];
    }
    assert xs[..|xs|] == xs;
  }

  /** x belongs to the greatest wave of xs. */
  ghost predicate Leads(xs: seq<(string, int)>, x: (string, int))
  {
    x in xs && forall y | y in xs :: y.1 <= x.1
  }

  /** Exactly the objects of the greatest wave, each as often as it was given. */
  method FilterObjectsForDeletion(objs: seq<(string, int)>) returns (r: seq<(string, int)>)
    ensures forall x :: multiset(r)[x] == if Leads(objs, x) then multiset(objs)[x] else 0
  {
    if |objs| <= 1 {
      assert forall x :: x in objs ==> x in multiset(objs);
      return objs;
    }
    var sorted := SortByWave(objs);
    SameElements(sorted, objs);
    var wave := sorted[0].1;
    r := [];
    var i := 0;
    while i < |sorted| && sorted[i].1 == wave
      invariant 0 <= i <= |sorted| && r == sorted[..i]
      invariant forall j :: 0 <= j < i ==> sorted[j].1 == wave
    {
      r := r + [sorted[i]];
      i := i + 1;
    }
    LeadingPart(objs, sorted, i);
  }

  lemma SameElements(a: seq<(string, int)>, b: seq<(string, int)>)
    requires multiset(a) == multiset(b)
    ensures |a| == |b| && forall x :: x in a <==> x in b
  {
    assert |multiset(a)| == |a| && |multiset(b)| == |b|;
    forall x ensures x in a <==> x in b {
      assert x in a <==> x in multiset(a);
      assert x in b <==> x in multiset(b);
    }
  }

  lemma LeadingPart(objs: seq<(string, int)>, sorted: seq<(string, int)>, i: nat)
    requires |objs| > 1 && multiset(sorted) == multiset(objs) && Descending(sorted) && |sorted| == |objs| &&
               i <= |sorted|
    requires forall j :: 0 <= j < i ==> sorted[j].1 == sorted[0].1
    requires i < |sorted| ==> sorted[i].1 != sorted[0].1
    ensures forall x :: multiset(sorted[..i])[x] == if Leads(objs, x) then multiset(objs)[x] else 0
  {
    SameElements(sorted, objs);
    assert sorted == sorted[..i] + sorted[i..];
    forall x ensures multiset(sorted[..i])[x] == if Leads(objs, x) then multiset(objs)[x] else 0 {
      assert sorted[0] in objs;
      assert multiset(sorted)[x] == multiset(sorted[..i])[x] + multiset(sorted[i..])[x];
      if Leads(objs, x) {
        assert x.1 == sorted[0].1;
        assert x !in sorted[i..];
      } else {
        assert x !in sorted[..i];
      }
    }
  }

  //////// One pass ////////

  /** The pass must wait: something is terminating, or awaits a confirmation not given. */
  ghost predicate Blocked(live: Live, approved: bool)
  {
    exists k :: k in live && (live[k].terminating || (live[k].deletable && live[k].needsConfirmation && !approved))
  }

  /** The deletable objects of the greatest wave. */
  ghost function Top(live: Live): (r: set<string>)
  {
    set k | k in live && live[k].deletable && forall j | j in live && live[j].deletable :: live[j].wave <= live[k].wave
  }

  datatype Outcome = Waiting | Failed | Finished

  /** Collects the deletable objects in any order; None when the pass must wait. */
  method Collect(live: Live, approved: bool) returns (objs: Option<seq<(string, int)>>)
    ensures objs.None? <==> Blocked(live, approved)
    ensures objs.Some? ==> forall x ::
              multiset(objs.value)[x] == if x.0 in live && live[x.0].deletable && x.1 == live[x.0].wave then 1 else 0
  {
    var found: seq<(string, int)> := [];
    var rest := live.Keys;
    while rest != {}
      invariant rest <= live.Keys
      invariant forall k :: k in live && k !in rest ==>
                  !live[k].terminating && !(live[k].deletable && live[k].needsConfirmation && !approved)
      invariant forall x ::
                  multiset(found)[x] ==
                  if x.0 in live && x.0 !in rest && live[x.0].deletable && x.1 == live[x.0].wave then 1 else 0
      decreases |rest|
    {
      var k :| k in rest;
      if live[k].terminating { return None; }
      if live[k].deletable {
        found := found + [(k, live[k].wave)];
        if live[k].needsConfirmation && !approved { return None; }
      }
      rest := rest - {k};
    }
    return Some(found);
  }

  /** Deletes in any order; after a refusal the rest may or may not be tried. */
  method DeleteAll(objs: seq<(string, int)>, refused: set<string>) returns (issued: set<string>, ok: bool)
    ensures issued <= set x | x in objs :: x.0
    ensures ok ==> issued == (set x | x in objs :: x.0) && issued !! refused
    ensures !ok ==> exists x :: x in objs && x.0 in refused
  {
    issued, ok := {}, true;
    for i := 0 to |objs|
      invariant issued <= set x | x in objs :: x.0
      invariant ok ==> issued == (set x | x in objs[..i] :: x.0) && issued !! refused
      invariant !ok ==> exists x :: x in objs && x.0 in refused
    {
      var tried: bool := *;
      if ok || tried {
        issued := issued + {objs[i].0};
        if objs[i].0 in refused { ok := false; }
      }
    }
    assert objs[..|objs|] == objs;
  }

  /** What is left of the live objects once re-read; None when the read fails. */
  method DeleteResources(live: Live, approved: bool, refused: set<string>, after: Option<Live>)
    returns (issued: set<string>, outcome: Outcome)
    ensures Blocked(live, approved) ==> issued == {} && outcome.Waiting?
    ensures issued <= Top(live)
    ensures !Blocked(live, approved) && (!outcome.Failed? || refused !! Top(live)) ==> issued == Top(live)
    ensures outcome.Finished? <==>
              !Blocked(live, approved) && refused !! Top(live) && after.Some? &&
              forall k | k in after.value :: !after.value[k].deletable
    ensures outcome.Failed? <==> !Blocked(live, approved) && (!(refused !! Top(live)) || after.None?)
  {
    hide Top;
    var collected := Collect(live, approved);
    if collected.None? { return {}, Waiting; }
    var objs := collected.value;
    var filtered := FilterObjectsForDeletion(objs);
    FilteredIsTop(live, objs, filtered);
    var ok;
    issued, ok := DeleteAll(filtered, refused);
    if !ok { return issued, Failed; }
    if after.None? { return issued, Failed; }
    var remaining := set k | k in after.value && after.value[k].deletable;
    assert forall k | k in after.value :: after.value[k].deletable ==> k in remaining;
    if |remaining| > 0 {
      var k :| k in remaining;
      return issued, Waiting;
    }
    return issued, Finished;
  }

  lemma FilteredIsTop(live: Live, objs: seq<(string, int)>, filtered: seq<(string, int)>)
    requires forall x ::
               multiset(objs)[x] == if x.0 in live && live[x.0].deletable && x.1 == live[x.0].wave then 1 else 0
    requires forall x :: multiset(filtered)[x] == if Leads(objs, x) then multiset(objs)[x] else 0
    ensures (set x | x in filtered :: x.0) == Top(live)
  {
    assert forall x :: x in objs <==> x in multiset(objs);
    assert forall x :: x in filtered <==> x in multiset(filtered);
    forall k ensures k in (set x | x in filtered :: x.0) <==> k in Top(live) {
      if k in Top(live) {
        var x := (k, live[k].wave);
        assert x in objs;
        assert forall y | y in objs :: y.1 <= x.1;
        assert x in filtered;
      }
      if k in (set x | x in filtered :: x.0) {
        var x :| x in filtered && x.0 == k;
        assert Leads(objs, x);
        forall j | j in live && live[j].deletable ensures live[j].wave <= live[k].wave {
          assert (j, live[j].wave) in objs;
        }
      }
    }
  }
}
