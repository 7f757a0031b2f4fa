/**
 Undoing collateral damage to a target manifest: fields that the normalizer left alone get
 back their values, and keys that leaked in from the live object go.
 */
module Restore {
  import opened Options

  datatype Json = Leaf(text: string) | Arr(items: seq<Json>) | Obj(fields: Fields)

  type Fields = map<string, Json>

  function Lookup(m: Fields, k: string): (r: Option<Json>)
  {
    if k in m then Some(m[k]) else None
  }

  predicate IsObj(j: Option<Json>)
  {
    j.Some? && j.value.Obj?
  }

  /** The object at key k of the live tree, or an empty one. */
  function Below(l: Fields, k: string): (r: Fields)
  {
    if IsObj(Lookup(l, k)) then l[k].fields else map[]
  }

  /** What becomes of key k of the original. */
  function Field(p: Option<Json>, o: Json, n: Option<Json>, l: Fields): (r: Option<Json>)
    decreases o, 1
  {
    if IsObj(p) && o.Obj? && IsObj(n) then Some(Obj(Restored(p.value.fields, o, n.value.fields, l)))
    else if n == Some(o) then Some(o)
    else p
  }

  /** The fields of p once those of the object o are restored and the leaked ones removed. */
  function Restored(p: Fields, o: Json, n: Fields, l: Fields): (r: Fields)
    requires o.Obj?
    ensures forall k :: Lookup(r, k) ==
                        if k in o.fields then Field(Lookup(p, k), o.fields[k], Lookup(n, k), Below(l, k))
                        else if k in l then None else Lookup(p, k)
    decreases o, 0
  {
    map k | k in p.Keys + o.fields.Keys &&
            (if k in o.fields then Field(Lookup(p, k), o.fields[k], Lookup(n, k), Below(l, k)).Some?
                else k in p && k !in l)
          :: if k in o.fields then Field(Lookup(p, k), o.fields[k], Lookup(n, k), Below(l, k)).value else p[k]
  }

  /** Key k after the first pass. */
  function Kept(p: Fields, o: Fields, n: Fields, l: Fields, k: string): (r: Option<Json>)
  {
    if k in o then Field(Lookup(p, k), o[k], Lookup(n, k), Below(l, k)) else Lookup(p, k)
  }

  /** The first pass has dealt with all keys but rest. */
  ghost predicate RestoredBut(r: Fields, p: Fields, o: Fields, n: Fields, l: Fields, rest: set<string>)
  {
    forall k :: Lookup(r, k) == if k in rest then Lookup(p, k) else Kept(p, o, n, l, k)
  }

  lemma KeyRestored(r: Fields, r': Fields, p: Fields, o: Fields, n: Fields, l: Fields, rest: set<string>, key: string)
    requires key in rest && RestoredBut(r, p, o, n, l, rest)
    requires r' - {key} == r - {key} && Lookup(r', key) == Kept(p, o, n, l, key)
    ensures RestoredBut(r', p, o, n, l, rest - {key})
  {
    hide Kept;
    forall k ensures Lookup(r', k) == if k in rest - {key} then Lookup(p, k) else Kept(p, o, n, l, k) {
      assert k != key ==> (k in r' <==> k in r' - {key}) && (k in r <==> k in r - {key});
      assert k != key && k in r' ==> r'[k] == (r' - {key})[k] == (r - {key})[k] == r[k];
      assert Lookup(r, k) == if k in rest then Lookup(p, k) else Kept(p, o, n, l, k);
    }
  }

  method RestoreNonIgnoredFields(patched: Fields, original: Fields, normalizedTarget: Fields,
                                 normalizedLive: Fields) returns (r: Fields)
    ensures r == Restored(patched, Obj(original), normalizedTarget, normalizedLive)
    decreases Obj(original), 1
  {
    hide Restored, Kept, RestoredBut, Field;
    r := patched;
    var rest := original.Keys;
    assert RestoredBut(r, patched, original, normalizedTarget, normalizedLive, rest) by {
      AtFirst(patched, original, normalizedTarget, normalizedLive);
    }
    while rest != {}
      invariant rest <= original.Keys
      invariant RestoredBut(r, patched, original, normalizedTarget, normalizedLive, rest)
      decreases |rest|
    {
      var key :| key in rest;
      ghost var before := r;
      r := RestoreKey(r, original, normalizedTarget, normalizedLive, key);
      SameKept(before, patched, original, normalizedTarget, normalizedLive, rest, key);
      KeyRestored(before, r, patched, original, normalizedTarget, normalizedLive, rest, key);
      rest := rest - {key};
    }
    ghost var first := r;
    rest := r.Keys;
    while rest != {}
      invariant forall k :: Lookup(r, k) ==
                            if k in first && k !in rest && k !in original && k in normalizedLive then None
                                else Lookup(first, k)
      decreases |rest|
    {
      var key :| key in rest;
      if key !in original && key in normalizedLive {
        r := r - {key};
      }
      rest := rest - {key};
    }
    BothPasses(first, r, patched, original, normalizedTarget, normalizedLive);
  }

  /** The body of the first loop. */
  method RestoreKey(patched: Fields, original: Fields, normalizedTarget: Fields, normalizedLive: Fields,
                    key: string) returns (r: Fields)
    requires key in original
    ensures r - {key} == patched - {key}
    ensures Lookup(r, key) == Kept(patched, original, normalizedTarget, normalizedLive, key)
    decreases Obj(original), 0
  {
    r := patched;
    var originalVal := original[key];
    if key in patched && patched[key].Obj? && originalVal.Obj? && key in normalizedTarget &&
        normalizedTarget[key].Obj? {
      var below := Below(normalizedLive, key);
      assert originalVal == Obj(original).fields[key];
      assert originalVal == Obj(originalVal.fields);
      var inner := RestoreNonIgnoredFields(patched[key].fields, originalVal.fields, normalizedTarget[key].fields,
          below);
      r := r[key := Obj(inner)];
    } else if key in normalizedTarget && normalizedTarget[key] == originalVal &&
        (key !in patched || patched[key] != originalVal) {
      r := r[key := originalVal];
    }
  }

  lemma AtFirst(p: Fields, o: Fields, n: Fields, l: Fields)
    ensures RestoredBut(p, p, o, n, l, o.Keys)
  {
    hide Field;
  }

  lemma SameKept(r: Fields, p: Fields, o: Fields, n: Fields, l: Fields, rest: set<string>, key: string)
    requires RestoredBut(r, p, o, n, l, rest) && key in rest
    ensures Kept(r, o, n, l, key) == Kept(p, o, n, l, key)
  {
    hide Field;
    assert Lookup(r, key) == Lookup(p, key);
  }

  lemma BothPasses(first: Fields, r: Fields, p: Fields, o: Fields, n: Fields, l: Fields)
    requires RestoredBut(first, p, o, n, l, {})
    requires forall k :: Lookup(r, k) == if k in first && k !in o && k in l then None else Lookup(first, k)
    ensures r == Restored(p, Obj(o), n, l)
  {
    hide Field;
    var s := Restored(p, Obj(o), n, l);
    forall k ensures Lookup(r, k) == Lookup(s, k) {
      assert Lookup(first, k) == Kept(p, o, n, l, k);
    }
    SameFields(r, s);
  }

  lemma SameFields(a: Fields, b: Fields)
    requires forall k :: Lookup(a, k) == Lookup(b, k)
    ensures a == b
  {
    assert forall k :: k in a <==> Lookup(a, k).Some?;
    assert forall k :: k in b <==> Lookup(b, k).Some?;
    assert forall k | k in a :: a[k] == Lookup(a, k).value == Lookup(b, k).value;
  }

  //////// Idempotence ////////

  lemma {:induction false} RestoredSelf(o: Json, l: Fields)
    requires o.Obj?
    ensures Restored(o.fields, o, o.fields, l) == o.fields
    decreases o
  {
    forall k ensures Lookup(Restored(o.fields, o, o.fields, l), k) == Lookup(o.fields, k) {
      if k in o.fields && o.fields[k].Obj? { RestoredSelf(o.fields[k], Below(l, k)); }
    }
    SameFields(Restored(o.fields, o, o.fields, l), o.fields);
  }

  lemma {:induction false} Idempotent(p: Fields, o: Json, n: Fields, l: Fields)
    requires o.Obj?
    ensures Restored(Restored(p, o, n, l), o, n, l) == Restored(p, o, n, l)
    decreases o
  {
    var r := Restored(p, o, n, l);
    forall k ensures Lookup(Restored(r, o, n, l), k) == Lookup(r, k) {
      if k in o.fields && o.fields[k].Obj? && IsObj(Lookup(n, k)) {
        if IsObj(Lookup(p, k)) {
          Idempotent(p[k].fields, o.fields[k], n[k].fields, Below(l, k));
        } else if n[k] == o.fields[k] {
          RestoredSelf(o.fields[k], Below(l, k));
        }
      }
    }
    SameFields(Restored(r, o, n, l), r);
  }

  //////// Path by path ////////

  type Path = seq<string>

  function At(j: Json, path: Path): (r: Option<Json>)
  {
    if path == [] then Some(j)
    else if j.Obj? && path[0] in j.fields then At(j.fields[path[0]], path[1..])
    else None
  }

  lemma AtOne(j: Json, path: Path)
    requires j.Obj? && |path| == 1
    ensures At(j, path) == Lookup(j.fields, path[0])
  {
    assert path[1..] == [];
  }

  lemma PrefixStep(j: Json, path: Path, i: nat)
    requires path != [] && 0 < i <= |path| && j.Obj? && path[0] in j.fields
    ensures At(j, path[..i]) == At(j.fields[path[0]], path[1..][..i - 1])
  {
    assert path[..i][1..] == path[1..][..i - 1];
  }

  /** All three trees have an object at the prefix of length i. */
  ghost predicate AllObjects(p: Json, o: Json, n: Json, path: Path, i: nat)
    requires i <= |path|
  {
    IsObj(At(p, path[..i])) && IsObj(At(o, path[..i])) && IsObj(At(n, path[..i]))
  }

  /** The walk goes down no further than the prefix of length i. */
  ghost predicate StopsAt(p: Json, o: Json, n: Json, path: Path, i: nat)
  {
    && 0 < i <= |path| && !AllObjects(p, o, n, path, i)
    && forall j :: 0 < j < i ==> AllObjects(p, o, n, path, j)
  }

  /**
   Every path on which the walk stops, by where it stops: a key the original lacks goes with
   all below it when the normalized live tree has it, a place where the normalizer changed
   nothing is the original's again, and any other is left as the patched tree has it.
   */
  lemma {:induction false} RestoredAt(p: Fields, o: Json, n: Fields, l: Fields, path: Path, i: nat)
    requires o.Obj? && StopsAt(Obj(p), o, Obj(n), path, i)
    ensures var stop := path[..i];
            At(Obj(Restored(p, o, n, l)), path) ==
            if At(o, stop).None? then (if At(Obj(l), stop).Some? then None else At(Obj(p), path))
            else if At(Obj(n), stop) == At(o, stop) then At(o, path)
            else At(Obj(p), path)
    decreases |path|
  {
    hide StopsAt;
    StopsFirst(Obj(p), o, Obj(n), path, i);
    var k, rest := path[0], path[1..];
    FirstKey(Obj(p), path);
    FirstKey(o, path);
    FirstKey(Obj(n), path);
    FirstKey(Obj(l), path);
    if i > 1 {
      StopsBelow(Obj(p), o, Obj(n), path, i);
      RestoredAt(p[k].fields, o.fields[k], n[k].fields, Below(l, k), rest, i - 1);
      PrefixStep(o, path, i);
      PrefixStep(Obj(n), path, i);
      LiveStep(Obj(l), path, i - 1);
    }
  }

  /** Where it does not stop there is an object. */
  lemma {:induction false} WalkedThrough(p: Fields, o: Json, n: Fields, l: Fields, path: Path)
    requires o.Obj? && forall j :: 0 < j <= |path| ==> AllObjects(Obj(p), o, Obj(n), path, j)
    ensures IsObj(At(Obj(Restored(p, o, n, l)), path))
    decreases |path|
  {
    if path != [] {
      var k, rest := path[0], path[1..];
      FirstKey(Obj(p), path);
      FirstKey(o, path);
      FirstKey(Obj(n), path);
      assert AllObjects(Obj(p), o, Obj(n), path, 1);
      forall j | 0 < j <= |rest| ensures AllObjects(Obj(p[k].fields), o.fields[k], Obj(n[k].fields), rest, j) {
        AllObjectsStep(Obj(p), o, Obj(n), path, j);
      }
      WalkedThrough(p[k].fields, o.fields[k], n[k].fields, Below(l, k), rest);
    }
  }

  lemma FirstKey(j: Json, path: Path)
    requires j.Obj? && path != []
    ensures At(j, path[..1]) == Lookup(j.fields, path[0])
  {
    AtOne(j, path[..1]);
  }

  /** The walk stops at the first key exactly when one of the trees has no object there. */
  lemma StopsFirst(p: Json, o: Json, n: Json, path: Path, i: nat)
    requires StopsAt(p, o, n, path, i)
    ensures 0 < i <= |path| && (i == 1 <==> !AllObjects(p, o, n, path, 1))
  {
    assert i > 1 ==> AllObjects(p, o, n, path, 1);
  }

  lemma AllObjectsStep(p: Json, o: Json, n: Json, path: Path, i: nat)
    requires p.Obj? && o.Obj? && n.Obj? && i < |path|
    requires path[0] in p.fields && path[0] in o.fields && path[0] in n.fields
    ensures AllObjects(p, o, n, path, i + 1) <==>
            AllObjects(p.fields[path[0]], o.fields[path[0]], n.fields[path[0]], path[1..], i)
  {
    PrefixStep(p, path, i + 1);
    PrefixStep(o, path, i + 1);
    PrefixStep(n, path, i + 1);
  }

  lemma StopsBelow(p: Json, o: Json, n: Json, path: Path, i: nat)
    requires StopsAt(p, o, n, path, i) && i > 1 && p.Obj? && o.Obj? && n.Obj?
    requires path[0] in p.fields && path[0] in o.fields && path[0] in n.fields
    ensures StopsAt(p.fields[path[0]], o.fields[path[0]], n.fields[path[0]], path[1..], i - 1)
  {
    AllObjectsStep(p, o, n, path, i - 1);
    forall j | 0 < j < i - 1
      ensures AllObjects(p.fields[path[0]], o.fields[path[0]], n.fields[path[0]], path[1..], j)
    {
      AllObjectsStep(p, o, n, path, j);
      assert AllObjects(p, o, n, path, j + 1);
    }
  }

  lemma LiveStep(l: Json, path: Path, i: nat)
    requires l.Obj? && |path| > 1 && 0 < i < |path|
    ensures At(l, path[..i + 1]) == At(Obj(Below(l.fields, path[0])), path[1..][..i])
  {
    var prefix := path[..i + 1];
    assert prefix[1..] == path[1..][..i] && prefix[0] == path[0] && prefix[1..] != [];
  }

  /** A field that the normalizer changed or dropped, and that the walk reaches, keeps the patched value or absence. */
  lemma IgnoredFieldKept(p: Fields, o: Json, n: Fields, l: Fields, path: Path)
    requires o.Obj? && At(o, path).Some? && At(Obj(n), path) != At(o, path)
    requires StopsAt(Obj(p), o, Obj(n), path, |path|)
    ensures At(Obj(Restored(p, o, n, l)), path) == At(Obj(p), path)
  {
    assert path[..|path|] == path;
    RestoredAt(p, o, n, l, path, |path|);
  }

  /**
   Where it stops, the walk takes away what is below: a key the original lacks and the
   normalized live tree has, or a place that it gives back to the original.
   */
  ghost predicate Removes(p: Json, o: Json, n: Json, l: Json, path: Path, i: nat)
  {
    && StopsAt(p, o, n, path, i)
    && (if At(o, path[..i]).None? then At(l, path[..i]).Some? else At(n, path[..i]) == At(o, path[..i]))
  }

  /** For every path that the original lacks: what the patched tree has there is kept, unless the walk removes it. */
  lemma LiveOnlyKey(p: Fields, o: Json, n: Fields, l: Fields, path: Path)
    requires o.Obj? && path != [] && At(o, path).None?
    ensures At(Obj(Restored(p, o, n, l)), path) ==
            if exists i: nat :: Removes(Obj(p), o, Obj(n), Obj(l), path, i) then None else At(Obj(p), path)
  {
    hide StopsAt;
    assert path[..|path|] == path;
    var i := FindStop(Obj(p), o, Obj(n), path, |path|);
    RestoredAt(p, o, n, l, path, i);
    forall j: nat | Removes(Obj(p), o, Obj(n), Obj(l), path, j) ensures j == i {
      OneStop(Obj(p), o, Obj(n), path, i, j);
    }
    assert Removes(Obj(p), o, Obj(n), Obj(l), path, i) <==>
        if At(o, path[..i]).None? then At(Obj(l), path[..i]).Some? else At(Obj(n), path[..i]) == At(o, path[..i]);
  }

  lemma {:induction false} FindStop(p: Json, o: Json, n: Json, path: Path, k: nat) returns (i: nat)
    requires 0 < k <= |path| && !AllObjects(p, o, n, path, k)
    ensures StopsAt(p, o, n, path, i)
    decreases k
  {
    if j :| 0 < j < k && !AllObjects(p, o, n, path, j) {
      i := FindStop(p, o, n, path, j);
    } else {
      i := k;
    }
  }

  lemma OneStop(p: Json, o: Json, n: Json, path: Path, i: nat, j: nat)
    requires StopsAt(p, o, n, path, i) && StopsAt(p, o, n, path, j)
    ensures i == j
  {
  }

  /** Objects at every proper, non-empty prefix shorter than n. */
  ghost predicate ObjectsBelow(j: Json, path: Path, n: nat)
    requires n <= |path|
  {
    forall i :: 0 < i < n ==> IsObj(At(j, path[..i]))
  }

  /** The walk stops at the prefix of length i, where the normalizer has changed nothing at all. */
  ghost predicate StopsUntouched(p: Json, o: Json, n: Json, path: Path, i: nat)
  {
    && 0 < i < |path| && ObjectsBelow(p, path, i) && !IsObj(At(p, path[..i]))
    && At(n, path[..i]) == At(o, path[..i])
  }

  /** A value that is not an object, and that the normalizer left alone. */
  ghost predicate LeftAlone(o: Json, n: Json, path: Path)
  {
    path != [] && At(o, path).Some? && !At(o, path).value.Obj? && At(n, path) == At(o, path)
  }

  lemma {:induction false} ObjectAbove(j: Json, path: Path, i: nat)
    requires At(j, path).Some? && i < |path|
    ensures IsObj(At(j, path[..i]))
    decreases i
  {
    if i > 0 {
      PrefixStep(j, path, i);
      ObjectAbove(j.fields[path[0]], path[1..], i - 1);
    }
  }

  /**
   A leaf left alone ends with the original value exactly when the patched tree has objects
   all the way down to it, or the normalizer changed nothing where it first has none.
   */
  lemma LeafRestoredIff(p: Fields, o: Json, n: Fields, l: Fields, path: Path)
    requires o.Obj? && LeftAlone(o, Obj(n), path)
    ensures At(Obj(Restored(p, o, n, l)), path) == At(o, path) <==>
              ObjectsBelow(Obj(p), path, |path|) || exists i: nat :: StopsUntouched(Obj(p), o, Obj(n), path, i)
  {
    hide At, StopsUntouched;
    assert path[..|path|] == path;
    var i := FindStop(Obj(p), o, Obj(n), path, |path|);
    RestoredAt(p, o, n, l, path, i);
    if i < |path| {
      ObjectAbove(o, path, i);
      ObjectAbove(Obj(n), path, i);
      if At(Obj(p), path).Some? { ObjectAbove(Obj(p), path, i); }
      StopsForPatched(Obj(p), o, Obj(n), path, i);
    } else {
      PatchedObjects(Obj(p), o, Obj(n), path, i);
    }
  }

  lemma PatchedObjects(p: Json, o: Json, n: Json, path: Path, i: nat)
    requires StopsAt(p, o, n, path, i)
    ensures ObjectsBelow(p, path, i)
  {
    hide At;
    forall j | 0 < j < i ensures IsObj(At(p, path[..j])) { assert AllObjects(p, o, n, path, j); }
  }

  /** When it is the patched tree that has no object where the walk stops. */
  lemma StopsForPatched(p: Json, o: Json, n: Json, path: Path, i: nat)
    requires StopsAt(p, o, n, path, i) && i < |path| && !IsObj(At(p, path[..i]))
    ensures !ObjectsBelow(p, path, |path|)
    ensures (exists j: nat :: StopsUntouched(p, o, n, path, j)) <==> At(n, path[..i]) == At(o, path[..i])
  {
    hide At;
    PatchedObjects(p, o, n, path, i);
    forall j: nat | i < j <= |path| ensures !ObjectsBelow(p, path, j) {
      assert !IsObj(At(p, path[..i]));
    }
    assert StopsUntouched(p, o, n, path, i) <==> At(n, path[..i]) == At(o, path[..i]);
    assert forall j: nat :: StopsUntouched(p, o, n, path, j) ==> j == i;
  }

  /** Every leaf of the result was at the same place in the patched or the original tree. */
  lemma {:induction false} NothingInvented(p: Fields, o: Json, n: Fields, l: Fields, path: Path)
    requires o.Obj?
    ensures var v := At(Obj(Restored(p, o, n, l)), path);
            v.Some? && !v.value.Obj? ==> v == At(Obj(p), path) || v == At(o, path)
    decreases |path|
  {
    if path != [] {
      var k, rest := path[0], path[1..];
      if k in o.fields && IsObj(Lookup(p, k)) && o.fields[k].Obj? && IsObj(Lookup(n, k)) {
        NothingInvented(p[k].fields, o.fields[k], n[k].fields, Below(l, k), rest);
      }
    }
  }
}
