/**
 Removing finalizers from the list of an object.  The list is a prefix of a backing array;
 a removal moves the last element into the gap, and the loop that removes several goes on
 over the array it started with, stale tail included.
 */
module FinalizerList {

  /** k is where name first occurs among the first len, or -1. */
  method GetFinalizerIndex(a: array<string>, len: nat, name: string) returns (k: int)
    requires len <= a.Length
    ensures -1 <= k < len
    ensures k == -1 ==> name !in a[..len]
    ensures k >= 0 ==> a[k] == name && forall j :: 0 <= j < k ==> a[j] != name
  {
    for i := 0 to len
      invariant forall j :: 0 <= j < i ==> a[j] != name
    {
      if a[i] == name { return i; }
    }
    return -1;
  }

  function Count(s: seq<string>, x: string): (c: nat)
  {
    if s == [] then 0 else Count(s[..|s| - 1], x) + (if s[|s| - 1] == x then 1 else 0)
  }

  lemma {:induction false} CountAppend(s: seq<string>, t: seq<string>, x: string)
    ensures Count(s + t, x) == Count(s, x) + Count(t, x)
    decreases |t|
  {
    if t == [] {
      assert s + t == s;
    } else {
      CountAppend(s, t[..|t| - 1], x);
      assert (s + t)[..|s + t| - 1] == s + t[..|t| - 1];
    }
  }

  lemma {:induction false} CountZero(s: seq<string>, x: string)
    requires x !in s
    ensures Count(s, x) == 0
    decreases |s|
  {
    if s != [] { CountZero(s[..|s| - 1], x); }
  }

  function One(x: string, y: string): (r: nat) { if x == y then 1 else 0 }

  /** The last element takes the place of the one removed. */
  lemma SwapRemoved(s: seq<string>, k: nat, x: string)
    requires k < |s|
    ensures Count(s[k := s[|s| - 1]][..|s| - 1], x) == Count(s, x) - One(s[k], x)
  {
    var n := |s| - 1;
    var t := s[k := s[n]][..n];
    if k == n {
      assert t == s[..n];
    } else {
      var p, q := s[..k], s[k + 1..n];
      assert s[..n] == p + ([s[k]] + q);
      assert t == p + ([s[n]] + q);
      CountAppend(p, [s[k]] + q, x);
      CountAppend(p, [s[n]] + q, x);
      CountAppend([s[k]], q, x);
      CountAppend([s[n]], q, x);
      assert [s[k]][..0] == [] && [s[n]][..0] == [];
    }
  }

  /** One occurrence of name fewer, if there was one. */
  ghost predicate OneFewer(s: seq<string>, t: seq<string>, name: string)
  {
    forall x :: Count(t, x) == if x == name && Count(s, x) > 0 then Count(s, x) - 1 else Count(s, x)
  }

  /** Removes one occurrence of name, if any, disturbing nothing but where it first occurs. */
  method UnSetFinalizer(a: array<string>, len: nat, name: string) returns (left: nat)
    requires len <= a.Length
    modifies a
    ensures left <= len
    ensures OneFewer(old(a[..len]), a[..left], name)
    ensures forall j :: 0 <= j < a.Length && a[j] != old(a[j]) ==> forall i :: 0 <= i < j ==> old(a[i]) != name
  {
    hide Count;
    var k := GetFinalizerIndex(a, len, name);
    ghost var s := a[..len];
    if k == -1 {
      CountZero(s, name);
      return len;
    }
    forall x ensures Count(s[k := s[len - 1]][..len - 1], x) == Count(s, x) - One(s[k], x) {
      SwapRemoved(s, k, x);
    }
    assert Count(s[k := s[len - 1]][..len - 1], name) == Count(s, name) - 1;
    a[k] := a[len - 1];
    left := len - 1;
    assert a[..left] == s[k := s[len - 1]][..left];
  }

  /** Each chosen name left in the list is still to be met in the rest of the array. */
  ghost predicate StillAhead(list: seq<string>, rest: seq<string>, chosen: string -> bool)
  {
    forall x | chosen(x) :: Count(list, x) <= Count(rest, x)
  }

  ghost predicate OthersKept(list: seq<string>, whole: seq<string>, chosen: string -> bool)
  {
    forall x | !chosen(x) :: Count(list, x) == Count(whole, x)
  }

  lemma Visited(list: seq<string>, list': seq<string>, rest: seq<string>, whole: seq<string>, chosen: string -> bool)
    requires rest != [] && StillAhead(list, rest, chosen) && OthersKept(list, whole, chosen)
    requires if chosen(rest[0]) then OneFewer(list, list', rest[0]) else list' == list
    ensures StillAhead(list', rest[1..], chosen) && OthersKept(list', whole, chosen)
  {
    hide Count;
    forall x ensures Count(rest, x) == One(rest[0], x) + Count(rest[1..], x) {
      FirstCounts(rest, x);
    }
  }

  lemma FirstCounts(rest: seq<string>, x: string)
    requires rest != []
    ensures Count(rest, x) == One(rest[0], x) + Count(rest[1..], x)
  {
    CountAppend([rest[0]], rest[1..], x);
    assert rest == [rest[0]] + rest[1..] && [rest[0]][..0] == [];
  }

  /** Every finalizer chosen is gone and every other one is there as often as before. */
  method UnSetMatching(a: array<string>, n: nat, chosen: string -> bool) returns (len: nat)
    requires n <= a.Length
    modifies a
    ensures len <= n
    ensures forall x :: Count(a[..len], x) == if chosen(x) then 0 else Count(old(a[..n]), x)
  {
    hide Count, StillAhead, OthersKept, OneFewer;
    len := n;
    ghost var whole := a[..n];
    assert StillAhead(whole, a[0..n], chosen) && OthersKept(whole, whole, chosen) by {
      AtFirst(whole, chosen);
      assert a[0..n] == whole;
    }
    var i := 0;
    while i < n
      invariant 0 <= i <= n && len <= n
      invariant StillAhead(a[..len], a[i..n], chosen)
      invariant OthersKept(a[..len], whole, chosen)
    {
      ghost var list, rest := a[..len], a[i..n];
      ghost var before := a[..];
      var f := a[i];
      if chosen(f) {
        len := UnSetFinalizer(a, len, f);
        assert forall j :: i < j < n ==> a[j] == before[j];
      }
      assert a[i + 1..n] == rest[1..];
      Visited(list, a[..len], rest, whole, chosen);
      i := i + 1;
    }
    AtLast(a[..len], a[n..n], whole, chosen);
  }

  lemma AtFirst(whole: seq<string>, chosen: string -> bool)
    ensures StillAhead(whole, whole, chosen) && OthersKept(whole, whole, chosen)
  {
  }

  lemma AtLast(list: seq<string>, rest: seq<string>, whole: seq<string>, chosen: string -> bool)
    requires rest == [] && StillAhead(list, rest, chosen) && OthersKept(list, whole, chosen)
    ensures forall x :: Count(list, x) == if chosen(x) then 0 else Count(whole, x)
  {
  }
}
