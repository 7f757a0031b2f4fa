/**
 Requests to refresh applications: a level for each application that only rises until it
 is consumed, and requests delayed as text keys.
 */
module Refresh {
  import opened Options
  import opened Decimal

  //////// The register ////////

  datatype Event = Post(key: string, level: int) | Take(key: string)

  /** The levels posted for key since it was last taken. */
  ghost function Since(history: seq<Event>, key: string): (r: seq<int>)
  {
    if history == [] then []
    else
      var before, e := history[..|history| - 1], history[|history| - 1];
      if e.key != key then Since(before, key)
      else if e.Take? then [] else Since(before, key) + [e.level]
  }

  /** The highest of the levels, and at least zero. */
  ghost function Highest(levels: seq<int>): (r: int)
    ensures r >= 0
    ensures forall l | l in levels :: l <= r
    ensures r == 0 || r in levels
  {
    if levels == [] then 0
    else
      var last, rest := levels[|levels| - 1], Highest(levels[..|levels| - 1]);
      assert levels == levels[..|levels| - 1] + [last];
      if last > rest then last else rest
  }

  lemma Posted(history: seq<Event>, e: Event, key: string)
    ensures Since(history + [e], key) ==
            if e.key != key then Since(history, key) else if e.Take? then [] else Since(history, key) + [e.level]
  {
    assert (history + [e])[..|history|] == history;
  }

  lemma HighestOneMore(levels: seq<int>, l: int)
    ensures Highest(levels + [l]) == if l > Highest(levels) then l else Highest(levels)
  {
    assert (levels + [l])[..|levels|] == levels;
  }

  class Controller {
    const namespace: string
    var requested: map<string, int>
    var delayed: set<string>
    var queue: set<string>
    ghost var history: seq<Event>

    ghost predicate Valid()
      reads this
    {
      forall k :: (k in requested <==> Since(history, k) != []) &&
          (k in requested ==> requested[k] == Highest(Since(history, k)))
    }

    constructor (ns: string)
      ensures Valid() && history == [] && namespace == ns && delayed == {}
    {
      namespace, requested, delayed, queue, history := ns, map[], {}, {}, [];
    }

    /** Only a request with a level and without a delay is posted at once. */
    method RequestAppRefresh(appName: string, compareWith: Option<int>, after: Option<nat>)
      requires Valid()
      modifies this
      ensures Valid()
      ensures var key := ToAppKey(namespace, appName);
              && history == (if compareWith.Some? && after.None? then old(history) + [Post(key, compareWith.value)]
                   else old(history))
              && delayed == (if compareWith.Some? && after.Some?
                   then old(delayed) + {key + "/" + Itoa(compareWith.value)} else old(delayed))
              && queue == (if compareWith.Some? && after.Some? then old(queue) else old(queue) + {key})
    {
      hide ToAppKey, Itoa, Since, Highest;
      var key := ToAppKey(namespace, appName);
      if compareWith.Some? && after.Some? {
        delayed := delayed + {key + "/" + Itoa(compareWith.value)};
      } else {
        if compareWith.Some? {
          var level := compareWith.value;
          Rises(requested, history, key, level);
          var current := if key in requested then requested[key] else 0;
          requested := requested[key := if level > current then level else current];
          history := history + [Post(key, level)];
        }
        queue := queue + {key};
      }
    }

    /** The level consumed is the highest of all posted since the last consumption. */
    method IsRefreshRequested(key: string) returns (ok: bool, level: int)
      requires Valid()
      modifies this
      ensures Valid()
      ensures history == old(history) + [Take(key)] && delayed == old(delayed) && queue == old(queue)
      ensures ok <==> Since(old(history), key) != []
      ensures level == Highest(Since(old(history), key))
    {
      ok := key in requested;
      level := if ok then requested[key] else 0;
      if ok { requested := requested - {key}; }
      forall k ensures Since(history + [Take(key)], k) == if k == key then [] else Since(history, k) {
        Posted(history, Take(key), k);
      }
      history := history + [Take(key)];
    }

    /** A delayed key comes due: a well-formed one is posted, any other is dropped. */
    method ProcessComparisonTypeQueueItem(item: string)
      requires Valid() && item in delayed
      modifies this
      ensures Valid() && delayed == old(delayed) - {item}
      ensures history == match Decoded(item)
                         case None => old(history)
                         case Some((ns, name, level)) => old(history) + [Post(ns + "/" + name, level)]
    {
      delayed := delayed - {item};
      var parts := Split(item);
      if |parts| == 3 {
        var compareWith := Atoi(parts[2]);
        if compareWith.None? { return; }
        var name := parts[0] + "/" + parts[1];
        assert '/' in name;
        RequestAppRefresh(name, compareWith, None);
      }
    }
  }

  lemma Rises(requested: map<string, int>, history: seq<Event>, key: string, level: int)
    requires forall k :: (k in requested <==> Since(history, k) != []) &&
               (k in requested ==> requested[k] == Highest(Since(history, k)))
    ensures forall k :: Since(history + [Post(key, level)], k) == if k == key then Since(history, k) + [level]
              else Since(history, k)
    ensures var current := if key in requested then requested[key] else 0;
            Highest(Since(history, key) + [level]) == if level > current then level else current
  {
    forall k ensures Since(history + [Post(key, level)], k) == if k == key then Since(history, k) + [level]
        else Since(history, k) {
      Posted(history, Post(key, level), k);
    }
    HighestOneMore(Since(history, key), level);
    assert key !in requested ==> Highest(Since(history, key)) == 0;
  }

  //////// Keys ////////

  function ReplaceUnderscores(s: string): (r: string)
    ensures |r| == |s| && forall i :: 0 <= i < |s| ==> r[i] == if s[i] == '_' then '/' else s[i]
  {
    seq(|s|, i requires 0 <= i < |s| => if s[i] == '_' then '/' else s[i])
  }

  function ToAppKey(namespace: string, appName: string): (key: string)
  {
    if '_' !in appName && '/' !in appName then namespace + "/" + appName
    else if '/' in appName then appName
    else ReplaceUnderscores(appName)
  }

  /** The parts of s between slashes. */
  function Split(s: string): (parts: seq<string>)
    ensures |parts| == Slashes(s) + 1
  {
    if s == [] then [""]
    else
      var c, before := s[|s| - 1], Split(s[..|s| - 1]);
      if c == '/' then before + [""] else before[|before| - 1 := before[|before| - 1] + [c]]
  }

  function Slashes(s: string): (n: nat)
  {
    if s == [] then 0 else Slashes(s[..|s| - 1]) + (if s[|s| - 1] == '/' then 1 else 0)
  }

  /** The application and level a delayed key stands for. */
  function Decoded(item: string): (r: Option<(string, string, int)>)
  {
    var parts := Split(item);
    if |parts| != 3 || Atoi(parts[2]).None? then None else Some((parts[0], parts[1], Atoi(parts[2]).value))
  }

  lemma {:induction false} SlashesAppend(s: string, t: string)
    ensures Slashes(s + t) == Slashes(s) + Slashes(t)
    decreases |t|
  {
    if t == [] {
      assert s + t == s;
    } else {
      SlashesAppend(s, t[..|t| - 1]);
      assert (s + t)[..|s + t| - 1] == s + t[..|t| - 1];
    }
  }

  lemma {:induction false} NoSlashes(s: string)
    ensures Slashes(s) == 0 <==> '/' !in s
    decreases |s|
  {
    if s != [] {
      NoSlashes(s[..|s| - 1]);
      assert s == s[..|s| - 1] + [s[|s| - 1]];
    }
  }

  /** A last part without slashes is split off whole. */
  lemma {:induction false} SplitLast(s: string, t: string)
    requires '/' !in t
    ensures Split(s + "/" + t) == Split(s) + [t]
    decreases |t|
  {
    var whole := s + "/" + t;
    if t == [] {
      assert whole[..|whole| - 1] == s;
    } else {
      var t', c := t[..|t| - 1], t[|t| - 1];
      assert c in t && forall x | x in t' :: x in t;
      SplitLast(s, t');
      assert whole[..|whole| - 1] == s + "/" + t';
      assert t == t' + [c];
    }
  }

  lemma {:induction false} SplitWhole(t: string)
    requires '/' !in t
    ensures Split(t) == [t]
    decreases |t|
  {
    if t != [] {
      var t', c := t[..|t| - 1], t[|t| - 1];
      assert c in t && forall x | x in t' :: x in t;
      SplitWhole(t');
      assert t == t' + [c];
    }
  }

  /** A delayed request comes back as the same application and level exactly when neither name has a slash. */
  lemma DelayedRoundTrip(ns: string, name: string, level: int)
    requires -0x8000_0000_0000_0000 <= level <= 0x7fff_ffff_ffff_ffff
    ensures Decoded(ns + "/" + name + "/" + Itoa(level)) == Some((ns, name, level)) <==> '/' !in ns && '/' !in name
  {
    var digits := Itoa(level);
    assert '/' !in digits;
    var head := ns + "/" + name;
    SplitLast(head, digits);
    AtoiOfItoa(level);
    if '/' !in ns && '/' !in name {
      SplitLast(ns, name);
      SplitWhole(ns);
    } else {
      NoSlashes(ns);
      NoSlashes(name);
      SlashesAppend(ns, "/");
      SlashesAppend(ns + "/", name);
      assert Slashes("/") == 1 by { assert "/"[..0] == ""; }
    }
  }

  /** All three spellings of an application give one key. */
  lemma KeyOfSpellings(namespace: string, ns: string, name: string)
    requires '/' !in ns && '/' !in name && '_' !in ns && '_' !in name
    ensures ToAppKey(namespace, ns + "/" + name) == ns + "/" + name
    ensures ToAppKey(namespace, ns + "_" + name) == ns + "/" + name
    ensures ToAppKey(ns, name) == ns + "/" + name
  {
    var q, u := ns + "/" + name, ns + "_" + name;
    assert q[|ns|] == '/' && u[|ns|] == '_';
    var r := ReplaceUnderscores(u);
    assert '/' !in u;
    assert r == q;
  }
}
