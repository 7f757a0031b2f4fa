/**
 The wire grammar of a record, groups included, as an independent account of what
 the skipper must step over.
 */
module Groups {
  import opened Bits
  import opened Varint
  import opened Wire

  datatype Item =
    | VarintItem(num: nat, v: uint64)
    | Fixed64Item(num: nat, eight: Bytes)
    | BytesItem(num: nat, payload: Bytes)
    | GroupItem(num: nat, items: Items)
    | Fixed32Item(num: nat, four: Bytes)

  datatype Items = Nil | Cons(head: Item, tail: Items)

  predicate WellFormed(x: Item)
  {
    && 1 <= x.num < TWO32 / 2
    && (x.Fixed64Item? ==> |x.eight| == 8)
    && (x.Fixed32Item? ==> |x.four| == 4)
    && (x.GroupItem? ==> AllWellFormed(x.items))
  }

  predicate AllWellFormed(xs: Items)
  {
    xs.Cons? ==> WellFormed(xs.head) && AllWellFormed(xs.tail)
  }

  function ItemBytes(x: Item): (r: seq<byte>)
    ensures |r| > 0
  {
    match x
    case VarintItem(num, v) => Tag(num, 0) + EncodeVarint(v)
    case Fixed64Item(num, b) => Tag(num, 1) + b
    case BytesItem(num, p) => Tag(num, 2) + (EncodeVarint(|p|) + p)
    case GroupItem(num, xs) => Tag(num, 3) + (ItemsBytes(xs) + Tag(num, 4))
    case Fixed32Item(num, b) => Tag(num, 5) + b
  }

  function ItemsBytes(xs: Items): (r: seq<byte>)
  {
    match xs
    case Nil => []
    case Cons(x, t) => ItemBytes(x) + ItemsBytes(t)
  }

  /** What remains to be skipped once everything before i is behind. */
  function Continue(s: Bytes, i: nat, depth: nat): (r: Result<nat>)
    requires i <= |s|
  {
    if depth == 0 then Ok(i) else SkipFrom(s, i, depth)
  }

  lemma StepTag(s: Bytes, pre: seq<byte>, num: nat, wireType: nat, tail: seq<byte>, depth: nat)
    requires s == pre + (Tag(num, wireType) + tail)
    requires num < TWO32 / 2 && wireType < 8
    ensures SkipItem(s, |pre|, depth) ==
            match SkipPayload(s, wireType, |pre| + |Tag(num, wireType)|, depth)
            case Err(e) => Err(e)
            case Ok((next, d)) => if next < 0 then Err(InvalidLength) else Ok((next, d))
  {
    hide Read, SkipPayload, Tag;
    ReadsTag(num, wireType, pre, tail);
    TagParts(num, wireType);
  }

  lemma StepItem(s: Bytes, i: nat, depth: nat, next: nat, d: nat)
    requires i < |s| && next <= |s|
    requires SkipItem(s, i, depth) == Ok((next, d))
    ensures SkipFrom(s, i, depth) == Continue(s, next, d)
  {
    hide SkipItem;
  }

  lemma PayloadEnds(s: Bytes, x: Item, before: seq<byte>, body: seq<byte>, rest: seq<byte>, depth: nat)
    requires !x.GroupItem? && WellFormed(x)
    requires s == before + (body + rest)
    requires body == match x
                     case VarintItem(_, v) => EncodeVarint(v)
                     case Fixed64Item(_, b) => b
                     case BytesItem(_, p) => EncodeVarint(|p|) + p
                     case GroupItem(_, _) => []
                     case Fixed32Item(_, b) => b
    ensures SkipPayload(s, ItemType(x), |before|, depth) == Ok((|before| + |body|, depth))
  {
    hide Read, EncodeVarint;
    match x
    case VarintItem(_, v) =>
      assert s[|before|..] == EncodeVarint(v) + rest;
      ReadEncoded(v, rest);
    case BytesItem(_, p) =>
      assert s[|before|..] == EncodeVarint(|p|) + (p + rest);
      ReadEncoded(|p|, p + rest);
    case Fixed64Item(_, _) =>
    case Fixed32Item(_, _) =>
  }

  function ItemType(x: Item): (r: nat)
  {
    match x
    case VarintItem(_, _) => 0
    case Fixed64Item(_, _) => 1
    case BytesItem(_, _) => 2
    case GroupItem(_, _) => 3
    case Fixed32Item(_, _) => 5
  }

  lemma SkipsLeaf(s: Bytes, pre: seq<byte>, x: Item, rest: seq<byte>, depth: nat)
    requires s == pre + (ItemBytes(x) + rest)
    requires WellFormed(x) && !x.GroupItem?
    ensures SkipFrom(s, |pre|, depth) == Continue(s, |pre| + |ItemBytes(x)|, depth)
  {
    hide SkipFrom, SkipPayload, SkipItem, Tag, EncodeVarint;
    var tag := Tag(x.num, ItemType(x));
    var body := ItemBytes(x)[|tag|..];
    assert ItemBytes(x) == tag + body;
    Regroup(s, pre, tag, body, rest);
    StepTag(s, pre, x.num, ItemType(x), body + rest, depth);
    PayloadEnds(s, x, pre + tag, body, rest, depth);
    StepItem(s, |pre|, depth, |pre| + |tag| + |body|, depth);
  }

  lemma Regroup(s: seq<byte>, pre: seq<byte>, a: seq<byte>, b: seq<byte>, rest: seq<byte>)
    requires s == pre + ((a + b) + rest)
    ensures s == pre + (a + (b + rest))
    ensures s == (pre + a) + (b + rest)
  {
    assert (a + b) + rest == a + (b + rest);
  }

  /** A tag that opens or closes a group moves one level and takes no payload. */
  lemma SkipsGroupTag(s: Bytes, pre: seq<byte>, num: nat, wireType: nat, tail: seq<byte>, depth: nat)
    requires s == pre + (Tag(num, wireType) + tail)
    requires num < TWO32 / 2
    requires wireType == 3 || (wireType == 4 && depth > 0)
    ensures SkipFrom(s, |pre|, depth) ==
            Continue(s, |pre| + |Tag(num, wireType)|, if wireType == 3 then depth + 1 else depth - 1)
  {
    hide SkipFrom, SkipPayload, SkipItem, Tag;
    var j := |pre| + |Tag(num, wireType)|;
    StepTag(s, pre, num, wireType, tail, depth);
    OpenClose(s, j, depth);
    StepItem(s, |pre|, depth, j, if wireType == 3 then depth + 1 else depth - 1);
  }

  /** One record, however deep its groups, is stepped over as a whole. */
  lemma {:induction false} SkipsItem(s: Bytes, pre: seq<byte>, x: Item, rest: seq<byte>, depth: nat)
    requires s == pre + (ItemBytes(x) + rest)
    requires WellFormed(x)
    ensures SkipFrom(s, |pre|, depth) == Continue(s, |pre| + |ItemBytes(x)|, depth)
    decreases x
  {
    hide SkipFrom, Tag;
    if x.GroupItem? {
      var open, inner, close := Tag(x.num, 3), ItemsBytes(x.items), Tag(x.num, 4);
      Regroup(s, pre, open, inner + close, rest);
      SkipsGroupTag(s, pre, x.num, 3, (inner + close) + rest, depth);
      Regroup(s, pre + open, inner, close, rest);
      SkipsItems(s, pre + open, x.items, close + rest, depth + 1);
      SkipsGroupTag(s, pre + open + inner, x.num, 4, rest, depth + 1);
    } else {
      SkipsLeaf(s, pre, x, rest, depth);
    }
  }

  lemma OpenClose(s: Bytes, j: nat, depth: nat)
    requires j <= |s|
    ensures SkipPayload(s, 3, j, depth) == Ok((j, depth + 1))
    ensures depth > 0 ==> SkipPayload(s, 4, j, depth) == Ok((j, depth - 1))
  {
  }

  lemma {:induction false} SkipsItems(s: Bytes, pre: seq<byte>, xs: Items, rest: seq<byte>, depth: nat)
    requires s == pre + (ItemsBytes(xs) + rest)
    requires AllWellFormed(xs) && depth > 0
    ensures SkipFrom(s, |pre|, depth) == SkipFrom(s, |pre| + |ItemsBytes(xs)|, depth)
    decreases xs
  {
    hide SkipFrom, ItemBytes;
    match xs
    case Nil =>
    case Cons(x, t) =>
      assert s == pre + (ItemBytes(x) + (ItemsBytes(t) + rest));
      SkipsItem(s, pre, x, ItemsBytes(t) + rest, depth);
      assert s == (pre + ItemBytes(x)) + (ItemsBytes(t) + rest);
      SkipsItems(s, pre + ItemBytes(x), t, rest, depth);
  }

  /** Any records of undeclared field numbers may stand in the unrecognised bytes. */
  lemma {:induction false} RecordsAreUnknown(kinds: map<int, Kind>, pre: seq<byte>, xs: Items, u: Bytes)
    requires u == pre + ItemsBytes(xs)
    requires AllWellFormed(xs) && Undeclared(kinds, xs)
    ensures UnknownFrom(kinds, u, |pre|)
    decreases xs
  {
    hide SkipFrom, ItemBytes, Read, Tag;
    if xs.Cons? {
      var x, rest := xs.head, ItemsBytes(xs.tail);
      var n := |ItemBytes(x)|;
      assert u[|pre|..] == [] + (ItemBytes(x) + rest);
      SkipsItem(u[|pre|..], [], x, rest, 0);
      StartsWithTag(x, rest);
      NextUnknown(kinds, u, |pre|, n);
      assert u == (pre + ItemBytes(x)) + rest;
      RecordsAreUnknown(kinds, pre + ItemBytes(x), xs.tail, u);
    }
  }

  lemma StartsWithTag(x: Item, rest: seq<byte>)
    requires WellFormed(x)
    ensures Read(ItemBytes(x) + rest).Ok?
    ensures Read(ItemBytes(x) + rest).value.0 % 8 != 4
    ensures ToInt32(Read(ItemBytes(x) + rest).value.0 / 8) == x.num
  {
    hide Read, Tag;
    var tag := Tag(x.num, ItemType(x));
    var body := ItemBytes(x)[|tag|..];
    assert ItemBytes(x) + rest == ([] + (tag + (body + rest)))[0..];
    ReadsTag(x.num, ItemType(x), [], body + rest);
    TagParts(x.num, ItemType(x));
  }

  predicate Undeclared(kinds: map<int, Kind>, xs: Items)
  {
    xs.Cons? ==> xs.head.num !in kinds && Undeclared(kinds, xs.tail)
  }
}
