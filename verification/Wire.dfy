/**
 The message layer: a message is a sequence of records, each a tag (field number
 and wire type) and a payload.  The generated decoders of all message types share
 one loop and differ only in their switch over field numbers; that switch is the
 parameter of the loop here.
 */
module Wire {
  import opened Bits
  import opened Varint

  /** The contents of a byte slice: its length fits the platform's 64-bit int. */
  type Bytes = s: seq<byte> | |s| < TWO63

  datatype Kind = VarintKind | BytesKind

  datatype Field =
    | VarintField(num: nat, v: uint64)
    | BytesField(num: nat, payload: seq<byte>)

  /** One turn of the decoding loop: a field of the message, or bytes to set aside. */
  datatype Token =
    | Known(field: Field, end: nat)
    | Unknown(end: nat)

  /** A message: its declared fields and the records it did not recognise. */
  datatype Msg<+T> = Msg(body: T, unrecognized: Bytes)

  /** What one generated message type contributes. */
  datatype Codec<!T> = Codec(
    kinds: map<int, Kind>,
    empty: T,
    put: (T, Field) -> Result<T>,
    fields: T -> seq<Field>)

  //////// Skipping ////////

  /** Index and group depth after the payload that starts at j. */
  function SkipPayload(s: Bytes, wireType: nat, j: nat, depth: nat): (r: Result<(int, nat)>)
    requires j <= |s|
    ensures r.Ok? ==> r.value.0 < TWO63
  {
    match wireType
    case 0 =>
      (match Read(s[j..])
       case Err(e) => Err(e)
       case Ok((_, n)) => Ok((j + n, depth)))
    case 1 => Ok((Wrap64(j + 8), depth))
    case 2 =>
      (match Read(s[j..])
       case Err(e) => Err(e)
       case Ok((v, n)) =>
         if ToInt64(v) < 0 then Err(InvalidLength)
         else Ok((Wrap64(j + n + ToInt64(v)), depth)))
    case 3 => Ok((j, depth + 1))
    case 4 => if depth == 0 then Err(UnexpectedEndOfGroup) else Ok((j, depth - 1))
    case 5 => Ok((Wrap64(j + 4), depth))
    case _ => Err(IllegalWireType)
  }

  function SkipItem(s: Bytes, i: nat, depth: nat): (r: Result<(nat, nat)>)
    requires i < |s|
    ensures r.Ok? ==> i < r.value.0 < TWO63
  {
    match Read(s[i..])
    case Err(e) => Err(e)
    case Ok((wire, n)) =>
      match SkipPayload(s, wire % 8, i + n, depth)
      case Err(e) => Err(e)
      case Ok((next, d)) => if next < 0 then Err(InvalidLength) else Ok((next, d))
  }

  /** Where the record that starts at i ends, depth groups being open. */
  function SkipFrom(s: Bytes, i: nat, depth: nat): (r: Result<nat>)
    requires i <= |s|
    ensures r.Ok? ==> i < r.value < TWO63
    decreases |s| - i
  {
    if i == |s| then Err(UnexpectedEOF)
    else
      match SkipItem(s, i, depth)
      case Err(e) => Err(e)
      case Ok((next, d)) =>
        if d == 0 then Ok(next)
        else if next >= |s| then Err(UnexpectedEOF)
        else SkipFrom(s, next, d)
  }

  method SkipPayloadAt(data: Bytes, wireType: nat, j: nat, depth: nat) returns (r: Result<(int, nat)>)
    requires j <= |data|
    ensures r == SkipPayload(data, wireType, j, depth)
  {
    match wireType {
      case 0 =>
        var v := ReadVarint(data, j);
        if v.Err? { return Err(v.error); }
        return Ok((v.value.1, depth));
      case 1 =>
        return Ok((Wrap64(j + 8), depth));
      case 2 =>
        var v := ReadVarint(data, j);
        if v.Err? { return Err(v.error); }
        var length := ToInt64(v.value.0);
        if length < 0 { return Err(InvalidLength); }
        return Ok((Wrap64(v.value.1 + length), depth));
      case 3 =>
        return Ok((j, depth + 1));
      case 4 =>
        if depth == 0 { return Err(UnexpectedEndOfGroup); }
        return Ok((j, depth - 1));
      case 5 =>
        return Ok((Wrap64(j + 4), depth));
      case _ =>
        return Err(IllegalWireType);
    }
  }

  method SkipPlugin(data: Bytes) returns (r: Result<nat>)
    ensures r == SkipFrom(data, 0, 0)
  {
    hide Read, SkipPayload;
    var i: int := 0;
    var depth := 0;
    while i < |data|
      invariant 0 <= i
      invariant SkipFrom(data, 0, 0) == if i <= |data| then SkipFrom(data, i, depth) else Err(UnexpectedEOF)
      decreases |data| - i
    {
      var tag := ReadVarint(data, i);
      if tag.Err? { return Err(tag.error); }
      var next := SkipPayloadAt(data, tag.value.0 % 8, tag.value.1, depth);
      if next.Err? { return Err(next.error); }
      assert SkipItem(data, i, depth) == if next.value.0 < 0 then Err(InvalidLength)
          else Ok((next.value.0, next.value.1));
      i, depth := next.value.0, next.value.1;
      if i < 0 { return Err(InvalidLength); }
      if depth == 0 { return Ok(i); }
    }
    return Err(UnexpectedEOF);
  }

  lemma SkipItemLocal(s: Bytes, t: Bytes, i: nat, depth: nat, end: nat)
    requires i < end <= |s| && end <= |t| && s[..end] == t[..end]
    requires SkipItem(s, i, depth).Ok? && SkipItem(s, i, depth).value.0 <= end
    ensures SkipItem(t, i, depth) == SkipItem(s, i, depth)
  {
    hide ReadFrom, SkipPayload;
    var (wire, n) := Read(s[i..]).value;
    PayloadWithin(s, wire % 8, i + n, depth);
    Agree(s, t, i, n, end);
    ReadLocal(s[i..], t[i..]);
    SkipPayloadLocal(s, t, wire % 8, i + n, depth, end);
  }

  /** A payload ends no earlier than it begins, or its end wraps around. */
  lemma PayloadWithin(s: Bytes, wireType: nat, j: nat, depth: nat)
    requires j <= |s| && SkipPayload(s, wireType, j, depth).Ok?
    ensures var next := SkipPayload(s, wireType, j, depth).value.0; next < 0 || j <= next
  {
    hide ReadFrom;
  }

  lemma SkipPayloadLocal(s: Bytes, t: Bytes, wireType: nat, j: nat, depth: nat, end: nat)
    requires j <= end <= |s| && end <= |t| && s[..end] == t[..end]
    requires SkipPayload(s, wireType, j, depth).Ok? && 0 <= SkipPayload(s, wireType, j, depth).value.0 <= end
    ensures SkipPayload(t, wireType, j, depth) == SkipPayload(s, wireType, j, depth)
  {
    hide ReadFrom;
    if wireType == 0 || wireType == 2 {
      Agree(s, t, j, Read(s[j..]).value.1, end);
      ReadLocal(s[j..], t[j..]);
    }
  }

  lemma Agree(s: seq<byte>, t: seq<byte>, i: nat, n: nat, end: nat)
    requires i + n <= end <= |s| && end <= |t| && s[..end] == t[..end]
    ensures s[i..][..n] == t[i..][..n]
  {
    assert s[i..][..n] == s[..end][i..i + n];
    assert t[i..][..n] == t[..end][i..i + n];
  }

  /** A record that is skipped is delimited by its own bytes. */
  lemma {:induction false} SkipLocal(s: Bytes, t: Bytes, i: nat, depth: nat, end: nat)
    requires i <= end <= |s| && end <= |t| && s[..end] == t[..end]
    requires SkipFrom(s, i, depth) == Ok(end)
    ensures SkipFrom(t, i, depth) == Ok(end)
    decreases |s| - i
  {
    var (next, d) := SkipItem(s, i, depth).value;
    SkipItemLocal(s, t, i, depth, end);
    if d != 0 { SkipLocal(s, t, next, d, end); }
  }

  //////// One field ////////

  function NextField(kinds: map<int, Kind>, data: Bytes, i: nat): (r: Result<Token>)
    requires i < |data|
    ensures r.Ok? ==> i < r.value.end <= |data|
  {
    match Read(data[i..])
    case Err(e) => Err(e)
    case Ok((wire, n)) =>
      var num, wireType, j := ToInt32(wire / 8), wire % 8, i + n;
      if wireType == 4 then Err(EndGroupForNonGroup)
      else if num <= 0 then Err(IllegalTag)
      else if num in kinds then DeclaredField(kinds[num], num, wireType, data, j)
      else
        match SkipFrom(data[i..], 0, 0)
        case Err(e) => Err(e)
        case Ok(k) =>
          if Wrap64(i + k) < 0 then Err(InvalidLength)
          else if Wrap64(i + k) > |data| then Err(UnexpectedEOF)
          else Ok(Unknown(i + k))
  }

  /** A declared field of the given kind whose payload starts at j. */
  function DeclaredField(kind: Kind, num: nat, wireType: nat, data: Bytes, j: nat): (r: Result<Token>)
    requires j <= |data|
    ensures r.Ok? ==> j < r.value.end <= |data|
  {
    if wireType != (if kind.VarintKind? then 0 else 2) then Err(WrongWireType)
    else
      match Read(data[j..])
      case Err(e) => Err(e)
      case Ok((v, k)) =>
        if kind.VarintKind? then Ok(Known(VarintField(num, v), j + k))
        else Delimited(num, data, j + k, ToInt64(v))
  }

  /** The length checks of a length-delimited payload that starts at j. */
  function Delimited(num: nat, data: Bytes, j: nat, length: int64): (r: Result<Token>)
    requires j <= |data|
    ensures r.Ok? ==>
              && length >= 0 && j + length <= |data|
              && r.value == Known(BytesField(num, data[j..j + length]), j + length)
  {
    if length < 0 then Err(InvalidLength)
    else
      var post := Wrap64(j + length);
      if post < 0 then Err(InvalidLength)
      else if post > |data| then Err(UnexpectedEOF)
      else Ok(Known(BytesField(num, data[j..post]), post))
  }

  method ParseField(kinds: map<int, Kind>, data: Bytes, start: nat) returns (r: Result<Token>)
    requires start < |data|
    ensures r == NextField(kinds, data, start)
  {
    hide Read, SkipFrom;
    var tag := ReadVarint(data, start);
    if tag.Err? { return Err(tag.error); }
    var wire, i := tag.value.0, tag.value.1;
    var num, wireType := ToInt32(wire / 8), wire % 8;
    if wireType == 4 { return Err(EndGroupForNonGroup); }
    if num <= 0 { return Err(IllegalTag); }
    if num in kinds {
      if wireType != (if kinds[num].VarintKind? then 0 else 2) { return Err(WrongWireType); }
      var v := ReadVarint(data, i);
      if v.Err? { return Err(v.error); }
      i := v.value.1;
      if kinds[num].VarintKind? { return Ok(Known(VarintField(num, v.value.0), i)); }
      var length := ToInt64(v.value.0);
      if length < 0 { return Err(InvalidLength); }
      var post := Wrap64(i + length);
      if post < 0 { return Err(InvalidLength); }
      if post > |data| { return Err(UnexpectedEOF); }
      return Ok(Known(BytesField(num, data[i..post]), post));
    } else {
      var skippy := SkipPlugin(data[start..]);
      if skippy.Err? { return Err(skippy.error); }
      if Wrap64(start + skippy.value) < 0 { return Err(InvalidLength); }
      if Wrap64(start + skippy.value) > |data| { return Err(UnexpectedEOF); }
      return Ok(Unknown(start + skippy.value));
    }
  }

  //////// Decoding ////////

  /** The message obtained by reading data from i on into m. */
  function Decode<T>(c: Codec<T>, m: Msg<T>, data: Bytes, i: nat): (r: Result<Msg<T>>)
    requires i <= |data|
    requires |m.unrecognized| <= i
    decreases |data| - i
  {
    if i == |data| then Ok(m)
    else
      match NextField(c.kinds, data, i)
      case Err(e) => Err(e)
      case Ok(Known(f, end)) =>
        (match c.put(m.body, f)
         case Err(e) => Err(e)
         case Ok(b) => Decode(c, Msg(b, m.unrecognized), data, end))
      case Ok(Unknown(end)) =>
        Decode(c, Msg(m.body, m.unrecognized + data[i..end]), data, end)
  }

  lemma DecodeKnown<T>(c: Codec<T>, m: Msg<T>, data: Bytes, i: nat, f: Field, end: nat)
    requires i < |data| && |m.unrecognized| <= i
    requires NextField(c.kinds, data, i) == Ok(Known(f, end))
    ensures c.put(m.body, f).Err? ==> Decode(c, m, data, i) == Err(c.put(m.body, f).error)
    ensures c.put(m.body, f).Ok? ==>
              Decode(c, m, data, i) == Decode(c, Msg(c.put(m.body, f).value, m.unrecognized), data, end)
  {
  }

  lemma DecodeUnknown<T>(c: Codec<T>, m: Msg<T>, data: Bytes, i: nat, end: nat)
    requires i < |data| && |m.unrecognized| <= i
    requires NextField(c.kinds, data, i) == Ok(Unknown(end))
    ensures Decode(c, m, data, i) == Decode(c, Msg(m.body, m.unrecognized + data[i..end]), data, end)
  {
  }

  /** Unmarshal into a fresh message. */
  function DecodeFresh<T>(c: Codec<T>, data: Bytes): (r: Result<Msg<T>>)
  {
    Decode(c, Msg(c.empty, []), data, 0)
  }

  /** The generated decoding loop; it ends exactly at the end of the input. */
  method Unmarshal<T>(c: Codec<T>, data: Bytes) returns (r: Result<Msg<T>>)
    ensures r == DecodeFresh(c, data)
  {
    hide NextField;
    var m := Msg(c.empty, []);
    var i := 0;
    while i < |data|
      invariant 0 <= i <= |data|
      invariant |m.unrecognized| <= i
      invariant DecodeFresh(c, data) == Decode(c, m, data, i)
      decreases |data| - i
    {
      var t := ParseField(c.kinds, data, i);
      match t {
        case Err(e) =>
          return Err(e);
        case Ok(Known(f, end)) =>
          var b := c.put(m.body, f);
          if b.Err? { return Err(b.error); }
          m := Msg(b.value, m.unrecognized);
          i := end;
        case Ok(Unknown(end)) =>
          m := Msg(m.body, m.unrecognized + data[i..end]);
          i := end;
      }
    }
    return Ok(m);
  }

  //////// Encoding ////////

  function Tag(num: nat, wireType: nat): (r: seq<byte>)
  {
    EncodeVarint(num * 8 + wireType)
  }

  function WireType(f: Field): (r: nat)
  {
    if f.VarintField? then 0 else 2
  }

  function Payload(f: Field): (r: seq<byte>)
    ensures |r| > 0
  {
    match f
    case VarintField(_, v) => EncodeVarint(v)
    case BytesField(_, p) => EncodeVarint(|p|) + p
  }

  function EncodeField(f: Field): (r: seq<byte>)
    ensures |r| > 0
  {
    Tag(f.num, WireType(f)) + Payload(f)
  }

  function Flatten(fs: seq<Field>): (r: seq<byte>)
  {
    if fs == [] then [] else EncodeField(fs[0]) + Flatten(fs[1..])
  }

  /** The wire form of a message, front to back. */
  function Encode<T>(c: Codec<T>, m: Msg<T>): (r: seq<byte>)
  {
    Flatten(c.fields(m.body)) + m.unrecognized
  }

  lemma {:induction false} FlattenAppend(a: seq<Field>, b: seq<Field>)
    ensures Flatten(a + b) == Flatten(a) + Flatten(b)
  {
    if a == [] {
      assert a + b == b;
    } else {
      assert (a + b)[1..] == a[1..] + b;
      FlattenAppend(a[1..], b);
    }
  }

  predicate FitsKinds(kinds: map<int, Kind>, f: Field)
  {
    && 1 <= f.num < TWO32 / 2
    && f.num in kinds
    && kinds[f.num] == (if f.VarintField? then VarintKind else BytesKind)
  }

  lemma ReadsTag(num: nat, wireType: nat, pre: seq<byte>, tail: seq<byte>)
    requires num < TWO32 / 2 && wireType < 8
    ensures Read((pre + (Tag(num, wireType) + tail))[|pre|..]) == Ok((num * 8 + wireType, |Tag(num, wireType)|))
  {
    hide Read, EncodeVarint;
    assert (pre + (Tag(num, wireType) + tail))[|pre|..] == Tag(num, wireType) + tail;
    ReadEncoded(num * 8 + wireType, tail);
  }

  lemma TagParts(num: nat, wireType: nat)
    requires num < TWO32 / 2 && wireType < 8
    ensures ToInt32((num * 8 + wireType) / 8) == num && (num * 8 + wireType) % 8 == wireType
  {
  }

  lemma ReadsPayload(f: Field, before: seq<byte>, rest: seq<byte>, data: Bytes)
    requires data == before + (Payload(f) + rest)
    ensures DeclaredField(if f.VarintField? then VarintKind else BytesKind, f.num, WireType(f), data, |before|) ==
            Ok(Known(f, |before| + |Payload(f)|))
  {
    hide Read, EncodeVarint;
    match f {
      case VarintField(num, v) =>
        assert data[|before|..] == EncodeVarint(v) + rest;
        ReadEncoded(v, rest);
      case BytesField(num, p) =>
        var len := EncodeVarint(|p|);
        assert data[|before|..] == len + (p + rest);
        ReadEncoded(|p|, p + rest);
        var k := |before| + |len|;
        assert data[k..k + |p|] == p;
    }
  }

  /** An encoded field is the next field read, whatever surrounds it. */
  lemma ReadsField(kinds: map<int, Kind>, f: Field, pre: seq<byte>, rest: seq<byte>, data: Bytes)
    requires data == pre + (EncodeField(f) + rest)
    requires FitsKinds(kinds, f)
    ensures NextField(kinds, data, |pre|) == Ok(Known(f, |pre| + |EncodeField(f)|))
  {
    hide Read, DeclaredField, SkipFrom, Payload, Tag;
    var tag := Tag(f.num, WireType(f));
    assert EncodeField(f) + rest == tag + (Payload(f) + rest);
    ReadsTag(f.num, WireType(f), pre, Payload(f) + rest);
    TagParts(f.num, WireType(f));
    assert data == (pre + tag) + (Payload(f) + rest);
    ReadsPayload(f, pre + tag, rest, data);
  }

  //////// Unrecognised bytes ////////

  /** From i on, u holds whole records of field numbers the message does not declare. */
  predicate UnknownFrom(kinds: map<int, Kind>, u: Bytes, i: nat)
    requires i <= |u|
    decreases |u| - i
  {
    i == |u| ||
    (NextField(kinds, u, i).Ok? && NextField(kinds, u, i).value.Unknown? &&
        UnknownFrom(kinds, u, NextField(kinds, u, i).value.end))
  }

  /** s starts with a record of n bytes whose field number is not declared. */
  predicate StartsUnknown(kinds: map<int, Kind>, s: Bytes, n: nat)
  {
    && Read(s).Ok?
    && (var wire := Read(s).value.0;
        wire % 8 != 4 && ToInt32(wire / 8) > 0 && ToInt32(wire / 8) !in kinds)
    && SkipFrom(s, 0, 0) == Ok(n)
    && n <= |s|
  }

  lemma NextUnknown(kinds: map<int, Kind>, data: Bytes, i: nat, n: nat)
    requires i < |data|
    ensures NextField(kinds, data, i) == Ok(Unknown(i + n)) <==> StartsUnknown(kinds, data[i..], n)
  {
  }

  /** An unknown record stays one wherever its bytes stand. */
  lemma UnknownLocal(kinds: map<int, Kind>, s: Bytes, i: nat, t: Bytes, j: nat, n: nat)
    requires i < |s| && NextField(kinds, s, i) == Ok(Unknown(i + n))
    requires j + n <= |t| && t[j..j + n] == s[i..i + n]
    ensures j < |t| && NextField(kinds, t, j) == Ok(Unknown(j + n))
  {
    var a, b := s[i..], t[j..];
    NextUnknown(kinds, s, i, n);
    assert a[..n] == s[i..i + n] && b[..n] == t[j..j + n];
    SkipLocal(a, b, 0, 0, n);
    TagWithin(a);
    var k := Read(a).value.1;
    assert a[..k] == a[..n][..k] && b[..k] == b[..n][..k];
    ReadLocal(a, b);
    NextUnknown(kinds, t, j, n);
  }

  lemma TagWithin(s: Bytes)
    requires SkipFrom(s, 0, 0).Ok?
    ensures Read(s).Ok? && Read(s).value.1 <= SkipFrom(s, 0, 0).value
  {
    assert s[0..] == s;
    var n := Read(s).value.1;
    var (next, d) := SkipItem(s, 0, 0).value;
    assert n <= next;
    if d != 0 { assert SkipFrom(s, next, d).value > next; }
  }

  /** Appending one unknown record keeps the bytes well formed. */
  lemma {:induction false} UnknownAppend(kinds: map<int, Kind>, u: Bytes, k: nat, data: Bytes, i: nat, n: nat,
                                         all: Bytes)
    requires i < |data| && NextField(kinds, data, i) == Ok(Unknown(i + n))
    requires all == u + data[i..i + n]
    requires k <= |u| && UnknownFrom(kinds, u, k)
    ensures UnknownFrom(kinds, all, k)
    decreases |u| - k
  {
    hide NextField;
    if k == |u| {
      assert all[k..k + n] == data[i..i + n];
      UnknownLocal(kinds, data, i, all, k, n);
    } else {
      var end := NextField(kinds, u, k).value.end;
      assert all[k..end] == u[k..end];
      UnknownLocal(kinds, u, k, all, k, end - k);
      UnknownAppend(kinds, u, end, data, i, n, all);
    }
  }

  /** Whatever was read, the bytes set aside are whole unknown records. */
  lemma {:induction false} DecodedUnknown<T>(c: Codec<T>, m: Msg<T>, data: Bytes, i: nat)
    requires i <= |data| && |m.unrecognized| <= i
    requires UnknownFrom(c.kinds, m.unrecognized, 0)
    ensures Decode(c, m, data, i).Ok? ==> UnknownFrom(c.kinds, Decode(c, m, data, i).value.unrecognized, 0)
    decreases |data| - i
  {
    if i < |data| && NextField(c.kinds, data, i).Ok? {
      match NextField(c.kinds, data, i).value
      case Known(f, end) =>
        if c.put(m.body, f).Ok? { DecodedUnknown(c, Msg(c.put(m.body, f).value, m.unrecognized), data, end); }
      case Unknown(end) =>
        var all := m.unrecognized + data[i..end];
        UnknownAppend(c.kinds, m.unrecognized, 0, data, i, end - i, all);
        DecodedUnknown(c, Msg(m.body, all), data, end);
    }
  }

  //////// Round trip ////////

  /** What every field that is put keeps is true of whatever is decoded. */
  lemma {:induction false} DecodedBody<T(!new)>(c: Codec<T>, m: Msg<T>, data: Bytes, i: nat, inv: T -> bool)
    requires i <= |data| && |m.unrecognized| <= i
    requires inv(m.body) && forall b, f | inv(b) && c.put(b, f).Ok? :: inv(c.put(b, f).value)
    ensures Decode(c, m, data, i).Ok? ==> inv(Decode(c, m, data, i).value.body)
    decreases |data| - i
  {
    if i < |data| {
      var t := NextField(c.kinds, data, i);
      if t.Ok? && t.value.Unknown? {
        DecodedBody(c, Msg(m.body, m.unrecognized + data[i..t.value.end]), data, t.value.end, inv);
      }
      if t.Ok? && t.value.Known? {
        var b := c.put(m.body, t.value.field);
        if b.Ok? { DecodedBody(c, Msg(b.value, m.unrecognized), data, t.value.end, inv); }
      }
    }
  }

  /** Setting the fields in order. */
  function SetAll<T>(c: Codec<T>, body: T, fs: seq<Field>): (r: Result<T>)
  {
    if fs == [] then Ok(body)
    else
      match c.put(body, fs[0])
      case Err(e) => Err(e)
      case Ok(b) => SetAll(c, b, fs[1..])
  }

  lemma {:induction false} SetAllAppend<T>(c: Codec<T>, body: T, a: seq<Field>, b: seq<Field>)
    ensures SetAll(c, body, a + b) ==
            match SetAll(c, body, a)
            case Err(e) => Err(e)
            case Ok(mid) => SetAll(c, mid, b)
  {
    if a == [] {
      assert a + b == b;
    } else {
      assert (a + b)[1..] == a[1..] + b;
      if c.put(body, a[0]).Ok? { SetAllAppend(c, c.put(body, a[0]).value, a[1..], b); }
    }
  }

  lemma {:induction false} DecodesUnknown<T>(c: Codec<T>, body: T, pre: seq<byte>, u: Bytes, k: nat, data: Bytes)
    requires data == pre + u
    requires k <= |u| && UnknownFrom(c.kinds, u, k)
    ensures Decode(c, Msg(body, u[..k]), data, |pre| + k) == Ok(Msg(body, u))
    decreases |u| - k
  {
    hide NextField;
    if k == |u| {
      assert u[..k] == u;
    } else {
      var end := NextField(c.kinds, u, k).value.end;
      assert data[|pre| + k..|pre| + end] == u[k..end];
      UnknownLocal(c.kinds, u, k, data, |pre| + k, end - k);
      assert u[..k] + u[k..end] == u[..end];
      DecodeUnknown(c, Msg(body, u[..k]), data, |pre| + k, |pre| + end);
      DecodesUnknown(c, body, pre, u, end, data);
    }
  }

  lemma {:induction false} DecodesFields<T>(c: Codec<T>, body: T, pre: seq<byte>, fs: seq<Field>, u: Bytes, data: Bytes)
    requires data == pre + (Flatten(fs) + u)
    requires forall f | f in fs :: FitsKinds(c.kinds, f)
    requires UnknownFrom(c.kinds, u, 0)
    ensures Decode(c, Msg(body, []), data, |pre|) ==
            match SetAll(c, body, fs)
            case Err(e) => Err(e)
            case Ok(b) => Ok(Msg(b, u))
    decreases |fs|
  {
    hide NextField, Decode, EncodeField, UnknownFrom, FitsKinds;
    if fs == [] {
      assert data == pre + u && u[..0] == [];
      DecodesUnknown(c, body, pre, u, 0, data);
    } else {
      var first, rest := EncodeField(fs[0]), Flatten(fs[1..]) + u;
      assert data == pre + (first + rest);
      ReadsField(c.kinds, fs[0], pre, rest, data);
      DecodeKnown(c, Msg(body, []), data, |pre|, fs[0], |pre| + |first|);
      if c.put(body, fs[0]).Ok? {
        DecodesFields(c, c.put(body, fs[0]).value, pre + first, fs[1..], u, data);
      }
    }
  }

  /**
   Decoding the wire form of m gives m back exactly when its unrecognised bytes are
   whole unknown records and setting its own fields rebuilds its body.
   */
  lemma RoundTripIff<T>(c: Codec<T>, m: Msg<T>)
    requires |Encode(c, m)| < TWO63
    requires forall f | f in c.fields(m.body) :: FitsKinds(c.kinds, f)
    ensures DecodeFresh(c, Encode(c, m)) == Ok(m) <==>
            UnknownFrom(c.kinds, m.unrecognized, 0) && SetAll(c, c.empty, c.fields(m.body)) == Ok(m.body)
  {
    var data := Encode(c, m);
    if DecodeFresh(c, data) == Ok(m) {
      DecodedUnknown(c, Msg(c.empty, []), data, 0);
    }
    if UnknownFrom(c.kinds, m.unrecognized, 0) {
      assert data == [] + (Flatten(c.fields(m.body)) + m.unrecognized);
      DecodesFields(c, c.empty, [], c.fields(m.body), m.unrecognized, data);
    }
  }
}
