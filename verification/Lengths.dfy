/** What is decoded takes no more bytes to write again than it took to read. */
module Lengths {
  import opened Bits
  import opened Varint
  import opened Wire

  //////// Varints ////////

  /** A value below 2 to the 7n is written in at most n bytes. */
  lemma {:induction false} EncodesWithin(v: nat, n: nat)
    requires n > 0 && v < Pow2(7 * n)
    ensures |EncodeVarint(v)| <= n
    decreases n
  {
    Pow2Words();
    if n == 1 {
      assert v < 128;
    } else if v >= 128 {
      Pow2Add(7, 7 * (n - 1));
      assert 7 + 7 * (n - 1) == 7 * n;
      EncodesWithin(v / 128, n - 1);
    }
  }

  lemma {:induction false} EncodeMonotone(v: nat, w: nat)
    requires v <= w
    ensures |EncodeVarint(v)| <= |EncodeVarint(w)|
    decreases v
  {
    if v >= 128 { EncodeMonotone(v / 128, w / 128); }
  }

  /** n bytes, read from bit shift on, give a value below 2 to the shift + 7n. */
  lemma {:induction false} ReadBelow(s: seq<byte>, shift: nat, acc: nat)
    requires acc < Pow2(shift)
    ensures var r := ReadFrom(s, shift, acc); r.Ok? ==> r.value.0 < Pow2(shift + 7 * r.value.1)
    decreases |s|
  {
    hide BitOr, Pow2;
    if shift < 64 && s != [] {
      GroupBelow(s[0] % 128, shift, acc);
      var acc' := BitOr(acc, Shl64(s[0] % 128, shift));
      if s[0] >= 128 {
        ReadBelow(s[1..], shift + 7, acc');
        var r := ReadFrom(s[1..], shift + 7, acc');
        assert r.Ok? ==> shift + 7 + 7 * r.value.1 == shift + 7 * (r.value.1 + 1);
      }
    }
  }

  lemma GroupBelow(low: nat, shift: nat, acc: nat)
    requires low < 128 && acc < Pow2(shift)
    ensures BitOr(acc, Shl64(low, shift)) < Pow2(shift + 7)
  {
    hide BitOr, Pow2;
    Pow2Words();
    Pow2Add(shift, 7);
    var p := Pow2(shift);
    assert p * 128 == Pow2(shift + 7);
    Product(low, p);
    assert Shl64(low, shift) <= low * p;
    OrBound(acc, Shl64(low, shift), shift + 7);
  }

  lemma Product(low: nat, p: nat)
    requires low < 128 && p > 0
    ensures low * p < p * 128 && p < p * 128
  {
  }

  lemma ReadLength(s: seq<byte>)
    requires Read(s).Ok?
    ensures |EncodeVarint(Read(s).value.0)| <= Read(s).value.1
  {
    ReadBelow(s, 0, 0);
    EncodesWithin(Read(s).value.0, Read(s).value.1);
  }

  //////// Fields ////////

  /** A field read is of a declared kind, and its own encoding is no longer than the bytes it was read from. */
  lemma FieldLength(kinds: map<int, Kind>, data: Bytes, i: nat)
    requires i < |data| && NextField(kinds, data, i).Ok? && NextField(kinds, data, i).value.Known?
    ensures var t := NextField(kinds, data, i).value;
            FitsKinds(kinds, t.field) && |EncodeField(t.field)| <= t.end - i
  {
    hide ReadFrom, EncodeVarint, SkipFrom;
    var (wire, n) := Read(data[i..]).value;
    var f := NextField(kinds, data, i).value.field;
    ReadLength(data[i..]);
    TagBelow(wire);
    assert f.num * 8 + WireType(f) <= wire;
    EncodeMonotone(f.num * 8 + WireType(f), wire);
    ReadLength(data[i + n..]);
  }

  lemma TagBelow(wire: uint64)
    ensures ToInt32(wire / 8) > 0 ==> ToInt32(wire / 8) * 8 + wire % 8 <= wire && ToInt32(wire / 8) < TWO32 / 2
  {
  }

  //////// Messages ////////

  /** Setting a field adds no more to the encoding of a body than the field's own. */
  ghost predicate PutFits<T(!new)>(c: Codec<T>)
  {
    forall b, f | FitsKinds(c.kinds, f) && c.put(b, f).Ok? ::
      |Flatten(c.fields(c.put(b, f).value))| <= |Flatten(c.fields(b))| + |EncodeField(f)|
  }

  lemma {:induction false} DecodedLength<T(!new)>(c: Codec<T>, m: Msg<T>, data: Bytes, i: nat)
    requires i <= |data| && |m.unrecognized| <= i && PutFits(c) && |Encode(c, m)| <= i
    ensures Decode(c, m, data, i).Ok? ==> |Encode(c, Decode(c, m, data, i).value)| <= |data|
    decreases |data| - i
  {
    hide NextField, Flatten, EncodeField;
    if i < |data| {
      var t := NextField(c.kinds, data, i);
      if t.Ok? && t.value.Unknown? {
        DecodedLength(c, Msg(m.body, m.unrecognized + data[i..t.value.end]), data, t.value.end);
      }
      if t.Ok? && t.value.Known? {
        FieldLength(c.kinds, data, i);
        var b := c.put(m.body, t.value.field);
        if b.Ok? { DecodedLength(c, Msg(b.value, m.unrecognized), data, t.value.end); }
      }
    }
  }

  /** Encoding what was decoded takes at most the bytes that were decoded. */
  lemma FreshLength<T(!new)>(c: Codec<T>, data: Bytes)
    requires PutFits(c) && Flatten(c.fields(c.empty)) == []
    ensures DecodeFresh(c, data).Ok? ==> |Encode(c, DecodeFresh(c, data).value)| <= |data|
  {
    DecodedLength(c, Msg(c.empty, []), data, 0);
  }

  //////// Lists of fields ////////

  function Total(fs: seq<Field>): (n: nat)
  {
    |Flatten(fs)|
  }

  lemma TotalAppend(a: seq<Field>, b: seq<Field>)
    ensures Total(a + b) == Total(a) + Total(b)
  {
    FlattenAppend(a, b);
  }

  lemma TotalOne(f: Field)
    ensures Total([f]) == |EncodeField(f)|
  {
    assert [f][1..] == [];
    assert Flatten([f][1..]) == [];
  }

  /** A shorter payload of the same field is no longer to write. */
  lemma ShorterPayload(num: nat, p: seq<byte>, q: seq<byte>)
    requires |p| <= |q|
    ensures |EncodeField(BytesField(num, p))| <= |EncodeField(BytesField(num, q))|
  {
    EncodeMonotone(|p|, |q|);
  }
}
