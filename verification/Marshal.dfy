/**
 The generated encoders.  A buffer is filled from its end towards its start: every
 write moves an index down, nested messages are written before their length and the
 length before the tag.  Each encoder is proved to leave the wire form of its message
 just before the index it was given, and to change nothing else.
 */
module Marshal {
  import opened Bits
  import opened Seqs
  import opened Varint
  import opened Wire
  import opened Messages

  /** now is orig with w written over the stretch from i to end. */
  ghost predicate Filled(now: seq<byte>, orig: seq<byte>, i: nat, end: nat, w: seq<byte>)
  {
    i + |w| == end <= |orig| && now == orig[..i] + w + orig[end..]
  }

  lemma NothingWritten(orig: seq<byte>, i: nat)
    requires i <= |orig|
    ensures Filled(orig, orig, i, i, [])
  {
  }

  lemma Compose(orig: seq<byte>, mid: seq<byte>, now: seq<byte>, j: nat, i: nat, end: nat, e: seq<byte>, w: seq<byte>)
    requires Filled(mid, orig, i, end, w)
    requires Filled(now, mid, j, i, e)
    ensures Filled(now, orig, j, end, e + w)
  {
    Overlay(now, orig, j, end, e + w);
  }

  //////// Single fields ////////

  /** Writes the bytes just before end. */
  method WriteBytes(buf: array<byte>, end: nat, s: seq<byte>) returns (i: nat)
    requires |s| <= end <= buf.Length
    modifies buf
    ensures i == end - |s|
    ensures Filled(buf[..], old(buf[..]), i, end, s)
  {
    i := end - |s|;
    var k := 0;
    while k < |s|
      invariant 0 <= k <= |s|
      invariant forall j :: 0 <= j < k ==> buf[i + j] == s[j]
      invariant forall j :: 0 <= j < i || i + k <= j < buf.Length ==> buf[j] == old(buf[j])
    {
      buf[i + k] := s[k];
      k := k + 1;
    }
    Overlay(buf[..], old(buf[..]), i, end, s);
  }

  method WriteVarint(buf: array<byte>, end: nat, v: uint64) returns (i: nat)
    requires |EncodeVarint(v)| <= end <= buf.Length
    modifies buf
    ensures i == end - |EncodeVarint(v)|
    ensures Filled(buf[..], old(buf[..]), i, end, EncodeVarint(v))
  {
    SovIsLength(v);
    i := EncodeVarintPlugin(buf, end, v);
  }

  method WriteByte(buf: array<byte>, end: nat, b: byte) returns (i: nat)
    requires 1 <= end <= buf.Length
    modifies buf
    ensures i == end - |[b]|
    ensures Filled(buf[..], old(buf[..]), i, end, [b])
  {
    i := end - 1;
    buf[i] := b;
  }

  /** A length-delimited field, its payload already standing just before end. */
  method WriteHeader(buf: array<byte>, end: nat, tag: byte, length: nat) returns (i: nat)
    requires tag < 128 && length < TWO63
    requires 1 + |EncodeVarint(length)| <= end <= buf.Length
    modifies buf
    ensures i == end - |[tag] + EncodeVarint(length)|
    ensures Filled(buf[..], old(buf[..]), i, end, [tag] + EncodeVarint(length))
  {
    hide Filled;
    ghost var b0 := buf[..];
    i := WriteVarint(buf, end, length);
    ghost var b1, i1 := buf[..], i;
    i := WriteByte(buf, i, tag);
    Compose(b0, b1, buf[..], i, i1, end, [tag], EncodeVarint(length));
  }

  lemma TagByte(tag: byte)
    requires tag < 128
    ensures Tag(tag / 8, tag % 8) == [tag]
  {
  }

  lemma FlattenOne(f: Field)
    ensures Flatten([f]) == EncodeField(f)
  {
    hide EncodeField;
    assert [f][1..] == [];
  }

  lemma DelimitedForm(tag: byte, s: seq<byte>)
    requires tag < 128 && tag % 8 == 2
    ensures EncodeField(BytesField(tag / 8, s)) == ([tag] + EncodeVarint(|s|)) + s
    ensures Flatten([BytesField(tag / 8, s)]) == EncodeField(BytesField(tag / 8, s))
  {
    hide EncodeVarint, Tag, Flatten;
    FlattenOne(BytesField(tag / 8, s));
    TagByte(tag);
    Assoc([tag], EncodeVarint(|s|), s);
  }

  method WriteDelimited(buf: array<byte>, end: nat, tag: byte, s: seq<byte>) returns (i: nat)
    requires tag < 128 && tag % 8 == 2
    requires |EncodeField(BytesField(tag / 8, s))| <= end <= buf.Length < TWO63
    modifies buf
    ensures i == end - |EncodeField(BytesField(tag / 8, s))|
    ensures Filled(buf[..], old(buf[..]), i, end, EncodeField(BytesField(tag / 8, s)))
  {
    hide Filled;
    DelimitedForm(tag, s);
    ghost var b0 := buf[..];
    i := WriteBytes(buf, end, s);
    ghost var b1, i1 := buf[..], i;
    i := WriteHeader(buf, i, tag, |s|);
    Compose(b0, b1, buf[..], i, i1, end, [tag] + EncodeVarint(|s|), s);
  }

  /** A string field, skipped when empty. */
  method WriteText(buf: array<byte>, end: nat, tag: byte, s: seq<byte>) returns (i: nat)
    requires tag < 128 && tag % 8 == 2
    requires |Flatten(Text(tag / 8, s))| <= end <= buf.Length < TWO63
    modifies buf
    ensures i == end - |Flatten(Text(tag / 8, s))|
    ensures Filled(buf[..], old(buf[..]), i, end, Flatten(Text(tag / 8, s)))
  {
    hide Filled;
    i := end;
    NothingWritten(buf[..], end);
    if |s| > 0 {
      DelimitedForm(tag, s);
      i := WriteDelimited(buf, end, tag, s);
    }
  }

  lemma VarintForm(tag: byte, v: uint64)
    requires tag < 128 && tag % 8 == 0
    ensures Flatten([VarintField(tag / 8, v)]) == [tag] + EncodeVarint(v)
  {
    hide EncodeVarint, Tag, Flatten;
    FlattenOne(VarintField(tag / 8, v));
    TagByte(tag);
  }

  /** A bool field, skipped when false. */
  method WriteFlag(buf: array<byte>, end: nat, tag: byte, b: bool) returns (i: nat)
    requires tag < 128 && tag % 8 == 0
    requires |Flatten(Flag(tag / 8, b))| <= end <= buf.Length
    modifies buf
    ensures i == end - |Flatten(Flag(tag / 8, b))|
    ensures Filled(buf[..], old(buf[..]), i, end, Flatten(Flag(tag / 8, b)))
  {
    hide Filled;
    i := end;
    NothingWritten(buf[..], end);
    if b {
      VarintForm(tag, 1);
      ghost var b0 := buf[..];
      i := WriteByte(buf, i, 1);
      ghost var b1, i1 := buf[..], i;
      i := WriteByte(buf, i, tag);
      Compose(b0, b1, buf[..], i, i1, end, [tag], [1]);
    }
  }

  method WriteSize(buf: array<byte>, end: nat, size: int64) returns (i: nat)
    requires |Flatten(SizeField(size))| <= end <= buf.Length
    modifies buf
    ensures i == end - |Flatten(SizeField(size))|
    ensures Filled(buf[..], old(buf[..]), i, end, Flatten(SizeField(size)))
  {
    hide Filled;
    i := end;
    NothingWritten(buf[..], end);
    if size != 0 {
      VarintForm(0x20, ToUint64(size));
      ghost var b0 := buf[..];
      i := WriteVarint(buf, i, ToUint64(size));
      ghost var b1, i1 := buf[..], i;
      i := WriteByte(buf, i, 0x20);
      Compose(b0, b1, buf[..], i, i1, end, [0x20], EncodeVarint(ToUint64(size)));
    }
  }

  //////// Sizes ////////

  method DelimitedSize(tag: byte, length: nat, ghost s: seq<byte>) returns (n: nat)
    requires tag < 128 && tag % 8 == 2 && length == |s|
    ensures n == |EncodeField(BytesField(tag / 8, s))|
  {
    DelimitedForm(tag, s);
    SovIsLength(length);
    n := 1 + length + Sov(length);
  }

  method TextSize(tag: byte, s: seq<byte>) returns (n: nat)
    requires tag < 128 && tag % 8 == 2
    ensures n == |Flatten(Text(tag / 8, s))|
  {
    n := 0;
    if |s| > 0 {
      DelimitedForm(tag, s);
      n := DelimitedSize(tag, |s|, s);
    }
  }

  method EnvSize(m: EnvEntry) returns (n: nat)
    ensures n == |Encode(EnvCodec, m)|
  {
    FlattenAppend(Text(1, m.body.name), Text(2, m.body.value));
    n := TextSize(0xa, m.body.name);
    var l := TextSize(0x12, m.body.value);
    n := n + l + |m.unrecognized|;
  }

  lemma {:induction false} FlattenPrefix(num: nat, ss: seq<seq<byte>>, i: nat)
    requires i < |ss|
    ensures Flatten(Texts(num, ss[..i + 1])) == Flatten(Texts(num, ss[..i])) + EncodeField(BytesField(num, ss[i]))
  {
    assert Texts(num, ss[..i + 1]) == Texts(num, ss[..i]) + [BytesField(num, ss[i])];
    FlattenAppend(Texts(num, ss[..i]), [BytesField(num, ss[i])]);
    FlattenOne(BytesField(num, ss[i]));
  }

  method ManifestSize(m: Manifest) returns (n: nat)
    ensures n == |Encode(ManifestCodec, m)|
  {
    var ss := m.body.manifests;
    n := 0;
    for i := 0 to |ss|
      invariant n == |Flatten(Texts(1, ss[..i]))|
    {
      FlattenPrefix(1, ss, i);
      var l := DelimitedSize(0xa, |ss[i]|, ss[i]);
      n := n + l;
    }
    assert ss[..|ss|] == ss;
    FlattenAppend(Texts(1, ss), Text(2, m.body.sourceType));
    var l := TextSize(0x12, m.body.sourceType);
    n := n + l + |m.unrecognized|;
  }

  lemma MetadataForm(m: Metadata)
    ensures Encode(MetadataCodec, m) ==
            Flatten(Text(1, m.body.appName)) +
                (Flatten(Text(2, m.body.appRelPath)) + (Flatten(Text(3, m.body.checksum)) +
            (Flatten(SizeField(m.body.size)) + (Flatten(Texts(5, EnvPayloads(m.body.env))) + m.unrecognized))))
  {
    hide Flatten, Text, SizeField;
    var b := m.body;
    var t5 := Texts(5, EnvPayloads(b.env));
    var t4 := SizeField(b.size) + t5;
    var t3 := Text(3, b.checksum) + t4;
    FlattenAppend(Text(1, b.appName), Text(2, b.appRelPath) + t3);
    FlattenAppend(Text(2, b.appRelPath), t3);
    FlattenAppend(Text(3, b.checksum), t4);
    FlattenAppend(SizeField(b.size), t5);
  }

  method MetadataSize(m: Metadata) returns (n: nat)
    ensures n == |Encode(MetadataCodec, m)|
  {
    hide Flatten, Text, SizeField, Encode;
    MetadataForm(m);
    var b := m.body;
    ghost var ps := EnvPayloads(b.env);
    var l := TextSize(0xa, b.appName);
    n := l;
    l := TextSize(0x12, b.appRelPath);
    n := n + l;
    l := TextSize(0x1a, b.checksum);
    n := n + l;
    l := SizeFieldSize(b.size);
    n := n + l;
    ghost var n0 := n;
    EmptyFlatten(5);
    for i := 0 to |b.env|
      invariant n == n0 + |Flatten(Texts(5, ps[..i]))|
    {
      FlattenPrefix(5, ps, i);
      l := EnvSize(b.env[i]);
      l := DelimitedSize(0x2a, l, ps[i]);
      n := n + l;
    }
    assert ps[..|b.env|] == ps;
    n := n + |m.unrecognized|;
  }

  lemma EmptyFlatten(num: nat)
    ensures forall ss: seq<seq<byte>> {:trigger Texts(num, ss[..0])} :: Flatten(Texts(num, ss[..0])) == []
  {
  }

  method SizeFieldSize(size: int64) returns (n: nat)
    ensures n == |Flatten(SizeField(size))|
  {
    n := 0;
    if size != 0 {
      VarintForm(0x20, ToUint64(size));
      SovIsLength(ToUint64(size));
      n := 1 + Sov(ToUint64(size));
    }
  }

  method FileSize(m: File) returns (n: nat)
    ensures n == |Encode(FileCodec, m)|
  {
    n := TextSize(0xa, m.body.chunk);
    n := n + |m.unrecognized|;
  }

  method FlagsSize(first: bool, second: bool) returns (n: nat)
    ensures n == |Flatten(Flag(1, first) + Flag(2, second))|
  {
    FlattenAppend(Flag(1, first), Flag(2, second));
    VarintForm(0x8, 1);
    VarintForm(0x10, 1);
    n := 0;
    if first { n := n + 2; }
    if second { n := n + 2; }
  }

  method RepositorySize(m: Repository) returns (n: nat)
    ensures n == |Encode(RepositoryCodec, m)|
  {
    n := FlagsSize(m.body.isSupported, m.body.isDiscoveryEnabled);
    n := n + |m.unrecognized|;
  }

  method PluginConfigSize(m: PluginConfig) returns (n: nat)
    ensures n == |Encode(PluginConfigCodec, m)|
  {
    n := FlagsSize(m.body.isDiscoveryConfigured, m.body.provideGitCreds);
    n := n + |m.unrecognized|;
  }

  method RequestSize(m: AppStreamRequest) returns (n: nat)
    ensures n == |Encode(RequestCodec, m)|
  {
    hide EncodeField;
    n := 0;
    match m.body {
      case MetadataRequest(Some(x)) =>
        DelimitedForm(0xa, Encode(MetadataCodec, x));
        var l := MetadataSize(x);
        n := DelimitedSize(0xa, l, Encode(MetadataCodec, x));
      case FileRequest(Some(x)) =>
        DelimitedForm(0x12, Encode(FileCodec, x));
        var l := FileSize(x);
        n := DelimitedSize(0x12, l, Encode(FileCodec, x));
      case _ =>
    }
    n := n + |m.unrecognized|;
  }

  //////// Messages ////////

  method MarshalEnv(m: EnvEntry, buf: array<byte>, end: nat) returns (n: nat)
    requires |Encode(EnvCodec, m)| <= end <= buf.Length < TWO63
    modifies buf
    ensures n == |Encode(EnvCodec, m)|
    ensures Filled(buf[..], old(buf[..]), end - n, end, Encode(EnvCodec, m))
  {
    hide Flatten, Text, Filled;
    var b := m.body;
    ghost var b0 := buf[..];
    FlattenAppend(Text(1, b.name), Text(2, b.value));
    var i := WriteBytes(buf, end, m.unrecognized);
    ghost var b1, i1, w1 := buf[..], i, m.unrecognized;
    i := WriteText(buf, i, 0x12, b.value);
    Compose(b0, b1, buf[..], i, i1, end, Flatten(Text(2, b.value)), w1);
    ghost var b2, i2, w2 := buf[..], i, Flatten(Text(2, b.value)) + w1;
    i := WriteText(buf, i, 0xa, b.name);
    Compose(b0, b2, buf[..], i, i2, end, Flatten(Text(1, b.name)), w2);
    Assoc(Flatten(Text(1, b.name)), Flatten(Text(2, b.value)), w1);
    n := end - i;
  }

  lemma ManifestForm(m: Manifest)
    ensures var ss := m.body.manifests;
            Encode(ManifestCodec, m) ==
            Flatten(Texts(1, ss[..|ss|])) + (Flatten(Text(2, m.body.sourceType)) + m.unrecognized)
  {
    hide Flatten, Text;
    var ss := m.body.manifests;
    assert ss[..|ss|] == ss;
    FlattenAppend(Texts(1, ss), Text(2, m.body.sourceType));
    Assoc(Flatten(Texts(1, ss)), Flatten(Text(2, m.body.sourceType)), m.unrecognized);
  }

  method MarshalManifest(m: Manifest, buf: array<byte>, end: nat) returns (n: nat)
    requires |Encode(ManifestCodec, m)| <= end <= buf.Length < TWO63
    modifies buf
    ensures n == |Encode(ManifestCodec, m)|
    ensures Filled(buf[..], old(buf[..]), end - n, end, Encode(ManifestCodec, m))
  {
    hide Text, EncodeField, Filled, Flatten, Encode;
    var ss := m.body.manifests;
    ghost var b0, whole := buf[..], Encode(ManifestCodec, m);
    ManifestForm(m);
    var i := WriteBytes(buf, end, m.unrecognized);
    ghost var b1, i1 := buf[..], i;
    i := WriteText(buf, i, 0x12, m.body.sourceType);
    ghost var w := Flatten(Text(2, m.body.sourceType)) + m.unrecognized;
    Compose(b0, b1, buf[..], i, i1, end, Flatten(Text(2, m.body.sourceType)), m.unrecognized);
    var k := |ss|;
    while k > 0
      invariant 0 <= k <= |ss|
      invariant Flatten(Texts(1, ss[..k])) + w == whole
      invariant i + |w| == end
      invariant Filled(buf[..], b0, i, end, w)
    {
      k := k - 1;
      FlattenPrefix(1, ss, k);
      ghost var bk, ik, e := buf[..], i, EncodeField(BytesField(1, ss[k]));
      i := WriteDelimited(buf, i, 0xa, ss[k]);
      Compose(b0, bk, buf[..], i, ik, end, e, w);
      Assoc(Flatten(Texts(1, ss[..k])), e, w);
      w := e + w;
    }
    EmptyFlatten(1);
    assert w == whole;
    n := end - i;
  }

  method MarshalMetadata(m: Metadata, buf: array<byte>, end: nat) returns (n: nat)
    requires |Encode(MetadataCodec, m)| <= end <= buf.Length < TWO63
    modifies buf
    ensures n == |Encode(MetadataCodec, m)|
    ensures Filled(buf[..], old(buf[..]), end - n, end, Encode(MetadataCodec, m))
  {
    hide Text, EncodeField, SizeField, Encode, Flatten, Filled;
    MetadataForm(m);
    var b := m.body;
    ghost var b0 := buf[..];
    ghost var f1, f2, f3, f4 := Flatten(Text(1, b.appName)), Flatten(Text(2, b.appRelPath)),
        Flatten(Text(3, b.checksum)), Flatten(SizeField(b.size));
    var i := WriteBytes(buf, end, m.unrecognized);
    ghost var bk, ik := buf[..], i;
    i := MarshalEntries(b.env, buf, i);
    ghost var w := Flatten(Texts(5, EnvPayloads(b.env)));
    Compose(b0, bk, buf[..], i, ik, end, w, m.unrecognized);
    w := w + m.unrecognized;
    bk, ik := buf[..], i;
    i := WriteSize(buf, i, b.size);
    Compose(b0, bk, buf[..], i, ik, end, f4, w);
    w, bk, ik := f4 + w, buf[..], i;
    i := WriteText(buf, i, 0x1a, b.checksum);
    Compose(b0, bk, buf[..], i, ik, end, f3, w);
    w, bk, ik := f3 + w, buf[..], i;
    i := WriteText(buf, i, 0x12, b.appRelPath);
    Compose(b0, bk, buf[..], i, ik, end, f2, w);
    w, bk, ik := f2 + w, buf[..], i;
    i := WriteText(buf, i, 0xa, b.appName);
    Compose(b0, bk, buf[..], i, ik, end, f1, w);
    n := end - i;
  }

  /** The repeated env field, last entry first. */
  method MarshalEntries(es: seq<EnvEntry>, buf: array<byte>, end: nat) returns (i: nat)
    requires |Flatten(Texts(5, EnvPayloads(es)))| <= end <= buf.Length < TWO63
    modifies buf
    ensures i == end - |Flatten(Texts(5, EnvPayloads(es)))|
    ensures Filled(buf[..], old(buf[..]), i, end, Flatten(Texts(5, EnvPayloads(es))))
  {
    hide EncodeField, Encode, Filled;
    ghost var ps := EnvPayloads(es);
    ghost var b0, w := buf[..], [];
    i := end;
    NothingWritten(b0, end);
    var k := |es|;
    assert ps[..|es|] == ps;
    while k > 0
      invariant 0 <= k <= |es|
      invariant |Flatten(Texts(5, ps[..k]))| <= i
      invariant Flatten(Texts(5, ps[..k])) + w == Flatten(Texts(5, ps))
      invariant i + |w| == end
      invariant Filled(buf[..], b0, i, end, w)
    {
      k := k - 1;
      FlattenPrefix(5, ps, k);
      ghost var bk, ik, e := buf[..], i, EncodeField(BytesField(5, ps[k]));
      i := MarshalEntry(es[k], buf, i);
      Compose(b0, bk, buf[..], i, ik, end, e, w);
      Assoc(Flatten(Texts(5, ps[..k])), e, w);
      w := e + w;
    }
    assert w == Flatten(Texts(5, ps));
  }

  method MarshalEntry(e: EnvEntry, buf: array<byte>, end: nat) returns (i: nat)
    requires |EncodeField(BytesField(5, Encode(EnvCodec, e)))| <= end <= buf.Length < TWO63
    modifies buf
    ensures i == end - |EncodeField(BytesField(5, Encode(EnvCodec, e)))|
    ensures Filled(buf[..], old(buf[..]), i, end, EncodeField(BytesField(5, Encode(EnvCodec, e))))
  {
    hide Encode, Filled;
    ghost var p := Encode(EnvCodec, e);
    DelimitedForm(0x2a, p);
    ghost var b0 := buf[..];
    var size := MarshalEnv(e, buf, end);
    i := end - size;
    ghost var b1, i1 := buf[..], i;
    i := WriteHeader(buf, i, 0x2a, size);
    Compose(b0, b1, buf[..], i, i1, end, [0x2a] + EncodeVarint(size), p);
  }

  method MarshalFile(m: File, buf: array<byte>, end: nat) returns (n: nat)
    requires |Encode(FileCodec, m)| <= end <= buf.Length < TWO63
    modifies buf
    ensures n == |Encode(FileCodec, m)|
    ensures Filled(buf[..], old(buf[..]), end - n, end, Encode(FileCodec, m))
  {
    hide Text, Filled;
    ghost var b0 := buf[..];
    var i := WriteBytes(buf, end, m.unrecognized);
    ghost var b1, i1 := buf[..], i;
    i := WriteText(buf, i, 0xa, m.body.chunk);
    Compose(b0, b1, buf[..], i, i1, end, Flatten(Text(1, m.body.chunk)), m.unrecognized);
    n := end - i;
  }

  method WriteFlags(buf: array<byte>, end: nat, first: bool, second: bool, unrecognized: seq<byte>) returns (i: nat)
    requires |Flatten(Flag(1, first) + Flag(2, second)) + unrecognized| <= end <= buf.Length < TWO63
    modifies buf
    ensures i == end - |Flatten(Flag(1, first) + Flag(2, second)) + unrecognized|
    ensures Filled(buf[..], old(buf[..]), i, end, Flatten(Flag(1, first) + Flag(2, second)) + unrecognized)
  {
    hide Flag, Flatten, Filled;
    FlattenAppend(Flag(1, first), Flag(2, second));
    ghost var b0 := buf[..];
    i := WriteBytes(buf, end, unrecognized);
    ghost var b1, i1 := buf[..], i;
    i := WriteFlag(buf, i, 0x10, second);
    Compose(b0, b1, buf[..], i, i1, end, Flatten(Flag(2, second)), unrecognized);
    ghost var b2, i2, w := buf[..], i, Flatten(Flag(2, second)) + unrecognized;
    i := WriteFlag(buf, i, 0x8, first);
    Compose(b0, b2, buf[..], i, i2, end, Flatten(Flag(1, first)), w);
    Assoc(Flatten(Flag(1, first)), Flatten(Flag(2, second)), unrecognized);
  }

  method MarshalRepository(m: Repository, buf: array<byte>, end: nat) returns (n: nat)
    requires |Encode(RepositoryCodec, m)| <= end <= buf.Length < TWO63
    modifies buf
    ensures n == |Encode(RepositoryCodec, m)|
    ensures Filled(buf[..], old(buf[..]), end - n, end, Encode(RepositoryCodec, m))
  {
    hide Filled;
    var i := WriteFlags(buf, end, m.body.isSupported, m.body.isDiscoveryEnabled, m.unrecognized);
    n := end - i;
  }

  method MarshalPluginConfig(m: PluginConfig, buf: array<byte>, end: nat) returns (n: nat)
    requires |Encode(PluginConfigCodec, m)| <= end <= buf.Length < TWO63
    modifies buf
    ensures n == |Encode(PluginConfigCodec, m)|
    ensures Filled(buf[..], old(buf[..]), end - n, end, Encode(PluginConfigCodec, m))
  {
    hide Filled;
    var i := WriteFlags(buf, end, m.body.isDiscoveryConfigured, m.body.provideGitCreds, m.unrecognized);
    n := end - i;
  }

  method MarshalRequest(m: AppStreamRequest, buf: array<byte>, end: nat) returns (n: nat)
    requires |Encode(RequestCodec, m)| <= end <= buf.Length < TWO63
    modifies buf
    ensures n == |Encode(RequestCodec, m)|
    ensures Filled(buf[..], old(buf[..]), end - n, end, Encode(RequestCodec, m))
  {
    hide EncodeField, MetadataFields, FileFields, Filled;
    ghost var b0 := buf[..];
    var i := WriteBytes(buf, end, m.unrecognized);
    ghost var b1, i1 := buf[..], i;
    match m.body {
      case MetadataRequest(Some(x)) =>
        i := MarshalMetadataRequest(x, buf, i);
        ghost var e := EncodeField(BytesField(1, Encode(MetadataCodec, x)));
        DelimitedForm(0xa, Encode(MetadataCodec, x));
        Compose(b0, b1, buf[..], i, i1, end, e, m.unrecognized);
      case FileRequest(Some(x)) =>
        i := MarshalFileRequest(x, buf, i);
        ghost var e := EncodeField(BytesField(2, Encode(FileCodec, x)));
        DelimitedForm(0x12, Encode(FileCodec, x));
        Compose(b0, b1, buf[..], i, i1, end, e, m.unrecognized);
      case _ =>
        assert [] + m.unrecognized == m.unrecognized;
    }
    n := end - i;
  }

  method MarshalMetadataRequest(m: Metadata, buf: array<byte>, end: nat) returns (i: nat)
    requires |EncodeField(BytesField(1, Encode(MetadataCodec, m)))| <= end <= buf.Length < TWO63
    modifies buf
    ensures i == end - |EncodeField(BytesField(1, Encode(MetadataCodec, m)))|
    ensures Filled(buf[..], old(buf[..]), i, end, EncodeField(BytesField(1, Encode(MetadataCodec, m))))
  {
    hide Encode, Filled;
    ghost var p := Encode(MetadataCodec, m);
    DelimitedForm(0xa, p);
    ghost var b0 := buf[..];
    var size := MarshalMetadata(m, buf, end);
    i := end - size;
    ghost var b1, i1 := buf[..], i;
    i := WriteHeader(buf, i, 0xa, size);
    Compose(b0, b1, buf[..], i, i1, end, [0xa] + EncodeVarint(size), p);
  }

  method MarshalFileRequest(m: File, buf: array<byte>, end: nat) returns (i: nat)
    requires |EncodeField(BytesField(2, Encode(FileCodec, m)))| <= end <= buf.Length < TWO63
    modifies buf
    ensures i == end - |EncodeField(BytesField(2, Encode(FileCodec, m)))|
    ensures Filled(buf[..], old(buf[..]), i, end, EncodeField(BytesField(2, Encode(FileCodec, m))))
  {
    hide Encode, Filled;
    ghost var p := Encode(FileCodec, m);
    DelimitedForm(0x12, p);
    ghost var b0 := buf[..];
    var size := MarshalFile(m, buf, end);
    i := end - size;
    ghost var b1, i1 := buf[..], i;
    i := WriteHeader(buf, i, 0x12, size);
    Compose(b0, b1, buf[..], i, i1, end, [0x12] + EncodeVarint(size), p);
  }

  /** Marshal then Unmarshal, end to end: the request comes back exactly when it is valid. */
  method MarshalUnmarshal(m: AppStreamRequest) returns (data: array<byte>, r: Result<AppStreamRequest>)
    requires |Encode(RequestCodec, m)| < TWO63
    ensures data[..] == Encode(RequestCodec, m)
    ensures r == Ok(m) <==> ValidRequest(m)
  {
    hide Encode, ValidRequest, DecodeFresh;
    var size := RequestSize(m);
    data := new byte[size];
    var n := MarshalRequest(m, data, size);
    assert data[..] == Encode(RequestCodec, m);
    r := Unmarshal(RequestCodec, data[..]);
    RequestRoundTrip(m);
  }
}
