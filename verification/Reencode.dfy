/**
 Whatever the decoders accept is valid, takes no more bytes to write again, and comes back
 when it is.
 */
module Reencode {
  import opened Bits
  import opened Varint
  import opened Wire
  import opened Lengths
  import opened Messages

  //////// What is set is no longer than what was read ////////

  lemma TextFits(num: nat, p: seq<byte>)
    ensures Total(Text(num, p)) <= |EncodeField(BytesField(num, p))| && Total(Text(num, [])) == 0
  {
    TotalOne(BytesField(num, p));
  }

  lemma FlagFits(num: nat, v: uint64)
    ensures Total(Flag(num, v != 0)) <= |EncodeField(VarintField(num, v))| && Total(Flag(num, false)) == 0
  {
    TotalOne(VarintField(num, 1));
    if v != 0 { EncodeMonotone(1, v); }
    assert v == 0 ==> Flag(num, v != 0) == [];
  }

  lemma TextsGrow(num: nat, ss: seq<seq<byte>>, p: seq<byte>)
    ensures Total(Texts(num, ss + [p])) == Total(Texts(num, ss)) + |EncodeField(BytesField(num, p))|
  {
    assert Texts(num, ss + [p]) == Texts(num, ss) + [BytesField(num, p)];
    TotalAppend(Texts(num, ss), [BytesField(num, p)]);
    TotalOne(BytesField(num, p));
  }

  lemma EnvFits()
    ensures PutFits(EnvCodec) && Flatten(EnvFields(EnvCodec.empty)) == []
  {
    hide EncodeField, Flatten;
    TextFits(1, []);
    TextFits(2, []);
    EnvTotal(EnvCodec.empty);
    forall b, f | FitsKinds(EnvCodec.kinds, f) && PutEnv(b, f).Ok?
      ensures Total(EnvFields(PutEnv(b, f).value)) <= Total(EnvFields(b)) + |EncodeField(f)|
    {
      TextFits(f.num, f.payload);
      EnvTotal(b);
      EnvTotal(PutEnv(b, f).value);
    }
  }

  lemma EnvTotal(b: EnvBody)
    ensures Total(EnvFields(b)) == Total(Text(1, b.name)) + Total(Text(2, b.value))
  {
    TotalAppend(Text(1, b.name), Text(2, b.value));
  }

  lemma ManifestFits()
    ensures PutFits(ManifestCodec) && Flatten(ManifestFields(ManifestCodec.empty)) == []
  {
    hide EncodeField, Flatten;
    TextFits(2, []);
    ManifestTotal(ManifestCodec.empty);
    NoTexts(1);
    forall b, f | FitsKinds(ManifestCodec.kinds, f) && PutManifest(b, f).Ok?
      ensures Total(ManifestFields(PutManifest(b, f).value)) <= Total(ManifestFields(b)) + |EncodeField(f)|
    {
      TextFits(f.num, f.payload);
      TextsGrow(1, b.manifests, f.payload);
      ManifestTotal(b);
      ManifestTotal(PutManifest(b, f).value);
    }
  }

  lemma NoTexts(num: nat)
    ensures Total(Texts(num, [])) == 0
  {
    assert Texts(num, []) == [];
  }

  lemma ManifestTotal(b: ManifestBody)
    ensures Total(ManifestFields(b)) == Total(Texts(1, b.manifests)) + Total(Text(2, b.sourceType))
  {
    TotalAppend(Texts(1, b.manifests), Text(2, b.sourceType));
  }

  lemma FlagsTotal(first: bool, second: bool)
    ensures Total(Flag(1, first) + Flag(2, second)) == Total(Flag(1, first)) + Total(Flag(2, second))
  {
    TotalAppend(Flag(1, first), Flag(2, second));
  }

  lemma RepositoryFits()
    ensures PutFits(RepositoryCodec) && Flatten(RepositoryFields(RepositoryCodec.empty)) == []
  {
    hide EncodeField, Flatten, Flag;
    FlagFits(1, 0);
    FlagFits(2, 0);
    FlagsTotal(false, false);
    forall b, f | FitsKinds(RepositoryCodec.kinds, f) && PutRepository(b, f).Ok?
      ensures Total(RepositoryFields(PutRepository(b, f).value)) <= Total(RepositoryFields(b)) + |EncodeField(f)|
    {
      var r := PutRepository(b, f).value;
      FlagFits(f.num, f.v);
      FlagsTotal(b.isSupported, b.isDiscoveryEnabled);
      FlagsTotal(r.isSupported, r.isDiscoveryEnabled);
    }
  }

  lemma PluginConfigFits()
    ensures PutFits(PluginConfigCodec) && Flatten(PluginConfigFields(PluginConfigCodec.empty)) == []
  {
    hide EncodeField, Flatten, Flag;
    FlagFits(1, 0);
    FlagFits(2, 0);
    FlagsTotal(false, false);
    forall b, f | FitsKinds(PluginConfigCodec.kinds, f) && PutPluginConfig(b, f).Ok?
      ensures Total(PluginConfigFields(PutPluginConfig(b, f).value)) <= Total(PluginConfigFields(b)) + |EncodeField(f)|
    {
      var r := PutPluginConfig(b, f).value;
      FlagFits(f.num, f.v);
      FlagsTotal(b.isDiscoveryConfigured, b.provideGitCreds);
      FlagsTotal(r.isDiscoveryConfigured, r.provideGitCreds);
    }
  }

  lemma FileFits()
    ensures PutFits(FileCodec) && Flatten(FileFields(FileCodec.empty)) == []
  {
    hide EncodeField, Flatten;
    TextFits(1, []);
    forall b, f | FitsKinds(FileCodec.kinds, f) && PutFile(b, f).Ok?
      ensures Total(FileFields(PutFile(b, f).value)) <= Total(FileFields(b)) + |EncodeField(f)|
    {
      TextFits(f.num, f.payload);
    }
  }

  lemma SizeFits(v: uint64)
    ensures Total(SizeField(ToInt64(v))) <= |EncodeField(VarintField(4, v))| && Total(SizeField(0)) == 0
  {
    TotalOne(VarintField(4, v));
  }

  lemma MetadataTotal(b: MetadataBody)
    ensures Total(MetadataFields(b)) ==
            Total(Text(1, b.appName)) + Total(Text(2, b.appRelPath)) + Total(Text(3, b.checksum)) +
            Total(SizeField(b.size)) + Total(Texts(5, EnvPayloads(b.env)))
  {
    hide Flatten, Text, SizeField, EncodeField;
    var t5 := Texts(5, EnvPayloads(b.env));
    var t4 := SizeField(b.size) + t5;
    var t3 := Text(3, b.checksum) + t4;
    TotalAppend(SizeField(b.size), t5);
    TotalAppend(Text(3, b.checksum), t4);
    TotalAppend(Text(2, b.appRelPath), t3);
    TotalAppend(Text(1, b.appName), Text(2, b.appRelPath) + t3);
  }

  /** A nested message is written again in a field no longer than the one it came in. */
  lemma NestedFits<T(!new)>(c: Codec<T>, num: nat, p: seq<byte>)
    requires PutFits(c) && Flatten(c.fields(c.empty)) == [] && DecodeNested(c, p).Ok?
    ensures var m := DecodeNested(c, p).value;
            |EncodeField(BytesField(num, Encode(c, m)))| <= |EncodeField(BytesField(num, p))|
  {
    hide EncodeField, DecodeFresh;
    FreshLength(c, p);
    ShorterPayload(num, Encode(c, DecodeNested(c, p).value), p);
  }

  lemma PutMetadataFits(b: MetadataBody, f: Field)
    requires FitsKinds(MetadataCodec.kinds, f) && PutMetadata(b, f).Ok?
    ensures Total(MetadataFields(PutMetadata(b, f).value)) <= Total(MetadataFields(b)) + |EncodeField(f)|
  {
    hide EncodeField, Flatten, Encode, Text, SizeField, DecodeNested, Total;
    var r := PutMetadata(b, f).value;
    MetadataTotal(b);
    MetadataTotal(r);
    if f.VarintField? {
      SizeFits(f.v);
    } else if f.num <= 3 {
      TextFits(f.num, f.payload);
    } else {
      EnvFits();
      NestedFits(EnvCodec, 5, f.payload);
      var entry := DecodeNested(EnvCodec, f.payload).value;
      assert EnvPayloads(r.env) == EnvPayloads(b.env) + [Encode(EnvCodec, entry)];
      TextsGrow(5, EnvPayloads(b.env), Encode(EnvCodec, entry));
    }
  }

  lemma MetadataShrinks()
    ensures PutFits(MetadataCodec) && Flatten(MetadataFields(MetadataCodec.empty)) == []
  {
    hide EncodeField, Text, SizeField, PutMetadata, MetadataFields;
    forall b, f | FitsKinds(MetadataCodec.kinds, f) && PutMetadata(b, f).Ok?
      ensures Total(MetadataFields(PutMetadata(b, f).value)) <= Total(MetadataFields(b)) + |EncodeField(f)|
    {
      PutMetadataFits(b, f);
    }
    MetadataTotal(MetadataCodec.empty);
    TextFits(1, []);
    TextFits(2, []);
    TextFits(3, []);
    SizeFits(0);
    NoTexts(5);
    assert EnvPayloads([]) == [];
  }

  lemma RequestFits()
    ensures PutFits(RequestCodec) && Flatten(RequestFields(RequestCodec.empty)) == []
  {
    hide EncodeField, Encode, DecodeNested, PutFits;
    MetadataShrinks();
    FileFits();
    forall b, f | FitsKinds(RequestCodec.kinds, f) && PutRequest(b, f).Ok?
      ensures Total(RequestFields(PutRequest(b, f).value)) <= Total(RequestFields(b)) + |EncodeField(f)|
    {
      if f.num == 1 {
        NestedFits(MetadataCodec, 1, f.payload);
        TotalOne(BytesField(1, Encode(MetadataCodec, DecodeNested(MetadataCodec, f.payload).value)));
      } else {
        NestedFits(FileCodec, 2, f.payload);
        TotalOne(BytesField(2, Encode(FileCodec, DecodeNested(FileCodec, f.payload).value)));
      }
    }
    RequestPutFits();
  }

  lemma RequestPutFits()
    requires forall b, f | FitsKinds(RequestCodec.kinds, f) && PutRequest(b, f).Ok? ::
               Total(RequestFields(PutRequest(b, f).value)) <= Total(RequestFields(b)) + |EncodeField(f)|
    ensures PutFits(RequestCodec)
  {
    hide EncodeField, Flatten, PutRequest, RequestFields;
    forall b, f | FitsKinds(RequestCodec.kinds, f) && RequestCodec.put(b, f).Ok?
      ensures |Flatten(RequestCodec.fields(RequestCodec.put(b, f).value))| <=
              |Flatten(RequestCodec.fields(b))| + |EncodeField(f)|
    {
      assert Total(RequestFields(PutRequest(b, f).value)) <= Total(RequestFields(b)) + |EncodeField(f)|;
    }
  }

  //////// Whatever is accepted is valid ////////

  lemma UnknownOfDecoded<T>(c: Codec<T>, data: Bytes)
    ensures DecodeFresh(c, data).Ok? ==> UnknownFrom(c.kinds, DecodeFresh(c, data).value.unrecognized, 0)
  {
    DecodedUnknown(c, Msg(c.empty, []), data, 0);
  }

  /** Whatever is decoded, from any bytes, is valid: encoding and decoding it again gives it back. */
  lemma DecodedEnv(data: Bytes, m: EnvEntry)
    requires DecodeFresh(EnvCodec, data) == Ok(m)
    ensures ValidEnv(m)
    ensures |Encode(EnvCodec, m)| <= |data| && DecodeFresh(EnvCodec, Encode(EnvCodec, m)) == Ok(m)
  {
    UnknownOfDecoded(EnvCodec, data);
    EnvFits();
    FreshLength(EnvCodec, data);
    EnvRoundTrip(m);
  }

  lemma DecodedManifest(data: Bytes, m: Manifest)
    requires DecodeFresh(ManifestCodec, data) == Ok(m)
    ensures ValidManifest(m)
    ensures |Encode(ManifestCodec, m)| <= |data| && DecodeFresh(ManifestCodec, Encode(ManifestCodec, m)) == Ok(m)
  {
    UnknownOfDecoded(ManifestCodec, data);
    ManifestFits();
    FreshLength(ManifestCodec, data);
    ManifestRoundTrip(m);
  }

  lemma DecodedRepository(data: Bytes, m: Repository)
    requires DecodeFresh(RepositoryCodec, data) == Ok(m)
    ensures ValidRepository(m)
    ensures |Encode(RepositoryCodec, m)| <= |data| && DecodeFresh(RepositoryCodec, Encode(RepositoryCodec, m)) == Ok(m)
  {
    UnknownOfDecoded(RepositoryCodec, data);
    RepositoryFits();
    FreshLength(RepositoryCodec, data);
    RepositoryRoundTrip(m);
  }

  lemma DecodedFile(data: Bytes, m: File)
    requires DecodeFresh(FileCodec, data) == Ok(m)
    ensures ValidFile(m)
    ensures |Encode(FileCodec, m)| <= |data| && DecodeFresh(FileCodec, Encode(FileCodec, m)) == Ok(m)
  {
    UnknownOfDecoded(FileCodec, data);
    FileFits();
    FreshLength(FileCodec, data);
    FileRoundTrip(m);
  }

  lemma DecodedPluginConfig(data: Bytes, m: PluginConfig)
    requires DecodeFresh(PluginConfigCodec, data) == Ok(m)
    ensures ValidPluginConfig(m)
    ensures |Encode(PluginConfigCodec, m)| <= |data| &&
            DecodeFresh(PluginConfigCodec, Encode(PluginConfigCodec, m)) == Ok(m)
  {
    UnknownOfDecoded(PluginConfigCodec, data);
    PluginConfigFits();
    FreshLength(PluginConfigCodec, data);
    PluginConfigRoundTrip(m);
  }

  ghost predicate ValidEntries(b: MetadataBody)
  {
    forall e | e in b.env :: ValidEnv(e)
  }

  lemma PutKeepsEntries(b: MetadataBody, f: Field)
    requires ValidEntries(b) && PutMetadata(b, f).Ok?
    ensures ValidEntries(PutMetadata(b, f).value)
  {
    hide ValidEnv, DecodeFresh;
    if f.BytesField? && f.num != 1 && f.num != 2 && f.num != 3 {
      DecodedEnv(f.payload, DecodeNested(EnvCodec, f.payload).value);
    }
  }

  lemma DecodedMetadata(data: Bytes, m: Metadata)
    requires DecodeFresh(MetadataCodec, data) == Ok(m)
    ensures ValidMetadata(m)
    ensures |Encode(MetadataCodec, m)| <= |data| && DecodeFresh(MetadataCodec, Encode(MetadataCodec, m)) == Ok(m)
  {
    hide ValidEnv, PutMetadata, Encode;
    UnknownOfDecoded(MetadataCodec, data);
    forall b, f | ValidEntries(b) && PutMetadata(b, f).Ok? ensures ValidEntries(PutMetadata(b, f).value) {
      PutKeepsEntries(b, f);
    }
    DecodedBody(MetadataCodec, Msg(MetadataCodec.empty, []), data, 0, (b: MetadataBody) => ValidEntries(b));
    MetadataShrinks();
    FreshLength(MetadataCodec, data);
    MetadataRoundTrip(m);
  }

  ghost predicate ValidOneof(b: RequestBody)
  {
    match b
    case NoRequest => true
    case MetadataRequest(o) => o.Some? && ValidMetadata(o.value)
    case FileRequest(o) => o.Some? && ValidFile(o.value)
  }

  lemma PutKeepsOneof(b: RequestBody, f: Field)
    requires PutRequest(b, f).Ok?
    ensures ValidOneof(PutRequest(b, f).value)
  {
    hide ValidMetadata, ValidFile, DecodeFresh;
    if f.num == 1 {
      DecodedMetadata(f.payload, DecodeNested(MetadataCodec, f.payload).value);
    } else {
      DecodedFile(f.payload, DecodeNested(FileCodec, f.payload).value);
    }
  }

  lemma DecodedRequest(data: Bytes, m: AppStreamRequest)
    requires DecodeFresh(RequestCodec, data) == Ok(m)
    ensures ValidRequest(m)
    ensures |Encode(RequestCodec, m)| <= |data| && DecodeFresh(RequestCodec, Encode(RequestCodec, m)) == Ok(m)
  {
    hide ValidMetadata, ValidFile, PutRequest, Encode;
    UnknownOfDecoded(RequestCodec, data);
    forall b, f | ValidOneof(b) && PutRequest(b, f).Ok? ensures ValidOneof(PutRequest(b, f).value) {
      PutKeepsOneof(b, f);
    }
    DecodedBody(RequestCodec, Msg(RequestCodec.empty, []), data, 0, (b: RequestBody) => ValidOneof(b));
    RequestFits();
    FreshLength(RequestCodec, data);
    RequestRoundTrip(m);
  }
}
