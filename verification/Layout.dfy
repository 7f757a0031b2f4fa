/** The bytes of each message, written out: which tag stands before which field, and in which order. */
module Layout {
  import opened Bits
  import opened Varint
  import opened Wire
  import opened Messages
  import opened Marshal

  /** A length-delimited record. */
  function Delim(tag: byte, s: seq<byte>): (r: seq<byte>)
  {
    [tag] + EncodeVarint(|s|) + s
  }

  /** Empty strings are not written. */
  function Optional(tag: byte, s: seq<byte>): (r: seq<byte>)
  {
    if s == [] then [] else Delim(tag, s)
  }

  function Delims(tag: byte, ss: seq<seq<byte>>): (r: seq<byte>)
  {
    if ss == [] then [] else Delim(tag, ss[0]) + Delims(tag, ss[1..])
  }

  function Set(tag: byte, b: bool): (r: seq<byte>)
  {
    if b then [tag, 1] else []
  }

  lemma TextBytes(tag: byte, s: seq<byte>)
    requires tag < 128 && tag % 8 == 2
    ensures Flatten(Text(tag / 8, s)) == Optional(tag, s)
  {
    hide Flatten, EncodeField;
    if s != [] {
      DelimitedForm(tag, s);
    } else {
      NoBytes();
    }
  }

  lemma NoBytes()
    ensures Flatten([]) == []
  {
  }

  lemma {:induction false} TextsBytes(tag: byte, ss: seq<seq<byte>>)
    requires tag < 128 && tag % 8 == 2
    ensures Flatten(Texts(tag / 8, ss)) == Delims(tag, ss)
    decreases |ss|
  {
    hide EncodeField;
    if ss != [] {
      assert Texts(tag / 8, ss)[1..] == Texts(tag / 8, ss[1..]);
      TextsBytes(tag, ss[1..]);
      DelimitedForm(tag, ss[0]);
    }
  }

  lemma FlagBytes(tag: byte, b: bool)
    requires tag < 128 && tag % 8 == 0
    ensures Flatten(Flag(tag / 8, b)) == Set(tag, b)
  {
    hide Flatten, EncodeField;
    if b {
      VarintForm(tag, 1);
    } else {
      NoBytes();
    }
  }

  lemma EnvBytes(m: EnvEntry)
    ensures Encode(EnvCodec, m) == Optional(0xa, m.body.name) + Optional(0x12, m.body.value) + m.unrecognized
  {
    hide Flatten, Text, Optional;
    TextBytes(0xa, m.body.name);
    TextBytes(0x12, m.body.value);
    FlattenAppend(Text(1, m.body.name), Text(2, m.body.value));
  }

  lemma ManifestBytes(m: Manifest)
    ensures Encode(ManifestCodec, m) ==
            Delims(0xa, m.body.manifests) + Optional(0x12, m.body.sourceType) + m.unrecognized
  {
    hide Flatten, Text, Texts, Optional, Delims;
    TextsBytes(0xa, m.body.manifests);
    TextBytes(0x12, m.body.sourceType);
    FlattenAppend(Texts(1, m.body.manifests), Text(2, m.body.sourceType));
  }

  function SizeBytes(size: int64): (r: seq<byte>)
  {
    if size == 0 then [] else [0x20] + EncodeVarint(ToUint64(size))
  }

  lemma MetadataBytes(m: Metadata)
    ensures var b := m.body;
            Encode(MetadataCodec, m) ==
            Optional(0xa, b.appName) + (Optional(0x12, b.appRelPath) + (Optional(0x1a, b.checksum) +
            (SizeBytes(b.size) + (Delims(0x2a, EnvPayloads(b.env)) + m.unrecognized))))
  {
    hide Flatten, Text, Texts, Optional, Delims, SizeField, Encode;
    var b := m.body;
    TextBytes(0xa, b.appName);
    TextBytes(0x12, b.appRelPath);
    TextBytes(0x1a, b.checksum);
    SizeForm(b.size);
    TextsBytes(0x2a, EnvPayloads(b.env));
    MetadataForm(m);
  }

  lemma SizeForm(size: int64)
    ensures Flatten(SizeField(size)) == SizeBytes(size)
  {
    hide Flatten, EncodeField;
    if size != 0 {
      VarintForm(0x20, ToUint64(size));
    } else {
      NoBytes();
    }
  }

  lemma FileBytes(m: File)
    ensures Encode(FileCodec, m) == Optional(0xa, m.body.chunk) + m.unrecognized
  {
    hide Flatten, Text, Optional;
    TextBytes(0xa, m.body.chunk);
  }

  lemma RepositoryBytes(m: Repository)
    ensures Encode(RepositoryCodec, m) ==
            Set(0x8, m.body.isSupported) + Set(0x10, m.body.isDiscoveryEnabled) + m.unrecognized
  {
    hide Flatten, Flag, Set;
    FlagBytes(0x8, m.body.isSupported);
    FlagBytes(0x10, m.body.isDiscoveryEnabled);
    FlattenAppend(Flag(1, m.body.isSupported), Flag(2, m.body.isDiscoveryEnabled));
  }

  lemma PluginConfigBytes(m: PluginConfig)
    ensures Encode(PluginConfigCodec, m) ==
            Set(0x8, m.body.isDiscoveryConfigured) + Set(0x10, m.body.provideGitCreds) + m.unrecognized
  {
    hide Flatten, Flag, Set;
    FlagBytes(0x8, m.body.isDiscoveryConfigured);
    FlagBytes(0x10, m.body.provideGitCreds);
    FlattenAppend(Flag(1, m.body.isDiscoveryConfigured), Flag(2, m.body.provideGitCreds));
  }

  lemma RequestBytes(m: AppStreamRequest)
    ensures Encode(RequestCodec, m) ==
            (match m.body
             case MetadataRequest(Some(x)) => Delim(0xa, Encode(MetadataCodec, x))
             case FileRequest(Some(x)) => Delim(0x12, Encode(FileCodec, x))
             case _ => []) + m.unrecognized
  {
    hide Flatten, EncodeField, MetadataFields, FileFields;
    NoBytes();
    match m.body
    case MetadataRequest(Some(x)) => DelimitedForm(0xa, Encode(MetadataCodec, x));
    case FileRequest(Some(x)) => DelimitedForm(0x12, Encode(FileCodec, x));
    case _ =>
  }
}
