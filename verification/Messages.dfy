/**
 The messages of the config management plugin protocol: what each generated type
 declares, its decoding switch and the order in which its fields are written.
 Go strings are byte strings; a nil slice and an empty one are the same value here.
 */
module Messages {
  import opened Bits
  import opened Varint
  import opened Wire
  import opened Options

  datatype EnvBody = EnvBody(name: seq<byte>, value: seq<byte>)

  datatype MetadataBody = MetadataBody(
    appName: seq<byte>,
    appRelPath: seq<byte>,
    checksum: seq<byte>,
    size: int64,
    env: seq<EnvEntry>)

  datatype ManifestBody = ManifestBody(manifests: seq<seq<byte>>, sourceType: seq<byte>)

  datatype RepositoryBody = RepositoryBody(isSupported: bool, isDiscoveryEnabled: bool)

  datatype FileBody = FileBody(chunk: seq<byte>)

  datatype PluginConfigBody = PluginConfigBody(isDiscoveryConfigured: bool, provideGitCreds: bool)

  /** The oneof of AppStreamRequest; a wrapper may hold a nil reference. */
  datatype RequestBody =
    | NoRequest
    | MetadataRequest(metadata: Option<Metadata>)
    | FileRequest(file: Option<File>)

  type EnvEntry = Msg<EnvBody>
  type Metadata = Msg<MetadataBody>
  type Manifest = Msg<ManifestBody>
  type Repository = Msg<RepositoryBody>
  type File = Msg<FileBody>
  type PluginConfig = Msg<PluginConfigBody>
  type AppStreamRequest = Msg<RequestBody>

  const EnvCodec: Codec<EnvBody> :=
    Codec(map[1 := BytesKind, 2 := BytesKind], EnvBody([], []), PutEnv, EnvFields)

  const MetadataCodec: Codec<MetadataBody> :=
    Codec(map[1 := BytesKind, 2 := BytesKind, 3 := BytesKind, 4 := VarintKind, 5 := BytesKind],
          MetadataBody([], [], [], 0, []), PutMetadata, MetadataFields)

  const ManifestCodec: Codec<ManifestBody> :=
    Codec(map[1 := BytesKind, 2 := BytesKind], ManifestBody([], []), PutManifest, ManifestFields)

  const RepositoryCodec: Codec<RepositoryBody> :=
    Codec(map[1 := VarintKind, 2 := VarintKind], RepositoryBody(false, false), PutRepository, RepositoryFields)

  const FileCodec: Codec<FileBody> :=
    Codec(map[1 := BytesKind], FileBody([]), PutFile, FileFields)

  const PluginConfigCodec: Codec<PluginConfigBody> :=
    Codec(map[1 := VarintKind, 2 := VarintKind], PluginConfigBody(false, false), PutPluginConfig, PluginConfigFields)

  const RequestCodec: Codec<RequestBody> :=
    Codec(map[1 := BytesKind, 2 := BytesKind], NoRequest, PutRequest, RequestFields)

  //////// What a decoded field does ////////

  function PutEnv(b: EnvBody, f: Field): (r: Result<EnvBody>)
  {
    match f
    case BytesField(num, p) => Ok(if num == 1 then b.(name := p) else b.(value := p))
    case VarintField(_, _) => Err(WrongWireType)
  }

  function PutMetadata(b: MetadataBody, f: Field): (r: Result<MetadataBody>)
  {
    match f
    case VarintField(_, v) => Ok(b.(size := ToInt64(v)))
    case BytesField(num, p) =>
      if num == 1 then Ok(b.(appName := p))
      else if num == 2 then Ok(b.(appRelPath := p))
      else if num == 3 then Ok(b.(checksum := p))
      else
        match DecodeNested(EnvCodec, p)
        case Err(e) => Err(e)
        case Ok(entry) => Ok(b.(env := b.env + [entry]))
  }

  function PutManifest(b: ManifestBody, f: Field): (r: Result<ManifestBody>)
  {
    match f
    case BytesField(num, p) =>
      Ok(if num == 1 then b.(manifests := b.manifests + [p]) else b.(sourceType := p))
    case VarintField(_, _) => Err(WrongWireType)
  }

  function PutRepository(b: RepositoryBody, f: Field): (r: Result<RepositoryBody>)
  {
    match f
    case VarintField(num, v) =>
      Ok(if num == 1 then b.(isSupported := v != 0) else b.(isDiscoveryEnabled := v != 0))
    case BytesField(_, _) => Err(WrongWireType)
  }

  function PutFile(b: FileBody, f: Field): (r: Result<FileBody>)
  {
    match f
    case BytesField(_, p) => Ok(b.(chunk := p))
    case VarintField(_, _) => Err(WrongWireType)
  }

  function PutPluginConfig(b: PluginConfigBody, f: Field): (r: Result<PluginConfigBody>)
  {
    match f
    case VarintField(num, v) =>
      Ok(if num == 1 then b.(isDiscoveryConfigured := v != 0) else b.(provideGitCreds := v != 0))
    case BytesField(_, _) => Err(WrongWireType)
  }

  function PutRequest(b: RequestBody, f: Field): (r: Result<RequestBody>)
  {
    match f
    case VarintField(_, _) => Err(WrongWireType)
    case BytesField(num, p) =>
      if num == 1 then
        match DecodeNested(MetadataCodec, p)
        case Err(e) => Err(e)
        case Ok(m) => Ok(MetadataRequest(Some(m)))
      else
        match DecodeNested(FileCodec, p)
        case Err(e) => Err(e)
        case Ok(m) => Ok(FileRequest(Some(m)))
  }

  /** A payload is part of a slice, so the second case does not arise. */
  function DecodeNested<T>(c: Codec<T>, p: seq<byte>): (r: Result<Msg<T>>)
  {
    if |p| < TWO63 then DecodeFresh(c, p) else Err(UnexpectedEOF)
  }

  //////// What is written, in order ////////

  /** A string or bytes field is left out when empty. */
  function Text(num: nat, s: seq<byte>): (r: seq<Field>)
  {
    if |s| > 0 then [BytesField(num, s)] else []
  }

  /** A bool field is left out when false. */
  function Flag(num: nat, b: bool): (r: seq<Field>)
  {
    if b then [VarintField(num, 1)] else []
  }

  function Texts(num: nat, ss: seq<seq<byte>>): (r: seq<Field>)
    ensures |r| == |ss| && forall i :: 0 <= i < |ss| ==> r[i] == BytesField(num, ss[i])
  {
    seq(|ss|, i requires 0 <= i < |ss| => BytesField(num, ss[i]))
  }

  function EnvFields(b: EnvBody): (r: seq<Field>)
  {
    Text(1, b.name) + Text(2, b.value)
  }

  function EnvPayloads(es: seq<EnvEntry>): (r: seq<seq<byte>>)
    ensures |r| == |es| && forall i :: 0 <= i < |es| ==> r[i] == Encode(EnvCodec, es[i])
  {
    seq(|es|, i requires 0 <= i < |es| => Encode(EnvCodec, es[i]))
  }

  function SizeField(size: int64): (r: seq<Field>)
  {
    if size != 0 then [VarintField(4, ToUint64(size))] else []
  }

  function MetadataFields(b: MetadataBody): (r: seq<Field>)
  {
    Text(1, b.appName) + (Text(2, b.appRelPath) + (Text(3, b.checksum) +
    (SizeField(b.size) + Texts(5, EnvPayloads(b.env)))))
  }

  function ManifestFields(b: ManifestBody): (r: seq<Field>)
  {
    Texts(1, b.manifests) + Text(2, b.sourceType)
  }

  function RepositoryFields(b: RepositoryBody): (r: seq<Field>)
  {
    Flag(1, b.isSupported) + Flag(2, b.isDiscoveryEnabled)
  }

  function FileFields(b: FileBody): (r: seq<Field>)
  {
    Text(1, b.chunk)
  }

  function PluginConfigFields(b: PluginConfigBody): (r: seq<Field>)
  {
    Flag(1, b.isDiscoveryConfigured) + Flag(2, b.provideGitCreds)
  }

  function RequestFields(b: RequestBody): (r: seq<Field>)
  {
    match b
    case MetadataRequest(Some(m)) => [BytesField(1, Encode(MetadataCodec, m))]
    case FileRequest(Some(m)) => [BytesField(2, Encode(FileCodec, m))]
    case _ => []
  }

  //////// Which messages come back ////////

  predicate ValidEnv(m: EnvEntry) { UnknownFrom(EnvCodec.kinds, m.unrecognized, 0) }

  predicate ValidMetadata(m: Metadata)
  {
    UnknownFrom(MetadataCodec.kinds, m.unrecognized, 0) && forall e | e in m.body.env :: ValidEnv(e)
  }

  predicate ValidManifest(m: Manifest) { UnknownFrom(ManifestCodec.kinds, m.unrecognized, 0) }

  predicate ValidRepository(m: Repository) { UnknownFrom(RepositoryCodec.kinds, m.unrecognized, 0) }

  predicate ValidFile(m: File) { UnknownFrom(FileCodec.kinds, m.unrecognized, 0) }

  predicate ValidPluginConfig(m: PluginConfig) { UnknownFrom(PluginConfigCodec.kinds, m.unrecognized, 0) }

  /** The oneof must not wrap a nil message: such a request is written as an empty one. */
  predicate ValidRequest(m: AppStreamRequest)
  {
    && UnknownFrom(RequestCodec.kinds, m.unrecognized, 0)
    && match m.body
       case NoRequest => true
       case MetadataRequest(o) => o.Some? && ValidMetadata(o.value)
       case FileRequest(o) => o.Some? && ValidFile(o.value)
  }

  lemma EnvRoundTrip(m: EnvEntry)
    requires |Encode(EnvCodec, m)| < TWO63
    ensures DecodeFresh(EnvCodec, Encode(EnvCodec, m)) == Ok(m) <==> ValidEnv(m)
  {
    hide DecodeFresh, UnknownFrom;
    var c, b := EnvCodec, m.body;
    SetAllAppend(c, c.empty, Text(1, b.name), Text(2, b.value));
    RoundTripIff(c, m);
  }

  lemma ManifestRoundTrip(m: Manifest)
    requires |Encode(ManifestCodec, m)| < TWO63
    ensures DecodeFresh(ManifestCodec, Encode(ManifestCodec, m)) == Ok(m) <==> ValidManifest(m)
  {
    hide DecodeFresh, UnknownFrom, Encode, SetAll, FitsKinds;
    ManifestSet(m.body);
    ManifestKinds(m.body);
    RoundTripIff(ManifestCodec, m);
  }

  lemma ManifestKinds(b: ManifestBody)
    ensures forall f | f in ManifestFields(b) :: FitsKinds(ManifestCodec.kinds, f)
  {
  }

  lemma ManifestSet(b: ManifestBody)
    ensures SetAll(ManifestCodec, ManifestCodec.empty, ManifestFields(b)) == Ok(b)
  {
    hide SetAll, Text, Texts;
    var c := ManifestCodec;
    SetAllAppend(c, c.empty, Texts(1, b.manifests), Text(2, b.sourceType));
    PutsManifests(c.empty, b.manifests);
    assert [] + b.manifests == b.manifests;
    PutsSourceType(ManifestBody(b.manifests, []), b.sourceType);
  }

  lemma PutsSourceType(b: ManifestBody, p: seq<byte>)
    requires b.sourceType == []
    ensures SetAll(ManifestCodec, b, Text(2, p)) == Ok(b.(sourceType := p))
  {
    if p != [] {
      assert Text(2, p)[1..] == [];
      assert SetAll(ManifestCodec, b.(sourceType := p), []) == Ok(b.(sourceType := p));
    }
  }

  lemma {:induction false} PutsManifests(b: ManifestBody, ss: seq<seq<byte>>)
    ensures SetAll(ManifestCodec, b, Texts(1, ss)) == Ok(b.(manifests := b.manifests + ss))
    decreases |ss|
  {
    if ss != [] {
      assert Texts(1, ss)[1..] == Texts(1, ss[1..]);
      PutsManifests(b.(manifests := b.manifests + [ss[0]]), ss[1..]);
      assert b.manifests + [ss[0]] + ss[1..] == b.manifests + ss;
    } else {
      assert b.manifests + ss == b.manifests;
    }
  }

  lemma RepositoryRoundTrip(m: Repository)
    requires |Encode(RepositoryCodec, m)| < TWO63
    ensures DecodeFresh(RepositoryCodec, Encode(RepositoryCodec, m)) == Ok(m) <==> ValidRepository(m)
  {
    hide DecodeFresh, UnknownFrom;
    var c, b := RepositoryCodec, m.body;
    SetAllAppend(c, c.empty, Flag(1, b.isSupported), Flag(2, b.isDiscoveryEnabled));
    RoundTripIff(c, m);
  }

  lemma FileRoundTrip(m: File)
    requires |Encode(FileCodec, m)| < TWO63
    ensures DecodeFresh(FileCodec, Encode(FileCodec, m)) == Ok(m) <==> ValidFile(m)
  {
    hide DecodeFresh, UnknownFrom;
    RoundTripIff(FileCodec, m);
  }

  lemma PluginConfigRoundTrip(m: PluginConfig)
    requires |Encode(PluginConfigCodec, m)| < TWO63
    ensures DecodeFresh(PluginConfigCodec, Encode(PluginConfigCodec, m)) == Ok(m) <==> ValidPluginConfig(m)
  {
    hide DecodeFresh, UnknownFrom;
    var c, b := PluginConfigCodec, m.body;
    SetAllAppend(c, c.empty, Flag(1, b.isDiscoveryConfigured), Flag(2, b.provideGitCreds));
    RoundTripIff(c, m);
  }

  /** The entries read back from their encodings, all or none. */
  function DecodeAll(es: seq<EnvEntry>): (r: Result<seq<EnvEntry>>)
  {
    if es == [] then Ok([])
    else
      match DecodeNested(EnvCodec, Encode(EnvCodec, es[0]))
      case Err(e) => Err(e)
      case Ok(d) =>
        match DecodeAll(es[1..])
        case Err(e) => Err(e)
        case Ok(ds) => Ok([d] + ds)
  }

  lemma {:induction false} PutsEntries(b: MetadataBody, es: seq<EnvEntry>)
    ensures SetAll(MetadataCodec, b, Texts(5, EnvPayloads(es))) ==
            match DecodeAll(es)
            case Err(e) => Err(e)
            case Ok(ds) => Ok(b.(env := b.env + ds))
    decreases |es|
  {
    hide DecodeNested, Encode;
    if es == [] {
      assert b.env + [] == b.env;
    } else {
      assert Texts(5, EnvPayloads(es))[1..] == Texts(5, EnvPayloads(es[1..]));
      var d := DecodeNested(EnvCodec, Encode(EnvCodec, es[0]));
      if d.Ok? {
        PutsEntries(b.(env := b.env + [d.value]), es[1..]);
        if DecodeAll(es[1..]).Ok? {
          assert b.env + [d.value] + DecodeAll(es[1..]).value == b.env + ([d.value] + DecodeAll(es[1..]).value);
        }
      }
    }
  }

  lemma {:induction false} DecodeAllIff(es: seq<EnvEntry>)
    requires forall e | e in es :: |Encode(EnvCodec, e)| < TWO63
    ensures DecodeAll(es) == Ok(es) <==> forall e | e in es :: ValidEnv(e)
    decreases |es|
  {
    hide DecodeFresh, Encode, ValidEnv;
    if es != [] {
      assert es == [es[0]] + es[1..];
      EnvRoundTrip(es[0]);
      DecodeAllIff(es[1..]);
    }
  }

  lemma {:induction false} PayloadFits(fs: seq<Field>, i: nat)
    requires i < |fs|
    ensures fs[i].BytesField? ==> |fs[i].payload| <= |Flatten(fs)|
    decreases |fs|
  {
    if i > 0 { PayloadFits(fs[1..], i - 1); }
  }

  lemma EntriesFit(b: MetadataBody)
    requires |Flatten(MetadataFields(b))| < TWO63
    ensures forall e | e in b.env :: |Encode(EnvCodec, e)| < TWO63
  {
    hide Encode, Text, SizeField, Flatten;
    var tail := Texts(5, EnvPayloads(b.env));
    var head := Text(1, b.appName) + (Text(2, b.appRelPath) + (Text(3, b.checksum) + SizeField(b.size)));
    assert MetadataFields(b) == head + tail;
    FlattenAppend(head, tail);
    forall e | e in b.env ensures |Encode(EnvCodec, e)| < TWO63 {
      var i :| 0 <= i < |b.env| && b.env[i] == e;
      PayloadFits(tail, i);
    }
  }

  lemma ScalarsFirst(b: MetadataBody, tail: seq<Field>)
    ensures SetAll(MetadataCodec, MetadataCodec.empty,
              Text(1, b.appName) + (Text(2, b.appRelPath) + (Text(3, b.checksum) + (SizeField(b.size) + tail)))) ==
            SetAll(MetadataCodec, b.(env := []), tail)
  {
    hide DecodeNested;
    var c := MetadataCodec;
    var d := SizeField(b.size) + tail;
    var e := Text(3, b.checksum) + d;
    SetAllAppend(c, c.empty, Text(1, b.appName), Text(2, b.appRelPath) + e);
    var b1 := c.empty.(appName := b.appName);
    assert SetAll(c, c.empty, Text(1, b.appName)) == Ok(b1);
    SetAllAppend(c, b1, Text(2, b.appRelPath), e);
    var b2 := b1.(appRelPath := b.appRelPath);
    assert SetAll(c, b1, Text(2, b.appRelPath)) == Ok(b2);
    SetAllAppend(c, b2, Text(3, b.checksum), d);
    var b3 := b2.(checksum := b.checksum);
    assert SetAll(c, b2, Text(3, b.checksum)) == Ok(b3);
    SetAllAppend(c, b3, SizeField(b.size), tail);
  }

  lemma MetadataFits(b: MetadataBody)
    ensures forall f | f in MetadataFields(b) :: FitsKinds(MetadataCodec.kinds, f)
  {
  }

  lemma MetadataRoundTrip(m: Metadata)
    requires |Encode(MetadataCodec, m)| < TWO63
    ensures DecodeFresh(MetadataCodec, Encode(MetadataCodec, m)) == Ok(m) <==> ValidMetadata(m)
  {
    hide DecodeFresh, UnknownFrom, ValidEnv;
    var b := m.body;
    MetadataFits(b);
    RoundTripIff(MetadataCodec, m);
    EntriesFit(b);
    ScalarsFirst(b, Texts(5, EnvPayloads(b.env)));
    PutsEntries(b.(env := []), b.env);
    DecodeAllIff(b.env);
    if DecodeAll(b.env).Ok? { assert [] + DecodeAll(b.env).value == DecodeAll(b.env).value; }
  }

  lemma RequestRoundTrip(m: AppStreamRequest)
    requires |Encode(RequestCodec, m)| < TWO63
    ensures DecodeFresh(RequestCodec, Encode(RequestCodec, m)) == Ok(m) <==> ValidRequest(m)
  {
    hide DecodeFresh, UnknownFrom, ValidMetadata, ValidFile, MetadataFields, FileFields;
    RoundTripIff(RequestCodec, m);
    var fs := RequestFields(m.body);
    if fs != [] { PayloadFits(fs, 0); }
    match m.body
    case MetadataRequest(Some(x)) => MetadataRoundTrip(x);
    case FileRequest(Some(x)) => FileRoundTrip(x);
    case _ =>
  }
}
