/**
 * Bag metadata in YAML: the encoder always writes every field, the decoder reads the fields that
 * the version found in the document has, and leaves the others as they are.
 */
module MetadataCodec {
  import opened Basics
  import opened Yaml
  import opened QosCodec

  datatype TopicMetadata = TopicMetadata(
    id: nat, name: string, typeName: string, format: string, profiles: seq<Qos>, typeHash: string)

  datatype TopicInformation = TopicInformation(metadata: TopicMetadata, messageCount: uint64)

  datatype FileInformation = FileInformation(path: string, start: int64, duration: int64, messageCount: uint64)

  datatype BagMetadata = BagMetadata(
    version: int32, bagSize: uint64, storageId: string, paths: seq<string>, files: seq<FileInformation>,
    duration: int64, start: int64, messageCount: uint64, topics: seq<TopicInformation>,
    compressionFormat: string, compressionMode: string, customData: map<string, string>, rosDistro: string)

  const DEFAULT_BAG := BagMetadata(9, 0, "", [], [], 0, 0, 0, [], "", "", map[], "")

  // ----- Times -----

  function EncodeDuration(ns: int64): Node { Mapping(map["nanoseconds" := Integer(ns)]) }

  function EncodeStart(ns: int64): Node { Mapping(map["nanoseconds_since_epoch" := Integer(ns)]) }

  /** Counts are read unsigned and stored signed. */
  function ToSigned(u: uint64): int64 { if u > INT64_MAX then u - UINT64_MAX - 1 else u }

  function DecodeCount(n: Option<Node>, key: string): Option<int64> {
    var node :- n;
    var u :- AsUint64(node.Get(key));
    Some(ToSigned(u))
  }

  function DecodeDuration(n: Option<Node>): Option<int64> { DecodeCount(n, "nanoseconds") }

  function DecodeStart(n: Option<Node>): Option<int64> { DecodeCount(n, "nanoseconds_since_epoch") }

  lemma DurationRoundTrip(ns: int64)
    ensures DecodeDuration(Some(EncodeDuration(ns))) == if ns >= 0 then Some(ns) else None
    ensures DecodeStart(Some(EncodeStart(ns))) == if ns >= 0 then Some(ns) else None
  {
    IntegerRoundTrip(ns, 0, UINT64_MAX);
  }

  /** A count of 2^63 or more in a document comes out negative. */
  lemma HugeDuration(n: Node, count: int)
    requires 9223372036854775808 <= count <= 18446744073709551615 && n.Get("nanoseconds") == Some(Integer(count))
    ensures DecodeDuration(Some(n)) == Some(count - 18446744073709551616)
  {
    IntegerRoundTrip(count, 0, UINT64_MAX);
  }

  // ----- Files -----

  function EncodeFile(f: FileInformation): Node {
    Mapping(map["path" := Scalar(f.path), "starting_time" := EncodeStart(f.start),
                "duration" := EncodeDuration(f.duration), "message_count" := Integer(f.messageCount)])
  }

  function DecodeFile(n: Node): Option<FileInformation> {
    var path :- AsText(n.Get("path"));
    var start :- DecodeStart(n.Get("starting_time"));
    var duration :- DecodeDuration(n.Get("duration"));
    var messageCount :- AsUint64(n.Get("message_count"));
    Some(FileInformation(path, start, duration, messageCount))
  }

  predicate ReadableFile(f: FileInformation) { f.start >= 0 && f.duration >= 0 }

  lemma FileRoundTrip(f: FileInformation)
    ensures DecodeFile(EncodeFile(f)) == if ReadableFile(f) then Some(f) else None
  {
    var n := EncodeFile(f);
    assert n.Get("path") == Some(Scalar(f.path));
    assert n.Get("starting_time") == Some(EncodeStart(f.start));
    assert n.Get("duration") == Some(EncodeDuration(f.duration));
    assert n.Get("message_count") == Some(Integer(f.messageCount));
    DurationRoundTrip(f.start);
    DurationRoundTrip(f.duration);
    IntegerRoundTrip(f.messageCount, 0, UINT64_MAX);
  }

  function EncodeFiles(fs: seq<FileInformation>): Node {
    Sequence(seq(|fs|, i requires 0 <= i < |fs| => EncodeFile(fs[i])))
  }

  function DecodeFiles(n: Option<Node>): Option<seq<FileInformation>> {
    if n.None? || !n.value.Sequence? then None else AllOf(n.value.items, DecodeFile)
  }

  predicate ReadableFiles(fs: seq<FileInformation>) { forall i | 0 <= i < |fs| :: ReadableFile(fs[i]) }

  lemma FilesRoundTrip(fs: seq<FileInformation>)
    ensures DecodeFiles(Some(EncodeFiles(fs))) == if ReadableFiles(fs) then Some(fs) else None
  {
    var items := EncodeFiles(fs).items;
    forall i | 0 <= i < |fs| ensures DecodeFile(items[i]) == if ReadableFile(fs[i]) then Some(fs[i]) else None {
      FileRoundTrip(fs[i]);
    }
    if ReadableFiles(fs) { AllOfIs(items, DecodeFile, fs); } else { AllOfItems(items, DecodeFile); }
  }

  // ----- Topics -----

  /** Before version 9 the list of profiles is itself a document, written as text. */
  function EncodeProfiles(text: TextForm, qs: seq<Qos>, version: int): Node {
    if version < 9 then Scalar(text.dump(QosList(qs, version))) else QosList(qs, version)
  }

  function DecodeProfiles(text: TextForm, n: Option<Node>, version: int): Option<seq<Qos>> {
    if version >= 9 then DecodeQosList(n)
    else if version >= 4 then
      var s :- AsText(n);
      if s == "" then Some([]) else DecodeQosList(Some(text.load(s)))
    else Some([])
  }

  lemma ProfilesRoundTrip(text: TextForm, qs: seq<Qos>, version: int)
    requires Inverse(text) && AllWritable(qs, version)
    ensures DecodeProfiles(text, Some(EncodeProfiles(text, qs, version)), version) ==
            if version < 4 then Some([]) else if AllReadable(qs) then Some(NormaliseAll(qs)) else None
  {
    QosListRoundTrip(qs, version);
    assert text.load(text.dump(QosList(qs, version))) == QosList(qs, version);
  }

  function EncodeTopic(text: TextForm, t: TopicMetadata, version: int): Node {
    Mapping(map["name" := Scalar(t.name), "type" := Scalar(t.typeName),
                "serialization_format" := Scalar(t.format),
                "offered_qos_profiles" := EncodeProfiles(text, t.profiles, version),
                "type_description_hash" := Scalar(t.typeHash)])
  }

  function DecodeTopic(text: TextForm, n: Node, version: int): Option<TopicMetadata> {
    var name :- AsText(n.Get("name"));
    var typeName :- AsText(n.Get("type"));
    var format :- AsText(n.Get("serialization_format"));
    var profiles :- DecodeProfiles(text, n.Get("offered_qos_profiles"), version);
    var typeHash :- if version >= 7 then AsText(n.Get("type_description_hash")) else Some("");
    Some(TopicMetadata(0, name, typeName, format, profiles, typeHash))
  }

  /** What a topic reads back as in the given version. */
  function ClearTopic(t: TopicMetadata, version: int): TopicMetadata {
    t.(id := 0,
       profiles := if version >= 4 then NormaliseAll(t.profiles) else [],
       typeHash := if version >= 7 then t.typeHash else "")
  }

  predicate ReadableTopic(t: TopicMetadata, version: int) { version >= 4 ==> AllReadable(t.profiles) }

  lemma TopicRoundTrip(text: TextForm, t: TopicMetadata, version: int)
    requires Inverse(text) && AllWritable(t.profiles, version)
    ensures DecodeTopic(text, EncodeTopic(text, t, version), version) ==
            if ReadableTopic(t, version) then Some(ClearTopic(t, version)) else None
  {
    var n := EncodeTopic(text, t, version);
    assert n.Get("name") == Some(Scalar(t.name)) && n.Get("type") == Some(Scalar(t.typeName));
    assert n.Get("serialization_format") == Some(Scalar(t.format));
    assert n.Get("offered_qos_profiles") == Some(EncodeProfiles(text, t.profiles, version));
    assert n.Get("type_description_hash") == Some(Scalar(t.typeHash));
    ProfilesRoundTrip(text, t.profiles, version);
  }

  function EncodeTopicInformation(text: TextForm, t: TopicInformation, version: int): Node {
    Mapping(map["topic_metadata" := EncodeTopic(text, t.metadata, version), "message_count" := Integer(t.messageCount)])
  }

  function DecodeTopicInformation(text: TextForm, version: int): Node -> Option<TopicInformation> {
    (n: Node) => DecodeTopicEntry(text, n, version)
  }

  function DecodeTopicEntry(text: TextForm, n: Node, version: int): Option<TopicInformation> {
    var node :- n.Get("topic_metadata");
    var metadata :- DecodeTopic(text, node, version);
    var messageCount :- AsUint64(n.Get("message_count"));
    Some(TopicInformation(metadata, messageCount))
  }

  function ClearEntry(t: TopicInformation, version: int): TopicInformation {
    t.(metadata := ClearTopic(t.metadata, version))
  }

  lemma TopicEntryRoundTrip(text: TextForm, t: TopicInformation, version: int)
    requires Inverse(text) && AllWritable(t.metadata.profiles, version)
    ensures DecodeTopicEntry(text, EncodeTopicInformation(text, t, version), version) ==
            if ReadableTopic(t.metadata, version) then Some(ClearEntry(t, version)) else None
  {
    var n := EncodeTopicInformation(text, t, version);
    assert n.Get("topic_metadata") == Some(EncodeTopic(text, t.metadata, version));
    assert n.Get("message_count") == Some(Integer(t.messageCount));
    TopicRoundTrip(text, t.metadata, version);
    IntegerRoundTrip(t.messageCount, 0, UINT64_MAX);
  }

  function EncodeTopics(text: TextForm, ts: seq<TopicInformation>, version: int): Node {
    Sequence(seq(|ts|, i requires 0 <= i < |ts| => EncodeTopicInformation(text, ts[i], version)))
  }

  function DecodeTopics(text: TextForm, n: Option<Node>, version: int): Option<seq<TopicInformation>> {
    if n.None? || !n.value.Sequence? then None
    else AllOf(n.value.items, DecodeTopicInformation(text, version))
  }

  function ClearTopics(ts: seq<TopicInformation>, version: int): seq<TopicInformation> {
    seq(|ts|, i requires 0 <= i < |ts| => ClearEntry(ts[i], version))
  }

  predicate WritableTopics(ts: seq<TopicInformation>, version: int) {
    forall i | 0 <= i < |ts| :: AllWritable(ts[i].metadata.profiles, version)
  }

  predicate ReadableTopics(ts: seq<TopicInformation>, version: int) {
    forall i | 0 <= i < |ts| :: ReadableTopic(ts[i].metadata, version)
  }

  lemma TopicsRoundTrip(text: TextForm, ts: seq<TopicInformation>, version: int)
    requires Inverse(text) && WritableTopics(ts, version)
    ensures DecodeTopics(text, Some(EncodeTopics(text, ts, version)), version) ==
            if ReadableTopics(ts, version) then Some(ClearTopics(ts, version)) else None
  {
    var items, convert := EncodeTopics(text, ts, version).items, DecodeTopicInformation(text, version);
    forall i | 0 <= i < |ts|
      ensures convert(items[i]) ==
              if ReadableTopic(ts[i].metadata, version) then Some(ClearTopics(ts, version)[i]) else None
    {
      TopicEntryRoundTrip(text, ts[i], version);
    }
    if ReadableTopics(ts, version) {
      AllOfIs(items, convert, ClearTopics(ts, version));
    } else {
      AllOfItems(items, convert);
    }
  }

  method WriteTopics(text: TextForm, ts: seq<TopicInformation>, version: int) returns (node: Node)
    ensures node == EncodeTopics(text, ts, version)
  {
    node := Sequence([]);
    for i := 0 to |ts|
      invariant node == EncodeTopics(text, ts[..i], version)
    {
      node := Sequence(node.items + [EncodeTopicInformation(text, ts[i], version)]);
    }
    assert ts[..|ts|] == ts;
  }

  method ReadTopics(text: TextForm, node: Node, version: int) returns (r: Option<seq<TopicInformation>>)
    ensures r == DecodeTopics(text, Some(node), version)
  {
    if !node.Sequence? { return None; }
    var ts := [];
    for i := 0 to |node.items|
      invariant AllOf(node.items[..i], DecodeTopicInformation(text, version)) == Some(ts)
    {
      var t := DecodeTopicEntry(text, node.items[i], version);
      AllOfNext(node.items, i, DecodeTopicInformation(text, version), ts, t);
      if t == None { return None; }
      ts := ts + [t.value];
    }
    assert node.items[..|node.items|] == node.items;
    return Some(ts);
  }

  // ----- The bag -----

  function EncodeBag(text: TextForm, m: BagMetadata): Node {
    Mapping(map[
      "version" := Integer(m.version),
      "storage_identifier" := Scalar(m.storageId),
      "duration" := EncodeDuration(m.duration),
      "starting_time" := EncodeStart(m.start),
      "message_count" := Integer(m.messageCount),
      "topics_with_message_count" := EncodeTopics(text, m.topics, m.version),
      "compression_format" := Scalar(m.compressionFormat),
      "compression_mode" := Scalar(m.compressionMode),
      "relative_file_paths" := Texts(m.paths),
      "files" := EncodeFiles(m.files),
      "custom_data" := Table(m.customData),
      "ros_distro" := Scalar(m.rosDistro)])
  }

  method WriteBag(text: TextForm, m: BagMetadata) returns (node: Node)
    ensures node == EncodeBag(text, m)
  {
    node := Null;
    node := node.Set("version", Integer(m.version));
    node := node.Set("storage_identifier", Scalar(m.storageId));
    node := node.Set("duration", EncodeDuration(m.duration));
    node := node.Set("starting_time", EncodeStart(m.start));
    node := node.Set("message_count", Integer(m.messageCount));
    var topics := WriteTopics(text, m.topics, m.version);
    node := node.Set("topics_with_message_count", topics);
    node := node.Set("compression_format", Scalar(m.compressionFormat));
    node := node.Set("compression_mode", Scalar(m.compressionMode));
    node := node.Set("relative_file_paths", Texts(m.paths));
    node := node.Set("files", EncodeFiles(m.files));
    var customData := EncodeTable(m.customData);
    node := node.Set("custom_data", customData);
    node := node.Set("ros_distro", Scalar(m.rosDistro));
  }

  /** Fields without a gate. */
  function DecodeCommon(text: TextForm, n: Node, prior: BagMetadata): Option<BagMetadata> {
    var version :- AsInt32(n.Get("version"));
    var storageId :- AsText(n.Get("storage_identifier"));
    var duration :- DecodeDuration(n.Get("duration"));
    var start :- DecodeStart(n.Get("starting_time"));
    var messageCount :- AsUint64(n.Get("message_count"));
    var topics :- DecodeTopics(text, n.Get("topics_with_message_count"), version);
    var paths :- AsTexts(n.Get("relative_file_paths"));
    Some(prior.(version := version, storageId := storageId, duration := duration, start := start,
                messageCount := messageCount, topics := topics, paths := paths))
  }

  /** Fields that came with a version; m already has the version of the document. */
  function DecodeGated(n: Node, m: BagMetadata): Option<BagMetadata> {
    var format :- if m.version >= 3 then AsText(n.Get("compression_format")) else Some(m.compressionFormat);
    var mode :- if m.version >= 3 then AsText(n.Get("compression_mode")) else Some(m.compressionMode);
    var files :- if m.version >= 5 then DecodeFiles(n.Get("files")) else Some(m.files);
    var customData :- if m.version >= 6 then AsTable(n.Get("custom_data")) else Some(m.customData);
    var rosDistro :- if m.version >= 8 then AsText(n.Get("ros_distro")) else Some(m.rosDistro);
    Some(m.(compressionFormat := format, compressionMode := mode, files := files, customData := customData,
            rosDistro := rosDistro))
  }

  function DecodeBag(text: TextForm, n: Node, prior: BagMetadata): Option<BagMetadata> {
    var m :- DecodeCommon(text, n, prior);
    DecodeGated(n, m)
  }

  method ReadBag(text: TextForm, node: Node, prior: BagMetadata) returns (r: Option<BagMetadata>)
    ensures r == DecodeBag(text, node, prior)
  {
    var m :- DecodeCommon(text, node, prior);
    if m.version >= 3 {
      var format :- AsText(node.Get("compression_format"));
      var mode :- AsText(node.Get("compression_mode"));
      m := m.(compressionFormat := format, compressionMode := mode);
    }
    if m.version >= 5 {
      var files :- DecodeFiles(node.Get("files"));
      m := m.(files := files);
    }
    if m.version >= 6 {
      var customData :- AsTable(node.Get("custom_data"));
      m := m.(customData := customData);
    }
    if m.version >= 8 {
      var rosDistro :- AsText(node.Get("ros_distro"));
      m := m.(rosDistro := rosDistro);
    }
    return Some(m);
  }

  /** What metadata reads back as into a given object: everything the version has, and from the
      object what it has not; the bag size is never written. */
  function ReadBack(m: BagMetadata, prior: BagMetadata): BagMetadata {
    m.(bagSize := prior.bagSize,
       topics := ClearTopics(m.topics, m.version),
       compressionFormat := if m.version >= 3 then m.compressionFormat else prior.compressionFormat,
       compressionMode := if m.version >= 3 then m.compressionMode else prior.compressionMode,
       files := if m.version >= 5 then m.files else prior.files,
       customData := if m.version >= 6 then m.customData else prior.customData,
       rosDistro := if m.version >= 8 then m.rosDistro else prior.rosDistro)
  }

  /** Times must not be negative, nor keep-last depths exceed the int range, in fields the version has. */
  predicate ReadableBag(m: BagMetadata) {
    && m.duration >= 0 && m.start >= 0
    && ReadableTopics(m.topics, m.version)
    && (m.version >= 5 ==> ReadableFiles(m.files))
  }

  lemma CommonFields(text: TextForm, m: BagMetadata)
    ensures var n := EncodeBag(text, m);
      && n.Get("version") == Some(Integer(m.version))
      && n.Get("storage_identifier") == Some(Scalar(m.storageId))
      && n.Get("duration") == Some(EncodeDuration(m.duration))
      && n.Get("starting_time") == Some(EncodeStart(m.start))
  {
  }

  lemma ContentFields(text: TextForm, m: BagMetadata)
    ensures var n := EncodeBag(text, m);
      && n.Get("message_count") == Some(Integer(m.messageCount))
      && n.Get("topics_with_message_count") == Some(EncodeTopics(text, m.topics, m.version))
      && n.Get("relative_file_paths") == Some(Texts(m.paths))
  {
  }

  lemma GatedFields(text: TextForm, m: BagMetadata)
    ensures var n := EncodeBag(text, m);
      && n.Get("compression_format") == Some(Scalar(m.compressionFormat))
      && n.Get("compression_mode") == Some(Scalar(m.compressionMode))
      && n.Get("files") == Some(EncodeFiles(m.files))
      && n.Get("custom_data") == Some(Table(m.customData))
      && n.Get("ros_distro") == Some(Scalar(m.rosDistro))
  {
  }

  lemma CommonRoundTrip(text: TextForm, m: BagMetadata, prior: BagMetadata)
    requires Inverse(text) && WritableTopics(m.topics, m.version)
    ensures DecodeCommon(text, EncodeBag(text, m), prior) ==
            if m.duration >= 0 && m.start >= 0 && ReadableTopics(m.topics, m.version)
            then Some(prior.(version := m.version, storageId := m.storageId, duration := m.duration, start := m.start,
                             messageCount := m.messageCount, topics := ClearTopics(m.topics, m.version),
                             paths := m.paths))
            else None
  {
    CommonFields(text, m);
    ContentFields(text, m);
    IntegerRoundTrip(m.version, -INT32_MAX - 1, INT32_MAX);
    IntegerRoundTrip(m.messageCount, 0, UINT64_MAX);
    DurationRoundTrip(m.duration);
    DurationRoundTrip(m.start);
    TopicsRoundTrip(text, m.topics, m.version);
    TextsRoundTrip(m.paths);
  }

  /** Decoding encoded metadata, for every version and into any object. */
  lemma BagRoundTrip(text: TextForm, m: BagMetadata, prior: BagMetadata)
    requires Inverse(text) && WritableTopics(m.topics, m.version)
    ensures DecodeBag(text, EncodeBag(text, m), prior) == if ReadableBag(m) then Some(ReadBack(m, prior)) else None
  {
    CommonRoundTrip(text, m, prior);
    GatedFields(text, m);
    FilesRoundTrip(m.files);
    TableRoundTrip(m.customData);
  }

  // ----- Field by field -----

  predicate TopicReadAs(got: TopicInformation, t: TopicInformation, version: int) {
    && got.messageCount == t.messageCount && got.metadata.id == 0
    && got.metadata.name == t.metadata.name && got.metadata.typeName == t.metadata.typeName
    && got.metadata.format == t.metadata.format
    && got.metadata.typeHash == (if version >= 7 then t.metadata.typeHash else "")
    && |got.metadata.profiles| == (if version >= 4 then |t.metadata.profiles| else 0)
    && forall i | 0 <= i < |got.metadata.profiles| :: ProfileReadAs(got.metadata.profiles[i], t.metadata.profiles[i])
  }

  predicate BagReadAs(got: BagMetadata, m: BagMetadata, prior: BagMetadata) {
    && got.version == m.version && got.storageId == m.storageId && got.duration == m.duration
    && got.start == m.start && got.messageCount == m.messageCount && got.paths == m.paths
    && got.bagSize == prior.bagSize
    && got.compressionFormat == (if m.version >= 3 then m.compressionFormat else prior.compressionFormat)
    && got.compressionMode == (if m.version >= 3 then m.compressionMode else prior.compressionMode)
    && got.files == (if m.version >= 5 then m.files else prior.files)
    && got.customData == (if m.version >= 6 then m.customData else prior.customData)
    && got.rosDistro == (if m.version >= 8 then m.rosDistro else prior.rosDistro)
    && |got.topics| == |m.topics|
    && forall i | 0 <= i < |m.topics| :: TopicReadAs(got.topics[i], m.topics[i], m.version)
  }

  predicate NegativeTime(f: FileInformation) { f.start < 0 || f.duration < 0 }

  predicate HasTooDeep(qs: seq<Qos>) { exists i | 0 <= i < |qs| :: TooDeep(qs[i]) }

  /** What cannot be read back. */
  predicate Refused(m: BagMetadata) {
    || m.start < 0 || m.duration < 0
    || (m.version >= 5 && exists i | 0 <= i < |m.files| :: NegativeTime(m.files[i]))
    || (m.version >= 4 && exists i | 0 <= i < |m.topics| :: HasTooDeep(m.topics[i].metadata.profiles))
  }

  lemma FieldsOfTopic(t: TopicInformation, version: int)
    ensures TopicReadAs(ClearEntry(t, version), t, version)
    ensures AllReadable(t.metadata.profiles) <==> !HasTooDeep(t.metadata.profiles)
  {
  }

  lemma WhenReadable(m: BagMetadata)
    ensures ReadableBag(m) <==> !Refused(m)
  {
    forall i | 0 <= i < |m.topics|
      ensures ReadableTopic(m.topics[i].metadata, m.version) <==>
                m.version < 4 || !HasTooDeep(m.topics[i].metadata.profiles)
    {
      FieldsOfTopic(m.topics[i], m.version);
    }
    assert ReadableFiles(m.files) <==> !exists i | 0 <= i < |m.files| :: NegativeTime(m.files[i]);
  }

  /** Every field of the metadata, in every version. */
  lemma FieldsRoundTrip(text: TextForm, m: BagMetadata, prior: BagMetadata)
    requires Inverse(text) && WritableTopics(m.topics, m.version)
    ensures match DecodeBag(text, EncodeBag(text, m), prior)
            case None => Refused(m)
            case Some(got) => !Refused(m) && BagReadAs(got, m, prior)
  {
    BagRoundTrip(text, m, prior);
    WhenReadable(m);
    forall i | 0 <= i < |m.topics| ensures TopicReadAs(ClearEntry(m.topics[i], m.version), m.topics[i], m.version) {
      FieldsOfTopic(m.topics[i], m.version);
    }
  }

  // ----- The text of a metadata file -----

  function Serialize(text: TextForm, m: BagMetadata): string { text.dump(EncodeBag(text, m)) }

  function Deserialize(text: TextForm, s: string): Option<BagMetadata> {
    DecodeBag(text, text.load(s), DEFAULT_BAG)
  }

  lemma NormaliseAllTwice(qs: seq<Qos>, version: int)
    ensures NormaliseAll(NormaliseAll(qs)) == NormaliseAll(qs)
    ensures AllWritable(qs, version) ==> AllWritable(NormaliseAll(qs), version)
    ensures AllReadable(qs) ==> AllReadable(NormaliseAll(qs))
  {
  }

  lemma ClearTopicsTwice(ts: seq<TopicInformation>, version: int)
    ensures ClearTopics(ClearTopics(ts, version), version) == ClearTopics(ts, version)
    ensures WritableTopics(ts, version) ==> WritableTopics(ClearTopics(ts, version), version)
    ensures ReadableTopics(ts, version) ==> ReadableTopics(ClearTopics(ts, version), version)
  {
    forall i | 0 <= i < |ts|
      ensures ClearEntry(ClearEntry(ts[i], version), version) == ClearEntry(ts[i], version)
      ensures AllWritable(ts[i].metadata.profiles, version) ==>
                AllWritable(ClearEntry(ts[i], version).metadata.profiles, version)
      ensures ReadableTopic(ts[i].metadata, version) ==> ReadableTopic(ClearEntry(ts[i], version).metadata, version)
    {
      NormaliseAllTwice(ts[i].metadata.profiles, version);
    }
  }

  /** Reading a metadata file, writing what was read and reading again gives the same metadata. */
  lemma RewriteIsStable(text: TextForm, m: BagMetadata)
    requires Inverse(text) && WritableTopics(m.topics, m.version) && ReadableBag(m)
    ensures Deserialize(text, Serialize(text, m)) == Some(ReadBack(m, DEFAULT_BAG))
    ensures Deserialize(text, Serialize(text, ReadBack(m, DEFAULT_BAG))) == Some(ReadBack(m, DEFAULT_BAG))
  {
    var back := ReadBack(m, DEFAULT_BAG);
    BagRoundTrip(text, m, DEFAULT_BAG);
    ClearTopicsTwice(m.topics, m.version);
    BagRoundTrip(text, back, DEFAULT_BAG);
  }

  /** Fields that the version of a file lacks come out empty. */
  lemma MissingFieldsEmpty(text: TextForm, m: BagMetadata)
    requires Inverse(text) && WritableTopics(m.topics, m.version) && !Refused(m)
    ensures match Deserialize(text, Serialize(text, m))
            case None => false
            case Some(got) =>
              && got.bagSize == 0
              && (m.version < 3 ==> got.compressionFormat == "" && got.compressionMode == "")
              && (m.version < 5 ==> got.files == [])
              && (m.version < 6 ==> got.customData == map[])
              && (m.version < 8 ==> got.rosDistro == "")
  {
    assert text.load(Serialize(text, m)) == EncodeBag(text, m);
    FieldsRoundTrip(text, m, DEFAULT_BAG);
  }
}
