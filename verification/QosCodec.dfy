/**
 * Quality-of-service profiles in metadata files: policies as numbers before version 9 and as
 * names from then on, a decoder that finds out by itself which of the two it reads, and the
 * repair of the infinite durations that early middleware wrote.
 */
module QosCodec {
  import opened Basics
  import opened Decimal
  import opened Yaml

  // ----- Policies -----

  /** Policy values are the codes of the middleware's enumerations. */
  datatype Policy = History | Reliability | Durability | Liveliness

  const SYSTEM_DEFAULT := 0
  const KEEP_LAST := 1
  const KEEP_ALL := 2
  const UNKNOWN_HISTORY := 3
  const RELIABLE := 1
  const BEST_EFFORT := 2
  const TRANSIENT_LOCAL := 1
  const VOLATILE := 2
  const AUTOMATIC := 1
  const MANUAL_BY_TOPIC := 3

  function Unknown(p: Policy): int { if p.Liveliness? then 4 else 3 }

  function BestAvailable(p: Policy): int { if p.Liveliness? then 5 else 4 }

  predicate Enumerated(p: Policy, code: int) {
    || code == Unknown(p)
    || match p
       case History => 0 <= code <= 2
       case Liveliness => code in {SYSTEM_DEFAULT, AUTOMATIC, MANUAL_BY_TOPIC, BestAvailable(p)}
       case _ => 0 <= code <= 2 || code == BestAvailable(p)
  }

  function PolicyName(p: Policy, code: int): string {
    if code == SYSTEM_DEFAULT then "system_default"
    else match p
      case History => if code == KEEP_LAST then "keep_last" else if code == KEEP_ALL then "keep_all" else "unknown"
      case Reliability =>
        if code == RELIABLE then "reliable" else if code == BEST_EFFORT then "best_effort"
        else if code == BestAvailable(p) then "best_available" else "unknown"
      case Durability =>
        if code == TRANSIENT_LOCAL then "transient_local" else if code == VOLATILE then "volatile"
        else if code == BestAvailable(p) then "best_available" else "unknown"
      case Liveliness =>
        if code == AUTOMATIC then "automatic" else if code == MANUAL_BY_TOPIC then "manual_by_topic"
        else if code == BestAvailable(p) then "best_available" else "unknown"
  }

  function ParsePolicy(p: Policy, name: string): int {
    if name == "system_default" then SYSTEM_DEFAULT
    else match p
      case History => if name == "keep_last" then KEEP_LAST else if name == "keep_all" then KEEP_ALL else Unknown(p)
      case Reliability =>
        if name == "reliable" then RELIABLE else if name == "best_effort" then BEST_EFFORT
        else if name == "best_available" then BestAvailable(p) else Unknown(p)
      case Durability =>
        if name == "transient_local" then TRANSIENT_LOCAL else if name == "volatile" then VOLATILE
        else if name == "best_available" then BestAvailable(p) else Unknown(p)
      case Liveliness =>
        if name == "automatic" then AUTOMATIC else if name == "manual_by_topic" then MANUAL_BY_TOPIC
        else if name == "best_available" then BestAvailable(p) else Unknown(p)
  }

  /** Numbers carry every code, names only the enumerators that have one. */
  predicate Carries(p: Policy, code: int, version: int) {
    if version < 9 then -INT32_MAX - 1 <= code <= INT32_MAX else Enumerated(p, code)
  }

  function EncodePolicy(p: Policy, code: int, version: int): Node {
    if version < 9 then Integer(code) else Scalar(PolicyName(p, code))
  }

  function DecodePolicy(p: Policy, n: Option<Node>, asNumber: bool): Option<int> {
    if asNumber then AsInt32(n) else
      var name :- AsText(n);
      Some(ParsePolicy(p, name))
  }

  /** No policy name can be taken for a number. */
  lemma NamesAreNotNumbers(p: Policy, code: int)
    ensures ParseInt(PolicyName(p, code)) == None
  {
    var name := PolicyName(p, code);
    assert !IsDigit(name[|name| - 1]) && name[0] != '-';
  }

  lemma PolicyRoundTrip(p: Policy, code: int, version: int)
    requires Carries(p, code, version)
    ensures DecodePolicy(p, Some(EncodePolicy(p, code, version)), version < 9) == Some(code)
  {
    IntegerRoundTrip(code, -INT32_MAX - 1, INT32_MAX);
  }

  /** The names of the enumerators. */
  lemma NamesOfPolicies(p: Policy)
    ensures PolicyName(p, 0) == "system_default"
    ensures PolicyName(History, 1) == "keep_last" && PolicyName(History, 2) == "keep_all"
    ensures PolicyName(Reliability, 1) == "reliable" && PolicyName(Reliability, 2) == "best_effort"
    ensures PolicyName(Durability, 1) == "transient_local" && PolicyName(Durability, 2) == "volatile"
    ensures PolicyName(Liveliness, 1) == "automatic" && PolicyName(Liveliness, 3) == "manual_by_topic"
    ensures PolicyName(Reliability, 4) == PolicyName(Durability, 4) == PolicyName(Liveliness, 5) == "best_available"
    ensures PolicyName(p, if p.Liveliness? then 4 else 3) == "unknown"
  {
  }

  // ----- Durations -----

  datatype Time = Time(sec: uint64, nsec: uint64)

  const ZERO := Time(0, 0)
  const INFINITE := Time(9223372036, 854775807)
  const CYCLONEDDS_INFINITE := INFINITE
  const FASTRTPS_INFINITE := Time(0x7FFF_FFFF, 0xFFFF_FFFF)
  const CONNEXT_INFINITE := Time(0x7FFF_FFFF, 0x7FFF_FFFF)

  /** Total nanoseconds, saturating. */
  function Total(t: Time): int { Min(t.sec * 1_000_000_000 + t.nsec, INT64_MAX) }

  predicate SameTime(a: Time, b: Time) { Total(a) == Total(b) }

  function NormaliseTime(t: Time): Time {
    if SameTime(t, CYCLONEDDS_INFINITE) || SameTime(t, FASTRTPS_INFINITE) || SameTime(t, CONNEXT_INFINITE)
    then INFINITE else t
  }

  function EncodeTime(t: Time): Node {
    Mapping(map["sec" := Integer(t.sec), "nsec" := Integer(t.nsec)])
  }

  function DecodeTime(n: Option<Node>): Option<Time> {
    var node :- n;
    var sec :- AsUint64(node.Get("sec"));
    var nsec :- AsUint64(node.Get("nsec"));
    Some(NormaliseTime(Time(sec, nsec)))
  }

  lemma TimeRoundTrip(t: Time)
    ensures DecodeTime(Some(EncodeTime(t))) == Some(NormaliseTime(t))
  {
    IntegerRoundTrip(t.sec, 0, UINT64_MAX);
    IntegerRoundTrip(t.nsec, 0, UINT64_MAX);
  }

  /** The saturated total of nanoseconds at which a duration counts as infinite for some middleware. */
  predicate LegacyInfinite(t: Time) {
    var total := if t.sec * 1_000_000_000 + t.nsec > 9223372036854775807 then 9223372036854775807
                 else t.sec * 1_000_000_000 + t.nsec;
    total == 9223372036854775807 || total == 2147483651294967295 || total == 2147483649147483647
  }

  /** A written duration reads back as the one infinite value exactly when it is infinite for some
      middleware, and as itself otherwise. */
  lemma InfiniteRoundTrip(t: Time)
    ensures DecodeTime(Some(EncodeTime(t))) == Some(Time(9223372036, 854775807)) <==> LegacyInfinite(t)
    ensures !LegacyInfinite(t) ==> DecodeTime(Some(EncodeTime(t))) == Some(t)
  {
    TimeRoundTrip(t);
  }

  // ----- Profiles -----

  datatype Qos = Qos(
    history: int, depth: uint64, reliability: int, durability: int, deadline: Time, lifespan: Time,
    liveliness: int, leaseDuration: Time, avoidNamespaces: bool)

  const DEFAULT_DEPTH: uint64 := 10

  /** A default-constructed Rosbag2QoS. */
  const DEFAULT_QOS := Qos(KEEP_LAST, DEFAULT_DEPTH, RELIABLE, VOLATILE, ZERO, ZERO, SYSTEM_DEFAULT, ZERO, false)

  /** The history is an enumerator, and the other policies have a code the format can carry. */
  predicate Writable(q: Qos, version: int) {
    && Enumerated(History, q.history) && Carries(Reliability, q.reliability, version)
    && Carries(Durability, q.durability, version) && Carries(Liveliness, q.liveliness, version)
  }

  function EncodeQos(q: Qos, version: int): Node {
    Mapping(map[
      "history" := EncodePolicy(History, q.history, version),
      "depth" := Integer(q.depth),
      "reliability" := EncodePolicy(Reliability, q.reliability, version),
      "durability" := EncodePolicy(Durability, q.durability, version),
      "deadline" := EncodeTime(q.deadline),
      "lifespan" := EncodeTime(q.lifespan),
      "liveliness" := EncodePolicy(Liveliness, q.liveliness, version),
      "liveliness_lease_duration" := EncodeTime(q.leaseDuration),
      "avoid_ros_namespace_conventions" := Boolean(q.avoidNamespaces)])
  }

  /** The depth is read as an int and passed on as a size_t. */
  function ToSize(depth: int32): uint64 { if depth < 0 then depth + UINT64_MAX + 1 else depth }

  function DecodeDepth(node: Node, history: int): Option<uint64> {
    if history == KEEP_LAST then
      var depth :- AsInt32(node.Get("depth"));
      Some(ToSize(depth))
    else Some(DEFAULT_DEPTH)
  }

  predicate ReadsAsHistoryCode(n: Option<Node>) {
    AsInt32(n).Some? && 0 <= AsInt32(n).value <= UNKNOWN_HISTORY
  }

  function DecodeQos(node: Node): Option<Qos> {
    var asNumber := ReadsAsHistoryCode(node.Get("history"));
    var history :- DecodePolicy(History, node.Get("history"), asNumber);
    var reliability :- DecodePolicy(Reliability, node.Get("reliability"), asNumber);
    var durability :- DecodePolicy(Durability, node.Get("durability"), asNumber);
    var liveliness :- DecodePolicy(Liveliness, node.Get("liveliness"), asNumber);
    var depth :- DecodeDepth(node, history);
    var deadline :- DecodeTime(node.Get("deadline"));
    var lifespan :- DecodeTime(node.Get("lifespan"));
    var leaseDuration :- DecodeTime(node.Get("liveliness_lease_duration"));
    var avoidNamespaces :- AsBoolean(node.Get("avoid_ros_namespace_conventions"));
    Some(Qos(history, depth, reliability, durability, deadline, lifespan, liveliness, leaseDuration, avoidNamespaces))
  }

  /** What a profile reads back as: a depth that only keep-last has, and repaired durations. */
  function Normalise(q: Qos): Qos {
    q.(depth := if q.history == KEEP_LAST then q.depth else DEFAULT_DEPTH,
       deadline := NormaliseTime(q.deadline),
       lifespan := NormaliseTime(q.lifespan),
       leaseDuration := NormaliseTime(q.leaseDuration))
  }

  predicate Readable(q: Qos) { q.history == KEEP_LAST ==> q.depth <= INT32_MAX }

  lemma DetectsFormat(code: int, version: int)
    requires Enumerated(History, code)
    ensures ReadsAsHistoryCode(Some(EncodePolicy(History, code, version))) <==> version < 9
  {
    IntegerRoundTrip(code, -INT32_MAX - 1, INT32_MAX);
    NamesAreNotNumbers(History, code);
  }

  lemma PoliciesRoundTrip(q: Qos, version: int)
    requires Writable(q, version)
    ensures var node := EncodeQos(q, version);
      && (ReadsAsHistoryCode(node.Get("history")) <==> version < 9)
      && DecodePolicy(History, node.Get("history"), version < 9) == Some(q.history)
      && DecodePolicy(Reliability, node.Get("reliability"), version < 9) == Some(q.reliability)
      && DecodePolicy(Durability, node.Get("durability"), version < 9) == Some(q.durability)
      && DecodePolicy(Liveliness, node.Get("liveliness"), version < 9) == Some(q.liveliness)
  {
    var node := EncodeQos(q, version);
    assert node.Get("history") == Some(EncodePolicy(History, q.history, version));
    assert node.Get("reliability") == Some(EncodePolicy(Reliability, q.reliability, version));
    assert node.Get("durability") == Some(EncodePolicy(Durability, q.durability, version));
    assert node.Get("liveliness") == Some(EncodePolicy(Liveliness, q.liveliness, version));
    DetectsFormat(q.history, version);
    PolicyRoundTrip(History, q.history, version);
    PolicyRoundTrip(Reliability, q.reliability, version);
    PolicyRoundTrip(Durability, q.durability, version);
    PolicyRoundTrip(Liveliness, q.liveliness, version);
  }

  lemma DurationsRoundTrip(q: Qos, version: int)
    ensures var node := EncodeQos(q, version);
      && DecodeTime(node.Get("deadline")) == Some(NormaliseTime(q.deadline))
      && DecodeTime(node.Get("lifespan")) == Some(NormaliseTime(q.lifespan))
      && DecodeTime(node.Get("liveliness_lease_duration")) == Some(NormaliseTime(q.leaseDuration))
  {
    var node := EncodeQos(q, version);
    assert node.Get("deadline") == Some(EncodeTime(q.deadline));
    assert node.Get("lifespan") == Some(EncodeTime(q.lifespan));
    assert node.Get("liveliness_lease_duration") == Some(EncodeTime(q.leaseDuration));
    TimeRoundTrip(q.deadline);
    TimeRoundTrip(q.lifespan);
    TimeRoundTrip(q.leaseDuration);
  }

  lemma ValuesRoundTrip(q: Qos, version: int)
    ensures var node := EncodeQos(q, version);
      && DecodeDepth(node, q.history) == (if Readable(q) then Some(Normalise(q).depth) else None)
      && AsBoolean(node.Get("avoid_ros_namespace_conventions")) == Some(q.avoidNamespaces)
  {
    assert EncodeQos(q, version).Get("depth") == Some(Integer(q.depth));
    IntegerRoundTrip(q.depth, -INT32_MAX - 1, INT32_MAX);
  }

  /** A profile written for any version reads back as its normalised self, whatever version the
      reader was told; only a keep-last depth beyond the int range is refused. */
  lemma QosRoundTrip(q: Qos, version: int)
    requires Writable(q, version)
    ensures DecodeQos(EncodeQos(q, version)) == if Readable(q) then Some(Normalise(q)) else None
  {
    PoliciesRoundTrip(q, version);
    DurationsRoundTrip(q, version);
    ValuesRoundTrip(q, version);
  }

  /** A duration reads back as the one infinite value, or as it is. */
  predicate ReadAs(got: Time, t: Time) {
    got == if LegacyInfinite(t) then Time(9223372036, 854775807) else t
  }

  /** Policies and the namespace flag are kept, and so is the depth of a keep-last profile, while any
      other reads back with depth 10. */
  predicate ProfileReadAs(got: Qos, q: Qos) {
    && got.history == q.history && got.depth == (if q.history == 1 then q.depth else 10)
    && got.reliability == q.reliability && got.durability == q.durability && got.liveliness == q.liveliness
    && ReadAs(got.deadline, q.deadline) && ReadAs(got.lifespan, q.lifespan)
    && ReadAs(got.leaseDuration, q.leaseDuration) && got.avoidNamespaces == q.avoidNamespaces
  }

  predicate TooDeep(q: Qos) { q.history == 1 && q.depth > 2147483647 }

  /** Field by field; only a keep-last depth of 2^31 or more fails. */
  lemma ProfileRoundTrip(q: Qos, version: int)
    requires Writable(q, version)
    ensures match DecodeQos(EncodeQos(q, version))
            case None => TooDeep(q)
            case Some(got) => !TooDeep(q) && ProfileReadAs(got, q)
  {
    QosRoundTrip(q, version);
  }

  /** A negative depth in a document comes out as a huge one. */
  lemma NegativeDepth(node: Node, depth: int)
    requires -2147483648 <= depth < 0 && node.Get("depth") == Some(Integer(depth))
    ensures DecodeDepth(node, 1) == Some(depth + 18446744073709551616)
  {
    IntegerRoundTrip(depth, -INT32_MAX - 1, INT32_MAX);
  }

  /** Normalising twice changes nothing more: what was read once is written and read back as is,
      in the number form as in the name form. */
  lemma NormalisedIsStable(q: Qos, version: int)
    requires Writable(q, version) && Readable(q)
    ensures Normalise(Normalise(q)) == Normalise(q)
    ensures DecodeQos(EncodeQos(Normalise(q), version)) == Some(Normalise(q))
  {
    QosRoundTrip(Normalise(q), version);
  }

  /** The decoder as written: the version passed in is overwritten before it is used. */
  method ReadQos(node: Node, version: int) returns (r: Option<Qos>)
    ensures r == DecodeQos(node)
  {
    var qos, v := DEFAULT_QOS, version;
    var history;
    if ReadsAsHistoryCode(node.Get("history")) {
      history := AsInt32(node.Get("history")).value;
      v := 8;
    } else {
      history :- DecodePolicy(History, node.Get("history"), false);
      v := 9;
    }
    var reliability :- DecodePolicy(Reliability, node.Get("reliability"), v <= 8);
    var durability :- DecodePolicy(Durability, node.Get("durability"), v <= 8);
    var liveliness :- DecodePolicy(Liveliness, node.Get("liveliness"), v <= 8);
    if history == KEEP_LAST {
      var depth :- AsInt32(node.Get("depth"));
      qos := qos.(history := KEEP_LAST, depth := ToSize(depth));
    } else {
      qos := qos.(history := history);
    }
    qos := qos.(reliability := reliability);
    qos := qos.(durability := durability);
    var deadline :- DecodeTime(node.Get("deadline"));
    qos := qos.(deadline := deadline);
    var lifespan :- DecodeTime(node.Get("lifespan"));
    qos := qos.(lifespan := lifespan);
    qos := qos.(liveliness := liveliness);
    var leaseDuration :- DecodeTime(node.Get("liveliness_lease_duration"));
    qos := qos.(leaseDuration := leaseDuration);
    var avoidNamespaces :- AsBoolean(node.Get("avoid_ros_namespace_conventions"));
    qos := qos.(avoidNamespaces := avoidNamespaces);
    return Some(qos);
  }

  // ----- Lists of profiles -----

  function QosList(qs: seq<Qos>, version: int): Node {
    Sequence(seq(|qs|, i requires 0 <= i < |qs| => EncodeQos(qs[i], version)))
  }

  function DecodeQosList(n: Option<Node>): Option<seq<Qos>> {
    if n.None? || !n.value.Sequence? then None else AllOf(n.value.items, DecodeQos)
  }

  function NormaliseAll(qs: seq<Qos>): seq<Qos> {
    seq(|qs|, i requires 0 <= i < |qs| => Normalise(qs[i]))
  }

  predicate AllWritable(qs: seq<Qos>, version: int) { forall i | 0 <= i < |qs| :: Writable(qs[i], version) }

  predicate AllReadable(qs: seq<Qos>) { forall i | 0 <= i < |qs| :: Readable(qs[i]) }

  lemma QosListRoundTrip(qs: seq<Qos>, version: int)
    requires AllWritable(qs, version)
    ensures DecodeQosList(Some(QosList(qs, version))) == if AllReadable(qs) then Some(NormaliseAll(qs)) else None
  {
    var items := QosList(qs, version).items;
    forall i | 0 <= i < |qs|
      ensures DecodeQos(items[i]) == if Readable(qs[i]) then Some(NormaliseAll(qs)[i]) else None
    {
      QosRoundTrip(qs[i], version);
    }
    if AllReadable(qs) {
      AllOfIs(items, DecodeQos, NormaliseAll(qs));
    } else {
      AllOfItems(items, DecodeQos);
    }
  }

  lemma QosListNext(qs: seq<Qos>, version: int, i: nat)
    requires i < |qs|
    ensures QosList(qs[..i + 1], version) == Sequence(QosList(qs[..i], version).items + [EncodeQos(qs[i], version)])
  {
    var items, node := QosList(qs[..i], version).items, EncodeQos(qs[i], version);
    assert QosList(qs[..i + 1], version).items == items + [node];
  }

  method WriteQosList(qs: seq<Qos>, version: int) returns (node: Node)
    ensures node == QosList(qs, version)
  {
    node := Sequence([]);
    for i := 0 to |qs|
      invariant node == QosList(qs[..i], version)
    {
      QosListNext(qs, version, i);
      node := Sequence(node.items + [EncodeQos(qs[i], version)]);
    }
    assert qs[..|qs|] == qs;
  }

  method ReadQosList(node: Node, version: int) returns (r: Option<seq<Qos>>)
    ensures r == DecodeQosList(Some(node))
  {
    if !node.Sequence? { return None; }
    var qs := [];
    for i := 0 to |node.items|
      invariant AllOf(node.items[..i], DecodeQos) == Some(qs)
    {
      var q := ReadQos(node.items[i], version);
      AllOfNext(node.items, i, DecodeQos, qs, q);
      if q == None { return None; }
      qs := qs + [q.value];
    }
    assert node.items[..|node.items|] == node.items;
    return Some(qs);
  }

  // ----- Profile overrides by topic -----

  function Override(topic: string, q: Qos): Node {
    Mapping(map["topic" := Scalar(topic), "qos" := EncodeQos(q, 9)])
  }

  /** The list form, in the order in which the map was walked. */
  function OverrideList(walk: seq<string>, m: map<string, Qos>): Node
    requires forall k | k in walk :: k in m
  {
    Sequence(seq(|walk|, i requires 0 <= i < |walk| => Override(walk[i], m[walk[i]])))
  }

  /** The earlier form: profiles keyed by topic. */
  function OverrideMap(m: map<string, Qos>, version: int): Node {
    Mapping(map k | k in m :: EncodeQos(m[k], version))
  }

  function DecodeOverride(n: Node): Option<(string, Qos)> {
    var topic :- AsText(n.Get("topic"));
    var node :- n.Get("qos");
    var q :- DecodeQos(node);
    Some((topic, q))
  }

  /** Inserting never replaces: the first entry of a topic wins. */
  function InsertAll(entries: seq<(string, Qos)>, into: map<string, Qos>): map<string, Qos> {
    if entries == [] then into
    else
      var (topic, q) := entries[0];
      InsertAll(entries[1..], if topic in into then into else into[topic := q])
  }

  function DecodeOverrides(node: Node): Option<map<string, Qos>> {
    match node
    case Sequence(items) =>
      var entries :- AllOf(items, DecodeOverride);
      Some(InsertAll(entries, map[]))
    case Mapping(profiles) => AllEntries(profiles, DecodeQos)
    case _ => None
  }

  lemma {:induction false} InsertAllMeaning(entries: seq<(string, Qos)>, into: map<string, Qos>, m: map<string, Qos>)
    requires forall i | 0 <= i < |entries| :: entries[i].0 in m && entries[i].1 == m[entries[i].0]
    requires forall k | k in into :: k in m && into[k] == m[k]
    ensures var r := InsertAll(entries, into);
      && (forall k | k in r :: k in m && r[k] == m[k])
      && (forall k | k in into :: k in r)
      && (forall i | 0 <= i < |entries| :: entries[i].0 in r)
  {
    if entries != [] {
      var (topic, q) := entries[0];
      var next := if topic in into then into else into[topic := q];
      InsertAllMeaning(entries[1..], next, m);
      forall i | 0 <= i < |entries| ensures entries[i].0 in InsertAll(entries, into) {
        if i > 0 { assert entries[i] == entries[1..][i - 1]; }
      }
    }
  }

  function NormaliseMap(m: map<string, Qos>): map<string, Qos> { map k | k in m :: Normalise(m[k]) }

  lemma OverrideRoundTrip(topic: string, q: Qos)
    requires Writable(q, 9) && Readable(q)
    ensures DecodeOverride(Override(topic, q)) == Some((topic, Normalise(q)))
  {
    QosRoundTrip(q, 9);
    assert Override(topic, q).Get("qos") == Some(EncodeQos(q, 9));
    assert Override(topic, q).Get("topic") == Some(Scalar(topic));
  }

  lemma InsertedWalk(walk: seq<string>, m: map<string, Qos>, entries: seq<(string, Qos)>)
    requires forall k :: k in walk <==> k in m
    requires |entries| == |walk| && forall i | 0 <= i < |walk| :: entries[i] == (walk[i], m[walk[i]])
    ensures InsertAll(entries, map[]) == m
  {
    InsertAllMeaning(entries, map[], m);
    var r := InsertAll(entries, map[]);
    forall k | k in m ensures k in r {
      var i :| 0 <= i < |walk| && walk[i] == k;
      assert entries[i].0 in r;
    }
  }

  lemma OverrideItem(walk: seq<string>, m: map<string, Qos>, i: nat)
    requires i < |walk| && (forall k | k in walk :: k in m) && Writable(m[walk[i]], 9) && Readable(m[walk[i]])
    ensures DecodeOverride(OverrideList(walk, m).items[i]) == Some((walk[i], NormaliseMap(m)[walk[i]]))
  {
    OverrideRoundTrip(walk[i], m[walk[i]]);
  }

  lemma OverrideListRoundTrip(walk: seq<string>, m: map<string, Qos>)
    requires (forall k :: k in walk <==> k in m) && forall k | k in m :: Writable(m[k], 9) && Readable(m[k])
    ensures DecodeOverrides(OverrideList(walk, m)) == Some(NormaliseMap(m))
  {
    var items, want := OverrideList(walk, m).items, NormaliseMap(m);
    var entries := seq(|walk|, i requires 0 <= i < |walk| => (walk[i], want[walk[i]]));
    forall i | 0 <= i < |walk| ensures DecodeOverride(items[i]) == Some(entries[i]) {
      OverrideItem(walk, m, i);
    }
    InsertedWalk(walk, want, entries);
    AllOfIs(items, DecodeOverride, entries);
  }

  lemma OverrideMapRoundTrip(m: map<string, Qos>, version: int)
    requires forall k | k in m :: Writable(m[k], version) && Readable(m[k])
    ensures DecodeOverrides(OverrideMap(m, version)) == Some(NormaliseMap(m))
  {
    var profiles, want := OverrideMap(m, version).entries, NormaliseMap(m);
    forall k | k in want ensures DecodeQos(profiles[k]) == Some(want[k]) {
      QosRoundTrip(m[k], version);
      assert profiles[k] == EncodeQos(m[k], version);
    }
    AllEntriesAre(profiles, DecodeQos, want);
  }

  /** The list form reads back as the same map however it was walked, and so does the earlier
      form of any version. */
  lemma OverridesRoundTrip(walk: seq<string>, m: map<string, Qos>, version: int)
    requires (forall k :: k in walk <==> k in m) && forall k | k in m :: Writable(m[k], 9) && Readable(m[k])
    ensures DecodeOverrides(OverrideList(walk, m)) == DecodeOverrides(OverrideMap(m, version)) == Some(NormaliseMap(m))
  {
    OverrideListRoundTrip(walk, m);
    OverrideMapRoundTrip(m, version);
  }

  /** Every override reads back for its own topic, field by field. */
  lemma OverridesFieldByField(walk: seq<string>, m: map<string, Qos>)
    requires (forall k :: k in walk <==> k in m) && forall k | k in m :: Writable(m[k], 9) && !TooDeep(m[k])
    ensures match DecodeOverrides(OverrideList(walk, m))
            case None => false
            case Some(got) => got.Keys == m.Keys && forall k | k in m :: ProfileReadAs(got[k], m[k])
  {
    OverrideListRoundTrip(walk, m);
  }
}
