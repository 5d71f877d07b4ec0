/**
 * Metadata the SQLite plugin derives from its tables: external topic ids handed out on demand,
 * and totals collected from one grouped query.
 */
module SqliteMetadata {
  import opened Basics
  import MetadataCodec
  import opened QosCodec
  import opened Sums

  const UINT16_MAX := 65535

  type TopicMetadata = MetadataCodec.TopicMetadata

  datatype TopicCount = TopicCount(metadata: TopicMetadata, messageCount: nat)

  /** A row of the topics table. */
  datatype TableRow = TableRow(
    innerId: int, name: string, typeName: string, format: string, profiles: seq<Qos>, typeHash: string)

  /** A row of the query that groups messages by topic name. */
  datatype GroupRow = GroupRow(topic: TableRow, messageCount: nat, minTime: int, maxTime: int)

  /** Equality of topics leaves the profiles out. */
  predicate SameTopic(a: TopicMetadata, b: TopicMetadata) {
    a.id == b.id && a.name == b.name && a.typeName == b.typeName && a.format == b.format && a.typeHash == b.typeHash
  }

  function ToMetadata(id: nat, t: TableRow): TopicMetadata {
    MetadataCodec.TopicMetadata(id, t.name, t.typeName, t.format, t.profiles, t.typeHash)
  }

  const CountOf := (t: TopicCount) => t.messageCount
  const NameOf := (t: TopicCount) => t.metadata.name
  const RowCount := (r: GroupRow) => r.messageCount
  const RowName := (r: GroupRow) => r.topic.name

  function Least(rows: seq<GroupRow>): int {
    if rows == [] then INT64_MAX else Min(rows[|rows| - 1].minTime, Least(rows[..|rows| - 1]))
  }

  function Greatest(rows: seq<GroupRow>): int {
    if rows == [] then 0 else Max(rows[|rows| - 1].maxTime, Greatest(rows[..|rows| - 1]))
  }

  function StartOf(rows: seq<GroupRow>): int { if Sum(rows, RowCount) == 0 then 0 else Least(rows) }

  function DurationOf(rows: seq<GroupRow>): int {
    if Sum(rows, RowCount) == 0 then 0 else Greatest(rows) - Least(rows)
  }

  predicate NamesDifferAt(rows: seq<GroupRow>, i: nat, j: nat)
    requires i < |rows| && j < |rows|
  {
    rows[i].topic.name != rows[j].topic.name
  }

  ghost predicate NamesDiffer(rows: seq<GroupRow>) {
    forall i, j | 0 <= i < j < |rows| :: NamesDifferAt(rows, i, j)
  }

  /** Some row has the name of the topic. */
  ghost predicate HasRow(t: TopicCount, rows: seq<GroupRow>) {
    exists j :: 0 <= j < |rows| && RowName(rows[j]) == t.metadata.name
  }

  /** The listed counts, name by name and in total, are those of the rows; a topic that no row
      names has none. */
  ghost predicate Counted(topics: seq<TopicCount>, rows: seq<GroupRow>) {
    && (forall n :: Share(topics, CountOf, NameOf)(n) == Share(rows, RowCount, RowName)(n))
    && Sum(topics, CountOf) == Sum(rows, RowCount)
    && (forall i {:trigger HasRow(topics[i], rows)} | 0 <= i < |topics| ::
          topics[i].messageCount > 0 ==> HasRow(topics[i], rows))
  }

  /** Storing a row's count into the first topic equal to it, or else into a new one. */
  function Store(topics: seq<TopicCount>, t: TopicMetadata, count: nat): seq<TopicCount> {
    var i := FirstSame(topics, t);
    if i < |topics| then topics[i := topics[i].(messageCount := count)]
    else topics + [TopicCount(t, count)]
  }

  function FirstSame(topics: seq<TopicCount>, t: TopicMetadata): (i: nat)
    ensures i <= |topics| && (i < |topics| ==> SameTopic(topics[i].metadata, t))
  {
    if topics == [] || SameTopic(topics[0].metadata, t) then 0 else 1 + FirstSame(topics[1..], t)
  }

  lemma StoreShares(topics: seq<TopicCount>, t: TopicMetadata, count: nat, w: TopicCount -> nat)
    requires FirstSame(topics, t) < |topics| ==> w(topics[FirstSame(topics, t)]) == 0
    ensures Sum(Store(topics, t, count), w) ==
            Sum(topics, w) + var i := FirstSame(topics, t);
              w(if i < |topics| then topics[i].(messageCount := count) else TopicCount(t, count))
  {
    var i := FirstSame(topics, t);
    if i < |topics| {
      SumUpdate(topics, i, topics[i].(messageCount := count), w);
    } else {
      SumSnoc(topics, TopicCount(t, count), w);
    }
  }

  lemma StoreShareOf(topics: seq<TopicCount>, rows: seq<GroupRow>, row: GroupRow, id: nat, n: string)
    requires Share(topics, CountOf, NameOf)(n) == Share(rows, RowCount, RowName)(n)
    requires var i := FirstSame(topics, ToMetadata(id, row.topic)); i < |topics| ==> topics[i].messageCount == 0
    ensures Share(Store(topics, ToMetadata(id, row.topic), row.messageCount), CountOf, NameOf)(n) ==
            Share(rows + [row], RowCount, RowName)(n)
  {
    var t := ToMetadata(id, row.topic);
    var i, v, w := FirstSame(topics, t), Only(RowCount, RowName, n), Only(CountOf, NameOf, n);
    StoreShares(topics, t, row.messageCount, w);
    SumSnoc(rows, row, v);
    assert v(row) == if row.topic.name == n then row.messageCount else 0;
    if i < |topics| {
      assert w(topics[i].(messageCount := row.messageCount)) == v(row);
    } else {
      assert w(TopicCount(t, row.messageCount)) == v(row);
    }
  }

  /** A topic that is found for a new name has no messages yet. */
  lemma FoundHasNone(topics: seq<TopicCount>, rows: seq<GroupRow>, row: GroupRow, id: nat)
    requires Counted(topics, rows) && NamesDiffer(rows + [row])
    ensures var i := FirstSame(topics, ToMetadata(id, row.topic)); i < |topics| ==> topics[i].messageCount == 0
  {
    forall j | 0 <= j < |rows| ensures RowName(rows[j]) != row.topic.name {
      assert NamesDifferAt(rows + [row], j, |rows|);
      assert (rows + [row])[j] == rows[j];
    }
    var i := FirstSame(topics, ToMetadata(id, row.topic));
    assert i < |topics| ==> !HasRow(topics[i], rows);
  }

  lemma StoredHaveRows(topics: seq<TopicCount>, rows: seq<GroupRow>, row: GroupRow, id: nat, k: nat)
    requires Counted(topics, rows)
    requires var stored := Store(topics, ToMetadata(id, row.topic), row.messageCount);
      k < |stored| && stored[k].messageCount > 0
    ensures HasRow(Store(topics, ToMetadata(id, row.topic), row.messageCount)[k], rows + [row])
  {
    if k == FirstSame(topics, ToMetadata(id, row.topic)) {
      assert (rows + [row])[|rows|] == row;
    } else {
      assert HasRow(topics[k], rows);
      var j :| 0 <= j < |rows| && RowName(rows[j]) == topics[k].metadata.name;
      assert (rows + [row])[j] == rows[j];
    }
  }

  lemma StoreCounts(topics: seq<TopicCount>, rows: seq<GroupRow>, row: GroupRow, id: nat)
    requires Counted(topics, rows) && NamesDiffer(rows + [row])
    ensures Counted(Store(topics, ToMetadata(id, row.topic), row.messageCount), rows + [row])
  {
    var t, all := ToMetadata(id, row.topic), rows + [row];
    var stored := Store(topics, t, row.messageCount);
    FoundHasNone(topics, rows, row, id);
    SumSnoc(rows, row, RowCount);
    StoreShares(topics, t, row.messageCount, CountOf);
    forall n ensures Share(stored, CountOf, NameOf)(n) == Share(all, RowCount, RowName)(n) {
      StoreShareOf(topics, rows, row, id, n);
    }
    forall k | 0 <= k < |stored| && stored[k].messageCount > 0 ensures HasRow(stored[k], all) {
      StoredHaveRows(topics, rows, row, id, k);
    }
  }

  lemma FewerNamesDiffer(rows: seq<GroupRow>)
    requires rows != [] && NamesDiffer(rows)
    ensures NamesDiffer(rows[..|rows| - 1])
  {
    var fewer := rows[..|rows| - 1];
    forall i, j | 0 <= i < j < |fewer| ensures NamesDifferAt(fewer, i, j) {
      assert NamesDifferAt(rows, i, j);
    }
  }

  lemma NothingCounted(topics: seq<TopicCount>)
    requires forall i | 0 <= i < |topics| :: topics[i].messageCount == 0
    ensures Counted(topics, [])
  {
    SumNone(topics, CountOf);
    forall n { SumNone(topics, Only(CountOf, NameOf, n)); }
  }

  function TableIds(table: seq<TableRow>): set<int> { set r | r in table :: r.innerId }

  /** The table is read only while no topic is known. */
  function IdsToGive(known: seq<TopicMetadata>, table: seq<TableRow>): set<int> {
    if known == [] then TableIds(table) else {}
  }

  function RowIds(rows: seq<GroupRow>): set<int> { set r | r in rows :: r.topic.innerId }

  lemma SmallerSet(a: set<int>, b: set<int>)
    requires a <= b
    ensures |a| <= |b|
  {
    assert b == a + (b - a) && a !! (b - a);
  }

  /** No id is taken back or changed. */
  ghost predicate Extends(ids: map<int, nat>, more: map<int, nat>) {
    forall a | a in ids :: a in more && more[a] == ids[a]
  }

  /** Every row of the topics table, with the id its topic was given. */
  ghost predicate Filled(ids: map<int, nat>, topics: seq<TopicMetadata>, table: seq<TableRow>) {
    |topics| == |table| && forall k | 0 <= k < |table| :: FilledAt(ids, topics, table, k)
  }

  predicate FilledAt(ids: map<int, nat>, topics: seq<TopicMetadata>, table: seq<TableRow>, k: nat)
    requires k < |table| == |topics|
  {
    Describes(topics[k], ids, table[k]) && topics[k].profiles == table[k].profiles
  }

  /** The topic is that of the row, profiles aside, and has the id given to it. */
  predicate Describes(t: TopicMetadata, ids: map<int, nat>, row: TableRow) {
    && row.innerId in ids && t.id == ids[row.innerId]
    && t.name == row.name && t.typeName == row.typeName && t.format == row.format && t.typeHash == row.typeHash
  }

  lemma StaysFilled(ids: map<int, nat>, more: map<int, nat>, topics: seq<TopicMetadata>, table: seq<TableRow>)
    requires Filled(ids, topics, table) && Extends(ids, more)
    ensures Filled(more, topics, table)
  {
    forall k | 0 <= k < |table| ensures FilledAt(more, topics, table, k) {
      assert FilledAt(ids, topics, table, k);
    }
  }

  lemma FilledNext(ids: map<int, nat>, more: map<int, nat>, topics: seq<TopicMetadata>, start: nat,
                   table: seq<TableRow>, k: nat)
    requires k < |table| && start <= |topics| && Filled(ids, topics[start..], table[..k])
    requires Extends(ids, more) && table[k].innerId in more
    ensures Filled(more, (topics + [ToMetadata(more[table[k].innerId], table[k])])[start..], table[..k + 1])
    ensures TableIds(table[..k + 1]) == TableIds(table[..k]) + {table[k].innerId}
  {
    assert table[..k + 1] == table[..k] + [table[k]];
    var added := topics + [ToMetadata(more[table[k].innerId], table[k])];
    var tail, upTo := added[start..], table[..k + 1];
    assert tail == topics[start..] + [added[|topics|]];
    forall i | 0 <= i < |upTo| ensures FilledAt(more, tail, upTo, i) {
      if i < k { assert FilledAt(ids, topics[start..], table[..k], i); }
    }
  }

  // ----- What is listed -----

  /** The topic stands for the row, with its count. */
  predicate Lists(t: TopicCount, ids: map<int, nat>, row: GroupRow) {
    Describes(t.metadata, ids, row.topic) && t.messageCount == row.messageCount
  }

  ghost predicate RowListed(topics: seq<TopicCount>, ids: map<int, nat>, row: GroupRow) {
    exists i :: 0 <= i < |topics| && Lists(topics[i], ids, row)
  }

  /** No entry before the one at i has the same id, name, type, format and type hash. */
  ghost predicate NewAt(topics: seq<TopicCount>, i: nat)
    requires i < |topics|
  {
    var t := topics[i].metadata;
    forall j | 0 <= j < i ::
      var u := topics[j].metadata;
      u.id != t.id || u.name != t.name || u.typeName != t.typeName || u.format != t.format || u.typeHash != t.typeHash
  }

  /** A topic known before has the count of its row, or none; a later one is that of a row, and new. */
  ghost predicate Accounted(topics: seq<TopicCount>, ids: map<int, nat>, rows: seq<GroupRow>, known: nat, i: nat)
    requires i < |topics|
  {
    if i < known then topics[i].messageCount == 0 || exists k :: 0 <= k < |rows| && Lists(topics[i], ids, rows[k])
    else
      && NewAt(topics, i)
      && exists k :: 0 <= k < |rows| && Lists(topics[i], ids, rows[k])
                     && topics[i].metadata.profiles == rows[k].topic.profiles
  }

  /** The known topics come first and stay as they are, every row is listed with its count, and
      nothing else is. */
  ghost predicate ListedFrom(topics: seq<TopicCount>, ids: map<int, nat>, known: seq<TopicMetadata>,
                             rows: seq<GroupRow>)
  {
    && |known| <= |topics|
    && (forall i | 0 <= i < |known| :: topics[i].metadata == known[i])
    && (forall k | 0 <= k < |rows| :: RowListed(topics, ids, rows[k]))
    && (forall i | 0 <= i < |topics| :: Accounted(topics, ids, rows, |known|, i))
  }

  lemma StillListed(topics: seq<TopicCount>, ids: map<int, nat>, more: map<int, nat>, rows: seq<GroupRow>,
                    row: GroupRow, k: nat)
    requires k < |rows| && NamesDiffer(rows + [row]) && RowListed(topics, ids, rows[k])
    requires Extends(ids, more) && row.topic.innerId in more
    ensures RowListed(Store(topics, ToMetadata(more[row.topic.innerId], row.topic), row.messageCount), more, rows[k])
  {
    var t := ToMetadata(more[row.topic.innerId], row.topic);
    var stored := Store(topics, t, row.messageCount);
    var i :| 0 <= i < |topics| && Lists(topics[i], ids, rows[k]);
    assert NamesDifferAt(rows + [row], k, |rows|);
    assert (rows + [row])[k] == rows[k];
    assert i != FirstSame(topics, t);
    assert Lists(stored[i], more, rows[k]);
  }

  lemma NowListed(topics: seq<TopicCount>, ids: map<int, nat>, row: GroupRow)
    requires row.topic.innerId in ids
    ensures var t := ToMetadata(ids[row.topic.innerId], row.topic);
      var i, stored := FirstSame(topics, t), Store(topics, t, row.messageCount);
      && Lists(stored[i], ids, row)
      && (i == |topics| ==> stored[i].metadata.profiles == row.topic.profiles && NewAt(stored, i))
  {
    var t := ToMetadata(ids[row.topic.innerId], row.topic);
    FirstSameIsFirst(topics, t);
  }

  lemma {:induction false} FirstSameIsFirst(topics: seq<TopicCount>, t: TopicMetadata)
    ensures forall j | 0 <= j < FirstSame(topics, t) :: !SameTopic(topics[j].metadata, t)
  {
    if topics != [] && !SameTopic(topics[0].metadata, t) {
      FirstSameIsFirst(topics[1..], t);
      assert forall j | 0 < j < |topics| :: topics[j] == topics[1..][j - 1];
    }
  }

  lemma StillAccounted(topics: seq<TopicCount>, ids: map<int, nat>, more: map<int, nat>, rows: seq<GroupRow>,
                       row: GroupRow, known: nat, i: nat)
    requires i < |topics| && Accounted(topics, ids, rows, known, i) && NamesDiffer(rows + [row])
    requires Extends(ids, more) && row.topic.innerId in more
    ensures Accounted(Store(topics, ToMetadata(more[row.topic.innerId], row.topic), row.messageCount), more,
                      rows + [row], known, i)
  {
    var t, all := ToMetadata(more[row.topic.innerId], row.topic), rows + [row];
    var stored := Store(topics, t, row.messageCount);
    NowListed(topics, more, row);
    if i >= known || topics[i].messageCount != 0 {
      var k :| 0 <= k < |rows| && Lists(topics[i], ids, rows[k])
               && (i >= known ==> topics[i].metadata.profiles == rows[k].topic.profiles);
      assert NamesDifferAt(all, k, |rows|);
      assert all[k] == rows[k] && all[|rows|] == row;
      assert stored[i] == topics[i] && Lists(stored[i], more, all[k]);
    } else if i == FirstSame(topics, t) {
      assert Lists(stored[i], more, all[|rows|]);
    }
    assert i >= known ==> NewAt(topics, i) && NewAt(stored, i);
  }

  /** Storing the next row. */
  lemma StoreLists(topics: seq<TopicCount>, ids: map<int, nat>, more: map<int, nat>, known: seq<TopicMetadata>,
                   rows: seq<GroupRow>, row: GroupRow)
    requires ListedFrom(topics, ids, known, rows) && NamesDiffer(rows + [row])
    requires Extends(ids, more) && row.topic.innerId in more
    ensures ListedFrom(Store(topics, ToMetadata(more[row.topic.innerId], row.topic), row.messageCount), more, known,
                       rows + [row])
  {
    var all, t := rows + [row], ToMetadata(more[row.topic.innerId], row.topic);
    var stored := Store(topics, t, row.messageCount);
    NowListed(topics, more, row);
    forall k | 0 <= k < |all| ensures RowListed(stored, more, all[k]) {
      if k < |rows| { StillListed(topics, ids, more, rows, row, k); }
    }
    forall i | 0 <= i < |stored| ensures Accounted(stored, more, all, |known|, i) {
      if i < |topics| { StillAccounted(topics, ids, more, rows, row, |known|, i); }
      else { assert all[|rows|] == row; }
    }
  }

  /** 0 is no id. */
  function IdIn(ids: map<int, nat>, innerId: int): nat { if innerId in ids then ids[innerId] else 0 }

  function Unseen(known: seq<TopicMetadata>): seq<TopicCount> {
    seq(|known|, i requires 0 <= i < |known| => TopicCount(known[i], 0))
  }

  /** Storing all rows, each under the id given to it. */
  function StoreAll(topics: seq<TopicCount>, ids: map<int, nat>, rows: seq<GroupRow>): seq<TopicCount> {
    if rows == [] then topics
    else
      var row := rows[|rows| - 1];
      Store(StoreAll(topics, ids, rows[..|rows| - 1]), ToMetadata(IdIn(ids, row.topic.innerId), row.topic),
            row.messageCount)
  }

  lemma {:induction false} StoreAllExtends(topics: seq<TopicCount>, ids: map<int, nat>, more: map<int, nat>,
                                           rows: seq<GroupRow>)
    requires Extends(ids, more) && RowIds(rows) <= ids.Keys
    ensures StoreAll(topics, ids, rows) == StoreAll(topics, more, rows)
  {
    if rows != [] {
      assert RowIds(rows[..|rows| - 1]) <= RowIds(rows);
      assert rows[|rows| - 1].topic.innerId in RowIds(rows);
      StoreAllExtends(topics, ids, more, rows[..|rows| - 1]);
    }
  }

  /** One turn of the loop over the rows. */
  lemma NextRow(topics: seq<TopicCount>, ids: map<int, nat>, more: map<int, nat>, rows: seq<GroupRow>, k: nat)
    requires k < |rows| && Extends(ids, more) && RowIds(rows[..k]) <= ids.Keys && rows[k].topic.innerId in more
    ensures StoreAll(topics, more, rows[..k + 1]) ==
            Store(StoreAll(topics, ids, rows[..k]), ToMetadata(more[rows[k].topic.innerId], rows[k].topic),
                  rows[k].messageCount)
    ensures Sum(rows[..k + 1], RowCount) == Sum(rows[..k], RowCount) + rows[k].messageCount
    ensures Least(rows[..k + 1]) == Min(rows[k].minTime, Least(rows[..k]))
    ensures Greatest(rows[..k + 1]) == Max(rows[k].maxTime, Greatest(rows[..k]))
    ensures RowIds(rows[..k + 1]) == RowIds(rows[..k]) + {rows[k].topic.innerId}
  {
    assert rows[..k + 1] == rows[..k] + [rows[k]] && rows[..k + 1][..k] == rows[..k];
    StoreAllExtends(topics, ids, more, rows[..k]);
  }

  /** Known topics without messages, then all rows: what is listed and what is counted. */
  lemma {:induction false} AllStored(topics: seq<TopicCount>, ids: map<int, nat>, known: seq<TopicMetadata>,
                                     rows: seq<GroupRow>)
    requires |topics| == |known| && NamesDiffer(rows) && RowIds(rows) <= ids.Keys
    requires forall i | 0 <= i < |topics| :: topics[i].metadata == known[i] && topics[i].messageCount == 0
    ensures Counted(StoreAll(topics, ids, rows), rows)
    ensures ListedFrom(StoreAll(topics, ids, rows), ids, known, rows)
  {
    if rows == [] {
      NothingCounted(topics);
    } else {
      var most, row := rows[..|rows| - 1], rows[|rows| - 1];
      assert most + [row] == rows;
      FewerNamesDiffer(rows);
      assert RowIds(most) <= RowIds(rows) && row.topic.innerId in RowIds(rows);
      AllStored(topics, ids, known, most);
      StoreCounts(StoreAll(topics, ids, most), most, row, ids[row.topic.innerId]);
      StoreLists(StoreAll(topics, ids, most), ids, ids, known, most, row);
    }
  }

  /** All ids are taken, and one of those still to come is new. */
  lemma OneTooMany(have: set<int>, id: int, all: set<int>)
    requires |have| == UINT16_MAX && id !in have && have <= all && id in all
    ensures |all| > UINT16_MAX
  {
    SmallerSet(have + {id}, all);
  }

  lemma TooManyTableIds(given: set<int>, table: seq<TableRow>, k: nat)
    requires k < |table| && |given + TableIds(table[..k])| == UINT16_MAX
    requires table[k].innerId !in given + TableIds(table[..k])
    ensures |given + TableIds(table)| > UINT16_MAX
  {
    OneTooMany(given + TableIds(table[..k]), table[k].innerId, given + TableIds(table));
  }

  lemma TooManyRowIds(given: set<int>, rows: seq<GroupRow>, k: nat)
    requires k < |rows| && |given + RowIds(rows[..k])| == UINT16_MAX
    requires rows[k].topic.innerId !in given + RowIds(rows[..k])
    ensures |given + RowIds(rows)| > UINT16_MAX
  {
    OneTooMany(given + RowIds(rows[..k]), rows[k].topic.innerId, given + RowIds(rows));
  }

  function Given(ids: map<int, nat>, a: int): nat
    requires a in ids
  {
    ids[a]
  }

  /** Two topics have two ids. */
  ghost predicate DistinctIds(ids: map<int, nat>) {
    forall a, b {:trigger Given(ids, a), Given(ids, b)} | a in ids && b in ids && a != b ::
      Given(ids, a) != Given(ids, b)
  }

  ghost predicate IdsUpTo(ids: map<int, nat>, last: nat) {
    forall a {:trigger Given(ids, a)} | a in ids :: 1 <= Given(ids, a) <= last
  }

  lemma NextId(ids: map<int, nat>, last: nat, innerId: int)
    requires IdsUpTo(ids, last) && DistinctIds(ids) && innerId !in ids
    ensures var more := ids[innerId := last + 1]; IdsUpTo(more, last + 1) && DistinctIds(more)
  {
    var more := ids[innerId := last + 1];
    forall a | a in ids ensures Given(more, a) == Given(ids, a) {}
    assert Given(more, innerId) == last + 1;
  }

  class SqliteMetadata {
    var externIds: map<int, nat>
    var lastExternId: nat
    var allTopics: seq<TopicMetadata>
    var topics: seq<TopicCount>
    var messageCount: nat
    var start: int
    var duration: int

    /** Ids are 1..last, each given to one topic. */
    ghost predicate Valid()
      reads this
    {
      && lastExternId == |externIds| <= UINT16_MAX
      && IdsUpTo(externIds, lastExternId) && DistinctIds(externIds)
    }

    constructor ()
      ensures Valid() && externIds == map[] && allTopics == []
    {
      externIds, lastExternId, allTopics, topics := map[], 0, [], [];
      messageCount, start, duration := 0, 0, 0;
    }

    /** 0 is no topic. */
    function GetExternTopicId(innerId: int): (id: nat)
      reads this
    {
      if innerId in externIds then externIds[innerId] else 0
    }

    /** None stands for the exception: it comes exactly when 65535 topics have ids already. */
    method GetOrGenerateExternTopicId(innerId: int) returns (id: Option<nat>)
      requires Valid()
      modifies this`externIds, this`lastExternId
      ensures Valid()
      ensures id == None <==> innerId !in old(externIds) && |old(externIds)| == 65535
      ensures id == None ==> externIds == old(externIds)
      ensures id.Some? ==> externIds.Keys == old(externIds).Keys + {innerId} && id == Some(externIds[innerId])
      ensures Extends(old(externIds), externIds)
    {
      var externId := GetExternTopicId(innerId);
      assert innerId in externIds ==> externId == Given(externIds, innerId) >= 1;
      if externId == 0 {
        NextId(externIds, lastExternId, innerId);
        if lastExternId == UINT16_MAX { return None; }
        lastExternId := lastExternId + 1;
        externId := lastExternId;
        externIds := externIds[innerId := externId];
      }
      return Some(externId);
    }

    /** False stands for the exception: it comes exactly when the rows bring the topics with an id to
        more than 65535. */
    method FillTopicsAndTypes(table: seq<TableRow>) returns (ok: bool)
      requires Valid()
      modifies this`externIds, this`lastExternId, this`allTopics
      ensures Valid()
      ensures ok <==> |old(externIds).Keys + TableIds(table)| <= 65535
      ensures if ok then externIds.Keys == old(externIds).Keys + TableIds(table) else |externIds| == 65535
      ensures Extends(old(externIds), externIds)
      ensures ok ==> old(allTopics) <= allTopics && Filled(externIds, allTopics[|old(allTopics)|..], table)
    {
      ghost var start := |allTopics|;
      for k := 0 to |table|
        invariant Valid() && old(allTopics) <= allTopics && Extends(old(externIds), externIds)
        invariant externIds.Keys == old(externIds).Keys + TableIds(table[..k])
        invariant Filled(externIds, allTopics[start..], table[..k])
      {
        ghost var ids, before := externIds, allTopics;
        var id := GetOrGenerateExternTopicId(table[k].innerId);
        if id == None {
          TooManyTableIds(old(externIds).Keys, table, k);
          return false;
        }
        allTopics := allTopics + [ToMetadata(id.value, table[k])];
        FilledNext(ids, externIds, before, start, table, k);
      }
      assert table[..|table|] == table;
      return true;
    }

    /** std::find_if over the listed topics. */
    method FindTopic(t: TopicMetadata) returns (i: nat)
      ensures i == FirstSame(topics, t)
    {
      i := 0;
      while i < |topics| && !SameTopic(topics[i].metadata, t)
        invariant i <= |topics| && FirstSame(topics, t) == i + FirstSame(topics[i..], t)
      {
        assert topics[i..][1..] == topics[i + 1..];
        i := i + 1;
      }
    }

    /** False stands for the exception when ids run out. */
    method AddTopicToMetadata(row: GroupRow) returns (ok: bool)
      requires Valid()
      modifies this`externIds, this`lastExternId, this`topics, this`messageCount
      ensures Valid()
      ensures ok <==> row.topic.innerId in old(externIds) || |old(externIds)| < 65535
      ensures ok ==> externIds.Keys == old(externIds).Keys + {row.topic.innerId} && Extends(old(externIds), externIds)
      ensures ok ==> topics == Store(old(topics), ToMetadata(externIds[row.topic.innerId], row.topic), row.messageCount)
      ensures ok ==> messageCount == old(messageCount) + row.messageCount
      ensures !ok ==> topics == old(topics) && messageCount == old(messageCount) && externIds == old(externIds)
    {
      var id := GetOrGenerateExternTopicId(row.topic.innerId);
      if id == None { return false; }
      var t := ToMetadata(id.value, row.topic);
      var i := FindTopic(t);
      if i < |topics| {
        topics := topics[i := topics[i].(messageCount := row.messageCount)];
      } else {
        topics := topics + [TopicCount(t, row.messageCount)];
      }
      messageCount := messageCount + row.messageCount;
      return true;
    }

    /** The loop over the grouped rows. */
    method AddRows(rows: seq<GroupRow>) returns (ok: bool, minTime: int, maxTime: int)
      requires Valid() && messageCount == 0
      modifies this`externIds, this`lastExternId, this`topics, this`messageCount
      ensures Valid() && Extends(old(externIds), externIds)
      ensures ok <==> |old(externIds).Keys + RowIds(rows)| <= 65535
      ensures if ok then externIds.Keys == old(externIds).Keys + RowIds(rows) else |externIds| == 65535
      ensures ok ==> topics == StoreAll(old(topics), externIds, rows) && messageCount == Sum(rows, RowCount)
      ensures ok ==> minTime == Least(rows) && maxTime == Greatest(rows)
    {
      minTime, maxTime := INT64_MAX, 0;
      for k := 0 to |rows|
        invariant Valid() && Extends(old(externIds), externIds) && messageCount == Sum(rows[..k], RowCount)
        invariant externIds.Keys == old(externIds).Keys + RowIds(rows[..k])
        invariant topics == StoreAll(old(topics), externIds, rows[..k])
        invariant minTime == Least(rows[..k]) && maxTime == Greatest(rows[..k])
      {
        ghost var ids := externIds;
        ok := AddTopicToMetadata(rows[k]);
        if !ok {
          TooManyRowIds(old(externIds).Keys, rows, k);
          return;
        }
        NextRow(old(topics), ids, externIds, rows, k);
        minTime := Min(rows[k].minTime, minTime);
        maxTime := Max(rows[k].maxTime, maxTime);
      }
      assert rows[..|rows|] == rows;
      ok := true;
    }

    /** Every topic of the table is listed with no messages yet; the table is read only once. */
    method ListTopics(table: seq<TableRow>) returns (ok: bool)
      requires Valid()
      modifies this`externIds, this`lastExternId, this`allTopics, this`topics, this`messageCount
      ensures Valid()
      ensures ok <==> |old(externIds).Keys + IdsToGive(old(allTopics), table)| <= 65535
      ensures if ok then externIds.Keys == old(externIds).Keys + IdsToGive(old(allTopics), table)
              else |externIds| == 65535
      ensures ok ==> messageCount == 0
      ensures ok && old(allTopics) != [] ==> allTopics == old(allTopics)
      ensures ok && old(allTopics) == [] ==> Filled(externIds, allTopics, table)
      ensures Extends(old(externIds), externIds) && (ok ==> |topics| == |allTopics|)
      ensures ok ==> forall i | 0 <= i < |topics| :: topics[i].metadata == allTopics[i] && topics[i].messageCount == 0
    {
      messageCount := 0;
      topics := [];
      ok := true;
      if allTopics == [] {
        ok := FillTopicsAndTypes(table);
        if !ok { return; }
      }
      topics := seq(|allTopics|, i requires 0 <= i < |allTopics| reads this => TopicCount(allTopics[i], 0));
    }

    /** Listing the topics of the table, then counting the rows. */
    method ListAndCount(table: seq<TableRow>, rows: seq<GroupRow>)
      returns (ok: bool, minTime: int, maxTime: int)
      requires Valid()
      modifies this`externIds, this`lastExternId, this`allTopics, this`topics, this`messageCount
      ensures Valid() && Extends(old(externIds), externIds)
      ensures ok <==> |old(externIds).Keys + IdsToGive(old(allTopics), table) + RowIds(rows)| <= 65535
      ensures ok ==> RowIds(rows) <= externIds.Keys
      ensures !ok ==> |externIds| == 65535
      ensures ok ==> topics == StoreAll(Unseen(allTopics), externIds, rows) && messageCount == Sum(rows, RowCount)
      ensures ok && old(allTopics) != [] ==> allTopics == old(allTopics)
      ensures ok && old(allTopics) == [] ==> Filled(externIds, allTopics, table)
      ensures ok ==> minTime == Least(rows) && maxTime == Greatest(rows)
    {
      ghost var ids := externIds.Keys + IdsToGive(allTopics, table);
      minTime, maxTime := INT64_MAX, 0;
      ok := ListTopics(table);
      if !ok {
        SmallerSet(ids, ids + RowIds(rows));
        return;
      }
      ghost var given := externIds;
      assert topics == Unseen(allTopics);
      ok, minTime, maxTime := AddRows(rows);
      if !ok { return; }
      if old(allTopics) == [] { StaysFilled(given, externIds, allTopics, table); }
    }

    /** The same with start and duration; a bag without messages starts at 0. */
    method CollectMetadata(table: seq<TableRow>, rows: seq<GroupRow>) returns (ok: bool)
      requires Valid()
      modifies this
      ensures Valid() && Extends(old(externIds), externIds)
      ensures ok <==> |old(externIds).Keys + IdsToGive(old(allTopics), table) + RowIds(rows)| <= 65535
      ensures if ok then RowIds(rows) <= externIds.Keys else |externIds| == 65535
      ensures ok ==> topics == StoreAll(Unseen(allTopics), externIds, rows) && messageCount == Sum(rows, RowCount)
      ensures ok && old(allTopics) != [] ==> allTopics == old(allTopics)
      ensures ok && old(allTopics) == [] ==> Filled(externIds, allTopics, table)
      ensures ok ==> start == StartOf(rows) && duration == DurationOf(rows)
    {
      var minTime, maxTime;
      ok, minTime, maxTime := ListAndCount(table, rows);
      if !ok { return; }
      if messageCount == 0 {
        minTime := 0;
        maxTime := 0;
      }
      start := minTime;
      duration := maxTime - minTime;
    }

    /** False stands for the exception: it comes exactly when the rows bring the topics with an id,
        those of the topics table included if it is read now, to more than 65535. */
    method ReadMetadata(table: seq<TableRow>, rows: seq<GroupRow>) returns (ok: bool)
      requires Valid() && NamesDiffer(rows)
      modifies this
      ensures Valid() && Extends(old(externIds), externIds)
      ensures ok <==> |old(externIds).Keys + IdsToGive(old(allTopics), table) + RowIds(rows)| <= 65535
      ensures !ok ==> |externIds| == 65535
      ensures ok ==> Counted(topics, rows) && messageCount == Sum(rows, RowCount)
      ensures ok && old(allTopics) != [] ==> allTopics == old(allTopics)
      ensures ok && old(allTopics) == [] ==> Filled(externIds, allTopics, table)
      ensures ok ==> ListedFrom(topics, externIds, allTopics, rows)
      ensures ok ==> start == StartOf(rows) && duration == DurationOf(rows)
    {
      ok := CollectMetadata(table, rows);
      if ok { AllStored(Unseen(allTopics), externIds, allTopics, rows); }
    }
  }

  // ----- What the grouped query stands for -----

  datatype StoredMessage = StoredMessage(topic: string, time: int)

  const TopicOf := (m: StoredMessage) => m.topic
  const One: StoredMessage -> nat := (m: StoredMessage) => 1

  /** The rows are the messages grouped by topic name: each row counts those of its name, every
      message is within the times of the row of its name, and these times occur. */
  ghost predicate Groups(rows: seq<GroupRow>, messages: seq<StoredMessage>) {
    NamesDiffer(rows) && RowsCount(rows, messages) && RowsBound(rows, messages) && RowTimesOccur(rows, messages)
  }

  ghost predicate RowsCount(rows: seq<GroupRow>, messages: seq<StoredMessage>) {
    forall i | 0 <= i < |rows| :: rows[i].messageCount == Share(messages, One, TopicOf)(rows[i].topic.name) > 0
  }

  ghost predicate Within(rows: seq<GroupRow>, m: StoredMessage) {
    exists i :: 0 <= i < |rows| && rows[i].topic.name == m.topic && rows[i].minTime <= m.time <= rows[i].maxTime
  }

  ghost predicate RowsBound(rows: seq<GroupRow>, messages: seq<StoredMessage>) {
    forall k {:trigger Within(rows, messages[k])} | 0 <= k < |messages| ::
      messages[k].time <= INT64_MAX && Within(rows, messages[k])
  }

  ghost predicate HasTime(messages: seq<StoredMessage>, time: int) {
    exists k :: 0 <= k < |messages| && messages[k].time == time
  }

  ghost predicate RowTimesOccur(rows: seq<GroupRow>, messages: seq<StoredMessage>) {
    forall i | 0 <= i < |rows| :: HasTime(messages, rows[i].minTime) && HasTime(messages, rows[i].maxTime)
  }

  function Names(rows: seq<GroupRow>): seq<string> {
    seq(|rows|, i requires 0 <= i < |rows| => rows[i].topic.name)
  }

  lemma {:induction false} SumOverNames(rows: seq<GroupRow>, w: string -> nat)
    requires forall i | 0 <= i < |rows| :: rows[i].messageCount == w(rows[i].topic.name)
    ensures Sum(rows, RowCount) == Sum(Names(rows), w)
  {
    if rows != [] {
      SumOverNames(rows[..|rows| - 1], w);
      assert Names(rows)[..|rows| - 1] == Names(rows[..|rows| - 1]);
    }
  }

  lemma {:induction false} CountAll(messages: seq<StoredMessage>)
    ensures Sum(messages, One) == |messages|
  {
    if messages != [] { CountAll(messages[..|messages| - 1]); }
  }

  lemma NamesCover(rows: seq<GroupRow>, messages: seq<StoredMessage>)
    requires NamesDiffer(rows) && RowsBound(rows, messages)
    ensures Distinct(Names(rows)) && forall k | 0 <= k < |messages| :: TopicOf(messages[k]) in Names(rows)
  {
    forall i, j | 0 <= i < j < |rows| ensures Names(rows)[i] != Names(rows)[j] {
      assert NamesDifferAt(rows, i, j);
    }
    forall k | 0 <= k < |messages| ensures TopicOf(messages[k]) in Names(rows) {
      assert Within(rows, messages[k]);
      var i :| 0 <= i < |rows| && rows[i].topic.name == messages[k].topic;
      assert Names(rows)[i] == messages[k].topic;
    }
  }

  /** The total is the number of stored messages. */
  lemma TotalIsAll(rows: seq<GroupRow>, messages: seq<StoredMessage>)
    requires NamesDiffer(rows) && RowsCount(rows, messages) && RowsBound(rows, messages)
    ensures Sum(rows, RowCount) == |messages|
  {
    NamesCover(rows, messages);
    SumOverNames(rows, Share(messages, One, TopicOf));
    SharesAddUp(Names(rows), messages, One, TopicOf);
    CountAll(messages);
  }

  lemma {:induction false} LeastIs(rows: seq<GroupRow>)
    ensures forall i | 0 <= i < |rows| :: Least(rows) <= rows[i].minTime && rows[i].maxTime <= Greatest(rows)
    ensures Least(rows) == INT64_MAX || exists i :: 0 <= i < |rows| && rows[i].minTime == Least(rows)
    ensures Greatest(rows) == 0 || exists i :: 0 <= i < |rows| && rows[i].maxTime == Greatest(rows)
  {
    if rows != [] {
      var most := rows[..|rows| - 1];
      LeastIs(most);
      assert forall i | 0 <= i < |most| :: most[i] == rows[i];
    }
  }

  lemma Bounds(rows: seq<GroupRow>, messages: seq<StoredMessage>)
    requires RowsBound(rows, messages)
    ensures forall k | 0 <= k < |messages| :: Least(rows) <= messages[k].time <= Greatest(rows)
  {
    LeastIs(rows);
    forall k | 0 <= k < |messages| ensures Least(rows) <= messages[k].time <= Greatest(rows) {
      assert Within(rows, messages[k]);
    }
  }

  /** The least time of the rows occurs, and so does the greatest unless it is the initial 0. */
  lemma Attained(rows: seq<GroupRow>, messages: seq<StoredMessage>)
    requires RowTimesOccur(rows, messages)
    ensures HasTime(messages, Least(rows)) || Least(rows) == INT64_MAX
    ensures HasTime(messages, Greatest(rows)) || Greatest(rows) == 0
  {
    LeastIs(rows);
  }

  /** An empty bag starts at 0 and lasts 0. Otherwise the start is the earliest stored time, and the
      end is the latest one exactly when some time is not negative. */
  lemma Spans(rows: seq<GroupRow>, messages: seq<StoredMessage>)
    requires Groups(rows, messages)
    ensures messages == [] ==> StartOf(rows) == 0 && DurationOf(rows) == 0
    ensures messages != [] ==> HasTime(messages, StartOf(rows))
    ensures forall k | 0 <= k < |messages| :: StartOf(rows) <= messages[k].time <= StartOf(rows) + DurationOf(rows)
    ensures messages != [] ==>
              (HasTime(messages, StartOf(rows) + DurationOf(rows)) <==>
               exists k :: 0 <= k < |messages| && messages[k].time >= 0)
  {
    TotalIsAll(rows, messages);
    Bounds(rows, messages);
    Attained(rows, messages);
    GreatestNatural(rows);
    if messages != [] && Least(rows) == INT64_MAX {
      assert Within(rows, messages[0]);
      assert messages[0].time == INT64_MAX;
    }
    if k :| 0 <= k < |messages| && messages[k].time >= 0 && Greatest(rows) == 0 {
      assert messages[k].time == 0;
    }
  }

  lemma {:induction false} GreatestNatural(rows: seq<GroupRow>)
    ensures Greatest(rows) >= 0
  {
    if rows != [] { GreatestNatural(rows[..|rows| - 1]); }
  }
}
