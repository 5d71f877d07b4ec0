/**
 * The two storage plugins side by side over the same messages, in one time direction chosen right
 * after opening. Forward, and backward once a time was sought, they answer every run of reader
 * operations alike; and where they part it is said exactly when.
 */
module Lockstep {
  import opened Basics
  import opened Cursor
  import opened TopicFilter
  import M = McapStorage
  import S = SqliteStorage

  datatype ReaderOp = AskMore | Read | Filter(f: StorageFilter) | SeekTo(time: nat)

  /** SQLite accepts the filter, and both plugins let the same topics of the bag through. */
  ghost predicate SameTopics(rows: seq<Row>, f: StorageFilter) {
    SqlPrepares(f) && M.AcceptedTopics(rows, f) == S.AcceptedBySql(rows, f)
  }

  ghost predicate Comparable(rows: seq<Row>, ops: seq<ReaderOp>) {
    forall k | 0 <= k < |ops| && ops[k].Filter? :: SameTopics(rows, ops[k].f)
  }

  /** When the plugins let the same topics through: always, but for plain topics outside the
      list of an exceptional filter. */
  lemma WhenSameTopics(rows: seq<Row>, f: StorageFilter)
    requires AllNamesQuoteFree(f) && Categorised(f) && ExcludesRenderable(f)
    requires forall r | r in rows :: Alike(r.topic)
    ensures SameTopics(rows, f) <==> !(Exceptional(f) && exists r | r in rows :: UnlistedPlain(f, r.topic))
  {
    WhenSqlPrepares(f);
    var m, s := M.AcceptedTopics(rows, f), S.AcceptedBySql(rows, f);
    forall r | r in rows
      ensures r.topic in m <==> McapSelects(f, r.topic)
      ensures r.topic in s <==> SqlSelects(f, r.topic)
      ensures r.topic in s && r.topic !in m <==> Exceptional(f) && UnlistedPlain(f, r.topic)
      ensures r.topic in m ==> r.topic in s
    {
      SelectionsCompared(f, r.topic);
    }
  }

  function ToOp(rows: seq<Row>, op: ReaderOp): Op {
    match op
    case AskMore => HasNextOp
    case Read => ReadOp
    case Filter(f) => FilterOp(M.AcceptedTopics(rows, f))
    case SeekTo(time) => SeekOp(time)
  }

  function ToOps(rows: seq<Row>, ops: seq<ReaderOp>): seq<Op> {
    seq(|ops|, k requires 0 <= k < |ops| => ToOp(rows, ops[k]))
  }

  /** Performing one more operation. */
  lemma {:induction false} PerformSnoc(c: Cursor, ops: seq<Op>, op: Op)
    requires c.cut <= |c.log|
    ensures var (es, c1) := Perform(c, ops);
      Perform(c, ops + [op]) == (es + [Apply(c1, op).0], Apply(c1, op).1)
    decreases |ops|
  {
    if ops == [] {
      assert ops + [op] == [op] && [op][1..] == [];
      var (e, d) := Apply(c, op);
      assert Perform(d, [op][1..]) == ([], d);
      assert Perform(c, [op]) == ([e] + [], d);
      assert [e] + [] == [] + [e];
    } else {
      assert (ops + [op])[0] == ops[0] && (ops + [op])[1..] == ops[1..] + [op];
      var (e, d) := Apply(c, ops[0]);
      var es := Perform(d, ops[1..]).0;
      PerformSnoc(d, ops[1..], op);
      var last := Apply(Perform(d, ops[1..]).1, op).0;
      assert [e] + (es + [last]) == ([e] + es) + [last];
    }
  }

  lemma NextOp(c: Cursor, rows: seq<Row>, ops: seq<ReaderOp>, k: nat)
    requires c.cut <= |c.log| && k < |ops|
    ensures var (es, c1) := Perform(c, ToOps(rows, ops[..k]));
      Perform(c, ToOps(rows, ops[..k + 1])) == (es + [Apply(c1, ToOp(rows, ops[k])).0], Apply(c1, ToOp(rows, ops[k])).1)
  {
    assert ToOps(rows, ops[..k + 1]) == ToOps(rows, ops[..k]) + [ToOp(rows, ops[k])];
    PerformSnoc(c, ToOps(rows, ops[..k]), ToOp(rows, ops[k]));
  }

  /** Nothing pending is out of step with the last key, and the order is one that resumes exactly. */
  ghost predicate McapReady(m: M.McapStorage)
    reads m
  {
    m.Valid() && m.Synced() && M.Exact(m.order, m.rows) && m.selection == M.Selection(m.rows)
  }

  method McapAsk(m: M.McapStorage) returns (e: Event)
    requires McapReady(m)
    modifies m`lastEnqueued, m`next, m`it
    ensures McapReady(m)
    ensures (e, m.Abstract()) == Apply(old(m.Abstract()), ToOp(m.rows, AskMore))
  {
    var more := m.HasNext();
    e := Answer(more);
  }

  method McapRead(m: M.McapStorage) returns (e: Event)
    requires McapReady(m)
    modifies m`lastEnqueued, m`next, m`it, m`lastTime, m`lastOffset
    ensures McapReady(m)
    ensures (e, m.Abstract()) == Apply(old(m.Abstract()), ToOp(m.rows, Read))
  {
    var r := m.ReadNext();
    e := if r.Some? then Message(r.value) else NoMessage;
  }

  method McapFilter(m: M.McapStorage, f: StorageFilter)
    requires McapReady(m)
    modifies m`filter, m`lastEnqueued, m`next, m`view, m`it
    ensures McapReady(m)
    ensures (Silent, m.Abstract()) == Apply(old(m.Abstract()), ToOp(m.rows, Filter(f)))
  {
    m.SetFilter(f);
  }

  method McapSeek(m: M.McapStorage, time: nat)
    requires McapReady(m)
    modifies m`lastTime, m`lastOffset, m`lastEnqueued, m`next, m`view, m`it
    ensures McapReady(m)
    ensures (Silent, m.Abstract()) == Apply(old(m.Abstract()), ToOp(m.rows, SeekTo(time)))
  {
    ghost var c := m.Abstract();
    m.Seek(time);
    assert m.Abstract() == c.Seek(time);
  }

  method McapPerform(m: M.McapStorage, op: ReaderOp) returns (e: Event)
    requires McapReady(m)
    modifies m
    ensures McapReady(m)
    ensures (e, m.Abstract()) == Apply(old(m.Abstract()), ToOp(m.rows, op))
  {
    e := Silent;
    match op
    case AskMore => e := McapAsk(m);
    case Read => e := McapRead(m);
    case Filter(f) => McapFilter(m, f);
    case SeekTo(time) => McapSeek(m, time);
  }

  method DriveMcap(m: M.McapStorage, ops: seq<ReaderOp>) returns (events: seq<Event>)
    requires McapReady(m)
    modifies m
    ensures events == Perform(old(m.Abstract()), ToOps(m.rows, ops)).0
  {
    events := [];
    ghost var c := m.Abstract();
    for k := 0 to |ops|
      invariant McapReady(m)
      invariant (events, m.Abstract()) == Perform(c, ToOps(m.rows, ops[..k]))
    {
      NextOp(c, m.rows, ops, k);
      var e := McapPerform(m, ops[k]);
      events := events + [e];
    }
    assert ops[..|ops|] == ops;
  }

  /** The filter in force is one both plugins read alike. */
  ghost predicate SqliteReady(s: S.SqliteStorage)
    reads s, s.current
  {
    s.Valid() && s.selection == S.Selection(s.rows) && SameTopics(s.rows, s.filter)
  }

  method SqliteAsk(s: S.SqliteStorage) returns (e: Event)
    requires SqliteReady(s)
    modifies s`current
    ensures SqliteReady(s)
    ensures s.current == old(s.current) || s.current == null || fresh(s.current)
    ensures (e, s.Abstract()) == Apply(old(s.Abstract()), HasNextOp)
  {
    var more := s.HasNext();
    e := Answer(more.value);
  }

  method SqliteRead(s: S.SqliteStorage) returns (e: Event)
    requires SqliteReady(s)
    modifies s`current, s`seekTime, s`seekRowId, s.current
    ensures SqliteReady(s)
    ensures s.current == old(s.current) || s.current == null || fresh(s.current)
    ensures (e, s.Abstract()) == Apply(old(s.Abstract()), ReadOp)
  {
    var r := s.ReadNext();
    e := if r.Ok? then Message(r.value) else NoMessage;
  }

  method SqlitePerform(s: S.SqliteStorage, op: ReaderOp) returns (e: Event)
    requires SqliteReady(s) && (op.Filter? ==> SameTopics(s.rows, op.f))
    modifies s, s.current
    ensures SqliteReady(s) && s.reverse == old(s.reverse)
    ensures s.current == old(s.current) || s.current == null || fresh(s.current)
    ensures (e, s.Abstract()) == Apply(old(s.Abstract()), ToOp(s.rows, op))
  {
    e := Silent;
    match op
    case AskMore => e := SqliteAsk(s);
    case Read => e := SqliteRead(s);
    case Filter(f) => s.SetFilter(f);
    case SeekTo(time) => s.Seek(time);
  }

  method DriveSqlite(s: S.SqliteStorage, ops: seq<ReaderOp>) returns (events: seq<Event>)
    requires SqliteReady(s) && Comparable(s.rows, ops)
    modifies s, s.current
    ensures events == Perform(old(s.Abstract()), ToOps(s.rows, ops)).0
  {
    events := [];
    ghost var c := s.Abstract();
    for k := 0 to |ops|
      invariant SqliteReady(s)
      invariant s.current == old(s.current) || s.current == null || fresh(s.current)
      invariant (events, s.Abstract()) == Perform(c, ToOps(s.rows, ops[..k]))
    {
      NextOp(c, s.rows, ops, k);
      var e := SqlitePerform(s, ops[k]);
      events := events + [e];
    }
    assert ops[..|ops|] == ops;
  }

  const NO_FILTER := StorageFilter([], [], [], None, [], [], [], None)

  function AllTopics(rows: seq<Row>): set<string> { set r | r in rows :: r.topic }

  lemma NoFilterAcceptsAll(rows: seq<Row>)
    ensures SameTopics(rows, NO_FILTER) && M.AcceptedTopics(rows, NO_FILTER) == AllTopics(rows)
  {
    assert Conditions(NO_FILTER) == [];
    forall r | r in rows ensures McapSelects(NO_FILTER, r.topic) && SqlSelects(NO_FILTER, r.topic) {
      assert SelectedByListOrRegex(r.topic, IncludeList(NO_FILTER, McapCategory(r.topic)), None);
    }
  }

  /** A cursor over everything, at the time sought; not seeking is seeking time 0. */
  function Start(dir: Direction, rows: seq<Row>, sought: Option<nat>): (c: Cursor)
    ensures c.cut <= |c.log|
  {
    Cursor(dir, Log(dir, rows), AllTopics(rows), 0).Seek(if sought.Some? then sought.value else 0)
  }

  /** Backward without a seek, SQLite starts below row id 0 of time 0. */
  ghost predicate StartsAlike(rows: seq<Row>, reverse: bool, sought: Option<nat>) {
    reverse && sought.None? ==> forall r | r in rows && r.time == 0 :: r.pos == 0
  }

  method OpenMcap(rows: seq<Row>, reverse: bool, sought: Option<nat>) returns (m: M.McapStorage)
    requires InFileOrder(rows)
    ensures fresh(m) && m.rows == rows && McapReady(m)
    ensures m.Abstract() == Start(DirectionOf(reverse), rows, sought)
  {
    m := new M.McapStorage(rows, true);
    NoFilterAcceptsAll(rows);
    var ok := m.SetReadOrder(ReceivedTimestamp, reverse);
    M.SeekIsCut(m.order, rows, AllTopics(rows), 0, Start(DirectionOf(reverse), rows, None));
    if sought.Some? { m.Seek(sought.value); }
  }

  method OpenSqlite(rows: seq<Row>, reverse: bool, sought: Option<nat>) returns (s: S.SqliteStorage)
    requires InFileOrder(rows) && StartsAlike(rows, reverse, sought)
    ensures fresh(s) && s.rows == rows && SqliteReady(s) && s.current == null
    ensures s.Abstract() == Start(DirectionOf(reverse), rows, sought)
  {
    s := new S.SqliteStorage(rows);
    NoFilterAcceptsAll(rows);
    var ok := s.SetReadOrder(ReceivedTimestamp, reverse);
    if sought.Some? { s.Seek(sought.value); } else { UnsoughtCut(rows, reverse); }
  }

  lemma UnsoughtCut(rows: seq<Row>, reverse: bool)
    requires InFileOrder(rows) && StartsAlike(rows, reverse, None)
    ensures var dir := DirectionOf(reverse);
      S.ToCursor(dir, rows, AllTopics(rows), 0, 0) == Start(dir, rows, None)
  {
    var dir := DirectionOf(reverse);
    LogIsSorted(dir, rows);
    CutSame(Log(dir, rows), S.SeekHead(dir, 0, 0), From(dir, 0));
  }

  /** Both plugins opened on the same messages, set to one direction, and sought to some time or not:
      whatever is asked, read, filtered and sought after that, they return the same, and it is what
      the abstract cursor returns. Only backward without a seek this needs a bag without messages at
      time 0 (but for row id 0); see UnsoughtReverse. */
  method RunBoth(rows: seq<Row>, reverse: bool, sought: Option<nat>, ops: seq<ReaderOp>)
    returns (mcap: seq<Event>, sqlite: seq<Event>)
    requires InFileOrder(rows) && Comparable(rows, ops) && StartsAlike(rows, reverse, sought)
    ensures mcap == sqlite
    ensures mcap == Perform(Start(DirectionOf(reverse), rows, sought), ToOps(rows, ops)).0
  {
    var m := OpenMcap(rows, reverse, sought);
    mcap := DriveMcap(m, ops);
    var s := OpenSqlite(rows, reverse, sought);
    sqlite := DriveSqlite(s, ops);
  }

  function LogTime(dir: Direction): M.ReadOrder {
    if dir.Forward? then M.LogTimeOrder else M.ReverseLogTimeOrder
  }

  /** Where they part: when the direction changes after row r was read, MCAP goes back from r, and
      SQLite does the same if and only if the filter accepts neither r nor its unread neighbour with
      the next row id and the same time. */
  lemma FlipCompared(dir: Direction, rows: seq<Row>, accepted: set<string>, r: Row)
    requires InFileOrder(rows)
    ensures var flip := dir.Opposite();
      M.Resume(LogTime(flip), rows, accepted, r.time, Some(r.pos))
      == S.Query(flip, rows, accepted, r.time, S.NextRowId(dir, r))
      <==> forall x | x in rows && S.Again(dir, r, x) :: x.topic !in accepted
  {
    var flip := dir.Opposite();
    M.ResumeIsBeyond(LogTime(flip), rows, accepted, r.time, Some(r.pos));
    SelectSame(Log(flip, rows), M.Due(flip, r.time, Some(r.pos), accepted), S.Resuming(flip, r, accepted));
    S.FlipExact(dir, rows, accepted, r);
  }

  /** After a seek both plugins have the same rows to come. */
  lemma SoughtAlike(dir: Direction, rows: seq<Row>, accepted: set<string>, time: nat)
    requires InFileOrder(rows)
    ensures M.Resume(LogTime(dir), rows, accepted, time, None)
         == S.Query(dir, rows, accepted, time, S.SoughtRowId(dir, rows))
  {
    var c := Cursor(dir, Log(dir, rows), accepted, 0);
    M.ResumeIsRemaining(LogTime(dir), rows, accepted, time, None);
    M.SeekIsCut(LogTime(dir), rows, accepted, time, c);
    S.QueryIsRemaining(dir, rows, accepted, time, S.SoughtRowId(dir, rows));
    S.SeekIsCut(dir, rows, accepted, time, c);
  }

  /** When the direction changes after a seek without a read, the plugins go on alike if and only if
      the filter accepts no row of the time sought other than the one in SQLite's seek head. */
  lemma FlipSoughtCompared(dir: Direction, rows: seq<Row>, accepted: set<string>, time: nat)
    requires InFileOrder(rows)
    ensures var flip := dir.Opposite();
      M.Resume(LogTime(flip), rows, accepted, time, None)
      == S.Query(flip, rows, accepted, time, S.SoughtRowId(dir, rows))
      <==> forall x | x in rows && x.time == time && x.pos != S.SoughtRowId(dir, rows) :: x.topic !in accepted
  {
    SoughtAlike(dir.Opposite(), rows, accepted, time);
    S.FlipAfterSeek(dir, rows, accepted, time);
  }

  /** Opened and set to reverse without any seek, the plugins have the same rows to come if and only
      if the filter accepts no row at time 0 other than row id 0: MCAP returns those, SQLite not. */
  lemma UnsoughtReverse(rows: seq<Row>, accepted: set<string>)
    requires InFileOrder(rows)
    ensures M.Resume(M.ReverseLogTimeOrder, rows, accepted, 0, None) == S.Query(Backward, rows, accepted, 0, 0)
      <==> forall x | x in rows && x.time == 0 && x.pos != 0 :: x.topic !in accepted
  {
    FlipSoughtCompared(Forward, rows, accepted, 0);
  }

  /** So without a filter the condition under which both can be run unsought is exact. */
  lemma StartsAlikeExact(rows: seq<Row>)
    requires InFileOrder(rows)
    ensures StartsAlike(rows, true, None) <==>
      M.Resume(M.ReverseLogTimeOrder, rows, AllTopics(rows), 0, None) == S.Query(Backward, rows, AllTopics(rows), 0, 0)
  {
    UnsoughtReverse(rows, AllTopics(rows));
  }
}
