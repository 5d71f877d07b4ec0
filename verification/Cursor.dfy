/**
 * The read cursor both storage plugins implement: a log sorted by (time, position) or its
 * reversal, the set of topics the filter accepts, and a cut that separates the rows that were
 * passed from those still to come.
 */
module Cursor {
  import opened Basics

  /** A stored message: its position is the file offset (MCAP) or the row id (SQLite). */
  datatype Row = Row(time: nat, pos: nat, topic: string, payload: seq<int>)

  datatype Direction = Forward | Backward {
    function Opposite(): Direction { if Forward? then Backward else Forward }
  }

  function DirectionOf(reverse: bool): Direction { if reverse then Backward else Forward }

  datatype SortBy = ReceivedTimestamp | PublishedTimestamp | File

  predicate Less(a: Row, b: Row) { a.time < b.time || (a.time == b.time && a.pos < b.pos) }

  predicate Precedes(dir: Direction, a: Row, b: Row) {
    if dir.Forward? then Less(a, b) else Less(b, a)
  }

  /** Rows in file order: positions strictly increase. */
  ghost predicate InFileOrder(rows: seq<Row>) {
    forall i, j | 0 <= i < j < |rows| :: rows[i].pos < rows[j].pos
  }

  ghost predicate Sorted(dir: Direction, log: seq<Row>) {
    forall i, j | 0 <= i < j < |log| :: Precedes(dir, log[i], log[j])
  }

  // ----- Sorting by time -----

  function Insert(r: Row, log: seq<Row>): seq<Row> {
    if log == [] then [r]
    else if Less(r, log[0]) then [r] + log
    else [log[0]] + Insert(r, log[1..])
  }

  function SortByTime(rows: seq<Row>): seq<Row> {
    if rows == [] then [] else Insert(rows[0], SortByTime(rows[1..]))
  }

  lemma {:induction false} InsertKeepsRows(r: Row, log: seq<Row>)
    ensures multiset(Insert(r, log)) == multiset{r} + multiset(log)
  {
    if log != [] && !Less(r, log[0]) {
      assert log == [log[0]] + log[1..];
      InsertKeepsRows(r, log[1..]);
    }
  }

  lemma {:induction false} SortKeepsRows(rows: seq<Row>)
    ensures multiset(SortByTime(rows)) == multiset(rows)
  {
    if rows != [] {
      assert rows == [rows[0]] + rows[1..];
      InsertKeepsRows(rows[0], SortByTime(rows[1..]));
      SortKeepsRows(rows[1..]);
    }
  }

  function Reversed(log: seq<Row>): (s: seq<Row>)
    ensures |s| == |log| && forall i | 0 <= i < |s| :: s[i] == log[|log| - 1 - i]
  {
    seq(|log|, i requires 0 <= i < |log| => log[|log| - 1 - i])
  }

  function Log(dir: Direction, rows: seq<Row>): seq<Row> {
    if dir.Forward? then SortByTime(rows) else Reversed(SortByTime(rows))
  }

  lemma SameElements(a: seq<Row>, b: seq<Row>, r: Row)
    requires multiset(a) == multiset(b) && r in a
    ensures r in b
  {
    assert r in multiset(a);
  }

  lemma {:induction false} InsertSorted(r: Row, log: seq<Row>)
    requires Sorted(Forward, log) && forall i | 0 <= i < |log| :: r.pos != log[i].pos
    ensures Sorted(Forward, Insert(r, log))
  {
    if log != [] && !Less(r, log[0]) {
      var tail := Insert(r, log[1..]);
      InsertSorted(r, log[1..]);
      InsertKeepsRows(r, log[1..]);
      forall j | 0 <= j < |tail| ensures Less(log[0], tail[j]) {
        assert tail[j] in multiset(tail);
        if tail[j] != r { assert tail[j] in log[1..]; }
      }
    }
  }

  lemma {:induction false} SortByTimeSorted(rows: seq<Row>)
    requires InFileOrder(rows)
    ensures Sorted(Forward, SortByTime(rows))
  {
    if rows != [] {
      var tail := SortByTime(rows[1..]);
      SortByTimeSorted(rows[1..]);
      SortKeepsRows(rows[1..]);
      forall i | 0 <= i < |tail| ensures rows[0].pos != tail[i].pos {
        SameElements(tail, rows[1..], tail[i]);
      }
      InsertSorted(rows[0], tail);
    }
  }

  /** The log holds exactly the rows of the file, in the order of the direction. */
  lemma LogIsSorted(dir: Direction, rows: seq<Row>)
    requires InFileOrder(rows)
    ensures Sorted(dir, Log(dir, rows))
    ensures forall r :: r in Log(dir, rows) <==> r in rows
  {
    SortByTimeSorted(rows);
    SortKeepsRows(rows);
    var s := SortByTime(rows);
    forall r ensures r in Log(dir, rows) <==> r in rows {
      if r in rows {
        SameElements(rows, s, r);
        var i :| 0 <= i < |s| && s[i] == r;
        assert dir.Backward? ==> Log(dir, rows)[|s| - 1 - i] == r;
      }
      if r in Log(dir, rows) {
        assert r in s;
        SameElements(s, rows, r);
      }
    }
  }

  lemma ReversedDrop(log: seq<Row>, j: nat)
    requires j <= |log|
    ensures Reversed(log)[|log| - j..] == Reversed(log[..j])
  {
  }

  // ----- Selecting rows -----

  function SelectWhere(log: seq<Row>, p: Row -> bool): seq<Row> {
    if log == [] then []
    else if p(log[0]) then [log[0]] + SelectWhere(log[1..], p)
    else SelectWhere(log[1..], p)
  }

  lemma {:induction false} SelectMember(log: seq<Row>, p: Row -> bool, r: Row)
    requires r in SelectWhere(log, p)
    ensures r in log && p(r)
  {
    if !(p(log[0]) && r == log[0]) { SelectMember(log[1..], p, r); }
  }

  lemma {:induction false} SelectSame(log: seq<Row>, p: Row -> bool, q: Row -> bool)
    requires forall r | r in log :: p(r) == q(r)
    ensures SelectWhere(log, p) == SelectWhere(log, q)
  {
    if log != [] { SelectSame(log[1..], p, q); }
  }

  lemma {:induction false} SelectConcat(a: seq<Row>, b: seq<Row>, p: Row -> bool)
    ensures SelectWhere(a + b, p) == SelectWhere(a, p) + SelectWhere(b, p)
  {
    if a == [] {
      assert a + b == b;
    } else {
      assert (a + b)[1..] == a[1..] + b;
      SelectConcat(a[1..], b, p);
    }
  }

  lemma {:induction false} SelectNone(log: seq<Row>, p: Row -> bool)
    requires forall r | r in log :: !p(r)
    ensures SelectWhere(log, p) == []
  {
    if log != [] { SelectNone(log[1..], p); }
  }

  /** Selecting by a narrower condition gives the same exactly when it is no narrower on the log. */
  lemma {:induction false} SelectNarrower(log: seq<Row>, p: Row -> bool, q: Row -> bool)
    requires forall r | r in log :: p(r) ==> q(r)
    ensures |SelectWhere(log, p)| <= |SelectWhere(log, q)|
    ensures SelectWhere(log, p) == SelectWhere(log, q) <==> forall r | r in log :: q(r) ==> p(r)
  {
    if log != [] {
      SelectNarrower(log[1..], p, q);
      assert log == [log[0]] + log[1..];
      if p(log[0]) == q(log[0]) {
        assert p(log[0]) ==> SelectWhere(log, p)[1..] == SelectWhere(log[1..], p);
        assert q(log[0]) ==> SelectWhere(log, q)[1..] == SelectWhere(log[1..], q);
      } else {
        assert |SelectWhere(log, p)| < |SelectWhere(log, q)|;
      }
    }
  }

  /** The first index from which on rows lie ahead of some point. */
  function CutOf(log: seq<Row>, ahead: Row -> bool): (cut: nat)
    ensures cut <= |log|
  {
    if log == [] || ahead(log[0]) then 0 else 1 + CutOf(log[1..], ahead)
  }

  lemma {:induction false} CutIsFirst(log: seq<Row>, ahead: Row -> bool)
    ensures var cut := CutOf(log, ahead);
      (forall i | 0 <= i < cut :: !ahead(log[i])) && (cut < |log| ==> ahead(log[cut]))
  {
    if log != [] && !ahead(log[0]) {
      CutIsFirst(log[1..], ahead);
      forall i | 0 <= i < CutOf(log, ahead) ensures !ahead(log[i]) {
        if i > 0 { assert log[i] == log[1..][i - 1]; }
      }
    }
  }

  /** Once ahead, always ahead. */
  ghost predicate Monotone(log: seq<Row>, ahead: Row -> bool) {
    forall i, j | 0 <= i < j < |log| && ahead(log[i]) :: ahead(log[j])
  }

  lemma CutUnique(log: seq<Row>, ahead: Row -> bool, k: nat)
    requires k <= |log| && (k < |log| ==> ahead(log[k])) && forall i | 0 <= i < k :: !ahead(log[i])
    ensures CutOf(log, ahead) == k
  {
    CutIsFirst(log, ahead);
  }

  lemma CutSame(log: seq<Row>, p: Row -> bool, q: Row -> bool)
    requires forall r | r in log :: p(r) == q(r)
    ensures CutOf(log, p) == CutOf(log, q)
  {
    CutIsFirst(log, q);
    CutUnique(log, p, CutOf(log, q));
  }

  lemma AheadFromCut(log: seq<Row>, ahead: Row -> bool)
    requires Monotone(log, ahead)
    ensures var cut := CutOf(log, ahead);
      (forall r | r in log[..cut] :: r in log && !ahead(r)) && (forall r | r in log[cut..] :: r in log && ahead(r))
  {
    var cut := CutOf(log, ahead);
    CutIsFirst(log, ahead);
    forall i | cut <= i < |log| ensures ahead(log[i]) {
      if i > cut { assert ahead(log[cut]); }
    }
  }

  /** Asking for the rows ahead that pass the filter is filtering what follows the cut. */
  lemma {:induction false} SelectAhead(log: seq<Row>, ahead: Row -> bool, keep: Row -> bool, both: Row -> bool)
    requires Monotone(log, ahead) && forall r | r in log :: both(r) == (ahead(r) && keep(r))
    ensures SelectWhere(log, both) == SelectWhere(log[CutOf(log, ahead)..], keep)
  {
    var cut := CutOf(log, ahead);
    AheadFromCut(log, ahead);
    assert log == log[..cut] + log[cut..];
    SelectConcat(log[..cut], log[cut..], both);
    SelectNone(log[..cut], both);
    SelectSame(log[cut..], both, keep);
  }

  /** Just behind row j of a sorted log. */
  lemma CutAfterRow(dir: Direction, log: seq<Row>, j: nat, ahead: Row -> bool)
    requires Sorted(dir, log) && j < |log|
    requires forall r | r in log :: ahead(r) == Precedes(dir, log[j], r)
    ensures CutOf(log, ahead) == j + 1
  {
    forall i | 0 <= i < j + 1 ensures !ahead(log[i]) {
      if i < j { assert Precedes(dir, log[i], log[j]); }
    }
    CutUnique(log, ahead, j + 1);
  }

  // ----- The abstract cursor -----

  /** Rows at the time sought and beyond, in reading direction. */
  predicate AtOrBeyond(dir: Direction, time: int, r: Row) {
    if dir.Forward? then r.time >= time else r.time <= time
  }

  function From(dir: Direction, time: nat): Row -> bool { (r: Row) => AtOrBeyond(dir, time, r) }

  datatype Cursor = Cursor(dir: Direction, log: seq<Row>, accepted: set<string>, cut: nat) {
    ghost predicate Valid() { cut <= |log| && Sorted(dir, log) }

    function Keeps(): Row -> bool { (r: Row) => r.topic in accepted }

    function Remaining(): seq<Row>
      requires cut <= |log|
    {
      SelectWhere(log[cut..], Keeps())
    }

    /** Index of the next row to be read, |log| when there is none. */
    function NextIndex(): (j: nat)
      requires cut <= |log|
      ensures cut <= j <= |log|
    {
      cut + CutOf(log[cut..], Keeps())
    }

    lemma NextIsFirst()
      requires cut <= |log|
      ensures NextIndex() < |log| ==> log[NextIndex()].topic in accepted
      ensures forall i | cut <= i < NextIndex() :: log[i].topic !in accepted
    {
      CutIsFirst(log[cut..], Keeps());
      forall i | cut <= i < NextIndex() ensures log[i].topic !in accepted {
        assert log[cut..][i - cut] == log[i];
      }
    }

    predicate HasNext()
      requires cut <= |log|
    {
      NextIndex() < |log|
    }

    function ReadNext(): (r: (Row, Cursor))
      requires cut <= |log| && HasNext()
      ensures r.1.cut <= |r.1.log|
    {
      (log[NextIndex()], this.(cut := NextIndex() + 1))
    }

    function SetFilter(topics: set<string>): Cursor { this.(accepted := topics) }

    function Seek(time: nat): (r: Cursor)
      ensures r.cut <= |r.log|
    {
      this.(cut := CutOf(log, From(dir, time)))
    }

    /** What is read next heads the remaining rows, and reading removes just that. */
    lemma RemainingSteps()
      requires cut <= |log|
      ensures HasNext() <==> Remaining() != []
      ensures HasNext() ==> Remaining() == [ReadNext().0] + ReadNext().1.Remaining()
    {
      NextIsFirst();
      SelectFirst(log, cut, NextIndex(), Keeps());
    }
  }

  /** Selecting from `from` on finds the first accepted row, and then the rest. */
  lemma SelectFirst(log: seq<Row>, from: nat, j: nat, p: Row -> bool)
    requires from <= j <= |log| && forall i | from <= i < j :: !p(log[i])
    requires j < |log| ==> p(log[j])
    ensures SelectWhere(log[from..], p) ==
            if j < |log| then [log[j]] + SelectWhere(log[j + 1..], p) else []
  {
    assert log[from..] == log[from..j] + log[j..];
    SelectConcat(log[from..j], log[j..], p);
    SelectNone(log[from..j], p);
    if j < |log| { assert log[j..][1..] == log[j + 1..]; }
  }

  /** After a seek just the rows at the time sought and beyond lie ahead, whatever was read before. */
  lemma SeekMeaning(c: Cursor, time: nat)
    requires c.Valid()
    ensures var s := c.Seek(time);
      && s.dir == c.dir && s.log == c.log && s.accepted == c.accepted
      && forall i | 0 <= i < |c.log| ::
           s.cut <= i <==> if c.dir == Forward then c.log[i].time >= time else c.log[i].time <= time
  {
    var ahead, cut := From(c.dir, time), c.Seek(time).cut;
    CutIsFirst(c.log, ahead);
    forall i | cut <= i < |c.log| ensures ahead(c.log[i]) {
      if i > cut { assert Precedes(c.dir, c.log[cut], c.log[i]); }
    }
  }

  // ----- Runs of operations -----

  datatype Op = HasNextOp | ReadOp | FilterOp(accepted: set<string>) | SeekOp(time: nat)

  datatype Event = Answer(more: bool) | Message(row: Row) | NoMessage | Silent

  function Apply(c: Cursor, op: Op): (r: (Event, Cursor))
    requires c.cut <= |c.log|
    ensures r.1.cut <= |r.1.log| && r.1.log == c.log && r.1.dir == c.dir
  {
    match op
    case HasNextOp => (Answer(c.HasNext()), c)
    case ReadOp => if c.HasNext() then (Message(c.ReadNext().0), c.ReadNext().1) else (NoMessage, c)
    case FilterOp(accepted) => (Silent, c.SetFilter(accepted))
    case SeekOp(time) => (Silent, c.Seek(time))
  }

  function Perform(c: Cursor, ops: seq<Op>): (r: (seq<Event>, Cursor))
    requires c.cut <= |c.log|
    ensures r.1.cut <= |r.1.log| && |r.0| == |ops|
    decreases |ops|
  {
    if ops == [] then ([], c)
    else
      var (e, c1) := Apply(c, ops[0]);
      var (es, c2) := Perform(c1, ops[1..]);
      ([e] + es, c2)
  }

  datatype Reading = Reading(index: nat, accepted: set<string>)

  /** The log index and the filter in force of every successful read, in order. */
  ghost function Readings(c: Cursor, ops: seq<Op>): seq<Reading>
    requires c.cut <= |c.log|
    decreases |ops|
  {
    if ops == [] then []
    else
      var rest := Readings(Apply(c, ops[0]).1, ops[1..]);
      if ops[0].ReadOp? && c.HasNext() then [Reading(c.NextIndex(), c.accepted)] + rest else rest
  }

  ghost function MessagesOf(events: seq<Event>): seq<Row> {
    if events == [] then []
    else if events[0].Message? then [events[0].row] + MessagesOf(events[1..])
    else MessagesOf(events[1..])
  }

  ghost predicate RowsAt(log: seq<Row>, rs: seq<Reading>, rows: seq<Row>) {
    && |rows| == |rs|
    && forall k | 0 <= k < |rs| :: rs[k].index < |log| && rows[k] == log[rs[k].index]
  }

  /** Each reading takes the first row from the previous one on that its filter accepts. */
  ghost predicate FirstAccepted(log: seq<Row>, from: nat, rs: seq<Reading>)
    decreases |rs|
  {
    rs == [] ||
    (&& from <= rs[0].index < |log| && log[rs[0].index].topic in rs[0].accepted
     && (forall i | from <= i < rs[0].index :: log[i].topic !in rs[0].accepted)
     && FirstAccepted(log, rs[0].index + 1, rs[1..]))
  }

  lemma {:induction false} ReadingsFirstAccepted(c: Cursor, ops: seq<Op>)
    requires c.cut <= |c.log| && forall k | 0 <= k < |ops| :: !ops[k].SeekOp?
    ensures FirstAccepted(c.log, c.cut, Readings(c, ops))
    ensures RowsAt(c.log, Readings(c, ops), MessagesOf(Perform(c, ops).0))
    decreases |ops|
  {
    if ops != [] {
      var (e, c1) := Apply(c, ops[0]);
      ReadingsFirstAccepted(c1, ops[1..]);
      c.NextIsFirst();
      var rs, rest := Readings(c, ops), Readings(c1, ops[1..]);
      var events := Perform(c, ops).0;
      assert events[1..] == Perform(c1, ops[1..]).0;
      if ops[0].ReadOp? && c.HasNext() {
        assert rs[1..] == rest && rs[0] == Reading(c.NextIndex(), c.accepted);
        assert MessagesOf(events) == [c.log[c.NextIndex()]] + MessagesOf(events[1..]);
      } else {
        assert c1.cut == c.cut && rs == rest && !events[0].Message?;
      }
    }
  }

  lemma {:induction false} FirstAcceptedAt(log: seq<Row>, from: nat, rs: seq<Reading>, k: nat)
    requires FirstAccepted(log, from, rs) && k < |rs|
    ensures from <= rs[k].index < |log| && log[rs[k].index].topic in rs[k].accepted
    ensures k > 0 ==> rs[k - 1].index < rs[k].index
    ensures forall i | (if k == 0 then from else rs[k - 1].index + 1) <= i < rs[k].index ::
              log[i].topic !in rs[k].accepted
    decreases |rs|
  {
    if k > 0 { FirstAcceptedAt(log, rs[0].index + 1, rs[1..], k - 1); }
  }

  /** Over any run without a seek, filters changing at will: the rows returned are those at the
      read indices; these strictly increase from the cut on (nothing is repeated), each row
      passes the filter in force, and no row that passes it lies between two reads (nothing is
      skipped). */
  lemma ReadsInOrder(c: Cursor, ops: seq<Op>)
    requires c.cut <= |c.log| && forall k | 0 <= k < |ops| :: !ops[k].SeekOp?
    ensures var rs := Readings(c, ops);
      && RowsAt(c.log, rs, MessagesOf(Perform(c, ops).0))
      && (forall k | 0 <= k < |rs| ::
            c.cut <= rs[k].index < |c.log| && c.log[rs[k].index].topic in rs[k].accepted)
      && (forall k | 0 < k < |rs| :: rs[k - 1].index < rs[k].index)
      && (forall k, i | 0 <= k < |rs| && (if k == 0 then c.cut else rs[k - 1].index + 1) <= i < rs[k].index ::
            c.log[i].topic !in rs[k].accepted)
  {
    ReadingsFirstAccepted(c, ops);
    forall k | 0 <= k < |Readings(c, ops)| {
      FirstAcceptedAt(c.log, c.cut, Readings(c, ops), k);
    }
  }
}
