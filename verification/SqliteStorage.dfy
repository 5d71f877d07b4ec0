/**
 * The read side of the SQLite storage plugin: a result iterator with a cache for its current
 * row, and a seek head (time, row id) from which the query is rebuilt whenever filter, order or
 * position change.
 */
module SqliteStorage {
  import opened Basics
  import opened Cursor
  import opened TopicFilter

  // ----- The result iterator -----

  const POSITION_END := -1

  /** An iterator together with the statement it steps; `rows` is what the statement yields. */
  class ResultIterator {
    const rows: seq<Row>
    var position: nat
    var nextRowIndex: int
    var cachedRowIndex: int
    var rowCache: Row

    predicate AtEnd()
      reads this
    {
      nextRowIndex == POSITION_END
    }

    /** The statement stands on a row, or has run past the last one; the cache index names the
        current row only when the cache holds that row. */
    ghost predicate Valid()
      reads this
    {
      && position <= |rows|
      && (AtEnd() ==> position == |rows|)
      && (!AtEnd() ==> nextRowIndex == position > 0)
      && POSITION_END - 1 <= cachedRowIndex < position && cachedRowIndex != POSITION_END
      && (!AtEnd() && cachedRowIndex == nextRowIndex - 1 ==> rowCache == rows[position - 1])
    }

    /** The current row and those after it. */
    function Rest(): seq<Row>
      reads this
      requires !AtEnd() ==> 0 < position <= |rows|
    {
      if AtEnd() then [] else rows[position - 1..]
    }

    constructor (rows: seq<Row>)
      ensures Valid() && this.rows == rows && Rest() == rows
    {
      this.rows := rows;
      position, nextRowIndex, cachedRowIndex := 0, 0, POSITION_END - 1;
      rowCache := Row(0, 0, "", []);
      new;
      var stepped := Step();
      if stepped {
        nextRowIndex := nextRowIndex + 1;
      } else {
        nextRowIndex := POSITION_END;
      }
    }

    method Step() returns (stepped: bool)
      requires position <= |rows|
      modifies this`position
      ensures stepped <==> old(position) < |rows|
      ensures position == if stepped then old(position) + 1 else old(position)
    {
      stepped := position < |rows|;
      if stepped { position := position + 1; }
    }

    /** operator++; false stands for the exception at the end. */
    method Advance() returns (ok: bool)
      requires Valid()
      modifies this
      ensures Valid()
      ensures ok <==> !old(AtEnd())
      ensures Rest() == if ok then old(Rest())[1..] else []
    {
      if nextRowIndex == POSITION_END {
        return false;
      }
      var stepped := Step();
      if stepped {
        nextRowIndex := nextRowIndex + 1;
      } else {
        nextRowIndex := POSITION_END;
      }
      return true;
    }

    /** operator*: always the statement's current row, from the cache when that is valid. */
    method Dereference() returns (r: Option<Row>)
      requires Valid()
      modifies this`rowCache, this`cachedRowIndex
      ensures Valid() && Rest() == old(Rest())
      ensures r == if AtEnd() then None else Some(Rest()[0])
      ensures !AtEnd() ==> cachedRowIndex == nextRowIndex - 1 && rowCache == Rest()[0]
    {
      if nextRowIndex == POSITION_END {
        return None;
      }
      if cachedRowIndex == nextRowIndex - 1 {
        return Some(rowCache);
      }
      rowCache := rows[position - 1];
      cachedRowIndex := nextRowIndex - 1;
      return Some(rowCache);
    }
  }

  // ----- The query -----

  /** The seek head condition of the WHERE clause. */
  predicate FromSeekHead(dir: Direction, time: nat, rowId: int, r: Row) {
    if dir.Forward?
    then (r.time == time && r.pos >= rowId) || r.time > time
    else (r.time == time && r.pos <= rowId) || r.time < time
  }

  function SeekHead(dir: Direction, time: nat, rowId: int): Row -> bool {
    (r: Row) => FromSeekHead(dir, time, rowId, r)
  }

  function Where(dir: Direction, time: nat, rowId: int, accepted: set<string>): Row -> bool {
    (r: Row) => r.topic in accepted && FromSeekHead(dir, time, rowId, r)
  }

  /** WHERE conditions, then ORDER BY time and id in the reading direction. */
  function Query(dir: Direction, rows: seq<Row>, accepted: set<string>, time: nat, rowId: int): seq<Row> {
    SelectWhere(Log(dir, rows), Where(dir, time, rowId, accepted))
  }

  function AcceptedBySql(rows: seq<Row>, f: StorageFilter): set<string>
    requires SqlPrepares(f)
  {
    set r | r in rows && SqlSelects(f, r.topic) :: r.topic
  }

  /** What the rendered conditions of a filter select from a table; None when SQLite rejects them. */
  function Selection(rows: seq<Row>): StorageFilter -> Option<set<string>> {
    (f: StorageFilter) => if SqlPrepares(f) then Some(AcceptedBySql(rows, f)) else None
  }

  function ToCursor(dir: Direction, rows: seq<Row>, accepted: set<string>, time: nat, rowId: int): (c: Cursor)
    ensures c.cut <= |c.log|
  {
    Cursor(dir, Log(dir, rows), accepted, CutOf(Log(dir, rows), SeekHead(dir, time, rowId)))
  }

  lemma SeekHeadMonotone(dir: Direction, rows: seq<Row>, time: nat, rowId: int)
    requires InFileOrder(rows)
    ensures Monotone(Log(dir, rows), SeekHead(dir, time, rowId))
  {
    LogIsSorted(dir, rows);
    var log := Log(dir, rows);
    forall i, j | 0 <= i < j < |log| && SeekHead(dir, time, rowId)(log[i])
      ensures SeekHead(dir, time, rowId)(log[j])
    {
      assert Precedes(dir, log[i], log[j]);
    }
  }

  /** The rebuilt query yields what the abstract cursor still has to read. */
  lemma QueryIsRemaining(dir: Direction, rows: seq<Row>, accepted: set<string>, time: nat, rowId: int)
    requires InFileOrder(rows)
    ensures Query(dir, rows, accepted, time, rowId) == ToCursor(dir, rows, accepted, time, rowId).Remaining()
  {
    SeekHeadMonotone(dir, rows, time, rowId);
    SelectAhead(Log(dir, rows), SeekHead(dir, time, rowId), ToCursor(dir, rows, accepted, time, rowId).Keeps(),
                Where(dir, time, rowId, accepted));
  }

  function NextRowId(dir: Direction, r: Row): int { r.pos + if dir.Forward? then 1 else -1 }

  lemma MarkIsRead(dir: Direction, rows: seq<Row>, accepted: set<string>, time: nat, rowId: int, r: Row)
    requires InFileOrder(rows)
    requires ToCursor(dir, rows, accepted, time, rowId).HasNext()
    requires r == ToCursor(dir, rows, accepted, time, rowId).ReadNext().0
    ensures ToCursor(dir, rows, accepted, r.time, NextRowId(dir, r))
         == ToCursor(dir, rows, accepted, time, rowId).ReadNext().1
  {
    var c := ToCursor(dir, rows, accepted, time, rowId);
    LogIsSorted(dir, rows);
    CutAfterRow(dir, c.log, c.NextIndex(), SeekHead(dir, r.time, NextRowId(dir, r)));
  }

  /** One read, seen from the query and from the abstract cursor: the query rebuilt after it
      resumes at the exact successor of the row read. */
  lemma ReadKeepsSync(dir: Direction, rows: seq<Row>, accepted: set<string>, time: nat, rowId: int)
    requires InFileOrder(rows)
    ensures var c, q := ToCursor(dir, rows, accepted, time, rowId), Query(dir, rows, accepted, time, rowId);
      if q == [] then !c.HasNext()
      else
        && c.HasNext() && q[0] == c.ReadNext().0
        && Query(dir, rows, accepted, q[0].time, NextRowId(dir, q[0])) == q[1..]
        && ToCursor(dir, rows, accepted, q[0].time, NextRowId(dir, q[0])) == c.ReadNext().1
  {
    var c, q := ToCursor(dir, rows, accepted, time, rowId), Query(dir, rows, accepted, time, rowId);
    QueryIsRemaining(dir, rows, accepted, time, rowId);
    c.RemainingSteps();
    if q != [] {
      MarkIsRead(dir, rows, accepted, time, rowId, q[0]);
      QueryIsRemaining(dir, rows, accepted, q[0].time, NextRowId(dir, q[0]));
    }
  }

  /** SELECT max(rowid), 0 for an empty table. */
  function LastRowId(rows: seq<Row>): (m: nat)
    ensures forall r | r in rows :: r.pos <= m
  {
    if rows == [] then 0 else Max(rows[0].pos, LastRowId(rows[1..]))
  }

  /** The row id a seek leaves in the seek head. */
  function SoughtRowId(dir: Direction, rows: seq<Row>): nat { if dir.Backward? then LastRowId(rows) else 0 }

  lemma SeekIsCut(dir: Direction, rows: seq<Row>, accepted: set<string>, time: nat, c: Cursor)
    requires InFileOrder(rows) && c.dir == dir && c.log == Log(dir, rows) && c.accepted == accepted
    ensures ToCursor(dir, rows, accepted, time, SoughtRowId(dir, rows)) == c.Seek(time)
  {
    LogIsSorted(dir, rows);
    CutSame(c.log, SeekHead(dir, time, SoughtRowId(dir, rows)), From(dir, time));
  }

  datatype ReadError = SqlError | EndOfResult

  class SqliteStorage {
    const rows: seq<Row>
    const selection: StorageFilter -> Option<set<string>>

    var filter: StorageFilter
    var reverse: bool
    var seekTime: nat
    var seekRowId: int
    var current: ResultIterator?

    function Dir(): Direction
      reads this`reverse
    {
      DirectionOf(reverse)
    }

    function Abstract(): (c: Cursor)
      reads this`filter, this`reverse, this`seekTime, this`seekRowId
      requires selection(filter).Some?
      ensures c.cut <= |c.log|
    {
      ToCursor(Dir(), rows, selection(filter).value, seekTime, seekRowId)
    }

    /** A prepared statement yields what its query, rebuilt now, would yield. */
    ghost predicate Valid()
      reads this, current
    {
      && InFileOrder(rows)
      && (current != null ==>
            && current.Valid() && selection(filter).Some?
            && current.Rest() == Query(Dir(), rows, selection(filter).value, seekTime, seekRowId))
    }

    constructor (rows: seq<Row>)
      requires InFileOrder(rows)
      ensures Valid() && this.rows == rows && selection == Selection(rows) && !reverse && current == null
      ensures filter == StorageFilter([], [], [], None, [], [], [], None)
      ensures seekTime == 0 && seekRowId == 0
    {
      this.rows, selection := rows, Selection(rows);
      filter := StorageFilter([], [], [], None, [], [], [], None);
      reverse, seekTime, seekRowId, current := false, 0, 0, null;
    }

    /** False when SQLite rejects the statement; nothing has changed then. */
    method PrepareForReading() returns (ok: bool)
      requires Valid() && current == null
      modifies this`current
      ensures Valid()
      ensures ok <==> selection(filter).Some?
      ensures if ok then current != null && fresh(current) else current == null
    {
      ok := selection(filter).Some?;
      if ok {
        current := new ResultIterator(Query(Dir(), rows, selection(filter).value, seekTime, seekRowId));
      }
    }

    method HasNext() returns (r: Result<bool, ReadError>)
      requires Valid()
      modifies this`current
      ensures Valid()
      ensures old(current) != null ==> current == old(current)
      ensures old(current) == null && current != null ==> fresh(current)
      ensures r == if selection(filter).Some? then Ok(Abstract().HasNext()) else Err(SqlError)
    {
      if current == null {
        var ok := PrepareForReading();
        if !ok { return Err(SqlError); }
      }
      ReadKeepsSync(Dir(), rows, selection(filter).value, seekTime, seekRowId);
      r := Ok(!current.AtEnd());
    }

    /** Takes the row the prepared statement stands on and moves the seek head behind it. */
    method TakeRow() returns (row: Option<Row>)
      requires current != null && current.Valid()
      modifies this`seekTime, this`seekRowId, current
      ensures current.Valid()
      ensures if old(current.Rest()) == []
              then row == None && current.Rest() == [] && seekTime == old(seekTime) && seekRowId == old(seekRowId)
              else row == Some(old(current.Rest())[0]) && current.Rest() == old(current.Rest())[1..]
                   && seekTime == row.value.time && seekRowId == NextRowId(DirectionOf(reverse), row.value)
    {
      row := current.Dereference();
      if row == None { return; }
      seekTime := row.value.time;
      seekRowId := row.value.pos + if reverse then -1 else 1;
      var advanced := current.Advance();
    }

    /** One read from a prepared statement is one read of the abstract cursor. */
    method ReadPrepared() returns (row: Option<Row>)
      requires Valid() && current != null
      modifies this`seekTime, this`seekRowId, current
      ensures Valid()
      ensures if old(Abstract()).HasNext()
              then row == Some(old(Abstract()).ReadNext().0) && Abstract() == old(Abstract()).ReadNext().1
              else row == None && Abstract() == old(Abstract())
    {
      ghost var dir, accepted, time, rowId := Dir(), selection(filter).value, seekTime, seekRowId;
      row := TakeRow();
      ReadKeepsSync(dir, rows, accepted, time, rowId);
    }

    method ReadNext() returns (r: Result<Row, ReadError>)
      requires Valid()
      modifies this`current, this`seekTime, this`seekRowId, current
      ensures Valid()
      ensures old(current) != null ==> current == old(current)
      ensures old(current) == null && current != null ==> fresh(current)
      ensures selection(filter).None? ==> r == Err(SqlError) && seekTime == old(seekTime) && seekRowId == old(seekRowId)
      ensures selection(filter).Some? ==>
                if old(Abstract()).HasNext()
                then r == Ok(old(Abstract()).ReadNext().0) && Abstract() == old(Abstract()).ReadNext().1
                else r == Err(EndOfResult) && Abstract() == old(Abstract())
    {
      if current == null {
        var ok := PrepareForReading();
        if !ok { return Err(SqlError); }
      }
      var row := ReadPrepared();
      r := if row.Some? then Ok(row.value) else Err(EndOfResult);
    }

    method SetFilter(f: StorageFilter)
      requires Valid()
      modifies this`filter, this`current
      ensures Valid() && filter == f && current == null
      ensures old(selection(filter)).Some? && selection(f).Some? ==>
                Abstract() == old(Abstract()).SetFilter(selection(f).value)
    {
      filter := f;
      current := null;
    }

    method Seek(time: nat)
      requires Valid()
      modifies this`seekTime, this`seekRowId, this`current
      ensures Valid() && current == null
      ensures selection(filter).Some? ==> Abstract() == old(Abstract()).Seek(time)
    {
      if selection(filter).Some? {
        SeekIsCut(Dir(), rows, selection(filter).value, time, Abstract());
      }
      seekRowId := if reverse then LastRowId(rows) else 0;
      seekTime := time;
      current := null;
    }

    /** Only receive time order is implemented; the seek head stays as it is. */
    method SetReadOrder(sortBy: SortBy, reverse: bool) returns (ok: bool)
      requires Valid()
      modifies this`reverse, this`current
      ensures Valid()
      ensures ok <==> sortBy.ReceivedTimestamp?
      ensures if ok then this.reverse == reverse && current == null
              else this.reverse == old(this.reverse) && current == old(current)
    {
      if sortBy == PublishedTimestamp { return false; }
      if sortBy == File { return false; }
      this.reverse := reverse;
      current := null;
      return true;
    }
  }

  // ----- Changing direction without a seek -----

  /** What the seek head left behind by row r covers too much in the other direction: row r, and
      the row with the next id in the old direction when it has the same time. */
  predicate Again(dir: Direction, r: Row, x: Row) {
    x.time == r.time && (x.pos == r.pos || x.pos == NextRowId(dir, r))
  }

  function Resuming(dir: Direction, r: Row, accepted: set<string>): Row -> bool {
    (x: Row) => x.topic in accepted && Precedes(dir, r, x)
  }

  /** After row r was read, changing the direction resumes behind r if and only if the filter
      accepts neither r itself nor its unread neighbour with the next row id and the same time. */
  lemma FlipExact(dir: Direction, rows: seq<Row>, accepted: set<string>, r: Row)
    requires InFileOrder(rows)
    ensures var flip := dir.Opposite();
      Query(flip, rows, accepted, r.time, NextRowId(dir, r))
      == SelectWhere(Log(flip, rows), Resuming(flip, r, accepted))
      <==> forall x | x in rows && Again(dir, r, x) :: x.topic !in accepted
  {
    var flip := dir.Opposite();
    LogIsSorted(flip, rows);
    SelectNarrower(Log(flip, rows), Resuming(flip, r, accepted), Where(flip, r.time, NextRowId(dir, r), accepted));
  }

  /** After a seek without a read, changing the direction gives what a seek in the new direction
      would have given if and only if no accepted row of the time sought, but the one with the row
      id in the seek head, is lost. */
  lemma FlipAfterSeek(dir: Direction, rows: seq<Row>, accepted: set<string>, time: nat)
    requires InFileOrder(rows)
    ensures var flip := dir.Opposite();
      Query(flip, rows, accepted, time, SoughtRowId(dir, rows))
      == Query(flip, rows, accepted, time, SoughtRowId(flip, rows))
      <==> forall x | x in rows && x.time == time && x.pos != SoughtRowId(dir, rows) :: x.topic !in accepted
  {
    var flip := dir.Opposite();
    LogIsSorted(flip, rows);
    SelectNarrower(Log(flip, rows), Where(flip, time, SoughtRowId(dir, rows), accepted),
                   Where(flip, time, SoughtRowId(flip, rows), accepted));
  }

  /** How many rows of the sorted log the reversed seek head covers after row j was read forward:
      row j, and its successor when that has the same time and the next row id. */
  function CoveredAfterFlip(s: seq<Row>, j: nat): (n: nat)
    requires j < |s|
    ensures j < n <= |s|
  {
    if j + 1 < |s| && s[j + 1].time == s[j].time && s[j + 1].pos == s[j].pos + 1 then j + 2 else j + 1
  }

  /** Where the seek head begins after row j was read backward: at row j, or at its predecessor
      when that has the same time and the previous row id. */
  function CoveredFrom(s: seq<Row>, j: nat): (n: nat)
    requires j < |s|
    ensures n <= j
  {
    if j > 0 && s[j - 1].time == s[j].time && s[j - 1].pos == s[j].pos - 1 then j - 1 else j
  }

  lemma FlippedHead(s: seq<Row>, j: nat, k: nat)
    requires Sorted(Forward, s) && j < |s| && k < |s|
    ensures FromSeekHead(Backward, s[j].time, NextRowId(Forward, s[j]), s[k]) <==> k < CoveredAfterFlip(s, j)
    ensures FromSeekHead(Forward, s[j].time, NextRowId(Backward, s[j]), s[k]) <==> k >= CoveredFrom(s, j)
  {
    if k < j {
      assert Precedes(Forward, s[k], s[j]);
      if k < j - 1 { assert Precedes(Forward, s[k], s[j - 1]) && Precedes(Forward, s[j - 1], s[j]); }
    } else if k > j {
      assert Precedes(Forward, s[j], s[k]);
      if k > j + 1 { assert Precedes(Forward, s[j], s[j + 1]) && Precedes(Forward, s[j + 1], s[k]); }
    }
  }

  /** In the reversed log the covered rows come last. */
  lemma CutOfReversed(s: seq<Row>, n: nat, ahead: Row -> bool)
    requires 0 < n <= |s| && forall k | 0 <= k < |s| :: ahead(s[k]) <==> k < n
    ensures CutOf(Reversed(s), ahead) == |s| - n
  {
    forall i | 0 <= i < |s| ensures ahead(Reversed(s)[i]) <==> i >= |s| - n {
      assert Reversed(s)[i] == s[|s| - 1 - i];
    }
    CutUnique(Reversed(s), ahead, |s| - n);
  }

  lemma FlippedHeads(rows: seq<Row>, j: nat)
    requires InFileOrder(rows) && j < |SortByTime(rows)|
    ensures var s := SortByTime(rows);
      && (forall k | 0 <= k < |s| ::
            SeekHead(Backward, s[j].time, NextRowId(Forward, s[j]))(s[k]) <==> k < CoveredAfterFlip(s, j))
      && (forall k | 0 <= k < |s| ::
            SeekHead(Forward, s[j].time, NextRowId(Backward, s[j]))(s[k]) <==> k >= CoveredFrom(s, j))
  {
    var s := SortByTime(rows);
    SortByTimeSorted(rows);
    forall k | 0 <= k < |s| { FlippedHead(s, j, k); }
  }

  /** After reading row j forward, switching to reverse without a seek: the rows up to and including
      row j come again, preceded by its unread successor when the seek head covers that. */
  lemma FlipRepeatsRow(rows: seq<Row>, accepted: set<string>, j: nat)
    requires InFileOrder(rows) && j < |SortByTime(rows)|
    ensures var s := SortByTime(rows);
      var c := ToCursor(Backward, rows, accepted, s[j].time, NextRowId(Forward, s[j]));
      c.log == Reversed(s) && c.log[c.cut..] == Reversed(s[..CoveredAfterFlip(s, j)])
  {
    var s := SortByTime(rows);
    var n := CoveredAfterFlip(s, j);
    FlippedHeads(rows, j);
    CutOfReversed(s, n, SeekHead(Backward, s[j].time, NextRowId(Forward, s[j])));
    ReversedDrop(s, n);
  }

  /** The mirror image: after reading row j backward, switching to forward. */
  lemma FlipBackRepeatsRow(rows: seq<Row>, accepted: set<string>, j: nat)
    requires InFileOrder(rows) && j < |SortByTime(rows)|
    ensures var s := SortByTime(rows);
      var c := ToCursor(Forward, rows, accepted, s[j].time, NextRowId(Backward, s[j]));
      c.log == s && c.cut == CoveredFrom(s, j)
  {
    var s := SortByTime(rows);
    FlippedHeads(rows, j);
    CutUnique(s, SeekHead(Forward, s[j].time, NextRowId(Backward, s[j])), CoveredFrom(s, j));
  }
}
