/**
 * The read side of the MCAP storage plugin: one message of lookahead, the key of the last
 * message read, and a library iterator that is rebuilt on every filter, order or seek change.
 */
module McapStorage {
  import opened Basics
  import opened Cursor
  import opened TopicFilter

  datatype ReadOrder = FileOrder | LogTimeOrder | ReverseLogTimeOrder

  function OrderDirection(order: ReadOrder): Direction { DirectionOf(order.ReverseLogTimeOrder?) }

  // ----- What the library iterates over, and what reset_iterator leaves pending -----

  function FileView(order: ReadOrder, rows: seq<Row>): seq<Row> {
    match order
    case FileOrder => rows
    case LogTimeOrder => SortByTime(rows)
    case ReverseLogTimeOrder => Reversed(SortByTime(rows))
  }

  /** startTime is inclusive, endTime exclusive; the reverse order asks for [0, time + 1). */
  predicate InRange(order: ReadOrder, time: nat, r: Row) {
    if order.ReverseLogTimeOrder? then r.time < time + 1 else time <= r.time
  }

  predicate AlreadyRead(order: ReadOrder, time: nat, offset: Option<nat>, r: Row) {
    && offset.Some? && r.time == time
    && if order.ReverseLogTimeOrder? then r.pos >= offset.value else r.pos <= offset.value
  }

  function Kept(order: ReadOrder, time: nat, accepted: set<string>): Row -> bool {
    (r: Row) => InRange(order, time, r) && r.topic in accepted
  }

  function View(order: ReadOrder, rows: seq<Row>, accepted: set<string>, time: nat): seq<Row> {
    SelectWhere(FileView(order, rows), Kept(order, time, accepted))
  }

  function SkipRead(order: ReadOrder, time: nat, offset: Option<nat>, view: seq<Row>): seq<Row> {
    if view != [] && AlreadyRead(order, time, offset, view[0]) then SkipRead(order, time, offset, view[1..])
    else view
  }

  function Resume(order: ReadOrder, rows: seq<Row>, accepted: set<string>, time: nat, offset: Option<nat>): seq<Row> {
    SkipRead(order, time, offset, View(order, rows, accepted, time))
  }

  // ----- The abstract cursor behind it -----

  predicate Beyond(dir: Direction, time: nat, offset: Option<nat>, r: Row) {
    if dir.Forward?
    then r.time > time || (r.time == time && (offset.None? || r.pos > offset.value))
    else r.time < time || (r.time == time && (offset.None? || r.pos < offset.value))
  }

  function Ahead(dir: Direction, time: nat, offset: Option<nat>): Row -> bool {
    (r: Row) => Beyond(dir, time, offset, r)
  }

  function ToCursor(order: ReadOrder, rows: seq<Row>, accepted: set<string>, time: nat, offset: Option<nat>)
    : (c: Cursor)
    ensures c.cut <= |c.log|
  {
    var dir := OrderDirection(order);
    var log := Log(dir, rows);
    Cursor(dir, log, accepted, CutOf(log, Ahead(dir, time, offset)))
  }

  ghost predicate TimesNeverDecrease(rows: seq<Row>) {
    forall i, j | 0 <= i < j < |rows| :: rows[i].time <= rows[j].time
  }

  /** The orders in which the key of the last message determines what was read before it. */
  ghost predicate Exact(order: ReadOrder, rows: seq<Row>) {
    order.FileOrder? ==> TimesNeverDecrease(rows)
  }

  lemma {:induction false} SortedAlready(rows: seq<Row>)
    requires InFileOrder(rows) && TimesNeverDecrease(rows)
    ensures SortByTime(rows) == rows
  {
    if rows != [] {
      SortedAlready(rows[1..]);
      assert rows == [rows[0]] + rows[1..];
    }
  }

  lemma AheadMonotone(dir: Direction, rows: seq<Row>, time: nat, offset: Option<nat>)
    requires InFileOrder(rows)
    ensures Monotone(Log(dir, rows), Ahead(dir, time, offset))
  {
    LogIsSorted(dir, rows);
    var log := Log(dir, rows);
    forall i, j | 0 <= i < j < |log| && Ahead(dir, time, offset)(log[i])
      ensures Ahead(dir, time, offset)(log[j])
    {
      assert Precedes(dir, log[i], log[j]);
    }
  }

  /** Skipping a leading stretch is selecting, once no read row follows an unread one. */
  lemma {:induction false} SkipIsSelect(order: ReadOrder, time: nat, offset: Option<nat>, log: seq<Row>,
                                        kept: Row -> bool, both: Row -> bool)
    requires forall r | r in log :: both(r) == (kept(r) && !AlreadyRead(order, time, offset, r))
    requires forall i, j | 0 <= i < j < |log| && kept(log[i]) && !AlreadyRead(order, time, offset, log[i]) ::
               kept(log[j]) ==> !AlreadyRead(order, time, offset, log[j])
    ensures SkipRead(order, time, offset, SelectWhere(log, kept)) == SelectWhere(log, both)
  {
    if log != [] {
      var tail := log[1..];
      if kept(log[0]) && !AlreadyRead(order, time, offset, log[0]) {
        forall r | r in tail ensures kept(r) == both(r) {
          var j :| 0 <= j < |tail| && tail[j] == r;
          assert log[j + 1] == r;
        }
        SelectSame(tail, kept, both);
      } else {
        SkipIsSelect(order, time, offset, tail, kept, both);
      }
    }
  }

  function Due(dir: Direction, time: nat, offset: Option<nat>, accepted: set<string>): Row -> bool {
    (r: Row) => Beyond(dir, time, offset, r) && r.topic in accepted
  }

  /** What reset_iterator leaves pending: exactly the rows strictly beyond the last key that the
      filter accepts, in order, however many rows share the time of the key. */
  lemma ResumeIsBeyond(order: ReadOrder, rows: seq<Row>, accepted: set<string>, time: nat, offset: Option<nat>)
    requires InFileOrder(rows) && Exact(order, rows)
    ensures var dir := OrderDirection(order);
      Resume(order, rows, accepted, time, offset) == SelectWhere(Log(dir, rows), Due(dir, time, offset, accepted))
  {
    var dir := OrderDirection(order);
    var log, kept := Log(dir, rows), Kept(order, time, accepted);
    if order.FileOrder? { SortedAlready(rows); }
    assert FileView(order, rows) == log;
    LogIsSorted(dir, rows);
    forall i, j | 0 <= i < j < |log| && kept(log[i]) && !AlreadyRead(order, time, offset, log[i])
      ensures kept(log[j]) ==> !AlreadyRead(order, time, offset, log[j])
    {
      assert Precedes(dir, log[i], log[j]);
    }
    SkipIsSelect(order, time, offset, log, kept, Due(dir, time, offset, accepted));
  }

  /** And that is what the abstract cursor still has to read. */
  lemma ResumeIsRemaining(order: ReadOrder, rows: seq<Row>, accepted: set<string>, time: nat, offset: Option<nat>)
    requires InFileOrder(rows) && Exact(order, rows)
    ensures Resume(order, rows, accepted, time, offset) == ToCursor(order, rows, accepted, time, offset).Remaining()
  {
    var dir := OrderDirection(order);
    ResumeIsBeyond(order, rows, accepted, time, offset);
    AheadMonotone(dir, rows, time, offset);
    SelectAhead(Log(dir, rows), Ahead(dir, time, offset), ToCursor(order, rows, accepted, time, offset).Keeps(),
                Due(dir, time, offset, accepted));
  }

  /** Remembering the key of the row just read moves the abstract cut right behind it. */
  lemma MarkIsRead(order: ReadOrder, rows: seq<Row>, accepted: set<string>, time: nat, offset: Option<nat>, r: Row)
    requires InFileOrder(rows)
    requires ToCursor(order, rows, accepted, time, offset).HasNext()
    requires r == ToCursor(order, rows, accepted, time, offset).ReadNext().0
    ensures ToCursor(order, rows, accepted, r.time, Some(r.pos))
         == ToCursor(order, rows, accepted, time, offset).ReadNext().1
  {
    var c := ToCursor(order, rows, accepted, time, offset);
    LogIsSorted(c.dir, rows);
    CutAfterRow(c.dir, c.log, c.NextIndex(), Ahead(c.dir, r.time, Some(r.pos)));
  }

  /** One read, seen from the pending messages and from the abstract cursor. */
  lemma ReadKeepsSync(order: ReadOrder, rows: seq<Row>, accepted: set<string>, time: nat, offset: Option<nat>)
    requires InFileOrder(rows) && Exact(order, rows)
    ensures var c, q := ToCursor(order, rows, accepted, time, offset), Resume(order, rows, accepted, time, offset);
      if q == [] then !c.HasNext()
      else
        && c.HasNext() && q[0] == c.ReadNext().0
        && Resume(order, rows, accepted, q[0].time, Some(q[0].pos)) == q[1..]
        && ToCursor(order, rows, accepted, q[0].time, Some(q[0].pos)) == c.ReadNext().1
  {
    var c, q := ToCursor(order, rows, accepted, time, offset), Resume(order, rows, accepted, time, offset);
    ResumeIsRemaining(order, rows, accepted, time, offset);
    c.RemainingSteps();
    if q != [] {
      MarkIsRead(order, rows, accepted, time, offset, q[0]);
      ResumeIsRemaining(order, rows, accepted, q[0].time, Some(q[0].pos));
    }
  }

  lemma SeekIsCut(order: ReadOrder, rows: seq<Row>, accepted: set<string>, time: nat, c: Cursor)
    requires c.dir == OrderDirection(order) && c.log == Log(c.dir, rows) && c.accepted == accepted
    ensures ToCursor(order, rows, accepted, time, None) == c.Seek(time)
  {
    CutSame(c.log, Ahead(c.dir, time, None), From(c.dir, time));
  }

  /** The topics of the log that the filter lets through. */
  function AcceptedTopics(rows: seq<Row>, f: StorageFilter): set<string> {
    set r | r in rows && McapSelects(f, r.topic) :: r.topic
  }

  /** What the topic callback handed to the library lets through, for a file with these rows. */
  function Selection(rows: seq<Row>): StorageFilter -> set<string> {
    (f: StorageFilter) => AcceptedTopics(rows, f)
  }

  class McapStorage {
    const rows: seq<Row>
    const indexed: bool
    const selection: StorageFilter -> set<string>

    var filter: StorageFilter
    var order: ReadOrder
    var lastTime: nat
    var lastOffset: Option<nat>
    var lastEnqueued: Option<nat>
    var next: Option<Row>
    var view: seq<Row>
    var it: nat

    function Accepted(): set<string>
      reads this`filter
    {
      selection(filter)
    }

    /** The messages still to come without any rebuilding: the lookahead, then the iterator's. */
    function Pending(): seq<Row>
      reads this`next, this`view, this`it
      requires it <= |view|
    {
      (if next.Some? then [next.value] else []) + view[it..]
    }

    function Abstract(): (c: Cursor)
      reads this`filter, this`order, this`lastTime, this`lastOffset
      ensures c.cut <= |c.log|
    {
      ToCursor(order, rows, Accepted(), lastTime, lastOffset)
    }

    ghost predicate Positioned()
      reads this
    {
      it <= |view| && (next.Some? ==> lastEnqueued == Some(next.value.pos))
    }

    ghost predicate Valid()
      reads this
    {
      InFileOrder(rows) && Positioned()
    }

    /** The pending messages are those the last key and the filter stand for. */
    ghost predicate Synced()
      reads this
    {
      it <= |view| && Pending() == Resume(order, rows, Accepted(), lastTime, lastOffset)
    }

    constructor (rows: seq<Row>, indexed: bool)
      requires InFileOrder(rows)
      ensures Valid() && Synced()
      ensures this.rows == rows && this.indexed == indexed && selection == Selection(rows) && order == FileOrder
      ensures lastTime == 0 && lastOffset == None
      ensures filter == StorageFilter([], [], [], None, [], [], [], None)
    {
      this.rows, this.indexed, selection := rows, indexed, Selection(rows);
      filter := StorageFilter([], [], [], None, [], [], [], None);
      order := FileOrder;
      lastTime, lastOffset, lastEnqueued, next := 0, None, None, None;
      view, it := [], 0;
      new;
      ResetIterator();
    }

    method ReadAndEnqueueMessage() returns (more: bool)
      requires Positioned()
      modifies this`lastEnqueued, this`next, this`it
      ensures Positioned()
      ensures more <==> old(it) < |view|
      ensures more ==> next == Some(view[old(it)]) && it == old(it) + 1
      ensures !more ==> next == None && it == old(it)
    {
      if it == |view| {
        next := None;
        return false;
      }
      lastEnqueued := Some(view[it].pos);
      next := Some(view[it]);
      it := it + 1;
      return true;
    }

    method EnqueuedMessageIsAlreadyRead() returns (r: bool)
      requires Positioned()
      ensures r <==> next.Some? && AlreadyRead(order, lastTime, lastOffset, next.value)
    {
      if lastOffset == None || lastEnqueued == None || next == None || lastTime != next.value.time {
        return false;
      }
      if order == ReverseLogTimeOrder {
        return lastEnqueued.value >= lastOffset.value;
      }
      return lastEnqueued.value <= lastOffset.value;
    }

    /** The loop of reset_iterator: drops the enqueued message while it was read before. */
    method SkipAlreadyRead()
      requires Positioned() && it > 0 && next == Some(view[it - 1])
      modifies this`lastEnqueued, this`next, this`it
      ensures Positioned()
      ensures Pending() == SkipRead(order, lastTime, lastOffset, old(view[it - 1..]))
    {
      ghost var all := view[it - 1..];
      var read := EnqueuedMessageIsAlreadyRead();
      while read
        invariant Positioned() && it > 0 && next == Some(view[it - 1])
        invariant read <==> AlreadyRead(order, lastTime, lastOffset, view[it - 1])
        invariant SkipRead(order, lastTime, lastOffset, view[it - 1..]) == SkipRead(order, lastTime, lastOffset, all)
        decreases |view| - it
      {
        assert view[it - 1..][1..] == view[it..];
        var more := ReadAndEnqueueMessage();
        if !more { return; }
        read := EnqueuedMessageIsAlreadyRead();
      }
      assert Pending() == view[it - 1..];
    }

    /** Rebuilds the iterator for the current order, filter and last key. */
    method ResetIterator()
      requires InFileOrder(rows)
      modifies this`lastEnqueued, this`next, this`view, this`it
      ensures Valid() && Synced()
    {
      view, it := View(order, rows, Accepted(), lastTime), 0;
      next := None;
      ghost var all := view;
      var more := ReadAndEnqueueMessage();
      if more {
        assert view[it - 1..] == all;
        SkipAlreadyRead();
      } else {
        assert Pending() == all == [];
      }
      assert Pending() == SkipRead(order, lastTime, lastOffset, all);
    }

    method HasNext() returns (more: bool)
      requires Valid()
      modifies this`lastEnqueued, this`next, this`it
      ensures Valid() && Pending() == old(Pending())
      ensures more <==> Pending() != []
      ensures more ==> next == Some(Pending()[0])
      ensures old(Synced()) ==> Synced()
      ensures old(Synced()) && Exact(order, rows) ==> more == Abstract().HasNext()
    {
      if next.Some? {
        more := true;
      } else {
        more := ReadAndEnqueueMessage();
        assert Pending() == old(Pending());
      }
      if old(Synced()) && Exact(order, rows) {
        ResumeIsRemaining(order, rows, Accepted(), lastTime, lastOffset);
        Abstract().RemainingSteps();
      }
    }

    /** Hands out the next pending message and remembers its key. */
    method TakeNext() returns (r: Option<Row>)
      requires Valid()
      modifies this`lastEnqueued, this`next, this`it, this`lastTime, this`lastOffset
      ensures Valid()
      ensures if old(Pending()) == []
              then r == None && Pending() == [] && lastTime == old(lastTime) && lastOffset == old(lastOffset)
              else r == Some(old(Pending())[0]) && Pending() == old(Pending())[1..]
                   && lastTime == r.value.time && lastOffset == Some(r.value.pos)
    {
      var more := HasNext();
      if !more { return None; }
      lastTime := next.value.time;
      lastOffset := lastEnqueued;
      r := next;
      next := None;
    }

    /** None stands for the exception "No next message is available". */
    method ReadNext() returns (r: Option<Row>)
      requires Valid()
      modifies this`lastEnqueued, this`next, this`it, this`lastTime, this`lastOffset
      ensures Valid()
      ensures if old(Pending()) == []
              then r == None && Pending() == [] && lastTime == old(lastTime) && lastOffset == old(lastOffset)
              else r == Some(old(Pending())[0]) && Pending() == old(Pending())[1..]
                   && lastTime == r.value.time && lastOffset == Some(r.value.pos)
      ensures old(Synced()) && Exact(order, rows) ==>
                && Synced()
                && if old(Abstract()).HasNext()
                   then r == Some(old(Abstract()).ReadNext().0) && Abstract() == old(Abstract()).ReadNext().1
                   else r == None && Abstract() == old(Abstract())
    {
      ghost var accepted, time, offset := Accepted(), lastTime, lastOffset;
      r := TakeNext();
      if old(Synced()) && Exact(order, rows) {
        ReadKeepsSync(order, rows, accepted, time, offset);
      }
    }

    method SetFilter(f: StorageFilter)
      requires Valid()
      modifies this`filter, this`lastEnqueued, this`next, this`view, this`it
      ensures Valid() && Synced() && filter == f
      ensures Abstract() == old(Abstract()).SetFilter(Accepted())
    {
      filter := f;
      ResetIterator();
    }

    method Seek(time: nat)
      requires Valid()
      modifies this`lastTime, this`lastOffset, this`lastEnqueued, this`next, this`view, this`it
      ensures Valid() && Synced() && lastTime == time && lastOffset == None
      ensures Abstract() == old(Abstract()).Seek(time)
    {
      ghost var c := Abstract();
      lastOffset := None;
      lastTime := time;
      ResetIterator();
      SeekIsCut(order, rows, Accepted(), time, c);
    }

    /** Publish time and reverse file order are refused, and so is time order without an index. */
    method SetReadOrder(sortBy: SortBy, reverse: bool) returns (ok: bool)
      requires Valid()
      modifies this`order, this`lastEnqueued, this`next, this`view, this`it
      ensures Valid()
      ensures ok <==> (sortBy.ReceivedTimestamp? && indexed) || (sortBy.File? && !reverse)
      ensures !ok ==> order == old(order) && Pending() == old(Pending()) && (old(Synced()) ==> Synced())
      ensures ok ==> Synced() && order == if sortBy.File? then FileOrder
                                          else if reverse then ReverseLogTimeOrder else LogTimeOrder
    {
      if sortBy.ReceivedTimestamp? {
        if !indexed { return false; }
        order := if reverse then ReverseLogTimeOrder else LogTimeOrder;
      } else if sortBy.File? {
        if reverse { return false; }
        order := FileOrder;
      } else {
        return false;
      }
      ResetIterator();
      return true;
    }
  }

  // ----- File order -----

  lemma {:induction false} SkipReadPrefix(order: ReadOrder, time: nat, offset: Option<nat>, a: seq<Row>, b: seq<Row>)
    requires forall r | r in a :: AlreadyRead(order, time, offset, r)
    ensures SkipRead(order, time, offset, a + b) == SkipRead(order, time, offset, b)
  {
    if a == [] {
      assert a + b == b;
    } else {
      assert (a + b)[1..] == a[1..] + b;
      SkipReadPrefix(order, time, offset, a[1..], b);
    }
  }

  lemma {:induction false} SkipReadKeeps(order: ReadOrder, time: nat, offset: Option<nat>, view: seq<Row>, r: Row)
    requires r in view && !AlreadyRead(order, time, offset, r)
    ensures r in SkipRead(order, time, offset, view)
  {
    if AlreadyRead(order, time, offset, view[0]) { SkipReadKeeps(order, time, offset, view[1..], r); }
  }

  lemma {:induction false} SelectKeeps(log: seq<Row>, p: Row -> bool, r: Row)
    requires r in log && p(r)
    ensures r in SelectWhere(log, p)
  {
    if r != log[0] { SelectKeeps(log[1..], p, r); }
  }

  lemma RowsAround(rows: seq<Row>, k: nat)
    requires InFileOrder(rows) && k < |rows|
    ensures rows == rows[..k + 1] + rows[k + 1..]
    ensures forall r | r in rows[..k + 1] :: r.pos <= rows[k].pos
    ensures forall r | r in rows[k + 1..] :: r.pos > rows[k].pos
  {
  }

  /** No accepted row before row k is later than row k. */
  ghost predicate NoneLater(rows: seq<Row>, accepted: set<string>, k: nat)
    requires k < |rows|
  {
    forall r | r in rows[..k + 1] && r.topic in accepted :: r.time <= rows[k].time
  }

  /** No accepted row from the given time on that follows row k is earlier than row k. */
  ghost predicate NoneEarlier(rows: seq<Row>, accepted: set<string>, from: nat, k: nat)
    requires k < |rows|
  {
    forall r | r in rows[k + 1..] && from <= r.time && r.topic in accepted :: rows[k].time <= r.time
  }

  lemma ResumeBehind(rows: seq<Row>, accepted: set<string>, k: nat)
    requires InFileOrder(rows) && k < |rows| && NoneLater(rows, accepted, k)
    ensures Resume(FileOrder, rows, accepted, rows[k].time, Some(rows[k].pos))
         == SelectWhere(rows[k + 1..], Kept(FileOrder, rows[k].time, accepted))
  {
    var time, offset := rows[k].time, Some(rows[k].pos);
    var kept := Kept(FileOrder, time, accepted);
    var before, after := SelectWhere(rows[..k + 1], kept), SelectWhere(rows[k + 1..], kept);
    RowsAround(rows, k);
    SelectConcat(rows[..k + 1], rows[k + 1..], kept);
    forall r | r in before ensures AlreadyRead(FileOrder, time, offset, r) {
      SelectMember(rows[..k + 1], kept, r);
    }
    SkipReadPrefix(FileOrder, time, offset, before, after);
    if after != [] { SelectMember(rows[k + 1..], kept, after[0]); }
  }

  lemma LaterComesAgain(rows: seq<Row>, accepted: set<string>, k: nat, r: Row)
    requires InFileOrder(rows) && k < |rows|
    requires r in rows[..k + 1] && r.topic in accepted && r.time > rows[k].time
    ensures r in Resume(FileOrder, rows, accepted, rows[k].time, Some(rows[k].pos))
    ensures r !in rows[k + 1..]
  {
    RowsAround(rows, k);
    SelectKeeps(rows, Kept(FileOrder, rows[k].time, accepted), r);
    SkipReadKeeps(FileOrder, rows[k].time, Some(rows[k].pos), View(FileOrder, rows, accepted, rows[k].time), r);
  }

  /** In file order, reading from the given time on, whichever filter is set after row k was read:
      the rebuilt iterator resumes with the accepted rows behind row k if and only if no accepted row
      before it is later and none behind it is earlier. */
  lemma FileOrderExact(rows: seq<Row>, accepted: set<string>, from: nat, k: nat)
    requires InFileOrder(rows) && k < |rows| && from <= rows[k].time
    ensures Resume(FileOrder, rows, accepted, rows[k].time, Some(rows[k].pos))
         == SelectWhere(rows[k + 1..], Kept(FileOrder, from, accepted))
      <==> NoneLater(rows, accepted, k) && NoneEarlier(rows, accepted, from, k)
  {
    var wanted := SelectWhere(rows[k + 1..], Kept(FileOrder, from, accepted));
    if NoneLater(rows, accepted, k) {
      ResumeBehind(rows, accepted, k);
      SelectNarrower(rows[k + 1..], Kept(FileOrder, rows[k].time, accepted), Kept(FileOrder, from, accepted));
    } else {
      var r :| r in rows[..k + 1] && r.topic in accepted && r.time > rows[k].time;
      LaterComesAgain(rows, accepted, k, r);
      if r in wanted { SelectMember(rows[k + 1..], Kept(FileOrder, from, accepted), r); }
    }
  }

  function TopicIn(accepted: set<string>): Row -> bool { (r: Row) => r.topic in accepted }

  ghost predicate ResumesAt(rows: seq<Row>, accepted: set<string>, k: nat)
    requires k < |rows|
  {
    Resume(FileOrder, rows, accepted, rows[k].time, Some(rows[k].pos)) == SelectWhere(rows[k + 1..], TopicIn(accepted))
  }

  lemma ResumesAtExact(rows: seq<Row>, accepted: set<string>, k: nat)
    requires InFileOrder(rows) && k < |rows|
    ensures ResumesAt(rows, accepted, k) <==> NoneLater(rows, accepted, k) && NoneEarlier(rows, accepted, 0, k)
  {
    FileOrderExact(rows, accepted, 0, k);
    SelectSame(rows[k + 1..], TopicIn(accepted), Kept(FileOrder, 0, accepted));
  }

  ghost predicate NeverDecreaseWhere(rows: seq<Row>, p: Row -> bool) {
    forall i, j | 0 <= i < j < |rows| && p(rows[i]) && p(rows[j]) :: rows[i].time <= rows[j].time
  }

  lemma {:induction false} SelectedNeverDecrease(rows: seq<Row>, p: Row -> bool)
    ensures TimesNeverDecrease(SelectWhere(rows, p)) <==> NeverDecreaseWhere(rows, p)
  {
    if rows != [] {
      var tail := rows[1..];
      SelectedNeverDecrease(tail, p);
      assert forall i | 0 <= i < |tail| :: tail[i] == rows[i + 1];
      if p(rows[0]) {
        HeadNeverLater(rows[0], tail, p);
      }
      assert NeverDecreaseWhere(rows, p) <==>
        NeverDecreaseWhere(tail, p) && (p(rows[0]) ==> forall r | r in tail && p(r) :: rows[0].time <= r.time);
    }
  }

  lemma SelectMembers(log: seq<Row>, p: Row -> bool)
    ensures forall r :: r in SelectWhere(log, p) <==> r in log && p(r)
  {
    forall r ensures r in SelectWhere(log, p) <==> r in log && p(r) {
      if r in SelectWhere(log, p) { SelectMember(log, p, r); }
      if r in log && p(r) { SelectKeeps(log, p, r); }
    }
  }

  lemma HeadNeverLater(head: Row, tail: seq<Row>, p: Row -> bool)
    ensures var s := SelectWhere(tail, p);
      TimesNeverDecrease([head] + s) <==> TimesNeverDecrease(s) && forall r | r in tail && p(r) :: head.time <= r.time
  {
    var s := SelectWhere(tail, p);
    SelectMembers(tail, p);
    assert forall i | 0 <= i < |s| :: ([head] + s)[i + 1] == s[i];
    if TimesNeverDecrease([head] + s) {
      forall i | 0 <= i < |s| ensures head.time <= s[i].time {
        assert ([head] + s)[0] == head && ([head] + s)[i + 1] == s[i];
      }
    }
  }

  lemma OrderedResumes(rows: seq<Row>, accepted: set<string>, k: nat)
    requires InFileOrder(rows) && k < |rows| && rows[k].topic in accepted
    requires NeverDecreaseWhere(rows, TopicIn(accepted))
    ensures ResumesAt(rows, accepted, k)
  {
    OrderedNoneLater(rows, accepted, k);
    OrderedNoneEarlier(rows, accepted, k);
    ResumesAtExact(rows, accepted, k);
  }

  lemma OrderedNoneLater(rows: seq<Row>, accepted: set<string>, k: nat)
    requires k < |rows| && rows[k].topic in accepted && NeverDecreaseWhere(rows, TopicIn(accepted))
    ensures NoneLater(rows, accepted, k)
  {
    forall r | r in rows[..k + 1] && r.topic in accepted ensures r.time <= rows[k].time {
      var i :| 0 <= i <= k && rows[i] == r;
    }
  }

  lemma OrderedNoneEarlier(rows: seq<Row>, accepted: set<string>, k: nat)
    requires k < |rows| && rows[k].topic in accepted && NeverDecreaseWhere(rows, TopicIn(accepted))
    ensures NoneEarlier(rows, accepted, 0, k)
  {
    forall r | r in rows[k + 1..] && r.topic in accepted ensures rows[k].time <= r.time {
      var i :| k < i < |rows| && rows[i] == r;
    }
  }

  lemma ResumingOrders(rows: seq<Row>, accepted: set<string>, i: nat, j: nat)
    requires InFileOrder(rows) && i < j < |rows| && rows[j].topic in accepted && ResumesAt(rows, accepted, i)
    ensures rows[i].time <= rows[j].time
  {
    ResumesAtExact(rows, accepted, i);
    assert rows[j] == rows[i + 1..][j - i - 1];
  }

  /** With the filter kept, file order resumes exactly after every message read if and only if the
      log times of the accepted messages never decrease along the file. */
  lemma FileOrderFiltered(rows: seq<Row>, accepted: set<string>)
    requires InFileOrder(rows)
    ensures (forall k | 0 <= k < |rows| && rows[k].topic in accepted :: ResumesAt(rows, accepted, k))
       <==> TimesNeverDecrease(SelectWhere(rows, TopicIn(accepted)))
  {
    var p := TopicIn(accepted);
    SelectedNeverDecrease(rows, p);
    if NeverDecreaseWhere(rows, p) {
      forall k | 0 <= k < |rows| && rows[k].topic in accepted { OrderedResumes(rows, accepted, k); }
    } else {
      var i, j :| 0 <= i < j < |rows| && p(rows[i]) && p(rows[j]) && rows[i].time > rows[j].time;
      if ResumesAt(rows, accepted, i) { ResumingOrders(rows, accepted, i, j); }
    }
  }

  /** In particular, with every topic accepted: if and only if log times never decrease at all. */
  lemma FileOrderExactness(rows: seq<Row>)
    requires InFileOrder(rows)
    ensures var accepted := set r | r in rows :: r.topic;
      (forall k | 0 <= k < |rows| ::
         Resume(FileOrder, rows, accepted, rows[k].time, Some(rows[k].pos)) == rows[k + 1..])
      <==> TimesNeverDecrease(rows)
  {
    var accepted := set r | r in rows :: r.topic;
    FileOrderFiltered(rows, accepted);
    SelectAll(rows, TopicIn(accepted));
    forall k | 0 <= k < |rows|
      ensures rows[k].topic in accepted && SelectWhere(rows[k + 1..], TopicIn(accepted)) == rows[k + 1..]
    {
      SelectAll(rows[k + 1..], TopicIn(accepted));
    }
    if TimesNeverDecrease(rows) {
      forall k | 0 <= k < |rows|
        ensures Resume(FileOrder, rows, accepted, rows[k].time, Some(rows[k].pos)) == rows[k + 1..]
      {
        assert ResumesAt(rows, accepted, k);
      }
    }
  }

  lemma {:induction false} SelectAll(log: seq<Row>, p: Row -> bool)
    requires forall r | r in log :: p(r)
    ensures SelectWhere(log, p) == log
  {
    if log != [] {
      SelectAll(log[1..], p);
      assert log == [log[0]] + log[1..];
    }
  }

  // ----- Changing direction -----

  lemma ReversedCons(r: Row, log: seq<Row>)
    ensures Reversed([r] + log) == Reversed(log) + [r]
  {
  }

  lemma {:induction false} SelectReversed(log: seq<Row>, p: Row -> bool)
    ensures SelectWhere(Reversed(log), p) == Reversed(SelectWhere(log, p))
  {
    if log == [] {
      assert Reversed(log) == [];
    } else {
      var tail := log[1..];
      assert log == [log[0]] + tail;
      ReversedCons(log[0], tail);
      SelectConcat(Reversed(tail), [log[0]], p);
      SelectReversed(tail, p);
      SelectOne(log[0], p);
      if p(log[0]) { ReversedCons(log[0], SelectWhere(tail, p)); }
    }
  }

  lemma SelectOne(r: Row, p: Row -> bool)
    ensures SelectWhere([r], p) == if p(r) then [r] else []
  {
    assert [r][1..] == [];
  }

  /** The k-th selected row and what is selected before it. */
  lemma {:induction false} SelectIndex(log: seq<Row>, p: Row -> bool, k: nat) returns (j: nat)
    requires k < |SelectWhere(log, p)|
    ensures j < |log| && log[j] == SelectWhere(log, p)[k]
    ensures SelectWhere(log[..j], p) == SelectWhere(log, p)[..k]
  {
    if p(log[0]) && k == 0 {
      j := 0;
    } else {
      var i := SelectIndex(log[1..], p, if p(log[0]) then k - 1 else k);
      j := i + 1;
      assert log[..j][1..] == log[1..][..i];
    }
  }

  /** Reading forward from the start and then switching to reverse log-time order, filter
      unchanged: with k messages read, the reader returns messages k-1 down to 1, and ends. */
  lemma ReverseReplays(rows: seq<Row>, accepted: set<string>, k: nat)
    requires InFileOrder(rows)
    requires 0 < k <= |Resume(LogTimeOrder, rows, accepted, 0, None)|
    ensures var all := Resume(LogTimeOrder, rows, accepted, 0, None);
      Resume(ReverseLogTimeOrder, rows, accepted, all[k - 1].time, Some(all[k - 1].pos)) == Reversed(all[..k - 1])
  {
    var s := SortByTime(rows);
    FromTheStart(rows, accepted);
    var j := SelectIndex(s, TopicIn(accepted), k - 1);
    BackwardFrom(rows, accepted, j);
  }

  lemma FromTheStart(rows: seq<Row>, accepted: set<string>)
    requires InFileOrder(rows)
    ensures Resume(LogTimeOrder, rows, accepted, 0, None) == SelectWhere(SortByTime(rows), TopicIn(accepted))
  {
    var s := SortByTime(rows);
    var c := ToCursor(LogTimeOrder, rows, accepted, 0, None);
    ResumeIsRemaining(LogTimeOrder, rows, accepted, 0, None);
    CutUnique(s, Ahead(Forward, 0, None), 0);
    assert s[0..] == s;
    SelectSame(s, c.Keeps(), TopicIn(accepted));
  }

  lemma BackwardCut(rows: seq<Row>, accepted: set<string>, j: nat)
    requires InFileOrder(rows) && j < |SortByTime(rows)|
    ensures var s := SortByTime(rows);
      var d := ToCursor(ReverseLogTimeOrder, rows, accepted, s[j].time, Some(s[j].pos));
      d.log == Reversed(s) && d.cut == |s| - j
  {
    var s := SortByTime(rows);
    LogIsSorted(Backward, rows);
    assert Reversed(s)[|s| - 1 - j] == s[j];
    CutAfterRow(Backward, Reversed(s), |s| - 1 - j, Ahead(Backward, s[j].time, Some(s[j].pos)));
  }

  /** Rebuilding in reverse after row j leaves the accepted rows before j, backwards. */
  lemma BackwardFrom(rows: seq<Row>, accepted: set<string>, j: nat)
    requires InFileOrder(rows) && j < |SortByTime(rows)|
    ensures var s := SortByTime(rows);
      Resume(ReverseLogTimeOrder, rows, accepted, s[j].time, Some(s[j].pos))
      == Reversed(SelectWhere(s[..j], TopicIn(accepted)))
  {
    var s := SortByTime(rows);
    var d := ToCursor(ReverseLogTimeOrder, rows, accepted, s[j].time, Some(s[j].pos));
    ResumeIsRemaining(ReverseLogTimeOrder, rows, accepted, s[j].time, Some(s[j].pos));
    BackwardCut(rows, accepted, j);
    ReversedDrop(s, j);
    SelectSame(Reversed(s[..j]), d.Keeps(), TopicIn(accepted));
    SelectReversed(s[..j], TopicIn(accepted));
  }

  lemma ForwardCut(rows: seq<Row>, accepted: set<string>, j: nat)
    requires InFileOrder(rows) && j < |SortByTime(rows)|
    ensures var s := SortByTime(rows);
      var d := ToCursor(LogTimeOrder, rows, accepted, s[j].time, Some(s[j].pos));
      d.log == s && d.cut == j + 1
  {
    var s := SortByTime(rows);
    LogIsSorted(Forward, rows);
    CutAfterRow(Forward, s, j, Ahead(Forward, s[j].time, Some(s[j].pos)));
  }

  /** Switching from reverse to log-time order after row j was read leaves the accepted rows after
      j: those read in reverse come again, last read first, and then the ones never asked for. */
  lemma ForwardFrom(rows: seq<Row>, accepted: set<string>, j: nat)
    requires InFileOrder(rows) && j < |SortByTime(rows)|
    ensures var s := SortByTime(rows);
      Resume(LogTimeOrder, rows, accepted, s[j].time, Some(s[j].pos)) == SelectWhere(s[j + 1..], TopicIn(accepted))
  {
    var s := SortByTime(rows);
    var d := ToCursor(LogTimeOrder, rows, accepted, s[j].time, Some(s[j].pos));
    ResumeIsRemaining(LogTimeOrder, rows, accepted, s[j].time, Some(s[j].pos));
    ForwardCut(rows, accepted, j);
    SelectSame(s[j + 1..], d.Keeps(), TopicIn(accepted));
  }
}
