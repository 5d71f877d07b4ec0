/**
 * What the runs of the compressing writer leave behind, said field by field and character by
 * character: what a stored message holds, when a write call drops or waits, and how the files
 * are named in the list and in the callbacks.
 */
module CompressionOutcome {
  import opened Basics
  import opened CompressionProtocol
  import opened CompressionMessages
  import opened CompressionFiles
  import opened CompressionTheorems
  import Decimal
  import Sums

  // ----- Messages -----

  lemma InMultiset<T>(a: seq<T>, b: seq<T>, x: T)
    requires multiset(a) <= multiset(b) && x in a
    ensures x in b
  {
    assert x in multiset(a);
  }

  lemma StoredInPlaces(c: Config, s: State)
    requires c.mode.MessageMode? && Conserved(c, s)
    ensures multiset(s.sh.stored) <= multiset(c.CompressAll(s.calls))
  {
    EverythingInPlace(c, s);
    var rest :=
      c.CompressAll(s.discarded) + c.CompressAll(Hand(s.p)) + c.CompressAll(s.sh.messages) + InFlight(c, s.ws);
    assert Places(c, s) == rest + s.sh.stored;
    assert multiset(rest + s.sh.stored) == multiset(rest) + multiset(s.sh.stored);
  }

  /** Message mode, at every moment: a stored message has the topic and both time stamps of some
      write call, its data compressed, and no sequence number. */
  lemma StoredAreCopies(c: Config, states: seq<State>, steps: seq<Step>, k: nat, j: nat)
    requires Execution(c, states, steps) && k < |states| && c.mode.MessageMode? && j < |states[k].sh.stored|
    ensures var s := states[k];
      exists i :: 0 <= i < |s.calls|
        && s.sh.stored[j].topic == s.calls[i].topic
        && s.sh.stored[j].recvTime == s.calls[i].recvTime
        && s.sh.stored[j].sendTime == s.calls[i].sendTime
        && s.sh.stored[j].sequenceNumber == 0
        && s.sh.stored[j].data == c.zip(s.calls[i].data)
  {
    RunInv(c, states, steps, k);
    var s := states[k];
    StoredInPlaces(c, s);
    InMultiset(s.sh.stored, c.CompressAll(s.calls), s.sh.stored[j]);
    var i :| 0 <= i < |s.calls| && c.CompressAll(s.calls)[i] == s.sh.stored[j];
  }

  datatype Description = Description(topic: string, recvTime: int, sendTime: int, data: seq<byte>)

  /** 1 for a stored message with these fields. */
  function StoredAs(d: Description): Message -> nat {
    (m: Message) =>
      if m.topic == d.topic && m.recvTime == d.recvTime && m.sendTime == d.sendTime
         && m.sequenceNumber == 0 && m.data == d.data then 1 else 0
  }

  /** 1 for a written message with these fields once its data are compressed. */
  function WrittenAs(zip: seq<byte> -> seq<byte>, d: Description): Message -> nat {
    (m: Message) =>
      if m.topic == d.topic && m.recvTime == d.recvTime && m.sendTime == d.sendTime && zip(m.data) == d.data
      then 1 else 0
  }

  lemma {:induction false} CopiesCount(c: Config, ms: seq<Message>, d: Description)
    ensures Sums.Sum(c.CompressAll(ms), StoredAs(d)) == Sums.Sum(ms, WrittenAs(c.zip, d))
  {
    if ms != [] {
      var most, last := ms[..|ms| - 1], ms[|ms| - 1];
      CopiesCount(c, most, d);
      assert c.CompressAll(ms)[..|ms| - 1] == c.CompressAll(most);
      assert StoredAs(d)(c.CompressAll(ms)[|ms| - 1]) == WrittenAs(c.zip, d)(last);
    }
  }

  /** Message mode, after close(): for any fields, as many messages with them are stored as calls
      wrote and did not discard; so as many as calls wrote when nothing was discarded. */
  lemma StoredPerDescription(c: Config, states: seq<State>, steps: seq<Step>, k: nat, d: Description)
    requires Execution(c, states, steps) && k < |states| && c.mode.MessageMode? && states[k].p.Closed?
    ensures var s := states[k];
      && Sums.Sum(s.sh.stored, StoredAs(d)) + Sums.Sum(s.discarded, WrittenAs(c.zip, d))
         == Sums.Sum(s.calls, WrittenAs(c.zip, d))
      && (s.discarded == [] ==> Sums.Sum(s.sh.stored, StoredAs(d)) == Sums.Sum(s.calls, WrittenAs(c.zip, d)))
  {
    MessagesAfterClose(c, states, steps, k);
    var s := states[k];
    var lost := c.CompressAll(s.discarded);
    assert multiset(s.sh.stored + lost) == multiset(c.CompressAll(s.calls));
    Sums.SumPermuted(s.sh.stored + lost, c.CompressAll(s.calls), StoredAs(d));
    Sums.SumConcat(s.sh.stored, lost, StoredAs(d));
    CopiesCount(c, s.discarded, d);
    CopiesCount(c, s.calls, d);
  }

  /** With one compression thread and nothing discarded, call by call. */
  lemma StoredCallByCall(c: Config, states: seq<State>, steps: seq<Step>, k: nat)
    requires Execution(c, states, steps) && k < |states| && c.mode.MessageMode? && states[k].p.Closed?
    requires c.threads == 1 && states[k].discarded == []
    ensures var s := states[k];
      && |s.sh.stored| == |s.calls|
      && forall i | 0 <= i < |s.calls| ::
           && s.sh.stored[i].topic == s.calls[i].topic
           && s.sh.stored[i].recvTime == s.calls[i].recvTime
           && s.sh.stored[i].sendTime == s.calls[i].sendTime
           && s.sh.stored[i].sequenceNumber == 0
           && s.sh.stored[i].data == c.zip(s.calls[i].data)
  {
    MessagesAfterClose(c, states, steps, k);
  }

  /** A write call that holds the queue mutex drops exactly when the queue is one above a limit that
      is set, waits exactly when without a limit it is one above the thread count while the threads
      run, and otherwise appends the message it has in hand. */
  lemma DropWaitOrPush(c: Config, states: seq<State>, steps: seq<Step>, k: nat)
    requires Execution(c, states, steps) && k < |steps| && steps[k].ProducerStep? && states[k].p.Writing?
    ensures var s, s' := states[k], states[k + 1];
      if c.queueSize > 0 && |s.sh.messages| == c.queueSize + 1 then
        && s'.sh.messages == s.sh.messages[1..] && s'.p == Writing(s.sh.messages[0])
        && s'.sh.lossLog == s.sh.lossLog + [s.sh.messages[0].topic]
        && s.calls != [] && s'.discarded == s.discarded + [s.calls[|s.calls| - 1]]
      else if c.queueSize == 0 && |s.sh.messages| == c.threads + 1 && s.sh.running then
        s'.p == WaitsForRoom(s.p.m) && s'.sh == s.sh && s'.discarded == s.discarded
      else
        && s'.sh.messages == s.sh.messages + [s.p.m] && s'.p == Idle
        && s'.sh.lossLog == s.sh.lossLog && s'.discarded == s.discarded
  {
    RunInv(c, states, steps, k);
    assert Follows(c, states[k], steps[k], states[k + 1]);
    QueueLimit(c, states, steps, k);
  }

  // ----- Files -----

  /** File mode, at every moment: entry i of the list is the i-th opened file, whose name begins with
      the counter i, or that name with a dot and the extension. */
  lemma FileListNames(c: Config, states: seq<State>, steps: seq<Step>, k: nat, i: nat)
    requires Execution(c, states, steps) && k < |states| && c.mode.FileMode? && i < |states[k].openedFiles|
    ensures var s := states[k];
      && |s.sh.paths| == |s.openedFiles|
      && Decimal.Digits(i) + "_" <= s.openedFiles[i]
      && (s.sh.paths[i] == s.openedFiles[i] || s.sh.paths[i] == s.openedFiles[i] + "." + c.extension)
  {
    RunInv(c, states, steps, k);
    FileListAlways(c, states, steps, k);
  }

  /** File mode, after close(): every file with content is listed with a dot and the extension, every
      empty one as it was opened. */
  lemma FinalFileNames(c: Config, states: seq<State>, steps: seq<Step>, k: nat, i: nat)
    requires Execution(c, states, steps) && k < |states| && c.mode.FileMode? && states[k].p.Closed?
    requires i < |states[k].openedFiles|
    ensures var s := states[k];
      && |s.sh.paths| == |s.openedFiles|
      && s.sh.paths[i] == if s.openedFiles[i] in s.nonEmpty then s.openedFiles[i] + "." + c.extension
                          else s.openedFiles[i]
  {
    FileListAfterClose(c, states, steps, k);
  }

  /** The i-th file, closed by a split, is the one a callback reports. */
  ghost predicate ReportsFile(c: Config, s: State, cb: BagSplit, i: nat)
    requires i + 1 < |s.openedFiles|
  {
    && cb.closedFile == s.openedFiles[i] + "." + c.extension
    && if s.openedFiles[i] in s.nonEmpty
       then cb.openedFile == s.openedFiles[i + 1] || cb.openedFile == s.openedFiles[i + 1] + "." + c.extension
       else cb.openedFile == ""
  }

  /** The callback reports a file closed by a split. */
  ghost predicate ReportsSomeFile(c: Config, s: State, cb: BagSplit) {
    exists i: nat :: i + 1 < |s.openedFiles| && ReportsFile(c, s, cb, i)
  }

  /** One of the first n callbacks names the i-th file. */
  ghost predicate NamedAmong(c: Config, s: State, n: nat, i: nat)
    requires i < |s.openedFiles| && n <= |s.sh.callbacks|
  {
    exists j :: 0 <= j < n && s.sh.callbacks[j].closedFile == s.openedFiles[i] + "." + c.extension
  }

  lemma CallbackReports(c: Config, s: State, cb: BagSplit)
    requires CallbackOk(c, s, cb)
    ensures ReportsSomeFile(c, s, cb)
  {
    var file :| cb.closedFile == c.CompressedName(file) && Announces(c, s, file, cb.openedFile);
    var i :| AnnouncesAt(c, s, file, cb.openedFile, i);
    assert ReportsFile(c, s, cb, i);
  }

  lemma EveryFileReported(c: Config, s: State, i: nat)
    requires multiset(ClosedNames(SplitCallbacks(s))) == multiset(CompressedNames(c, ClosedBySplit(s)))
    requires i + 1 < |s.openedFiles| && |SplitCallbacks(s)| <= |s.sh.callbacks|
    ensures NamedAmong(c, s, |SplitCallbacks(s)|, i)
  {
    var a, b := CompressedNames(c, ClosedBySplit(s)), ClosedNames(SplitCallbacks(s));
    assert a[i] == s.openedFiles[i] + "." + c.extension && a[i] in multiset(b);
    var j :| 0 <= j < |b| && b[j] == a[i];
    assert s.sh.callbacks[j] == SplitCallbacks(s)[j] && SplitCallbacks(s)[j].closedFile == b[j];
  }

  /** File mode, after close(): one callback for each opened file; all but the last report a file
      closed by a split, under its name with a dot and the extension, together with the file opened
      next; each such file is reported; the last callback is that of the last file. */
  lemma CallbacksAfterClose(c: Config, states: seq<State>, steps: seq<Step>, k: nat)
    requires Execution(c, states, steps) && k < |states| && c.mode.FileMode? && states[k].p.Closed?
    ensures var s := states[k];
      var last := |s.openedFiles| - 1;
      && |s.sh.callbacks| == |s.openedFiles| > 0
      && (forall j | 0 <= j < last :: ReportsSomeFile(c, s, s.sh.callbacks[j]))
      && (forall i | 0 <= i < last :: NamedAmong(c, s, last, i))
      && s.sh.callbacks[last].openedFile == ""
      && s.sh.callbacks[last].closedFile ==
           if s.openedFiles[last] in s.nonEmpty then s.openedFiles[last] + "." + c.extension else s.openedFiles[last]
  {
    OneCallbackPerSplit(c, states, steps, k);
    var s := states[k];
    forall j | 0 <= j < |s.sh.callbacks| - 1 ensures ReportsSomeFile(c, s, s.sh.callbacks[j]) {
      CallbackReports(c, s, s.sh.callbacks[j]);
    }
    var last := |s.openedFiles| - 1;
    forall i | 0 <= i < last ensures NamedAmong(c, s, last, i) {
      EveryFileReported(c, s, i);
    }
  }
}
