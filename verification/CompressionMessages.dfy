/**
 * Where the messages go: in message mode every message handed to write() is at all times in
 * exactly one place (the producer's hand, the queue, a compression thread, storage, or the
 * discarded ones), and the queue stays within one message of its limit.
 */
module CompressionMessages {
  import opened Basics
  import opened CompressionProtocol
  import opened CompressionThreads

  /** The message a worker has taken and not yet stored, in compressed form. */
  function Item(c: Config, w: Worker): seq<Message> {
    match w
    case Compressing(m) => [c.Compress(m)]
    case WantsStore(m) => [m]
    case Storing(m) => [m]
    case WWantsQueueToSplit(m) => [m]
    case WSplitting(m) => [m]
    case WSplitDone(m) => [m]
    case _ => []
  }

  function Count(ms: seq<Message>, x: Message): nat { multiset(ms)[x] }

  function ItemCount(c: Config, x: Message): Worker -> nat { w => Count(Item(c, w), x) }

  /** The message of the write call under way that is neither queued nor stored yet. */
  function Hand(p: Producer): seq<Message> {
    match p
    case WantsQueueToWrite(m) => [m]
    case Writing(m) => [m]
    case WaitsForRoom(m) => [m]
    case WantsStorage(Some(m)) => [m]
    case HasStorage(Some(m)) => [m]
    case WantsQueueToSplit(Some(m)) => [m]
    case Splitting(Some(m)) => [m]
    case SplitDone(Some(m)) => [m]
    case _ => []
  }

  /** Occurrences of x among the compressed copies of some messages. */
  ghost function Copies(c: Config, ms: seq<Message>, x: Message): nat { Count(c.CompressAll(ms), x) }

  /** Message mode: nothing is duplicated and nothing vanishes. */
  ghost predicate Conserved(c: Config, s: State) {
    forall x :: ConservedFor(c, s, x)
  }

  ghost predicate ConservedFor(c: Config, s: State, x: Message) {
    Copies(c, s.calls, x) ==
      Copies(c, s.discarded, x) + Copies(c, Hand(s.p), x) + Copies(c, s.sh.messages, x)
      + Total(s.ws, ItemCount(c, x)) + Count(s.sh.stored, x)
  }

  /** File mode stores the messages as they are, in call order. */
  ghost predicate StoredInOrder(s: State) { s.calls == s.sh.stored + Hand(s.p) }

  /** With a single compression thread and nothing discarded, message mode keeps the order too. */
  ghost predicate Ordered(c: Config, s: State) {
    |s.ws| == 1 && s.discarded == [] ==>
      c.CompressAll(s.calls) ==
        s.sh.stored + Item(c, s.ws[0]) + c.CompressAll(s.sh.messages) + c.CompressAll(Hand(s.p))
  }

  ghost predicate MessagesOk(c: Config, s: State) {
    && (if c.mode.FileMode? then StoredInOrder(s) else Conserved(c, s) && Ordered(c, s))
    && |s.sh.lossLog| == |s.discarded|
  }

  lemma CompressAllConcat(c: Config, a: seq<Message>, b: seq<Message>)
    ensures c.CompressAll(a + b) == c.CompressAll(a) + c.CompressAll(b)
  {
  }

  lemma CompressAllCons(c: Config, ms: seq<Message>)
    requires ms != []
    ensures c.CompressAll(ms) == [c.Compress(ms[0])] + c.CompressAll(ms[1..])
  {
  }

  /** A worker step moves one message along queue, thread and storage. */
  ghost predicate Flow(c: Config, s: State, s': State, i: nat)
    requires i < |s.ws| == |s'.ws|
  {
    && s'.sh.stored + Item(c, s'.ws[i]) + c.CompressAll(s'.sh.messages)
       == s.sh.stored + Item(c, s.ws[i]) + c.CompressAll(s.sh.messages)
    && s'.sh.lossLog == s.sh.lossLog
  }

  lemma WorkerStepFlow(c: Config, s: State, i: nat, ch: Choice, s': State)
    requires Follows(c, s, WorkerStep(i, ch), s') && |s'.ws| == |s.ws|
    ensures Flow(c, s, s', i)
  {
    if HandlesMessage(s.ws[i]) {
      MessageStepFlow(c, s, i, ch, s');
    } else if HandlesFile(s.ws[i]) {
      FileStepFlow(c, s, i, s');
    } else if s.ws[i].Inspecting? && s.sh.messages != [] {
      CompressAllCons(c, s.sh.messages);
    }
  }

  lemma MessageStepFlow(c: Config, s: State, i: nat, ch: Choice, s': State)
    requires i < |s.ws| == |s'.ws| && HandlesMessage(s.ws[i]) && s' == MessageNext(c, s, i, ch)
    ensures Flow(c, s, s', i)
  {
  }

  lemma FileStepFlow(c: Config, s: State, i: nat, s': State)
    requires i < |s.ws| == |s'.ws| && HandlesFile(s.ws[i]) && s' == FileNext(c, s, i)
    ensures Flow(c, s, s', i)
  {
  }

  lemma CountConcat(a: seq<Message>, b: seq<Message>, x: Message)
    ensures Count(a + b, x) == Count(a, x) + Count(b, x)
  {
  }

  lemma ConservedWorker(c: Config, s: State, i: nat, s': State)
    requires Conserved(c, s) && i < |s.ws| && WorkerMove(s, s', i) && Flow(c, s, s', i)
    ensures Conserved(c, s')
  {
    var us := s'.ws[i := s.ws[i]];
    assert us[i := s'.ws[i]] == s'.ws;
    assert Hand(s'.p) == Hand(s.p);
    forall x ensures ConservedFor(c, s', x) {
      var f := ItemCount(c, x);
      TotalUpdate(us, f, i, s'.ws[i]);
      TotalMonotone(s.ws, us, f, f);
      TotalMonotone(us, s.ws, f, f);
      FlowCounts(c, s, s', i, x);
      assert ConservedFor(c, s, x);
    }
  }

  lemma FlowCounts(c: Config, s: State, s': State, i: nat, x: Message)
    requires i < |s.ws| == |s'.ws| && Flow(c, s, s', i)
    ensures Count(s'.sh.stored, x) + Count(Item(c, s'.ws[i]), x) + Copies(c, s'.sh.messages, x)
         == Count(s.sh.stored, x) + Count(Item(c, s.ws[i]), x) + Copies(c, s.sh.messages, x)
  {
    CountConcat(s.sh.stored, Item(c, s.ws[i]), x);
    CountConcat(s.sh.stored + Item(c, s.ws[i]), c.CompressAll(s.sh.messages), x);
    CountConcat(s'.sh.stored, Item(c, s'.ws[i]), x);
    CountConcat(s'.sh.stored + Item(c, s'.ws[i]), c.CompressAll(s'.sh.messages), x);
  }

  lemma OrderedWorker(c: Config, s: State, i: nat, s': State)
    requires Ordered(c, s) && i < |s.ws| && WorkerMove(s, s', i) && Flow(c, s, s', i)
    ensures Ordered(c, s')
  {
    assert Hand(s'.p) == Hand(s.p);
  }

  predicate Drops(c: Config, s: State) { s.p.Writing? && s.sh.MustDrop(c.queueSize) }

  /** A producer step hands its message over, or drops: the front of the queue is reported as
      lost, the message in hand is discarded and the front takes its place. */
  ghost predicate HandOver(c: Config, s: State, s': State) {
    && s'.calls == s.calls
    && if Drops(c, s) then
         && s.sh.messages == Hand(s'.p) + s'.sh.messages && s'.sh.stored == s.sh.stored
         && s'.discarded == s.discarded + Hand(s.p)
         && s'.sh.lossLog == s.sh.lossLog + [s.sh.messages[0].topic]
       else
         && s'.discarded == s.discarded && s'.sh.lossLog == s.sh.lossLog
         && if c.mode.MessageMode?
            then s'.sh.messages + Hand(s'.p) == s.sh.messages + Hand(s.p) && s'.sh.stored == s.sh.stored
            else s'.sh.stored + Hand(s'.p) == s.sh.stored + Hand(s.p)
  }

  lemma ProducerStepHandOver(c: Config, s: State, ch: Choice, s': State)
    requires Phases(c, s) && Follows(c, s, ProducerStep(ch), s')
    ensures HandOver(c, s, s')
  {
    if StorageCall(s.p) {
      StorageCallHandOver(c, s, ch, s');
    } else if !(s.p.WantsQueueToWrite? || s.p.Writing?) {
      CloseHandOver(c, s, ch, s');
    }
  }

  lemma StorageCallHandOver(c: Config, s: State, ch: Choice, s': State)
    requires StorageCall(s.p) && s' == StorageCallNext(c, s, ch)
    requires c.mode.MessageMode? ==> s.p.hand == None
    ensures HandOver(c, s, s')
  {
  }

  lemma CloseHandOver(c: Config, s: State, ch: Choice, s': State)
    requires ProducerEnabled(c, s, ch) && s' == CloseNext(c, s, ch)
    requires !StorageCall(s.p) && !s.p.WantsQueueToWrite? && !s.p.Writing?
    ensures HandOver(c, s, s')
  {
  }

  lemma SameItems(c: Config, s: State, s': State, x: Message)
    requires OnlyWoken(s, s', |s.ws|)
    ensures Total(s'.ws, ItemCount(c, x)) == Total(s.ws, ItemCount(c, x))
  {
    TotalMonotone(s.ws, s'.ws, ItemCount(c, x), ItemCount(c, x));
    TotalMonotone(s'.ws, s.ws, ItemCount(c, x), ItemCount(c, x));
  }

  lemma CopiesConcat(c: Config, a: seq<Message>, b: seq<Message>, x: Message)
    ensures Copies(c, a + b, x) == Copies(c, a, x) + Copies(c, b, x)
  {
    CompressAllConcat(c, a, b);
    CountConcat(c.CompressAll(a), c.CompressAll(b), x);
  }

  lemma ConservedProducer(c: Config, s: State, s': State)
    requires c.mode.MessageMode? && Conserved(c, s) && OnlyWoken(s, s', |s.ws|) && HandOver(c, s, s')
    ensures Conserved(c, s')
  {
    forall x ensures ConservedFor(c, s', x) {
      assert ConservedFor(c, s, x);
      SameItems(c, s, s', x);
      if Drops(c, s) {
        CopiesConcat(c, Hand(s'.p), s'.sh.messages, x);
        CopiesConcat(c, s.discarded, Hand(s.p), x);
      } else {
        CopiesConcat(c, s'.sh.messages, Hand(s'.p), x);
        CopiesConcat(c, s.sh.messages, Hand(s.p), x);
      }
    }
  }

  lemma Regroup(a: seq<Message>, b: seq<Message>, d: seq<Message>)
    ensures (a + b) + d == a + (b + d)
  {
  }

  lemma OrderedProducer(c: Config, s: State, s': State)
    requires c.mode.MessageMode? && Ordered(c, s) && OnlyWoken(s, s', |s.ws|) && HandOver(c, s, s')
    requires Drops(c, s) ==> Hand(s.p) != []
    ensures Ordered(c, s')
  {
    if |s.ws| == 1 && s'.discarded == [] {
      CompressAllConcat(c, s'.sh.messages, Hand(s'.p));
      CompressAllConcat(c, s.sh.messages, Hand(s.p));
      assert Item(c, s'.ws[0]) == Item(c, s.ws[0]);
      var done := s.sh.stored + Item(c, s.ws[0]);
      Regroup(done, c.CompressAll(s'.sh.messages), c.CompressAll(Hand(s'.p)));
      Regroup(done, c.CompressAll(s.sh.messages), c.CompressAll(Hand(s.p)));
    }
  }

  lemma ConservedBeginWrite(c: Config, s: State, m: Message, s': State)
    requires c.mode.MessageMode? && Conserved(c, s) && Follows(c, s, BeginWrite(m), s')
    ensures Conserved(c, s')
  {
    assert s'.ws == s.ws && s'.sh == s.sh && s'.calls == s.calls + [m];
    assert Hand(s'.p) == [m] && Hand(s.p) == [];
    forall x ensures ConservedFor(c, s', x) {
      assert ConservedFor(c, s, x);
      CopiesConcat(c, s.calls, [m], x);
    }
  }

  lemma OrderedBeginWrite(c: Config, s: State, m: Message, s': State)
    requires c.mode.MessageMode? && Ordered(c, s) && Follows(c, s, BeginWrite(m), s')
    ensures Ordered(c, s')
  {
    assert s'.ws == s.ws && s'.sh == s.sh && s'.calls == s.calls + [m];
    CompressAllConcat(c, s.calls, [m]);
  }

  lemma MessagesWorkerStep(c: Config, s: State, i: nat, s': State)
    requires MessagesOk(c, s) && i < |s.ws| && WorkerMove(s, s', i) && Flow(c, s, s', i)
    requires c.mode.FileMode? ==> s'.sh.stored == s.sh.stored
    ensures MessagesOk(c, s')
  {
    if c.mode.MessageMode? {
      ConservedWorker(c, s, i, s');
      OrderedWorker(c, s, i, s');
    } else {
      assert Hand(s'.p) == Hand(s.p);
    }
  }

  lemma FileModeStores(c: Config, s: State, i: nat, ch: Choice, s': State)
    requires c.mode.FileMode? && Phases(c, s) && Follows(c, s, WorkerStep(i, ch), s')
    ensures s'.sh.stored == s.sh.stored
  {
  }

  lemma MessagesProducerStep(c: Config, s: State, s': State)
    requires MessagesOk(c, s) && OnlyWoken(s, s', |s.ws|) && HandOver(c, s, s')
    requires c.mode.FileMode? ==> !Drops(c, s)
    ensures MessagesOk(c, s')
  {
    if c.mode.MessageMode? {
      ConservedProducer(c, s, s');
      OrderedProducer(c, s, s');
    }
  }

  lemma MessagesIdle(c: Config, s: State, s': State)
    requires MessagesOk(c, s) && OnlyWoken(s, s', |s.ws|) && Hand(s'.p) == Hand(s.p)
    requires s'.calls == s.calls && s'.discarded == s.discarded && s'.sh == s.sh
    ensures MessagesOk(c, s')
  {
    if c.mode.MessageMode? {
      forall x ensures ConservedFor(c, s', x) {
        assert ConservedFor(c, s, x);
        SameItems(c, s, s', x);
      }
    }
  }

  lemma MessagesStep(c: Config, s: State, st: Step, s': State)
    requires MessagesOk(c, s) && Phases(c, s) && Locks(s) && Follows(c, s, st, s')
    ensures MessagesOk(c, s')
  {
    match st
    case WorkerStep(i, ch) =>
      WorkerStepMoves(c, s, i, ch, s');
      WorkerStepFlow(c, s, i, ch, s');
      if c.mode.FileMode? { FileModeStores(c, s, i, ch, s'); }
      MessagesWorkerStep(c, s, i, s');
    case ProducerStep(ch) =>
      ProducerStepMoves(c, s, ch, s');
      ProducerStepHandOver(c, s, ch, s');
      MessagesProducerStep(c, s, s');
    case BeginWrite(m) =>
      if c.mode.MessageMode? {
        ConservedBeginWrite(c, s, m, s');
        OrderedBeginWrite(c, s, m, s');
      }
    case _ => MessagesIdle(c, s, s');
  }

  // ----- The queue limit -----

  /** The queue limit, and whose message the producer holds: the caller's until a drop, and
      after a drop no second one follows. */
  ghost predicate Bounded(c: Config, s: State) {
    && (c.queueSize > 0 ==> |s.sh.messages| <= c.queueSize + 1)
    && (c.queueSize == 0 ==> |s.sh.messages| <= c.threads + 1)
    && (c.queueSize == 0 ==> s.discarded == [])
    && (s.p.WantsQueueToWrite? || s.p.WaitsForRoom? ==> CallerInHand(s))
    && (s.p.Writing? && (c.queueSize == 0 || Drops(c, s)) ==> CallerInHand(s))
  }

  ghost predicate CallerInHand(s: State) {
    s.calls != [] && Hand(s.p) == [s.calls[|s.calls| - 1]]
  }

  lemma BoundedStep(c: Config, s: State, st: Step, s': State)
    requires Bounded(c, s) && Phases(c, s) && Locks(s) && Follows(c, s, st, s')
    ensures Bounded(c, s')
  {
    match st
    case WorkerStep(i, ch) =>
      WorkerStepMoves(c, s, i, ch, s');
      WorkerStepJob(c, s, i, ch, s');
    case ProducerStep(ch) => BoundedProducer(c, s, ch, s');
    case _ =>
  }

  lemma BoundedProducer(c: Config, s: State, ch: Choice, s': State)
    requires Bounded(c, s) && Phases(c, s) && Follows(c, s, ProducerStep(ch), s')
    ensures Bounded(c, s')
  {
    if StorageCall(s.p) {
      QueueKeptStorageCall(c, s, ch);
    } else if !(s.p.WantsQueueToWrite? || s.p.Writing?) {
      QueueKeptClose(c, s, ch);
    }
  }

  ghost predicate QueueKept(s: State, s': State) {
    && s'.sh.messages == s.sh.messages && s'.discarded == s.discarded
    && (s'.sh.running ==> s.sh.running)
    && !s'.p.WantsQueueToWrite? && !s'.p.WaitsForRoom? && !s'.p.Writing?
  }

  lemma QueueKeptStorageCall(c: Config, s: State, ch: Choice)
    requires StorageCall(s.p)
    ensures QueueKept(s, StorageCallNext(c, s, ch))
  {
  }

  lemma QueueKeptClose(c: Config, s: State, ch: Choice)
    requires !s.p.WantsQueueToWrite? && !s.p.WaitsForRoom? && !s.p.Writing?
    ensures QueueKept(s, CloseNext(c, s, ch))
  {
  }
}
