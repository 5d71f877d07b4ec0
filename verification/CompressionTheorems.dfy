/**
 * The compressing writer over whole runs: every reachable state satisfies the invariants of the
 * other Compression modules, and what that means for the application.
 */
module CompressionTheorems {
  import opened Basics
  import opened CompressionProtocol
  import opened CompressionThreads
  import opened CompressionProgress
  import opened CompressionMessages
  import opened CompressionFiles
  import Decimal

  ghost predicate Inv(c: Config, s: State) {
    && Phases(c, s) && Locks(s) && Balanced(s)
    && MessagesOk(c, s) && Bounded(c, s) && FilesOk(c, s)
  }

  lemma {:induction false} TotalZero(ws: seq<Worker>, f: Worker -> nat)
    requires forall i | 0 <= i < |ws| :: f(ws[i]) == 0
    ensures Total(ws, f) == 0
  {
    if ws != [] { TotalZero(ws[1..], f); }
  }

  lemma InitFiles(c: Config, s: State)
    requires Init(c, s)
    ensures FilesOk(c, s)
  {
    var rest: string :| s.openedFiles == [Decimal.FileName(0, rest)];
    Decimal.FileNameNamedAt(0, rest);
    forall x ensures OnePlaceFor(c, s, x) {
      TotalZero(s.ws, BeforeCount(x));
      TotalZero(s.ws, AfterCount(x));
    }
    assert EntryOk(c, s, 0);
  }

  lemma InitInv(c: Config, s: State)
    requires Init(c, s)
    ensures Inv(c, s)
  {
    InitFiles(c, s);
    forall x ensures ConservedFor(c, s, x) {
      TotalZero(s.ws, ItemCount(c, x));
    }
  }

  lemma StepInv(c: Config, s: State, st: Step, s': State)
    requires Inv(c, s) && Follows(c, s, st, s')
    ensures Inv(c, s')
  {
    LocksStep(c, s, st, s');
    PhasesStep(c, s, st, s');
    BalancedStep(c, s, st, s');
    MessagesStep(c, s, st, s');
    BoundedStep(c, s, st, s');
    FilesStep(c, s, st, s');
  }

  lemma {:induction false} RunInv(c: Config, states: seq<State>, steps: seq<Step>, k: nat)
    requires Execution(c, states, steps) && k < |states|
    ensures Inv(c, states[k])
  {
    if k == 0 {
      InitInv(c, states[0]);
    } else {
      RunInv(c, states, steps, k - 1);
      assert Follows(c, states[k - 1], steps[k - 1], states[k]);
      StepInv(c, states[k - 1], steps[k - 1], states[k]);
    }
  }

  // ----- Messages -----

  ghost function InFlight(c: Config, ws: seq<Worker>): seq<Message> {
    if ws == [] then [] else Item(c, ws[0]) + InFlight(c, ws[1..])
  }

  lemma {:induction false} InFlightCount(c: Config, ws: seq<Worker>, x: Message)
    ensures Count(InFlight(c, ws), x) == Total(ws, ItemCount(c, x))
  {
    if ws != [] {
      InFlightCount(c, ws[1..], x);
      CountConcat(Item(c, ws[0]), InFlight(c, ws[1..]), x);
    }
  }

  lemma {:induction false} NothingInFlight(c: Config, ws: seq<Worker>)
    requires forall i | 0 <= i < |ws| :: !HandlesMessage(ws[i])
    ensures InFlight(c, ws) == []
  {
    if ws != [] { NothingInFlight(c, ws[1..]); }
  }

  /** The places a message can be in, compressed copies throughout. */
  ghost function Places(c: Config, s: State): seq<Message> {
    c.CompressAll(s.discarded) + c.CompressAll(Hand(s.p)) + c.CompressAll(s.sh.messages)
    + InFlight(c, s.ws) + s.sh.stored
  }

  lemma PlacesCount(c: Config, s: State, x: Message)
    ensures Count(Places(c, s), x) ==
      Copies(c, s.discarded, x) + Copies(c, Hand(s.p), x) + Copies(c, s.sh.messages, x)
      + Total(s.ws, ItemCount(c, x)) + Count(s.sh.stored, x)
  {
    InFlightCount(c, s.ws, x);
    var a, b, d := c.CompressAll(s.discarded), c.CompressAll(Hand(s.p)), c.CompressAll(s.sh.messages);
    CountConcat(a, b, x);
    CountConcat(a + b, d, x);
    CountConcat(a + b + d, InFlight(c, s.ws), x);
    CountConcat(a + b + d + InFlight(c, s.ws), s.sh.stored, x);
  }

  lemma SameMultisetSameLength<T>(a: seq<T>, b: seq<T>)
    requires multiset(a) == multiset(b)
    ensures |a| == |b|
  {
    assert |multiset(a)| == |multiset(b)|;
  }

  lemma EverythingInPlace(c: Config, s: State)
    requires c.mode.MessageMode? && Conserved(c, s)
    ensures multiset(c.CompressAll(s.calls)) == multiset(Places(c, s))
    ensures |s.calls| == |s.discarded| + |Hand(s.p)| + |s.sh.messages| + |InFlight(c, s.ws)| + |s.sh.stored|
  {
    forall x: Message ensures multiset(c.CompressAll(s.calls))[x] == multiset(Places(c, s))[x] {
      assert ConservedFor(c, s, x);
      PlacesCount(c, s, x);
    }
    assert multiset(c.CompressAll(s.calls)) == multiset(Places(c, s));
    SameMultisetSameLength(c.CompressAll(s.calls), Places(c, s));
  }

  /** Message mode, every interleaving, any number of threads: at every moment the messages of
      all write calls are, as a multiset, those discarded, in the producer's hand, queued, being
      compressed, and stored; as many losses are reported as messages were discarded. */
  lemma MessageConservation(c: Config, states: seq<State>, steps: seq<Step>, k: nat)
    requires Execution(c, states, steps) && k < |states| && c.mode.MessageMode?
    ensures var s := states[k];
      && multiset(c.CompressAll(s.calls)) == multiset(Places(c, s))
      && |s.calls| == |s.sh.lossLog| + |Hand(s.p)| + |s.sh.messages| + |InFlight(c, s.ws)| + |s.sh.stored|
  {
    RunInv(c, states, steps, k);
    EverythingInPlace(c, states[k]);
  }

  lemma AllStored(c: Config, s: State)
    requires c.mode.MessageMode? && Conserved(c, s)
    requires Hand(s.p) == [] && s.sh.messages == [] && forall i | 0 <= i < |s.ws| :: !HandlesMessage(s.ws[i])
    ensures multiset(s.sh.stored) + multiset(c.CompressAll(s.discarded)) == multiset(c.CompressAll(s.calls))
    ensures |s.sh.stored| + |s.discarded| == |s.calls|
    ensures multiset(s.sh.stored) == multiset(c.CompressAll(s.calls)) <==> s.discarded == []
  {
    EverythingInPlace(c, s);
    NothingInFlight(c, s.ws);
    var a, b := c.CompressAll(s.discarded), s.sh.stored;
    assert Places(c, s) == a + b;
    assert multiset(a + b) == multiset(a) + multiset(b);
    if multiset(b) == multiset(c.CompressAll(s.calls)) {
      SameMultisetSameLength(b, c.CompressAll(s.calls));
    }
  }

  /** After close() nothing is left in queues or threads. The stored messages are the compressed
      messages of all calls but those discarded; exactly when nothing was discarded they are all
      of them, and then a single compression thread has even kept their order. */
  lemma MessagesAfterClose(c: Config, states: seq<State>, steps: seq<Step>, k: nat)
    requires Execution(c, states, steps) && k < |states| && states[k].p.Closed?
    ensures var s := states[k];
      && !s.sh.HasWork() && (forall i | 0 <= i < |s.ws| :: s.ws[i].Exited?)
      && (c.mode.MessageMode? ==>
            && multiset(s.sh.stored) + multiset(c.CompressAll(s.discarded)) == multiset(c.CompressAll(s.calls))
            && |s.sh.stored| + |s.sh.lossLog| == |s.calls|
            && (multiset(s.sh.stored) == multiset(c.CompressAll(s.calls)) <==> s.discarded == [])
            && (s.discarded == [] && c.threads == 1 ==> s.sh.stored == c.CompressAll(s.calls)))
      && (c.mode.FileMode? ==> s.sh.stored == s.calls)
  {
    RunInv(c, states, steps, k);
    var s := states[k];
    assert s.ws[0].Exited?;
    if c.mode.MessageMode? { AllStored(c, s); }
  }

  /** At rest between two calls every message is stored or was discarded. */
  lemma MessagesAtRest(c: Config, s: State)
    requires Inv(c, s) && AtRest(s)
    ensures if c.mode.MessageMode?
            then multiset(s.sh.stored) + multiset(c.CompressAll(s.discarded)) == multiset(c.CompressAll(s.calls))
            else s.sh.stored == s.calls
  {
    if c.mode.MessageMode? { AllStored(c, s); }
  }

  /** The queue never holds more than one message above its limit (above the thread count when
      no limit is set), so a write call drops at most once; what it discards is the caller's
      message, while the loss report names the front of the queue. */
  lemma QueueLimit(c: Config, states: seq<State>, steps: seq<Step>, k: nat)
    requires Execution(c, states, steps) && k < |states|
    ensures var s := states[k];
      && (c.queueSize > 0 ==> |s.sh.messages| <= c.queueSize + 1)
      && (c.queueSize == 0 ==> |s.sh.messages| <= c.threads + 1)
      && (c.queueSize == 0 ==> s.discarded == [])
      && (k < |steps| && steps[k].ProducerStep? && Drops(c, s) ==>
            && !Drops(c, states[k + 1])
            && s.calls != [] && states[k + 1].discarded == s.discarded + [s.calls[|s.calls| - 1]]
            && states[k + 1].sh.lossLog == s.sh.lossLog + [s.sh.messages[0].topic])
      && (k < |steps| && !(steps[k].ProducerStep? && Drops(c, s)) ==> states[k + 1].discarded == s.discarded)
  {
    RunInv(c, states, steps, k);
    if k < |steps| {
      var s, s' := states[k], states[k + 1];
      assert Follows(c, s, steps[k], s');
      RunInv(c, states, steps, k + 1);
      match steps[k]
      case ProducerStep(ch) => ProducerStepHandOver(c, s, ch, s');
      case WorkerStep(i, ch) => WorkerStepMoves(c, s, i, ch, s');
      case _ =>
    }
  }

  // ----- Files -----

  /** File mode: at every moment entry i of the list is the i-th opened file under its raw or
      its compressed name; all entries differ. */
  lemma FileListAlways(c: Config, states: seq<State>, steps: seq<Step>, k: nat)
    requires Execution(c, states, steps) && k < |states| && c.mode.FileMode?
    ensures var s := states[k];
      && |s.sh.paths| == |s.openedFiles|
      && (forall i | 0 <= i < |s.sh.paths| ::
            s.sh.paths[i] == s.openedFiles[i] || s.sh.paths[i] == c.CompressedName(s.openedFiles[i]))
      && (forall i, j | 0 <= i < j < |s.sh.paths| :: s.sh.paths[i] != s.sh.paths[j])
  {
    RunInv(c, states, steps, k);
    var s := states[k];
    forall i | 0 <= i < |s.sh.paths|
      ensures s.sh.paths[i] == s.openedFiles[i] || s.sh.paths[i] == c.CompressedName(s.openedFiles[i])
    {
      assert EntryOk(c, s, i);
    }
    forall i, j | 0 <= i < j < |s.sh.paths| ensures s.sh.paths[i] != s.sh.paths[j] {
      EntryNamedAt(c, s, i);
      EntryNamedAt(c, s, j);
      if s.sh.paths[i] == s.sh.paths[j] {
        Decimal.NamedAtUnique(s.sh.paths[i], i, j);
        assert false;
      }
    }
  }

  lemma NothingUncompressed(c: Config, s: State, x: string)
    requires forall i | 0 <= i < |s.ws| :: s.ws[i].Exited?
    requires s.sh.files == []
    ensures Uncompressed(s, x) == 0 && Total(s.ws, AfterCount(x)) == 0
  {
    TotalZero(s.ws, BeforeCount(x));
    TotalZero(s.ws, AfterCount(x));
  }

  /** File mode, after close(): every file that is not empty has its compressed name, in opening
      order; an empty one keeps its raw name. */
  lemma FileListAfterClose(c: Config, states: seq<State>, steps: seq<Step>, k: nat)
    requires Execution(c, states, steps) && k < |states| && c.mode.FileMode? && states[k].p.Closed?
    ensures var s := states[k];
      && |s.sh.paths| == |s.openedFiles|
      && forall i | 0 <= i < |s.sh.paths| ::
           s.sh.paths[i] == if s.openedFiles[i] in s.nonEmpty then c.CompressedName(s.openedFiles[i])
                            else s.openedFiles[i]
  {
    RunInv(c, states, steps, k);
    var s := states[k];
    assert s.ws[0].Exited?;
    forall i | 0 <= i < |s.sh.paths| ensures s.sh.paths[i] == FinalName(c, s, i) {
      assert EntryOk(c, s, i);
      NothingUncompressed(c, s, s.openedFiles[i]);
    }
  }

  ghost function CompressedNames(c: Config, files: seq<string>): (r: seq<string>)
    ensures |r| == |files|
  {
    seq(|files|, i requires 0 <= i < |files| => c.CompressedName(files[i]))
  }

  lemma {:induction false} CompressedNameCount(c: Config, files: seq<string>, x: string)
    ensures Occurrences(CompressedNames(c, files), c.CompressedName(x)) == Occurrences(files, x)
  {
    if files != [] {
      var rest := files[1..];
      CompressedNameCount(c, rest, x);
      CompressedNameInjective(c, files[0], x);
      assert files == [files[0]] + rest;
      assert CompressedNames(c, files) == [c.CompressedName(files[0])] + CompressedNames(c, rest);
    }
  }

  lemma ClosedOnce(s: State, x: string)
    requires Named(s)
    ensures Occurrences(ClosedBySplit(s), x) == if x in ClosedBySplit(s) then 1 else 0
  {
    var fs := ClosedBySplit(s);
    if k :| 0 <= k < |fs| && fs[k] == x {
      assert fs == fs[..k] + [x] + fs[k + 1..];
      assert x !in fs[..k] && x !in fs[k + 1..] by {
        if x in fs[..k] {
          var j :| 0 <= j < k && fs[j] == x;
          OpenedDistinct(s, j, k);
        }
        if x in fs[k + 1..] {
          var j :| k < j < |fs| && fs[j] == x;
          OpenedDistinct(s, j, k);
        }
      }
    }
  }

  lemma ReportsExact(c: Config, s: State, y: string)
    requires Inv(c, s) && c.mode.FileMode? && s.p.Closed?
    ensures Occurrences(ClosedNames(SplitCallbacks(s)), y) == Occurrences(CompressedNames(c, ClosedBySplit(s)), y)
  {
    assert s.ws[0].Exited?;
    var reported, closed := ClosedNames(SplitCallbacks(s)), CompressedNames(c, ClosedBySplit(s));
    if x :| c.CompressedName(x) == y {
      CompressedNameCount(c, ClosedBySplit(s), x);
      ClosedOnce(s, x);
      assert OnePlaceFor(c, s, x);
      NothingUncompressed(c, s, x);
    } else {
      forall k | 0 <= k < |reported| ensures reported[k] != y {
        assert CallbackOk(c, s, SplitCallbacks(s)[k]);
      }
      forall k | 0 <= k < |closed| ensures closed[k] != y {
        assert closed[k] == c.CompressedName(ClosedBySplit(s)[k]);
      }
    }
  }

  lemma AllReported(c: Config, s: State)
    requires Inv(c, s) && c.mode.FileMode? && s.p.Closed?
    ensures |SplitCallbacks(s)| == |s.openedFiles| - 1
    ensures multiset(ClosedNames(SplitCallbacks(s))) == multiset(CompressedNames(c, ClosedBySplit(s)))
    ensures forall j | 0 <= j < |SplitCallbacks(s)| :: CallbackOk(c, s, SplitCallbacks(s)[j])
  {
    forall y ensures multiset(ClosedNames(SplitCallbacks(s)))[y] == multiset(CompressedNames(c, ClosedBySplit(s)))[y] {
      ReportsExact(c, s, y);
    }
    assert multiset(ClosedNames(SplitCallbacks(s))) == multiset(CompressedNames(c, ClosedBySplit(s)));
    SameMultisetSameLength(ClosedNames(SplitCallbacks(s)), CompressedNames(c, ClosedBySplit(s)));
  }

  /** File mode: once the threads are joined each split has led to exactly one callback, whose
      closed file is the compressed name; when that file was not empty the callback's new file is
      the next entry of the list, which exists, under its raw or compressed name. The last file
      gets its own callback, with no successor, under its name in the final list. */
  lemma OneCallbackPerSplit(c: Config, states: seq<State>, steps: seq<Step>, k: nat)
    requires Execution(c, states, steps) && k < |states| && c.mode.FileMode? && states[k].p.Closed?
    ensures var s := states[k];
      && |s.sh.callbacks| == |s.openedFiles| > 0
      && multiset(ClosedNames(SplitCallbacks(s))) == multiset(CompressedNames(c, ClosedBySplit(s)))
      && (forall j | 0 <= j < |s.sh.callbacks| - 1 :: CallbackOk(c, s, s.sh.callbacks[j]))
      && s.sh.callbacks[|s.sh.callbacks| - 1] == BagSplit(FinalName(c, s, Last(s)), "")
  {
    RunInv(c, states, steps, k);
    AllReported(c, states[k]);
    assert EntryOk(c, states[k], Last(states[k]));
  }

  /** Message mode: the list is at all times the list of opened files, and the callbacks name
      each file with its successor, in order. */
  lemma MessageModeFileList(c: Config, states: seq<State>, steps: seq<Step>, k: nat)
    requires Execution(c, states, steps) && k < |states| && c.mode.MessageMode?
    ensures var s := states[k];
      && s.sh.paths == s.openedFiles && |SplitCallbacks(s)| == |s.openedFiles| - 1
      && (forall j | 0 <= j < |s.openedFiles| - 1 ::
            SplitCallbacks(s)[j] == BagSplit(s.openedFiles[j], s.openedFiles[j + 1]))
      && (s.p.Closed? ==> s.sh.callbacks == SplitCallbacks(s) + [BagSplit(s.openedFiles[Last(s)], "")])
  {
    RunInv(c, states, steps, k);
  }

  // ----- Threads -----

  ghost predicate WaitsForStorage(s: State, t: Thread) {
    match t
    case ProducerThread => s.p.WantsStorage? || s.p.WantsStorageToFlush? || s.p.WantsStorageToRename?
    case WorkerThread(i) =>
      i < |s.ws| && (s.ws[i].WantsStore? || s.ws[i].WantsRename? || s.ws[i].WantsLookup?)
  }

  lemma WaitersHoldNothing(s: State, t: Thread)
    requires Locks(s) && WaitsForStorage(s, t)
    ensures s.queueOwner != Some(t) && s.storageOwner != Some(t)
  {
  }

  /** No two threads hold the same mutex. */
  ghost predicate MutualExclusion(s: State) {
    && (forall i: nat, j: nat | i < j < |s.ws| :: WorkersExclude(s.ws[i], s.ws[j]))
    && (forall i: nat | i < |s.ws| :: ProducerExcludes(s.p, s.ws[i]))
  }

  predicate WorkersExclude(v: Worker, w: Worker) {
    !(WorkerHoldsQueue(v) && WorkerHoldsQueue(w)) && (WorkerDepth(v) == 0 || WorkerDepth(w) == 0)
  }

  predicate ProducerExcludes(p: Producer, w: Worker) {
    !(WorkerHoldsQueue(w) && ProducerHoldsQueue(p)) && (WorkerDepth(w) == 0 || ProducerDepth(p) == 0)
  }

  lemma LocksExclude(s: State)
    requires Locks(s)
    ensures MutualExclusion(s)
  {
    forall i: nat, j: nat | i < j < |s.ws| ensures WorkersExclude(s.ws[i], s.ws[j]) {
      assert s.queueOwner == Some(WorkerThread(i)) <==> WorkerHoldsQueue(s.ws[i]);
      assert s.storageOwner == Some(WorkerThread(i)) <==> WorkerDepth(s.ws[i]) > 0;
    }
  }

  /** A thread that waits for the storage mutex does not hold the queue mutex; the mutexes are
      held by at most one thread each; whenever work is queued some worker is awake, and a
      producer that waits for room finds the queue non-empty. */
  lemma MutexesAndWakeUps(c: Config, states: seq<State>, steps: seq<Step>, k: nat)
    requires Execution(c, states, steps) && k < |states|
    ensures var s := states[k];
      && (forall t :: WaitsForStorage(s, t) ==> s.queueOwner != Some(t) && s.storageOwner != Some(t))
      && MutualExclusion(s)
      && (s.sh.HasWork() ==> exists i :: 0 <= i < |s.ws| && !s.ws[i].Asleep? && !s.ws[i].Exited?)
      && Total(s.ws, AwakeCount) >= Min(|s.ws|, if s.sh.HasWork() then WorkLoad(s.sh) + Total(s.ws, BusyCount) else 0)
      && (s.p.WaitsForRoom? ==> s.sh.messages != [])
  {
    RunInv(c, states, steps, k);
    var s := states[k];
    forall t | WaitsForStorage(s, t) { WaitersHoldNothing(s, t); }
    LocksExclude(s);
    if s.sh.HasWork() {
      var i := SomeoneAwake(s.ws);
    }
  }

  /** No deadlock: in every reachable state a thread can go on, unless no call is running, all
      threads sleep or have ended, and both queues are empty. */
  lemma NeverStuck(c: Config, states: seq<State>, steps: seq<Step>, k: nat)
    requires Execution(c, states, steps) && k < |states|
    ensures CanMove(c, states[k]) || AtRest(states[k])
  {
    RunInv(c, states, steps, k);
    NoDeadlock(c, states[k]);
  }

  ghost predicate NoNewCall(st: Step) { !st.BeginWrite? && !st.BeginSplit? && !st.BeginClose? }

  function CountSteps(steps: seq<Step>, internal: bool): nat {
    if steps == [] then 0
    else (if Internal(steps[0]) == internal then 1 else 0) + CountSteps(steps[1..], internal)
  }

  ghost predicate Run(c: Config, states: seq<State>, steps: seq<Step>) {
    && |states| == |steps| + 1
    && forall k | 0 <= k < |steps| :: Follows(c, states[k], steps[k], states[k + 1])
  }

  lemma RunTail(c: Config, states: seq<State>, steps: seq<Step>)
    requires Run(c, states, steps) && steps != []
    ensures Follows(c, states[0], steps[0], states[1]) && Run(c, states[1..], steps[1..])
  {
    forall k | 0 <= k < |steps[1..]| ensures Follows(c, states[1..][k], steps[1..][k], states[1..][k + 1]) {
      assert Follows(c, states[k + 1], steps[k + 1], states[k + 2]);
    }
  }

  lemma StepBound(c: Config, s: State, st: Step, s': State)
    requires Inv(c, s) && Follows(c, s, st, s') && NoNewCall(st)
    ensures Inv(c, s') && if Internal(st) then Rank(s') < Rank(s) else Rank(s') == Rank(s) + 2
  {
    StepInv(c, s, st, s');
    StepRank(c, s, st, s');
  }

  /** Between calls, and inside one, the threads come to rest: from any reachable state, every
      schedule without new calls has at most Rank many steps, plus two per spurious wake-up. */
  lemma {:induction false} BoundedRun(c: Config, states: seq<State>, steps: seq<Step>)
    requires Run(c, states, steps) && Inv(c, states[0])
    requires forall k | 0 <= k < |steps| :: NoNewCall(steps[k])
    ensures CountSteps(steps, true) + Rank(states[|steps|]) <= Rank(states[0]) + 2 * CountSteps(steps, false)
    ensures Inv(c, states[|steps|])
    decreases |steps|
  {
    if steps != [] {
      RunTail(c, states, steps);
      StepBound(c, states[0], steps[0], states[1]);
      BoundedRun(c, states[1..], steps[1..]);
    }
  }

  predicate Closing(p: Producer) { p.WantsQueueToStop? || p.Stopping? || AfterStop(p) }

  lemma {:induction false} ClosingStays(c: Config, states: seq<State>, steps: seq<Step>)
    requires Run(c, states, steps) && Closing(states[0].p)
    ensures Closing(states[|steps|].p)
    decreases |steps|
  {
    if steps != [] {
      RunTail(c, states, steps);
      ClosingStep(c, states[0], steps[0], states[1]);
      ClosingStays(c, states[1..], steps[1..]);
    }
  }

  lemma WorkerLeavesProducer(c: Config, s: State, i: nat, ch: Choice, s': State)
    requires Follows(c, s, WorkerStep(i, ch), s')
    ensures s'.p == s.p || s'.p == WakeProducer(s.p)
  {
  }

  lemma ClosingStep(c: Config, s: State, st: Step, s': State)
    requires Closing(s.p) && Follows(c, s, st, s')
    ensures Closing(s'.p) && NoNewCall(st)
  {
    match st
    case ProducerStep(ch) => assert s' == CloseNext(c, s, ch);
    case WorkerStep(i, ch) => WorkerLeavesProducer(c, s, i, ch, s');
    case _ =>
  }

  /** close() completes: a schedule from its call on that cannot be continued has ended with
      every thread joined, and every schedule ends after boundedly many steps. */
  lemma CloseCompletes(c: Config, states: seq<State>, steps: seq<Step>)
    requires Run(c, states, steps) && Inv(c, states[0]) && states[0].p.WantsQueueToStop?
    ensures CountSteps(steps, true) <= Rank(states[0]) + 2 * CountSteps(steps, false)
    ensures !CanMove(c, states[|steps|]) ==>
      states[|steps|].p.Closed? && forall i | 0 <= i < |states[|steps|].ws| :: states[|steps|].ws[i].Exited?
  {
    AllClosing(c, states, steps);
    BoundedRun(c, states, steps);
    ClosingStays(c, states, steps);
    NoDeadlock(c, states[|steps|]);
  }

  lemma {:induction false} AllClosing(c: Config, states: seq<State>, steps: seq<Step>)
    requires Run(c, states, steps) && Closing(states[0].p)
    ensures forall k | 0 <= k < |steps| :: NoNewCall(steps[k])
    decreases |steps|
  {
    if steps != [] {
      RunTail(c, states, steps);
      ClosingStep(c, states[0], steps[0], states[1]);
      AllClosing(c, states[1..], steps[1..]);
      forall k | 0 <= k < |steps| ensures NoNewCall(steps[k]) {
        if k > 0 { assert steps[k] == steps[1..][k - 1]; }
      }
    }
  }
}
