/**
 * Progress of the compressing writer: sleeping threads are woken for every piece of work,
 * the two mutexes and the condition variable never deadlock, and without new calls every
 * schedule comes to rest within a number of steps known beforehand, with all queues empty.
 */
module CompressionProgress {
  import opened Basics
  import opened CompressionProtocol
  import opened CompressionThreads

  // ----- No lost wake-up -----

  function AwakeCount(w: Worker): nat { if w.Asleep? || w.Exited? then 0 else 1 }

  function BusyCount(w: Worker): nat { if Busy(w) then 1 else 0 }

  function WorkLoad(sh: Shared): nat { |sh.messages| + |sh.files| }

  /** As many threads are awake as there is work queued or under way, up to all of them. */
  ghost predicate Balanced(s: State) {
    s.sh.HasWork() ==>
      Total(s.ws, AwakeCount) >= Min(|s.ws|, WorkLoad(s.sh) + Total(s.ws, BusyCount))
  }

  lemma BusyIsAwake(ws: seq<Worker>)
    ensures Total(ws, BusyCount) <= Total(ws, AwakeCount)
  {
    TotalMonotone(ws, ws, BusyCount, AwakeCount);
  }

  lemma {:induction false} AllAwake(ws: seq<Worker>)
    requires forall i | 0 <= i < |ws| :: !ws[i].Asleep? && !ws[i].Exited?
    ensures Total(ws, AwakeCount) == |ws|
  {
    if ws != [] { AllAwake(ws[1..]); }
  }

  /** What a worker step means for the balance of work and threads, and for the rank below. */
  ghost predicate LoadMove(s: State, s': State, i: nat)
    requires i < |s.ws| == |s'.ws|
  {
    var w, w' := s.ws[i], s'.ws[i];
    && (WorkLoad(s'.sh) + BusyCount(w') <= WorkLoad(s.sh) + BusyCount(w))
    && (|| 9 * WorkLoad(s'.sh) + JobRank(w') < 9 * WorkLoad(s.sh) + JobRank(w)
        || (&& 9 * WorkLoad(s'.sh) + JobRank(w') == 9 * WorkLoad(s.sh) + JobRank(w)
            && s'.ws == s.ws[i := w'] && s'.p == s.p && IdleRank(w') < IdleRank(w)))
  }

  lemma WorkerStepLoad(c: Config, s: State, i: nat, ch: Choice, s': State)
    requires Phases(c, s) && Follows(c, s, WorkerStep(i, ch), s') && |s'.ws| == |s.ws|
    ensures LoadMove(s, s', i)
  {
    if HandlesMessage(s.ws[i]) {
      MessageStepLoad(c, s, i, ch, s');
    } else if HandlesFile(s.ws[i]) {
      FileStepLoad(c, s, i, s');
    }
  }

  lemma MessageStepLoad(c: Config, s: State, i: nat, ch: Choice, s': State)
    requires i < |s.ws| == |s'.ws| && HandlesMessage(s.ws[i]) && s' == MessageNext(c, s, i, ch)
    requires c.mode.MessageMode?
    ensures LoadMove(s, s', i)
  {
  }

  lemma FileStepLoad(c: Config, s: State, i: nat, s': State)
    requires i < |s.ws| == |s'.ws| && HandlesFile(s.ws[i]) && s' == FileNext(c, s, i)
    ensures LoadMove(s, s', i)
  {
  }

  /** Apart from its own change a worker step wakes threads, so none of the others falls asleep. */
  lemma WorkerMoveAwake(s: State, s': State, i: nat)
    requires i < |s.ws| && OnlyWoken(s, s', i)
    ensures Total(s'.ws, AwakeCount) + AwakeCount(s.ws[i]) >= Total(s.ws, AwakeCount) + AwakeCount(s'.ws[i])
  {
    var us := s'.ws[i := s.ws[i]];
    assert us[i := s'.ws[i]] == s'.ws;
    TotalUpdate(us, AwakeCount, i, s'.ws[i]);
    TotalMonotone(s.ws, us, AwakeCount, AwakeCount);
  }

  lemma WorkerMoveBusy(s: State, s': State, i: nat)
    requires i < |s.ws| && OnlyWoken(s, s', i)
    ensures Total(s'.ws, BusyCount) + BusyCount(s.ws[i]) <= Total(s.ws, BusyCount) + BusyCount(s'.ws[i])
  {
    var us := s'.ws[i := s.ws[i]];
    assert us[i := s'.ws[i]] == s'.ws;
    TotalUpdate(us, BusyCount, i, s'.ws[i]);
    TotalMonotone(us, s.ws, BusyCount, BusyCount);
  }

  lemma BalancedWorkerMove(c: Config, s: State, i: nat, s': State)
    requires Phases(c, s) && Balanced(s) && i < |s.ws|
    requires WorkerMove(s, s', i) && JobMove(c, s, s', i) && LoadMove(s, s', i)
    ensures Balanced(s')
  {
    WorkerMoveAwake(s, s', i);
    WorkerMoveBusy(s, s', i);
    BusyIsAwake(s'.ws);
  }

  lemma WakeOneTotals(ws: seq<Worker>, wake: Option<nat>)
    requires WakeOk(ws, wake)
    ensures Total(WakeOne(ws, wake), BusyCount) == Total(ws, BusyCount)
    ensures wake.Some? ==> Total(WakeOne(ws, wake), AwakeCount) == Total(ws, AwakeCount) + 1
  {
    if wake.Some? {
      TotalUpdate(ws, BusyCount, wake.value, WantsQueue);
      TotalUpdate(ws, AwakeCount, wake.value, WantsQueue);
    }
  }

  lemma BalancedPush(c: Config, s: State, s': State, wake: Option<nat>)
    requires Phases(c, s) && Balanced(s) && s.sh.running
    requires WakeOk(s.ws, wake) && s'.ws == WakeOne(s.ws, wake)
    requires WorkLoad(s'.sh) == WorkLoad(s.sh) + 1
    ensures Balanced(s')
  {
    WakeOneTotals(s.ws, wake);
    BusyIsAwake(s.ws);
    if wake.None? { AllAwake(s.ws); }
  }

  lemma BalancedNoPush(s: State, s': State)
    requires Balanced(s) && OnlyWoken(s, s', |s.ws|) && WorkLoad(s'.sh) <= WorkLoad(s.sh)
    ensures Balanced(s')
  {
    TotalMonotone(s.ws, s'.ws, AwakeCount, AwakeCount);
    TotalMonotone(s'.ws, s.ws, BusyCount, BusyCount);
  }

  predicate Pushes(c: Config, s: State) {
    || (s.p.Writing? && !s.sh.MustDrop(c.queueSize) && !s.sh.MustWait(c.queueSize, c.threads))
    || (s.p.Splitting? && c.mode.FileMode?)
  }

  lemma ProducerStepLoad(c: Config, s: State, ch: Choice, s': State)
    requires Follows(c, s, ProducerStep(ch), s')
    ensures if Pushes(c, s) then s'.ws == WakeOne(s.ws, ch.wake) && WorkLoad(s'.sh) == WorkLoad(s.sh) + 1
            else WorkLoad(s'.sh) <= WorkLoad(s.sh)
  {
    if !StorageCall(s.p) && !(s.p.WantsQueueToWrite? || s.p.Writing?) {
      CloseLoad(c, s, ch);
    }
  }

  lemma CloseLoad(c: Config, s: State, ch: Choice)
    ensures WorkLoad(CloseNext(c, s, ch).sh) == WorkLoad(s.sh)
  {
  }

  lemma BalancedStep(c: Config, s: State, st: Step, s': State)
    requires Phases(c, s) && Locks(s) && Balanced(s) && Follows(c, s, st, s')
    ensures Balanced(s')
  {
    match st
    case WorkerStep(i, ch) =>
      WorkerStepMoves(c, s, i, ch, s');
      WorkerStepJob(c, s, i, ch, s');
      WorkerStepLoad(c, s, i, ch, s');
      BalancedWorkerMove(c, s, i, s');
    case ProducerStep(ch) =>
      ProducerStepMoves(c, s, ch, s');
      ProducerStepLoad(c, s, ch, s');
      if Pushes(c, s) {
        BalancedPush(c, s, s', ch.wake);
      } else {
        BalancedNoPush(s, s');
      }
    case _ =>
      BalancedNoPush(s, s');
  }

  // ----- Rank -----

  function JobRank(w: Worker): nat {
    match w
    case Compressing(_) => 8
    case WantsStore(_) => 7
    case Storing(_) => 6
    case WWantsQueueToSplit(_) => 5
    case WSplitting(_) => 4
    case WSplitDone(_) => 3
    case GotFile(_) => 8
    case WantsRename(_) => 7
    case Renaming(_) => 6
    case WantsLookup(_) => 5
    case LookingUp(_) => 4
    case Calling(_, _) => 3
    case _ => 0
  }

  function IdleRank(w: Worker): nat { if w.WantsQueue? then 2 else if w.Inspecting? then 1 else 0 }

  function CallRank(p: Producer, threads: nat): nat {
    match p
    case WantsQueueToWrite(_) => 10
    case Writing(_) => 10
    case WaitsForRoom(_) => 10
    case WantsStorage(_) => 15
    case HasStorage(_) => 14
    case WantsQueueToSplit(_) => 13
    case Splitting(_) => 12
    case SplitDone(_) => 1
    case WantsQueueToStop => 10 + threads
    case Stopping => 9 + threads
    case StopNotifies => 8 + threads
    case Joining(k) => 7 + Max(0, threads - k)
    case WantsStorageToFlush => 6
    case Flushing => 5
    case CompressesLast => 4
    case WantsStorageToRename(_) => 3
    case RenamesLast(_) => 2
    case BaseClose => 1
    case _ => 0
  }

  function CallIdleRank(p: Producer): nat {
    if p.WantsQueueToWrite? then 2 else if p.Writing? then 1 else 0
  }

  ghost function WorkRank(s: State): nat {
    9 * WorkLoad(s.sh) + Total(s.ws, JobRank) + CallRank(s.p, |s.ws|)
  }

  ghost function RestRank(s: State): nat { Total(s.ws, IdleRank) + CallIdleRank(s.p) }

  /** A bound on how many more steps the threads can take by themselves. */
  ghost function Rank(s: State): nat { WorkRank(s) * (2 * |s.ws| + 3) + RestRank(s) }

  lemma {:induction false} IdleBound(ws: seq<Worker>)
    ensures Total(ws, IdleRank) <= 2 * |ws|
  {
    if ws != [] { IdleBound(ws[1..]); }
  }

  lemma ProductGap(a: nat, b: nat, k: nat)
    requires a < b
    ensures a * k + k <= b * k
  {
    assert b * k == a * k + (b - a) * k;
    assert (b - a) * k == k + (b - a - 1) * k;
  }

  lemma RankDrops(s: State, s': State)
    requires |s.ws| == |s'.ws|
    requires WorkRank(s') < WorkRank(s) || (WorkRank(s') == WorkRank(s) && RestRank(s') < RestRank(s))
    ensures Rank(s') < Rank(s)
  {
    IdleBound(s'.ws);
    if WorkRank(s') < WorkRank(s) {
      ProductGap(WorkRank(s'), WorkRank(s), 2 * |s.ws| + 3);
    }
  }

  lemma WorkerRank(s: State, i: nat, s': State)
    requires i < |s.ws| && WorkerMove(s, s', i) && LoadMove(s, s', i)
    ensures Rank(s') < Rank(s)
  {
    var us := s'.ws[i := s.ws[i]];
    assert us[i := s'.ws[i]] == s'.ws;
    TotalUpdate(us, JobRank, i, s'.ws[i]);
    TotalMonotone(us, s.ws, JobRank, JobRank);
    TotalMonotone(s.ws, us, JobRank, JobRank);
    if s'.ws == s.ws[i := s'.ws[i]] {
      TotalUpdate(s.ws, IdleRank, i, s'.ws[i]);
    }
    RankDrops(s, s');
  }

  /** How a producer step trades the rank of its call against the work it queues. */
  ghost predicate CallMove(s: State, s': State) {
    var n := |s.ws|;
    || 9 * WorkLoad(s'.sh) + CallRank(s'.p, n) < 9 * WorkLoad(s.sh) + CallRank(s.p, n)
    || (&& 9 * WorkLoad(s'.sh) + CallRank(s'.p, n) == 9 * WorkLoad(s.sh) + CallRank(s.p, n)
        && s'.ws == s.ws && CallIdleRank(s'.p) < CallIdleRank(s.p))
  }

  lemma ProducerStepCall(c: Config, s: State, ch: Choice, s': State)
    requires Phases(c, s) && Follows(c, s, ProducerStep(ch), s')
    ensures CallMove(s, s')
  {
    if StorageCall(s.p) {
      StorageCallCall(c, s, ch, s');
    } else if !(s.p.WantsQueueToWrite? || s.p.Writing?) {
      CloseCall(c, s, ch, s');
    }
  }

  lemma StorageCallCall(c: Config, s: State, ch: Choice, s': State)
    requires StorageCall(s.p) && s' == StorageCallNext(c, s, ch)
    ensures CallMove(s, s')
  {
  }

  lemma CloseCall(c: Config, s: State, ch: Choice, s': State)
    requires ProducerEnabled(c, s, ch) && s' == CloseNext(c, s, ch)
    requires !StorageCall(s.p) && !s.p.WantsQueueToWrite? && !s.p.Writing?
    ensures CallMove(s, s')
  {
  }

  lemma ProducerRank(s: State, s': State)
    requires ProducerMove(s, s') && CallMove(s, s')
    ensures Rank(s') < Rank(s)
  {
    TotalMonotone(s'.ws, s.ws, JobRank, JobRank);
    RankDrops(s, s');
  }

  predicate Internal(st: Step) { st.ProducerStep? || st.WorkerStep? }

  lemma StepRank(c: Config, s: State, st: Step, s': State)
    requires Phases(c, s) && Locks(s) && Follows(c, s, st, s') && !(st.BeginWrite? || st.BeginSplit? || st.BeginClose?)
    ensures if Internal(st) then Rank(s') < Rank(s) else Rank(s') == Rank(s) + 2
  {
    match st
    case WorkerStep(i, ch) =>
      WorkerStepMoves(c, s, i, ch, s');
      WorkerStepLoad(c, s, i, ch, s');
      WorkerRank(s, i, s');
    case ProducerStep(ch) =>
      ProducerStepMoves(c, s, ch, s');
      ProducerStepCall(c, s, ch, s');
      ProducerRank(s, s');
    case SpuriousWake(i) =>
      TotalUpdate(s.ws, JobRank, i, WantsQueue);
      TotalUpdate(s.ws, IdleRank, i, WantsQueue);
    case SpuriousProducerWake =>
  }

  // ----- No deadlock -----

  /** Nothing is left to do: no call is running and every thread sleeps or has exited. */
  ghost predicate AtRest(s: State) {
    && (s.p.Idle? || s.p.Closed?)
    && (forall i | 0 <= i < |s.ws| :: s.ws[i].Asleep? || s.ws[i].Exited?)
    && !s.sh.HasWork()
  }

  ghost predicate CanMove(c: Config, s: State) {
    exists st :: Internal(st) && Enabled(c, s, st)
  }

  lemma SomeWake(ws: seq<Worker>) returns (ch: Choice)
    ensures WakeOk(ws, ch.wake)
  {
    if i: nat :| i < |ws| && ws[i].Asleep? {
      ch := Choice(false, "", false, Some(i));
    } else {
      ch := Choice(false, "", false, None);
    }
  }

  lemma WorkerCanMove(c: Config, s: State, i: nat)
    requires i < |s.ws| && WorkerEnabled(s, i)
    ensures CanMove(c, s)
  {
    assert Enabled(c, s, WorkerStep(i, Choice(false, "", false, None)));
  }

  lemma ProducerCanMove(c: Config, s: State, ch: Choice)
    requires ProducerEnabled(c, s, ch)
    ensures CanMove(c, s)
  {
    assert Enabled(c, s, ProducerStep(ch));
  }

  lemma {:induction false} SomeoneAwake(ws: seq<Worker>) returns (i: nat)
    requires Total(ws, AwakeCount) > 0
    ensures i < |ws| && !ws[i].Asleep? && !ws[i].Exited?
  {
    if AwakeCount(ws[0]) > 0 {
      i := 0;
    } else {
      var j := SomeoneAwake(ws[1..]);
      i := j + 1;
    }
  }

  /** A mutex owner can always go on, or waits only for the other, free, mutex. */
  lemma OwnerCanMove(c: Config, s: State)
    requires Phases(c, s) && Locks(s)
    requires s.queueOwner.Some? || s.storageOwner.Some?
    ensures CanMove(c, s)
  {
    var ch := SomeWake(s.ws);
    var owner := if s.queueOwner.Some? then s.queueOwner.value else s.storageOwner.value;
    match owner
    case ProducerThread => ProducerCanMove(c, s, ch);
    case WorkerThread(i) => WorkerCanMove(c, s, i);
  }

  /** Deadlock freedom: either some thread can take a step, or everything is done. */
  lemma NoDeadlock(c: Config, s: State)
    requires Phases(c, s) && Locks(s) && Balanced(s)
    ensures CanMove(c, s) || AtRest(s)
  {
    if s.queueOwner.Some? || s.storageOwner.Some? {
      OwnerCanMove(c, s);
    } else if i: nat :| i < |s.ws| && !s.ws[i].Asleep? && !s.ws[i].Exited? {
      WorkerCanMove(c, s, i);
    } else {
      if s.sh.HasWork() {
        assert Total(s.ws, AwakeCount) > 0;
        var j := SomeoneAwake(s.ws);
        assert false;
      }
      var ch := SomeWake(s.ws);
      if !s.p.Idle? && !s.p.Closed? {
        ProducerCanMove(c, s, ch);
      }
    }
  }
}
