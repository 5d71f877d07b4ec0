/**
 * What every reachable state of the writer keeps about its threads: who owns which mutex,
 * which phase producer and workers are in, and who may be asleep. From these: no deadlock,
 * no lost wake-up, and every call ends within a bounded number of steps.
 */
module CompressionThreads {
  import opened Basics
  import opened CompressionProtocol

  // ----- Mutexes -----

  predicate ProducerHoldsQueue(p: Producer) { p.Writing? || p.Splitting? || p.Stopping? }

  function ProducerDepth(p: Producer): nat {
    match p
    case HasStorage(_) => 1
    case WantsQueueToSplit(_) => 2
    case Splitting(_) => 2
    case SplitDone(_) => 1
    case Flushing => 1
    case RenamesLast(_) => 1
    case _ => 0
  }

  predicate WorkerHoldsQueue(w: Worker) { w.Inspecting? || w.WSplitting? }

  function WorkerDepth(w: Worker): nat {
    match w
    case Storing(_) => 1
    case WWantsQueueToSplit(_) => 2
    case WSplitting(_) => 2
    case WSplitDone(_) => 1
    case Renaming(_) => 1
    case LookingUp(_) => 1
    case _ => 0
  }

  /** The recorded owners are exactly the threads whose program position holds the mutex, so
      at most one thread is inside each mutex, and the recursion count is that thread's. */
  ghost predicate Locks(s: State) {
    && (s.queueOwner == Some(ProducerThread) <==> ProducerHoldsQueue(s.p))
    && (forall i: nat | i < |s.ws| :: s.queueOwner == Some(WorkerThread(i)) <==> WorkerHoldsQueue(s.ws[i]))
    && (s.storageOwner == Some(ProducerThread) <==> ProducerDepth(s.p) > 0)
    && (forall i: nat | i < |s.ws| :: s.storageOwner == Some(WorkerThread(i)) <==> WorkerDepth(s.ws[i]) > 0)
    && s.storageDepth == OwnerDepth(s)
    && OwnerExists(s, s.queueOwner) && OwnerExists(s, s.storageOwner)
  }

  ghost predicate OwnerExists(s: State, owner: Option<Thread>) {
    owner.Some? && owner.value.WorkerThread? ==> owner.value.index < |s.ws|
  }

  ghost function OwnerDepth(s: State): nat {
    match s.storageOwner
    case None => 0
    case Some(ProducerThread) => ProducerDepth(s.p)
    case Some(WorkerThread(i)) => if i < |s.ws| then WorkerDepth(s.ws[i]) else 0
  }

  /** A thread whose position goes from (held, depth) to (held', depth') changes the owners
      accordingly; it takes a mutex only when that is free or, for storage, already its own. */
  ghost predicate MutexMove(s: State, s': State, t: Thread, held: bool, held': bool, depth: nat, depth': nat) {
    && (held == held' ==> s'.queueOwner == s.queueOwner)
    && (!held && held' ==> s.queueOwner.None? && s'.queueOwner == Some(t))
    && (held && !held' ==> s'.queueOwner.None?)
    && (depth == depth' ==> s'.storageOwner == s.storageOwner && s'.storageDepth == s.storageDepth)
    && (depth' > depth ==>
          && depth' == depth + 1 && (depth == 0 ==> s.storageOwner.None?)
          && s'.storageOwner == Some(t) && s'.storageDepth == s.storageDepth + 1)
    && (depth' < depth ==>
          && depth' == depth - 1 && s'.storageDepth == depth'
          && s'.storageOwner == if depth' == 0 then None else s.storageOwner)
  }

  /** Threads other than the moving one change only by being woken. */
  ghost predicate OnlyWoken(s: State, s': State, except: nat) {
    && |s'.ws| == |s.ws|
    && forall j | 0 <= j < |s.ws| && j != except ::
         s'.ws[j] == s.ws[j] || (s.ws[j].Asleep? && s'.ws[j].WantsQueue?)
  }

  ghost predicate WorkerMove(s: State, s': State, i: nat)
    requires i < |s.ws|
  {
    && OnlyWoken(s, s', i)
    && (s'.p == s.p || s'.p == WakeProducer(s.p))
    && MutexMove(s, s', WorkerThread(i), WorkerHoldsQueue(s.ws[i]), WorkerHoldsQueue(s'.ws[i]),
                 WorkerDepth(s.ws[i]), WorkerDepth(s'.ws[i]))
    && s'.sh.running == s.sh.running && s'.calls == s.calls && s'.discarded == s.discarded
  }

  ghost predicate ProducerMove(s: State, s': State) {
    && OnlyWoken(s, s', |s.ws|)
    && MutexMove(s, s', ProducerThread, ProducerHoldsQueue(s.p), ProducerHoldsQueue(s'.p),
                 ProducerDepth(s.p), ProducerDepth(s'.p))
  }

  lemma WorkerStepMoves(c: Config, s: State, i: nat, ch: Choice, s': State)
    requires Follows(c, s, WorkerStep(i, ch), s')
    requires WorkerDepth(s.ws[i]) > 0 ==> s.storageDepth == WorkerDepth(s.ws[i])
    ensures WorkerMove(s, s', i)
  {
    if HandlesMessage(s.ws[i]) {
      MessageStepMoves(c, s, i, ch, s');
    } else if HandlesFile(s.ws[i]) {
      FileStepMoves(c, s, i, s');
    }
  }

  lemma MessageStepMoves(c: Config, s: State, i: nat, ch: Choice, s': State)
    requires i < |s.ws| && WorkerEnabled(s, i) && HandlesMessage(s.ws[i]) && s' == MessageNext(c, s, i, ch)
    requires WorkerDepth(s.ws[i]) > 0 ==> s.storageDepth == WorkerDepth(s.ws[i])
    ensures WorkerMove(s, s', i)
  {
  }

  lemma FileStepMoves(c: Config, s: State, i: nat, s': State)
    requires i < |s.ws| && WorkerEnabled(s, i) && HandlesFile(s.ws[i]) && s' == FileNext(c, s, i)
    requires WorkerDepth(s.ws[i]) > 0 ==> s.storageDepth == WorkerDepth(s.ws[i])
    ensures WorkerMove(s, s', i)
  {
  }

  lemma ProducerStepMoves(c: Config, s: State, ch: Choice, s': State)
    requires Follows(c, s, ProducerStep(ch), s')
    requires ProducerDepth(s.p) > 0 ==> s.storageDepth == ProducerDepth(s.p)
    ensures ProducerMove(s, s')
  {
    if StorageCall(s.p) {
      StorageCallMoves(c, s, ch, s');
    } else if !(s.p.WantsQueueToWrite? || s.p.Writing?) {
      CloseMoves(c, s, ch, s');
    }
  }

  lemma StorageCallMoves(c: Config, s: State, ch: Choice, s': State)
    requires ProducerEnabled(c, s, ch) && StorageCall(s.p) && s' == StorageCallNext(c, s, ch)
    requires ProducerDepth(s.p) > 0 ==> s.storageDepth == ProducerDepth(s.p)
    ensures ProducerMove(s, s')
  {
  }

  lemma CloseMoves(c: Config, s: State, ch: Choice, s': State)
    requires ProducerEnabled(c, s, ch) && s' == CloseNext(c, s, ch)
    requires !StorageCall(s.p) && !s.p.WantsQueueToWrite? && !s.p.Writing?
    requires ProducerDepth(s.p) > 0 ==> s.storageDepth == ProducerDepth(s.p)
    ensures ProducerMove(s, s')
  {
  }

  lemma LocksStep(c: Config, s: State, st: Step, s': State)
    requires Locks(s) && Follows(c, s, st, s')
    ensures Locks(s')
  {
    match st
    case WorkerStep(i, ch) =>
      WorkerStepMoves(c, s, i, ch, s');
      LocksWorkerMove(s, i, s');
    case ProducerStep(ch) =>
      ProducerStepMoves(c, s, ch, s');
      LocksProducerMove(s, s');
    case _ =>
  }

  lemma LocksWorkerMove(s: State, i: nat, s': State)
    requires Locks(s) && i < |s.ws| && WorkerMove(s, s', i)
    ensures Locks(s')
  {
  }

  lemma LocksProducerMove(s: State, s': State)
    requires Locks(s) && ProducerMove(s, s')
    ensures Locks(s')
  {
  }

  // ----- Phases -----

  predicate AfterStop(p: Producer) {
    p.StopNotifies? || AfterNotify(p)
  }

  predicate AfterNotify(p: Producer) { p.Joining? || AfterJoin(p) }

  predicate AfterJoin(p: Producer) {
    || p.WantsStorageToFlush? || p.Flushing? || p.CompressesLast? || p.WantsStorageToRename?
    || p.RenamesLast? || p.BaseClose? || p.Closed?
  }

  predicate Busy(w: Worker) { HandlesMessage(w) || HandlesFile(w) }

  ghost predicate Phases(c: Config, s: State) {
    && c.Valid()
    && |s.ws| == c.threads
    && (s.sh.running <==> !AfterStop(s.p))
    && (forall i | 0 <= i < |s.ws| :: s.ws[i].Exited? ==> !s.sh.running && !s.sh.HasWork())
    && (AfterNotify(s.p) ==> forall i | 0 <= i < |s.ws| :: !s.ws[i].Asleep?)
    && (s.p.Joining? ==> s.p.next <= |s.ws| && forall i | 0 <= i < s.p.next :: s.ws[i].Exited?)
    && (AfterJoin(s.p) ==> forall i | 0 <= i < |s.ws| :: s.ws[i].Exited?)
    && (s.p.WaitsForRoom? ==> s.sh.MustWait(c.queueSize, c.threads))
    && ModeOk(c, s)
  }

  /** Each mode uses its own queue, worker jobs and producer calls only. */
  ghost predicate ModeOk(c: Config, s: State) {
    if c.mode.FileMode? then
      && s.sh.messages == []
      && (forall i | 0 <= i < |s.ws| :: !HandlesMessage(s.ws[i]))
      && !s.p.WantsQueueToWrite? && !s.p.Writing? && !s.p.WaitsForRoom?
    else
      && s.sh.files == []
      && (forall i | 0 <= i < |s.ws| :: !HandlesFile(s.ws[i]))
      && (s.p.WantsStorage? || s.p.HasStorage? || s.p.WantsQueueToSplit? || s.p.Splitting? || s.p.SplitDone?
          ==> s.p.hand == None)
      && (AfterJoin(s.p) ==> s.p.BaseClose? || s.p.Closed?)
  }

  lemma PhasesStep(c: Config, s: State, st: Step, s': State)
    requires Phases(c, s) && Locks(s) && Follows(c, s, st, s')
    ensures Phases(c, s')
  {
    match st
    case WorkerStep(i, ch) =>
      WorkerStepMoves(c, s, i, ch, s');
      WorkerStepJob(c, s, i, ch, s');
      PhasesWorkerStep(c, s, i, s');
    case ProducerStep(ch) => PhasesProducerStep(c, s, ch, s');
    case _ =>
  }

  /** How a worker step affects queues and phases: it only takes work, it sleeps or exits only
      on empty queues, and taking a message wakes the producer. */
  ghost predicate JobMove(c: Config, s: State, s': State, i: nat)
    requires i < |s.ws| == |s'.ws|
  {
    && !s.ws[i].Exited? && !s.ws[i].Asleep?
    && (s'.ws[i].Exited? ==> !s.sh.running && !s.sh.HasWork())
    && (s'.ws[i].Asleep? ==> s.sh.running && !s.sh.HasWork())
    && (s'.sh.messages == s.sh.messages
        || (s.sh.messages != [] && s'.sh.messages == s.sh.messages[1..] && !s'.p.WaitsForRoom?))
    && (s'.sh.files == s.sh.files || (s.sh.files != [] && s'.sh.files == s.sh.files[1..])
        || (c.mode.FileMode? && s.ws[i].WSplitting?))
    && (HandlesMessage(s'.ws[i]) ==> HandlesMessage(s.ws[i]) || s.sh.messages != [])
    && (HandlesFile(s'.ws[i]) ==> HandlesFile(s.ws[i]) || s.sh.files != [])
  }

  lemma WorkerStepJob(c: Config, s: State, i: nat, ch: Choice, s': State)
    requires Follows(c, s, WorkerStep(i, ch), s') && |s'.ws| == |s.ws|
    ensures JobMove(c, s, s', i)
  {
    if HandlesMessage(s.ws[i]) {
      MessageStepJob(c, s, i, ch, s');
    } else if HandlesFile(s.ws[i]) {
      FileStepJob(c, s, i, s');
    }
  }

  lemma MessageStepJob(c: Config, s: State, i: nat, ch: Choice, s': State)
    requires i < |s.ws| == |s'.ws| && HandlesMessage(s.ws[i]) && s' == MessageNext(c, s, i, ch)
    ensures JobMove(c, s, s', i)
  {
  }

  lemma FileStepJob(c: Config, s: State, i: nat, s': State)
    requires i < |s.ws| == |s'.ws| && HandlesFile(s.ws[i]) && s' == FileNext(c, s, i)
    ensures JobMove(c, s, s', i)
  {
  }

  lemma PhasesWorkerStep(c: Config, s: State, i: nat, s': State)
    requires Phases(c, s) && i < |s.ws| && WorkerMove(s, s', i) && JobMove(c, s, s', i)
    ensures Phases(c, s')
  {
  }

  lemma PhasesProducerStep(c: Config, s: State, ch: Choice, s': State)
    requires Phases(c, s) && Follows(c, s, ProducerStep(ch), s')
    ensures Phases(c, s')
  {
    if StorageCall(s.p) {
      PhasesStorageCall(c, s, ch, s');
    } else if !(s.p.WantsQueueToWrite? || s.p.Writing?) {
      PhasesClose(c, s, ch, s');
    }
  }

  lemma PhasesStorageCall(c: Config, s: State, ch: Choice, s': State)
    requires Phases(c, s) && ProducerEnabled(c, s, ch) && StorageCall(s.p) && s' == StorageCallNext(c, s, ch)
    ensures Phases(c, s')
  {
  }

  lemma PhasesClose(c: Config, s: State, ch: Choice, s': State)
    requires Phases(c, s) && ProducerEnabled(c, s, ch) && s' == CloseNext(c, s, ch)
    requires !StorageCall(s.p) && !s.p.WantsQueueToWrite? && !s.p.Writing?
    ensures Phases(c, s')
  {
  }
}
