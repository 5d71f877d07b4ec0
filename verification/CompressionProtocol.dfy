/**
 * The compressing bag writer as a transition system: one producer (the thread that holds the
 * upper writer mutex), any number of compression threads, the queue mutex with its condition
 * variable, and the recursive storage mutex. A step of the system is one thread taking a
 * mutex, or running the code up to its next blocking point.
 */
module CompressionProtocol {
  import opened Basics
  import opened Decimal

  newtype byte = x: int | 0 <= x < 256

  datatype Message = Message(topic: string, recvTime: int, sendTime: int, sequenceNumber: nat, data: seq<byte>)

  datatype Mode = FileMode | MessageMode

  /** queueSize 0 means that nothing is dropped and the producer waits instead. */
  datatype Config = Config(mode: Mode, queueSize: nat, threads: nat, extension: string, zip: seq<byte> -> seq<byte>) {
    ghost predicate Valid() { threads > 0 && extension != "" }

    /** The compressed copy of a message; the sequence number is not carried over. */
    function Compress(m: Message): Message {
      Message(m.topic, m.recvTime, m.sendTime, 0, zip(m.data))
    }

    function CompressAll(ms: seq<Message>): (r: seq<Message>)
      ensures |r| == |ms|
    {
      seq(|ms|, i requires 0 <= i < |ms| => Compress(ms[i]))
    }

    function CompressedName(file: string): string { file + "." + extension }
  }

  // ----- The data the threads share, and the operations of the critical sections on it -----

  datatype BagSplit = BagSplit(closedFile: string, openedFile: string)

  /** `messages`, `files` and `running` are guarded by the queue mutex; `stored` and `paths`
      (the file list of the metadata) by the storage mutex. `lossLog` and `callbacks` record
      the events that were reported to the application. */
  datatype Shared = Shared(
    messages: seq<Message>, files: seq<string>, running: bool,
    stored: seq<Message>, paths: seq<string>,
    lossLog: seq<string>, callbacks: seq<BagSplit>)
  {
    predicate HasWork() { messages != [] || files != [] }

    predicate MustDrop(queueSize: nat) { |messages| > queueSize && queueSize > 0 }

    predicate MustWait(queueSize: nat, threads: nat) {
      queueSize == 0 && |messages| > threads && running
    }

    function DropFront(): Shared
      requires messages != []
    {
      this.(messages := messages[1..], lossLog := lossLog + [messages[0].topic])
    }

    function Push(m: Message): Shared { this.(messages := messages + [m]) }

    function Stop(): Shared { this.(running := false) }

    function Store(m: Message): Shared { this.(stored := stored + [m]) }

    function LastPath(): string { if paths == [] then "" else paths[|paths| - 1] }

    function Split(mode: Mode, newFile: string): Shared {
      if mode.FileMode?
      then this.(paths := paths + [newFile], files := files + [LastPath()])
      else this.(paths := paths + [newFile], callbacks := callbacks + [BagSplit(LastPath(), newFile)])
    }

    function Rename(from: string, to: string): Shared {
      var k := Find(paths, from);
      if k < |paths| then this.(paths := paths[k := to]) else this
    }

    /** The entry that follows the named one, or "" when either does not exist. */
    function Follower(name: string): string {
      var k := Find(paths, name);
      if k < |paths| && k + 1 < |paths| then paths[k + 1] else ""
    }

    function Notify(split: BagSplit): Shared { this.(callbacks := callbacks + [split]) }
  }

  // ----- Threads -----

  datatype Thread = ProducerThread | WorkerThread(index: nat)

  /** Where the producer is. `hand` is the message of a write call, None in an explicit split. */
  datatype Producer =
    | Idle
    | WantsQueueToWrite(m: Message)
    | Writing(m: Message)
    | WaitsForRoom(m: Message)
    | WantsStorage(hand: Option<Message>)
    | HasStorage(hand: Option<Message>)
    | WantsQueueToSplit(hand: Option<Message>)
    | Splitting(hand: Option<Message>)
    | SplitDone(hand: Option<Message>)
    | WantsQueueToStop
    | Stopping
    | StopNotifies
    | Joining(next: nat)
    | WantsStorageToFlush
    | Flushing
    | CompressesLast
    | WantsStorageToRename(file: string)
    | RenamesLast(file: string)
    | BaseClose
    | Closed

  datatype Worker =
    | WantsQueue
    | Inspecting
    | Asleep
    | Compressing(m: Message)
    | WantsStore(c: Message)
    | Storing(c: Message)
    | WWantsQueueToSplit(c: Message)
    | WSplitting(c: Message)
    | WSplitDone(c: Message)
    | GotFile(file: string)
    | WantsRename(file: string)
    | Renaming(file: string)
    | WantsLookup(file: string)
    | LookingUp(file: string)
    | Calling(file: string, newFile: string)
    | Exited

  /** The last four fields are history: the messages of all write calls so far, in order; the
      callers' messages that a dropping write discarded; the names all files had when they were
      opened, in order; and which closed files were not empty on disk. */
  datatype State = State(
    p: Producer, ws: seq<Worker>,
    queueOwner: Option<Thread>, storageOwner: Option<Thread>, storageDepth: nat,
    sh: Shared,
    calls: seq<Message>, discarded: seq<Message>, openedFiles: seq<string>, nonEmpty: set<string>)

  /** What a step leaves open: whether storage asks for a split, the new file's name after its
      counter, whether the closed file has content, which sleeper notify_one wakes. */
  datatype Choice = Choice(split: bool, rest: string, closedNonEmpty: bool, wake: Option<nat>)

  datatype Step =
    | BeginWrite(m: Message)
    | BeginSplit
    | BeginClose
    | ProducerStep(choice: Choice)
    | WorkerStep(i: nat, choice: Choice)
    | SpuriousWake(i: nat)
    | SpuriousProducerWake

  /** The state right after open(): the first file exists, every compression thread starts. */
  ghost predicate Init(c: Config, s: State) {
    && c.Valid()
    && s.p == Idle
    && s.ws == seq(c.threads, _ => WantsQueue)
    && s.queueOwner == None && s.storageOwner == None && s.storageDepth == 0
    && (exists rest: string :: s.openedFiles == [FileName(0, rest)])
    && s.sh == Shared([], [], true, [], s.openedFiles, [], [])
    && s.calls == [] && s.discarded == [] && s.nonEmpty == {}
  }

  /** notify_one wakes a sleeping thread whenever there is one. */
  ghost predicate WakeOk(ws: seq<Worker>, wake: Option<nat>) {
    match wake
    case Some(i) => i < |ws| && ws[i].Asleep?
    case None => forall i | 0 <= i < |ws| :: !ws[i].Asleep?
  }

  function WakeOne(ws: seq<Worker>, wake: Option<nat>): (r: seq<Worker>)
    ensures |r| == |ws|
  {
    if wake.Some? && wake.value < |ws| && ws[wake.value].Asleep? then ws[wake.value := WantsQueue] else ws
  }

  function WakeAll(ws: seq<Worker>): (r: seq<Worker>)
    ensures |r| == |ws|
    ensures forall i | 0 <= i < |ws| :: r[i] == if ws[i].Asleep? then WantsQueue else ws[i]
  {
    seq(|ws|, i requires 0 <= i < |ws| => if ws[i].Asleep? then WantsQueue else ws[i])
  }

  function WakeProducer(p: Producer): Producer {
    if p.WaitsForRoom? then WantsQueueToWrite(p.m) else p
  }

  // ----- Transitions -----

  ghost predicate Enabled(c: Config, s: State, st: Step) {
    match st
    case BeginWrite(_) => s.p.Idle?
    case BeginSplit => s.p.Idle?
    case BeginClose => s.p.Idle?
    case ProducerStep(ch) => ProducerEnabled(c, s, ch)
    case WorkerStep(i, ch) => i < |s.ws| && WorkerEnabled(s, i)
    case SpuriousWake(i) => i < |s.ws| && s.ws[i].Asleep?
    case SpuriousProducerWake => s.p.WaitsForRoom?
  }

  ghost predicate ProducerEnabled(c: Config, s: State, ch: Choice) {
    match s.p
    case Idle => false
    case Closed => false
    case WaitsForRoom(_) => false
    case WantsQueueToWrite(_) => s.queueOwner.None?
    case WantsQueueToSplit(_) => s.queueOwner.None?
    case WantsQueueToStop => s.queueOwner.None?
    case WantsStorage(_) => s.storageOwner.None?
    case WantsStorageToFlush => s.storageOwner.None?
    case WantsStorageToRename(_) => s.storageOwner.None?
    case Writing(_) => WakeOk(s.ws, ch.wake)
    case Splitting(_) => WakeOk(s.ws, ch.wake)
    case Joining(k) => k >= |s.ws| || s.ws[k].Exited?
    case _ => true
  }

  ghost predicate WorkerEnabled(s: State, i: nat)
    requires i < |s.ws|
  {
    match s.ws[i]
    case Asleep => false
    case Exited => false
    case WantsQueue => s.queueOwner.None?
    case WWantsQueueToSplit(_) => s.queueOwner.None?
    case WantsStore(_) => s.storageOwner.None?
    case WantsRename(_) => s.storageOwner.None?
    case WantsLookup(_) => s.storageOwner.None?
    case _ => true
  }

  ghost function Next(c: Config, s: State, st: Step): State
    requires Enabled(c, s, st)
  {
    match st
    case BeginWrite(m) =>
      s.(calls := s.calls + [m],
         p := if c.mode.FileMode? then WantsStorage(Some(m)) else WantsQueueToWrite(m))
    case BeginSplit => s.(p := WantsStorage(None))
    case BeginClose => s.(p := WantsQueueToStop)
    case ProducerStep(ch) => ProducerNext(c, s, ch)
    case WorkerStep(i, ch) => WorkerNext(c, s, i, ch)
    case SpuriousWake(i) => s.(ws := s.ws[i := WantsQueue])
    case SpuriousProducerWake => s.(p := WakeProducer(s.p))
  }

  ghost function TakeQueue(s: State, t: Thread): State { s.(queueOwner := Some(t)) }
  ghost function ReleaseQueue(s: State): State { s.(queueOwner := None) }
  ghost function TakeStorage(s: State, t: Thread): State {
    s.(storageOwner := Some(t), storageDepth := s.storageDepth + 1)
  }
  ghost function ReleaseStorage(s: State): State {
    var depth := if s.storageDepth == 0 then 0 else s.storageDepth - 1;
    s.(storageDepth := depth, storageOwner := if depth == 0 then None else s.storageOwner)
  }

  /** The body of split_bagfile, under both mutexes. */
  ghost function SplitFile(c: Config, s: State, ch: Choice): State {
    var name := FileName(|s.openedFiles|, ch.rest);
    s.(sh := s.sh.Split(c.mode, name),
       openedFiles := s.openedFiles + [name],
       nonEmpty := if ch.closedNonEmpty then s.nonEmpty + {s.sh.LastPath()} else s.nonEmpty,
       ws := if c.mode.FileMode? then WakeOne(s.ws, ch.wake) else s.ws)
  }

  ghost function ProducerNext(c: Config, s: State, ch: Choice): State
    requires ProducerEnabled(c, s, ch)
  {
    if s.p.WantsQueueToWrite? || s.p.Writing? then WriteNext(c, s, ch)
    else if StorageCall(s.p) then StorageCallNext(c, s, ch)
    else CloseNext(c, s, ch)
  }

  /** The producer is inside a file-mode write or an explicit split. */
  predicate StorageCall(p: Producer) {
    p.WantsStorage? || p.HasStorage? || p.WantsQueueToSplit? || p.Splitting? || p.SplitDone?
  }

  ghost function StorageCallNext(c: Config, s: State, ch: Choice): State
    requires StorageCall(s.p)
  {
    match s.p
    case WantsStorage(h) => TakeStorage(s, ProducerThread).(p := HasStorage(h))
    case HasStorage(h) =>
      if ch.split || h.None? then TakeStorage(s, ProducerThread).(p := WantsQueueToSplit(h))
      else ReleaseStorage(s.(sh := s.sh.Store(h.value), p := Idle))
    case WantsQueueToSplit(h) => TakeQueue(s, ProducerThread).(p := Splitting(h))
    case Splitting(h) => ReleaseStorage(ReleaseQueue(SplitFile(c, s, ch))).(p := SplitDone(h))
    case SplitDone(h) =>
      ReleaseStorage(if h.Some? then s.(sh := s.sh.Store(h.value), p := Idle) else s.(p := Idle))
  }

  /** close(): stop and join the threads; in file mode compress the last file in this thread. */
  ghost function CloseNext(c: Config, s: State, ch: Choice): State {
    match s.p
    case WantsQueueToStop => TakeQueue(s, ProducerThread).(p := Stopping)
    case Stopping => ReleaseQueue(s.(sh := s.sh.Stop(), p := StopNotifies))
    case StopNotifies => s.(ws := WakeAll(s.ws), p := Joining(0))
    case Joining(k) =>
      if k < |s.ws| then s.(p := Joining(k + 1))
      else if c.mode.FileMode? then s.(p := WantsStorageToFlush)
      else s.(p := BaseClose)
    case WantsStorageToFlush => TakeStorage(s, ProducerThread).(p := Flushing)
    case Flushing =>
      ReleaseStorage(s.(p := CompressesLast,
        nonEmpty := if ch.closedNonEmpty then s.nonEmpty + {s.sh.LastPath()} else s.nonEmpty))
    case CompressesLast =>
      if s.sh.LastPath() in s.nonEmpty then s.(p := WantsStorageToRename(s.sh.LastPath()))
      else s.(p := BaseClose)
    case WantsStorageToRename(f) => TakeStorage(s, ProducerThread).(p := RenamesLast(f))
    case RenamesLast(f) => ReleaseStorage(s.(sh := s.sh.Rename(f, c.CompressedName(f)), p := BaseClose))
    case BaseClose => s.(sh := s.sh.Notify(BagSplit(s.sh.LastPath(), "")), p := Closed)
    case _ => s
  }

  /** write() in message mode, holding the queue mutex. A drop reassigns the caller's message to
      the popped one, so from then on the popped message is the one that will be pushed. */
  ghost function WriteNext(c: Config, s: State, ch: Choice): State
    requires s.p.WantsQueueToWrite? || s.p.Writing?
  {
    var m := s.p.m;
    if s.p.WantsQueueToWrite? then
      TakeQueue(s, ProducerThread).(p := Writing(m))
    else if s.sh.MustDrop(c.queueSize) then
      s.(sh := s.sh.DropFront(), discarded := s.discarded + [m], p := Writing(s.sh.messages[0]))
    else if s.sh.MustWait(c.queueSize, c.threads) then
      ReleaseQueue(s.(p := WaitsForRoom(m)))
    else
      ReleaseQueue(s.(sh := s.sh.Push(m), ws := WakeOne(s.ws, ch.wake), p := Idle))
  }

  ghost function WorkerNext(c: Config, s: State, i: nat, ch: Choice): State
    requires i < |s.ws| && WorkerEnabled(s, i)
  {
    if s.ws[i].WantsQueue? then Goto(TakeQueue(s, WorkerThread(i)), i, Inspecting)
    else if s.ws[i].Inspecting? then InspectNext(s, i)
    else if HandlesMessage(s.ws[i]) then MessageNext(c, s, i, ch)
    else FileNext(c, s, i)
  }

  predicate HandlesMessage(w: Worker) {
    || w.Compressing? || w.WantsStore? || w.Storing? || w.WWantsQueueToSplit? || w.WSplitting?
    || w.WSplitDone?
  }

  predicate HandlesFile(w: Worker) {
    || w.GotFile? || w.WantsRename? || w.Renaming? || w.WantsLookup? || w.LookingUp? || w.Calling?
  }

  ghost function MessageNext(c: Config, s: State, i: nat, ch: Choice): State
    requires i < |s.ws| && HandlesMessage(s.ws[i])
  {
    var t := WorkerThread(i);
    match s.ws[i]
    case Compressing(m) => Goto(s, i, WantsStore(c.Compress(m)))
    case WantsStore(m) => Goto(TakeStorage(s, t), i, Storing(m))
    case Storing(m) =>
      if ch.split then Goto(TakeStorage(s, t), i, WWantsQueueToSplit(m))
      else ReleaseStorage(Goto(s, i, WantsQueue).(sh := s.sh.Store(m)))
    case WWantsQueueToSplit(m) => Goto(TakeQueue(s, t), i, WSplitting(m))
    case WSplitting(m) => ReleaseStorage(ReleaseQueue(Goto(SplitFile(c, s, ch), i, WSplitDone(m))))
    case WSplitDone(m) => ReleaseStorage(Goto(s, i, WantsQueue).(sh := s.sh.Store(m)))
  }

  ghost function FileNext(c: Config, s: State, i: nat): State
    requires i < |s.ws|
  {
    var t := WorkerThread(i);
    match s.ws[i]
    case GotFile(f) => if f in s.nonEmpty then Goto(s, i, WantsRename(f)) else Goto(s, i, WantsLookup(f))
    case WantsRename(f) => Goto(TakeStorage(s, t), i, Renaming(f))
    case Renaming(f) =>
      ReleaseStorage(Goto(s, i, WantsLookup(f)).(sh := s.sh.Rename(f, c.CompressedName(f))))
    case WantsLookup(f) => Goto(TakeStorage(s, t), i, LookingUp(f))
    case LookingUp(f) => ReleaseStorage(Goto(s, i, Calling(f, s.sh.Follower(c.CompressedName(f)))))
    case Calling(f, newFile) =>
      Goto(s, i, WantsQueue).(sh := s.sh.Notify(BagSplit(c.CompressedName(f), newFile)))
    case _ => s
  }

  ghost function Goto(s: State, i: nat, w: Worker): State
    requires i < |s.ws|
  {
    s.(ws := s.ws[i := w])
  }

  /** The condition wait and the queue pops at the head of the worker loop. */
  ghost function InspectNext(s: State, i: nat): State
    requires i < |s.ws|
  {
    var r := ReleaseQueue(s);
    if s.sh.messages != [] then
      r.(sh := s.sh.(messages := s.sh.messages[1..]),
         ws := WakeAll(s.ws)[i := Compressing(s.sh.messages[0])],
         p := WakeProducer(s.p))
    else if s.sh.files != [] then
      Goto(r.(sh := s.sh.(files := s.sh.files[1..])), i, GotFile(s.sh.files[0]))
    else if !s.sh.running then Goto(r, i, Exited)
    else Goto(r, i, Asleep)
  }

  // ----- Executions -----

  /** states[k + 1] results from states[k] by steps[k], starting right after open(). */
  ghost predicate Execution(c: Config, states: seq<State>, steps: seq<Step>) {
    && |states| == |steps| + 1
    && Init(c, states[0])
    && forall k | 0 <= k < |steps| :: Follows(c, states[k], steps[k], states[k + 1])
  }

  ghost predicate Follows(c: Config, s: State, st: Step, s': State) {
    Enabled(c, s, st) && s' == Next(c, s, st)
  }

  // ----- Counting and collecting over the worker threads -----

  ghost function Total(ws: seq<Worker>, f: Worker -> nat): nat {
    if ws == [] then 0 else f(ws[0]) + Total(ws[1..], f)
  }

  lemma {:induction false} TotalUpdate(ws: seq<Worker>, f: Worker -> nat, i: nat, w: Worker)
    requires i < |ws|
    ensures Total(ws[i := w], f) + f(ws[i]) == Total(ws, f) + f(w)
  {
    if i == 0 {
      assert ws[i := w][1..] == ws[1..];
    } else {
      assert ws[i := w][1..] == ws[1..][i - 1 := w];
      TotalUpdate(ws[1..], f, i - 1, w);
    }
  }

  lemma {:induction false} TotalMonotone(ws: seq<Worker>, us: seq<Worker>, f: Worker -> nat, g: Worker -> nat)
    requires |ws| == |us| && forall i | 0 <= i < |ws| :: f(ws[i]) <= g(us[i])
    ensures Total(ws, f) <= Total(us, g)
  {
    if ws != [] {
      forall i | 0 <= i < |ws[1..]| ensures f(ws[1..][i]) <= g(us[1..][i]) {
        assert ws[1..][i] == ws[i + 1] && us[1..][i] == us[i + 1];
      }
      TotalMonotone(ws[1..], us[1..], f, g);
    }
  }
}
