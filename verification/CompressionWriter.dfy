/**
 * The critical sections of the compressing writer as code that updates its fields, each
 * proved to do what the corresponding step of the protocol does to the shared data.
 */
module CompressionWriter {
  import opened Basics
  import opened CompressionProtocol
  import opened CompressionTheorems

  /** What a worker finds when it holds the queue mutex. */
  datatype Job = CompressMessage(m: Message) | CompressFile(file: string) | Exit | Sleep

  datatype WriteOutcome = Queued | MustWaitWith(m: Message)

  /** All drops of one write call: the data afterwards and the message then in hand. */
  ghost function DropAll(queueSize: nat, sh: Shared, m: Message): (Shared, Message)
    decreases |sh.messages|
  {
    if sh.MustDrop(queueSize) then DropAll(queueSize, sh.DropFront(), sh.messages[0]) else (sh, m)
  }

  /** What the head of the worker loop takes out of the queues: messages first, then files. */
  function Take(sh: Shared): (Shared, Job) {
    if sh.messages != [] then (sh.(messages := sh.messages[1..]), CompressMessage(sh.messages[0]))
    else if sh.files != [] then (sh.(files := sh.files[1..]), CompressFile(sh.files[0]))
    else (sh, if sh.running then Sleep else Exit)
  }

  function AfterTaking(job: Job): Worker {
    match job
    case CompressMessage(m) => Compressing(m)
    case CompressFile(f) => GotFile(f)
    case Exit => Exited
    case Sleep => Asleep
  }

  class SequentialCompressionWriter {
    const mode: Mode
    const queueSize: nat
    const threads: nat

    var messages: seq<Message>
    var files: seq<string>
    var running: bool
    var stored: seq<Message>
    var paths: seq<string>
    var lossLog: seq<string>
    var callbacks: seq<BagSplit>

    constructor (mode: Mode, queueSize: nat, threads: nat, firstFile: string)
      ensures Data() == Shared([], [], true, [], [firstFile], [], [])
      ensures this.mode == mode && this.queueSize == queueSize && this.threads == threads
    {
      this.mode, this.queueSize, this.threads := mode, queueSize, threads;
      messages, files, running := [], [], true;
      stored, paths, lossLog, callbacks := [], [firstFile], [], [];
    }

    function Data(): Shared
      reads this
    {
      Shared(messages, files, running, stored, paths, lossLog, callbacks)
    }

    /** write() in message mode, from taking the queue mutex (or from being woken in the wait
        for room) to releasing it. */
    method WriteMessage(message: Message) returns (outcome: WriteOutcome)
      modifies this
      ensures var (dropped, hand) := DropAll(queueSize, old(Data()), message);
        if dropped.MustWait(queueSize, threads)
        then outcome == MustWaitWith(hand) && Data() == dropped
        else outcome == Queued && Data() == dropped.Push(hand)
    {
      var m := message;
      while |messages| > queueSize && queueSize > 0
        invariant DropAll(queueSize, Data(), m) == DropAll(queueSize, old(Data()), message)
        decreases |messages|
      {
        m := messages[0];
        messages := messages[1..];
        lossLog := lossLog + [m.topic];
      }
      if queueSize == 0 && |messages| > threads && running {
        return MustWaitWith(m);
      }
      messages := messages + [m];
      return Queued;
    }

    /** The head of the worker loop, once the queue mutex is held. */
    method TakeWork() returns (job: Job)
      modifies this`messages, this`files
      ensures (Data(), job) == Take(old(Data()))
    {
      if messages != [] {
        job := CompressMessage(messages[0]);
        messages := messages[1..];
      } else if files != [] {
        job := CompressFile(files[0]);
        files := files[1..];
      } else if !running {
        job := Exit;
      } else {
        job := Sleep;
      }
    }

    method StopThreads()
      modifies this`running
      ensures Data() == old(Data()).Stop()
    {
      running := false;
    }

    /** split_bagfile, holding both mutexes; the new file's name comes from the storage. */
    method SplitBagfile(newFile: string)
      requires paths != []
      modifies this`paths, this`files, this`callbacks
      ensures Data() == old(Data()).Split(mode, newFile)
    {
      var lastFile := paths[|paths| - 1];
      paths := paths + [newFile];
      if mode.FileMode? {
        files := files + [lastFile];
      } else {
        callbacks := callbacks + [BagSplit(lastFile, newFile)];
      }
    }

    method StoreMessage(m: Message)
      modifies this`stored
      ensures Data() == old(Data()).Store(m)
    {
      stored := stored + [m];
    }

    /** std::find over the file list. */
    method FindPath(name: string) returns (k: nat)
      ensures k == Find(paths, name)
    {
      k := 0;
      while k < |paths| && paths[k] != name
        invariant k <= |paths|
        invariant Find(paths, name) >= k
      {
        k := k + 1;
      }
      assert k < |paths| ==> Find(paths, name) <= k;
    }

    /** The list update of compress_file: look the raw name up again and overwrite that entry. */
    method ReplacePath(file: string, compressedFile: string) returns (found: bool)
      modifies this`paths
      ensures found <==> file in old(paths)
      ensures Data() == old(Data()).Rename(file, compressedFile)
    {
      var k := FindPath(file);
      found := k < |paths|;
      if found {
        paths := paths[k := compressedFile];
      }
    }

    /** The file a split callback announces as newly opened. */
    method NextFile(compressedFile: string) returns (newFile: string)
      ensures newFile == Data().Follower(compressedFile)
    {
      newFile := "";
      var k := FindPath(compressedFile);
      if k < |paths| {
        k := k + 1;
        if k < |paths| {
          newFile := paths[k];
        }
      }
    }
  }

  /** The drop loop of one call is a run of producer steps of the protocol. */
  lemma {:induction false} DropAllIsARun(c: Config, s: State, m: Message)
      returns (states: seq<State>, steps: seq<Step>)
    requires s.p == Writing(m)
    ensures Run(c, states, steps) && states[0] == s
    ensures var s', (dropped, hand) := states[|steps|], DropAll(c.queueSize, s.sh, m);
      s'.sh == dropped && s'.p == Writing(hand) && s'.ws == s.ws && !s'.sh.MustDrop(c.queueSize)
    decreases |s.sh.messages|
  {
    if !s.sh.MustDrop(c.queueSize) {
      return [s], [];
    }
    var wake: Option<nat> := None;
    if i: nat :| i < |s.ws| && s.ws[i].Asleep? { wake := Some(i); }
    var st := ProducerStep(Choice(false, "", false, wake));
    var s1 := Next(c, s, st);
    var states1, steps1 := DropAllIsARun(c, s1, s.sh.messages[0]);
    states, steps := [s] + states1, [st] + steps1;
    forall k | 0 <= k < |steps| ensures Follows(c, states[k], steps[k], states[k + 1]) {
      if k > 0 { assert Follows(c, states1[k - 1], steps1[k - 1], states1[k]); }
    }
  }

  ghost predicate OneWoken(ws: seq<Worker>, ws': seq<Worker>) {
    if exists i :: 0 <= i < |ws| && ws[i].Asleep?
    then exists i :: 0 <= i < |ws| && ws[i].Asleep? && ws' == ws[i := WantsQueue]
    else ws' == ws
  }

  /** A whole write call, from holding the queue mutex on, is a run of the protocol too: it ends
      waiting for room, or with the message in hand pushed and one of the sleeping threads woken,
      if there is any; either way the queue mutex is free. */
  lemma WriteIsARun(c: Config, s: State, m: Message) returns (states: seq<State>, steps: seq<Step>)
    requires s.p == Writing(m)
    ensures Run(c, states, steps) && states[0] == s
    ensures var s', (dropped, hand) := states[|steps|], DropAll(c.queueSize, s.sh, m);
      && s'.queueOwner == None
      && if dropped.MustWait(c.queueSize, c.threads)
         then s'.p == WaitsForRoom(hand) && s'.sh == dropped && s'.ws == s.ws
         else s'.p == Idle && s'.sh == dropped.Push(hand) && OneWoken(s.ws, s'.ws)
  {
    states, steps := DropAllIsARun(c, s, m);
    var last := states[|steps|];
    var wake: Option<nat> := None;
    if i: nat :| i < |last.ws| && last.ws[i].Asleep? { wake := Some(i); }
    var st := ProducerStep(Choice(false, "", false, wake));
    var states0, steps0 := states, steps;
    states, steps := states + [Next(c, last, st)], steps + [st];
    forall k | 0 <= k < |steps| ensures Follows(c, states[k], steps[k], states[k + 1]) {
      if k < |steps0| { assert Follows(c, states0[k], steps0[k], states0[k + 1]); }
    }
  }

  /** What close() does before it joins: the flag is cleared under the queue mutex, which is then
      released, and every sleeping worker is woken; queues and storage stay as they are. */
  lemma StopIsARun(c: Config, s: State) returns (states: seq<State>, steps: seq<Step>)
    requires s.p.Stopping?
    ensures Run(c, states, steps) && states[0] == s
    ensures var s' := states[|steps|];
      && s' == s.(sh := s.sh.Stop(), queueOwner := None, ws := s'.ws, p := Joining(0))
      && |s'.ws| == |s.ws|
      && (forall i | 0 <= i < |s.ws| :: !s'.ws[i].Asleep? && (!s.ws[i].Asleep? ==> s'.ws[i] == s.ws[i]))
  {
    var st := ProducerStep(Choice(false, "", false, None));
    var s1 := Next(c, s, st);
    var s2 := Next(c, s1, st);
    states, steps := [s, s1, s2], [st, st];
    assert Follows(c, s, st, s1) && Follows(c, s1, st, s2);
    forall k | 0 <= k < |steps| ensures Follows(c, states[k], steps[k], states[k + 1]) {
      assert k == 0 || k == 1;
    }
  }

  /** Storing a compressed message is the step of a worker that holds the storage mutex: at once, or
      after the split that the storage asked for; then it gives the mutex back and looks for work. */
  lemma StoreIsAStep(c: Config, s: State, i: nat, ch: Choice, s': State)
    requires i < |s.ws| && Follows(c, s, WorkerStep(i, ch), s')
    requires s.ws[i].WSplitDone? || (s.ws[i].Storing? && !ch.split)
    ensures s'.sh == s.sh.Store(s.ws[i].c) && s'.ws == s.ws[i := WantsQueue]
    ensures s.storageDepth == 1 ==> s'.storageOwner == None
  {
  }

  /** Taking work is the step of an inspecting worker: it takes a job and goes on with it, sleeps,
      or ends; only taking a message wakes the others and the producer. */
  lemma TakeIsAStep(c: Config, s: State, i: nat, ch: Choice, s': State)
    requires i < |s.ws| && s.ws[i].Inspecting? && Follows(c, s, WorkerStep(i, ch), s')
    ensures s'.sh == Take(s.sh).0 && s'.ws[i] == AfterTaking(Take(s.sh).1)
    ensures forall j | 0 <= j < |s.ws| && j != i ::
              s'.ws[j] == if Take(s.sh).1.CompressMessage? && s.ws[j].Asleep? then WantsQueue else s.ws[j]
    ensures s'.p == if Take(s.sh).1.CompressMessage? then WakeProducer(s.p) else s.p
  {
  }

  /** Within the queue limit a write call that drops moves the front of the queue to its tail:
      the caller's message is lost, and the loss is reported under the front's topic. The report
      names the topic of the lost message exactly when both topics are equal. */
  lemma DropRotates(queueSize: nat, sh: Shared, m: Message)
    requires 0 < queueSize && |sh.messages| == queueSize + 1
    ensures var (dropped, hand) := DropAll(queueSize, sh, m);
      && dropped.Push(hand) == sh.(messages := sh.messages[1..] + [sh.messages[0]],
                                   lossLog := sh.lossLog + [sh.messages[0].topic])
      && (dropped.lossLog == sh.lossLog + [m.topic] <==> m.topic == sh.messages[0].topic)
  {
    var once := sh.DropFront();
    assert DropAll(queueSize, once, sh.messages[0]) == (once, sh.messages[0]);
    assert (sh.lossLog + [sh.messages[0].topic])[|sh.lossLog|] == sh.messages[0].topic;
    assert (sh.lossLog + [m.topic])[|sh.lossLog|] == m.topic;
  }

  /** A message that is lost while another topic is reported. */
  lemma MisreportedLoss()
    ensures var a, b := Message("a", 0, 0, 1, []), Message("b", 0, 0, 2, []);
      var sh := Shared([a, a], [], true, [], ["0_bag"], [], []);
      var (dropped, hand) := DropAll(1, sh, b);
      dropped.Push(hand).messages == [a, a] && dropped.lossLog == ["a"]
  {
    var a, b := Message("a", 0, 0, 1, []), Message("b", 0, 0, 2, []);
    var sh := Shared([a, a], [], true, [], ["0_bag"], [], []);
    DropRotates(1, sh, b);
    assert [a, a][1..] + [a] == [a, a];
    assert [] + ["a"] == ["a"];
  }
}
