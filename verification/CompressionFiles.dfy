/**
 * What happens to the bag files. In file mode the list of file names always shows, entry by
 * entry, the files in opening order under their raw or compressed name, and every split leads
 * to exactly one callback; in message mode the list is the list of opened files.
 */
module CompressionFiles {
  import opened Basics
  import opened Decimal
  import opened CompressionProtocol
  import opened CompressionThreads

  // ----- Names -----

  ghost predicate Named(s: State) {
    && |s.openedFiles| > 0
    && |s.sh.paths| == |s.openedFiles|
    && forall i | 0 <= i < |s.openedFiles| :: NamedAt(s.openedFiles[i], i)
  }

  function Last(s: State): int { |s.openedFiles| - 1 }

  lemma OpenedDistinct(s: State, i: nat, j: nat)
    requires Named(s) && i < |s.openedFiles| && j < |s.openedFiles| && s.openedFiles[i] == s.openedFiles[j]
    ensures i == j
  {
    NamedAtUnique(s.openedFiles[i], i, j);
  }

  lemma CompressedNameInjective(c: Config, f: string, g: string)
    ensures c.CompressedName(f) == c.CompressedName(g) ==> f == g
    ensures c.CompressedName(f) != f
  {
    var e := "." + c.extension;
    assert c.CompressedName(f) == f + e && c.CompressedName(g) == g + e;
    assert |f + e| > |f|;
    if f + e == g + e {
      assert f == (f + e)[..|f|] == (g + e)[..|g|] == g;
    }
  }

  // ----- Where a closed file is: before its renaming, after it, or done -----

  function Occurrences(xs: seq<string>, x: string): nat { multiset(xs)[x] }

  predicate BeforeRename(w: Worker) { w.GotFile? || w.WantsRename? || w.Renaming? }

  predicate AfterRename(w: Worker) { w.WantsLookup? || w.LookingUp? || w.Calling? }

  function BeforeCount(x: string): Worker -> nat { w => if BeforeRename(w) && w.file == x then 1 else 0 }

  function AfterCount(x: string): Worker -> nat { w => if AfterRename(w) && w.file == x then 1 else 0 }

  function ClosedNames(cbs: seq<BagSplit>): (r: seq<string>)
    ensures |r| == |cbs|
  {
    seq(|cbs|, i requires 0 <= i < |cbs| => cbs[i].closedFile)
  }

  /** The callbacks of splits: all but the final one that close() issues for the last file. */
  ghost function SplitCallbacks(s: State): seq<BagSplit> {
    if s.p.Closed? && s.sh.callbacks != [] then s.sh.callbacks[..|s.sh.callbacks| - 1] else s.sh.callbacks
  }

  ghost function Uncompressed(s: State, x: string): nat {
    Occurrences(s.sh.files, x) + Total(s.ws, BeforeCount(x))
  }

  ghost function Reported(c: Config, s: State, x: string): nat {
    Total(s.ws, AfterCount(x)) + Occurrences(ClosedNames(SplitCallbacks(s)), c.CompressedName(x))
  }

  ghost function ClosedBySplit(s: State): seq<string> {
    if s.openedFiles == [] then [] else s.openedFiles[..Last(s)]
  }

  /** Every file closed by a split, and no other, is in exactly one place: waiting for
      compression, on its way to the callback, or reported by one callback. */
  ghost predicate OnePlace(c: Config, s: State) {
    forall x :: OnePlaceFor(c, s, x)
  }

  ghost predicate OnePlaceFor(c: Config, s: State, x: string) {
    Uncompressed(s, x) + Reported(c, s, x) == if x in ClosedBySplit(s) then 1 else 0
  }

  /** The name under which file i ends up. */
  ghost function FinalName(c: Config, s: State, i: int): string
    requires 0 <= i < |s.openedFiles|
  {
    var f := s.openedFiles[i];
    if f in s.nonEmpty then c.CompressedName(f) else f
  }

  predicate LastDone(p: Producer) { p.BaseClose? || p.Closed? }

  ghost predicate EntryOk(c: Config, s: State, i: int)
    requires |s.sh.paths| == |s.openedFiles| && 0 <= i < |s.openedFiles|
  {
    var raw := if i == Last(s) then !LastDone(s.p) else Uncompressed(s, s.openedFiles[i]) > 0;
    s.sh.paths[i] == if raw then s.openedFiles[i] else FinalName(c, s, i)
  }

  ghost predicate Entries(c: Config, s: State)
    requires Named(s)
  {
    && (forall i | 0 <= i < |s.openedFiles| :: EntryOk(c, s, i))
    && (s.p.WantsStorageToRename? || s.p.RenamesLast? ==>
          s.p.file == s.openedFiles[Last(s)] && s.p.file in s.nonEmpty)
    && (forall j | 0 <= j < |s.ws| ::
          (s.ws[j].WantsRename? || s.ws[j].Renaming? ==> s.ws[j].file in s.nonEmpty))
  }

  /** The file a split callback announces: the entry right after the closed file's, or "" when
      the closed file was empty and thus never got its compressed name. */
  ghost predicate Announces(c: Config, s: State, file: string, newFile: string) {
    exists i :: AnnouncesAt(c, s, file, newFile, i)
  }

  ghost predicate AnnouncesAt(c: Config, s: State, file: string, newFile: string, i: int) {
    && 0 <= i < Last(s) && file == s.openedFiles[i]
    && if file in s.nonEmpty
       then newFile == s.openedFiles[i + 1] || newFile == c.CompressedName(s.openedFiles[i + 1])
       else newFile == ""
  }

  ghost predicate CallbackOk(c: Config, s: State, cb: BagSplit) {
    exists file :: cb.closedFile == c.CompressedName(file) && Announces(c, s, file, cb.openedFile)
  }

  ghost predicate Announcements(c: Config, s: State) {
    && (forall j | 0 <= j < |s.ws| :: s.ws[j].Calling? ==> Announces(c, s, s.ws[j].file, s.ws[j].newFile))
    && (forall k | 0 <= k < |SplitCallbacks(s)| :: CallbackOk(c, s, SplitCallbacks(s)[k]))
  }

  ghost predicate FileModeFiles(c: Config, s: State)
    requires Named(s)
  {
    OnePlace(c, s) && Entries(c, s) && Announcements(c, s)
  }

  /** Message mode: names never change, and each split is reported on the spot. */
  ghost predicate MessageModeFiles(s: State)
    requires Named(s)
  {
    && s.sh.paths == s.openedFiles
    && |SplitCallbacks(s)| == Last(s)
    && forall k | 0 <= k < Last(s) ::
         SplitCallbacks(s)[k] == BagSplit(s.openedFiles[k], s.openedFiles[k + 1])
  }

  ghost predicate LastCallback(s: State) {
    s.p.Closed? ==>
      && s.sh.callbacks != []
      && s.sh.callbacks[|s.sh.callbacks| - 1] == BagSplit(s.sh.LastPath(), "")
  }

  ghost predicate FilesOk(c: Config, s: State) {
    && Named(s)
    && LastCallback(s)
    && if c.mode.FileMode? then FileModeFiles(c, s) else MessageModeFiles(s)
  }

  // ----- Finding entries by name -----

  /** Entry j carries the counter j, whatever its form. */
  lemma EntryNamedAt(c: Config, s: State, j: nat)
    requires Named(s) && Entries(c, s) && j < |s.sh.paths|
    ensures NamedAt(s.sh.paths[j], j)
  {
    assert EntryOk(c, s, j);
    SuffixKeepsIndex(s.openedFiles[j], j, "." + c.extension);
    assert c.CompressedName(s.openedFiles[j]) == s.openedFiles[j] + ("." + c.extension);
  }

  lemma FindEntry(c: Config, s: State, i: nat, name: string)
    requires Named(s) && Entries(c, s) && i < |s.sh.paths| && NamedAt(name, i)
    ensures Find(s.sh.paths, name) == if s.sh.paths[i] == name then i else |s.sh.paths|
  {
    var k := Find(s.sh.paths, name);
    if k < |s.sh.paths| {
      EntryNamedAt(c, s, k);
      NamedAtUnique(name, i, k);
    }
  }

  lemma CompressedNamedAt(c: Config, name: string, i: nat)
    requires NamedAt(name, i)
    ensures NamedAt(c.CompressedName(name), i)
  {
    SuffixKeepsIndex(name, i, "." + c.extension);
    assert c.CompressedName(name) == name + ("." + c.extension);
  }

  // ----- Steps that concern no file -----

  predicate SameJob(w: Worker, w': Worker) {
    && (BeforeRename(w) <==> BeforeRename(w')) && (AfterRename(w) <==> AfterRename(w'))
    && (BeforeRename(w) || AfterRename(w) ==> w.file == w'.file)
    && (w'.Calling? ==> w == w')
  }

  ghost predicate SameFiles(s: State, s': State) {
    && s'.openedFiles == s.openedFiles && s'.nonEmpty == s.nonEmpty
    && s'.sh.files == s.sh.files && s'.sh.paths == s.sh.paths && s'.sh.callbacks == s.sh.callbacks
    && |s'.ws| == |s.ws| && (forall j | 0 <= j < |s.ws| :: SameJob(s.ws[j], s'.ws[j]))
    && (forall j | 0 <= j < |s.ws| ::
          s'.ws[j].WantsRename? || s'.ws[j].Renaming? ==> s'.ws[j].file in s.nonEmpty)
    && (s.p.Closed? <==> s'.p.Closed?) && (LastDone(s.p) <==> LastDone(s'.p))
    && (s'.p.WantsStorageToRename? || s'.p.RenamesLast? ==>
          |s.openedFiles| > 0 && s'.p.file == s.openedFiles[Last(s)] && s'.p.file in s.nonEmpty)
  }

  lemma SameCounts(s: State, s': State, x: string)
    requires |s'.ws| == |s.ws| && (forall j | 0 <= j < |s.ws| :: SameJob(s.ws[j], s'.ws[j]))
    ensures Total(s'.ws, BeforeCount(x)) == Total(s.ws, BeforeCount(x))
    ensures Total(s'.ws, AfterCount(x)) == Total(s.ws, AfterCount(x))
  {
    TotalMonotone(s.ws, s'.ws, BeforeCount(x), BeforeCount(x));
    TotalMonotone(s'.ws, s.ws, BeforeCount(x), BeforeCount(x));
    TotalMonotone(s.ws, s'.ws, AfterCount(x), AfterCount(x));
    TotalMonotone(s'.ws, s.ws, AfterCount(x), AfterCount(x));
  }

  lemma KeepFiles(c: Config, s: State, s': State)
    requires c.mode.FileMode? && FilesOk(c, s) && SameFiles(s, s')
    ensures FilesOk(c, s')
  {
    forall x ensures OnePlaceFor(c, s', x) {
      assert OnePlaceFor(c, s, x);
      SameCounts(s, s', x);
    }
    forall i | 0 <= i < |s'.openedFiles| ensures EntryOk(c, s', i) {
      assert EntryOk(c, s, i);
      SameCounts(s, s', s.openedFiles[i]);
    }
    AnnouncementsKept(c, s, s');
  }

  lemma AnnouncesKept(c: Config, s: State, s': State, file: string, newFile: string)
    requires Named(s) && Announces(c, s, file, newFile)
    requires s.openedFiles <= s'.openedFiles
    requires forall i | 0 <= i < Last(s) :: s.openedFiles[i] in s'.nonEmpty <==> s.openedFiles[i] in s.nonEmpty
    ensures Announces(c, s', file, newFile)
  {
    var i :| AnnouncesAt(c, s, file, newFile, i);
    assert AnnouncesAt(c, s', file, newFile, i);
  }

  lemma AnnouncementsKept(c: Config, s: State, s': State)
    requires Named(s) && Announcements(c, s)
    requires s.openedFiles <= s'.openedFiles
    requires forall i | 0 <= i < Last(s) :: s.openedFiles[i] in s'.nonEmpty <==> s.openedFiles[i] in s.nonEmpty
    requires SplitCallbacks(s') == SplitCallbacks(s)
    requires |s'.ws| == |s.ws| && forall j | 0 <= j < |s.ws| :: s'.ws[j].Calling? ==> s'.ws[j] == s.ws[j]
    ensures Announcements(c, s')
  {
    forall j | 0 <= j < |s'.ws| && s'.ws[j].Calling? ensures Announces(c, s', s'.ws[j].file, s'.ws[j].newFile) {
      AnnouncesKept(c, s, s', s.ws[j].file, s.ws[j].newFile);
    }
    forall k | 0 <= k < |SplitCallbacks(s')| ensures CallbackOk(c, s', SplitCallbacks(s')[k]) {
      var cb := SplitCallbacks(s)[k];
      assert CallbackOk(c, s, cb);
      var file :| cb.closedFile == c.CompressedName(file) && Announces(c, s, file, cb.openedFile);
      AnnouncesKept(c, s, s', file, cb.openedFile);
    }
  }

  // ----- A worker compresses a file -----

  lemma WorkerCounts(s: State, i: nat, w: Worker, x: string)
    requires i < |s.ws|
    ensures var ws' := s.ws[i := w];
      && Total(ws', BeforeCount(x)) + BeforeCount(x)(s.ws[i]) == Total(s.ws, BeforeCount(x)) + BeforeCount(x)(w)
      && Total(ws', AfterCount(x)) + AfterCount(x)(s.ws[i]) == Total(s.ws, AfterCount(x)) + AfterCount(x)(w)
  {
    TotalUpdate(s.ws, BeforeCount(x), i, w);
    TotalUpdate(s.ws, AfterCount(x), i, w);
  }

  lemma {:induction false} TotalAtLeast(ws: seq<Worker>, f: Worker -> nat, i: nat)
    requires i < |ws|
    ensures f(ws[i]) <= Total(ws, f)
  {
    if i > 0 { TotalAtLeast(ws[1..], f, i - 1); }
  }

  /** A file in a worker's hands was closed by a split, and its list entry is its own. */
  lemma HeldFile(c: Config, s: State, i: nat) returns (k: nat)
    requires FilesOk(c, s) && c.mode.FileMode? && i < |s.ws| && HandlesFile(s.ws[i])
    ensures k < Last(s) && s.openedFiles[k] == s.ws[i].file
    ensures s.sh.paths[k] == if BeforeRename(s.ws[i]) then s.ws[i].file else FinalName(c, s, k)
  {
    var x := s.ws[i].file;
    assert OnePlaceFor(c, s, x);
    TotalAtLeast(s.ws, BeforeCount(x), i);
    TotalAtLeast(s.ws, AfterCount(x), i);
    k :| 0 <= k < |ClosedBySplit(s)| && ClosedBySplit(s)[k] == x;
    assert EntryOk(c, s, k);
  }

  lemma PopFile(c: Config, s: State, i: nat, s': State)
    requires c.mode.FileMode? && FilesOk(c, s) && i < |s.ws| && s.ws[i].Inspecting? && s.sh.files != []
    requires s' == s.(queueOwner := None, sh := s.sh.(files := s.sh.files[1..]),
                      ws := s.ws[i := GotFile(s.sh.files[0])])
    ensures FilesOk(c, s')
  {
    assert s.sh.files == [s.sh.files[0]] + s'.sh.files;
    forall x ensures Uncompressed(s', x) == Uncompressed(s, x) && Reported(c, s', x) == Reported(c, s, x) {
      WorkerCounts(s, i, GotFile(s.sh.files[0]), x);
    }
    EntriesKept(c, s, s');
    AnnouncementsKept(c, s, s');
  }

  /** Steps that leave list and callbacks alone and no file more or less uncompressed. */
  lemma EntriesKept(c: Config, s: State, s': State)
    requires Named(s) && OnePlace(c, s) && Entries(c, s)
    requires s'.openedFiles == s.openedFiles && s'.nonEmpty == s.nonEmpty && s'.sh.paths == s.sh.paths && s'.p == s.p
    requires forall x :: Uncompressed(s', x) == Uncompressed(s, x) && Reported(c, s', x) == Reported(c, s, x)
    requires forall j | 0 <= j < |s'.ws| :: s'.ws[j].WantsRename? || s'.ws[j].Renaming? ==> s'.ws[j].file in s.nonEmpty
    ensures OnePlace(c, s') && Entries(c, s')
  {
    forall x ensures OnePlaceFor(c, s', x) {
      assert OnePlaceFor(c, s, x);
    }
    forall i | 0 <= i < |s'.openedFiles| ensures EntryOk(c, s', i) {
      assert EntryOk(c, s, i);
    }
  }

  ghost predicate Finishes(c: Config, s: State, i: nat, s': State) {
    && i < |s.ws| && BeforeRename(s.ws[i])
    && s'.openedFiles == s.openedFiles && s'.nonEmpty == s.nonEmpty && s'.p == s.p
    && s'.ws == s.ws[i := WantsLookup(s.ws[i].file)]
    && s'.sh == if s.ws[i].file in s.nonEmpty
                then s.sh.Rename(s.ws[i].file, c.CompressedName(s.ws[i].file)) else s.sh
  }

  lemma FinishCounts(c: Config, s: State, i: nat, s': State, x: string)
    requires Finishes(c, s, i, s')
    ensures Uncompressed(s', x) == Uncompressed(s, x) - (if x == s.ws[i].file then 1 else 0)
    ensures Reported(c, s', x) == Reported(c, s, x) + (if x == s.ws[i].file then 1 else 0)
  {
    WorkerCounts(s, i, WantsLookup(s.ws[i].file), x);
  }

  lemma FinishEntry(c: Config, s: State, i: nat, s': State, k: nat, m: nat)
    requires FilesOk(c, s) && c.mode.FileMode? && Finishes(c, s, i, s')
    requires k < Last(s) && s.openedFiles[k] == s.ws[i].file == s.sh.paths[k] && m < |s.openedFiles|
    ensures |s'.sh.paths| == |s.sh.paths| && EntryOk(c, s', m)
  {
    var f := s.ws[i].file;
    FindEntry(c, s, k, f);
    assert EntryOk(c, s, m) && OnePlaceFor(c, s, f);
    FinishCounts(c, s, i, s', s.openedFiles[m]);
    if s.openedFiles[m] == f { OpenedDistinct(s, m, k); }
  }

  /** The file leaves the stage before renaming: its entry now has its final name. */
  lemma FinishRename(c: Config, s: State, i: nat, s': State)
    requires c.mode.FileMode? && FilesOk(c, s) && Finishes(c, s, i, s')
    ensures FilesOk(c, s')
  {
    var k := HeldFile(c, s, i);
    forall x ensures OnePlaceFor(c, s', x) {
      assert OnePlaceFor(c, s, x);
      FinishCounts(c, s, i, s', x);
    }
    forall m | 0 <= m < |s'.openedFiles| ensures |s'.sh.paths| == |s.sh.paths| && EntryOk(c, s', m) {
      FinishEntry(c, s, i, s', k, m);
    }
    AnnouncementsKept(c, s, s');
  }

  /** What a worker finds when it looks up the file after the one it compressed. */
  lemma LookUpAnnounces(c: Config, s: State, i: nat)
    requires c.mode.FileMode? && FilesOk(c, s) && i < |s.ws| && s.ws[i].LookingUp?
    ensures Announces(c, s, s.ws[i].file, s.sh.Follower(c.CompressedName(s.ws[i].file)))
  {
    var f := s.ws[i].file;
    var k := HeldFile(c, s, i);
    CompressedNamedAt(c, f, k);
    CompressedNameInjective(c, f, f);
    FindEntry(c, s, k, c.CompressedName(f));
    assert EntryOk(c, s, k + 1);
    assert AnnouncesAt(c, s, f, s.sh.Follower(c.CompressedName(f)), k);
  }

  ghost predicate LooksUp(c: Config, s: State, i: nat, s': State) {
    && i < |s.ws| && s.ws[i].LookingUp?
    && s'.openedFiles == s.openedFiles && s'.nonEmpty == s.nonEmpty && s'.p == s.p && s'.sh == s.sh
    && s'.ws == s.ws[i := Calling(s.ws[i].file, s.sh.Follower(c.CompressedName(s.ws[i].file)))]
  }

  lemma LookUpEntries(c: Config, s: State, i: nat, s': State)
    requires c.mode.FileMode? && FilesOk(c, s) && LooksUp(c, s, i, s')
    ensures OnePlace(c, s') && Entries(c, s')
  {
    forall x ensures Uncompressed(s', x) == Uncompressed(s, x) && Reported(c, s', x) == Reported(c, s, x) {
      WorkerCounts(s, i, s'.ws[i], x);
    }
    EntriesKept(c, s, s');
  }

  lemma LookUp(c: Config, s: State, i: nat, s': State)
    requires c.mode.FileMode? && FilesOk(c, s) && LooksUp(c, s, i, s')
    ensures FilesOk(c, s')
  {
    LookUpEntries(c, s, i, s');
    LookUpAnnounces(c, s, i);
    forall j | 0 <= j < |s'.ws| && s'.ws[j].Calling? ensures Announces(c, s', s'.ws[j].file, s'.ws[j].newFile) {
      AnnouncesKept(c, s, s', s'.ws[j].file, s'.ws[j].newFile);
    }
    CallbacksKept(c, s, s');
    assert SplitCallbacks(s') == SplitCallbacks(s) && Announcements(c, s');
  }

  lemma CallbacksKept(c: Config, s: State, s': State)
    requires Named(s) && Announcements(c, s)
    requires s'.openedFiles == s.openedFiles && s'.nonEmpty == s.nonEmpty
    ensures forall k | 0 <= k < |SplitCallbacks(s)| :: CallbackOk(c, s', SplitCallbacks(s)[k])
  {
    forall k | 0 <= k < |SplitCallbacks(s)| ensures CallbackOk(c, s', SplitCallbacks(s)[k]) {
      var cb := SplitCallbacks(s)[k];
      assert CallbackOk(c, s, cb);
      var file :| cb.closedFile == c.CompressedName(file) && Announces(c, s, file, cb.openedFile);
      AnnouncesKept(c, s, s', file, cb.openedFile);
    }
  }

  ghost predicate Calls(c: Config, s: State, i: nat, s': State) {
    && i < |s.ws| && s.ws[i].Calling? && !s.p.Closed?
    && s'.openedFiles == s.openedFiles && s'.nonEmpty == s.nonEmpty && s'.p == s.p
    && s'.ws == s.ws[i := WantsQueue]
    && s'.sh == s.sh.Notify(BagSplit(c.CompressedName(s.ws[i].file), s.ws[i].newFile))
  }

  lemma CallCounts(c: Config, s: State, i: nat, s': State, x: string)
    requires Calls(c, s, i, s')
    ensures Uncompressed(s', x) == Uncompressed(s, x) && Reported(c, s', x) == Reported(c, s, x)
  {
    var f := s.ws[i].file;
    assert ClosedNames(s'.sh.callbacks) == ClosedNames(s.sh.callbacks) + [c.CompressedName(f)];
    WorkerCounts(s, i, WantsQueue, x);
    CompressedNameInjective(c, f, x);
  }

  lemma CallAnnouncements(c: Config, s: State, i: nat, s': State)
    requires Named(s) && Announcements(c, s) && Calls(c, s, i, s')
    ensures Announcements(c, s')
  {
    forall j | 0 <= j < |s'.ws| && s'.ws[j].Calling? ensures Announces(c, s', s'.ws[j].file, s'.ws[j].newFile) {
      AnnouncesKept(c, s, s', s.ws[j].file, s.ws[j].newFile);
    }
    CallbacksKept(c, s, s');
    AnnouncesKept(c, s, s', s.ws[i].file, s.ws[i].newFile);
    var cb := BagSplit(c.CompressedName(s.ws[i].file), s.ws[i].newFile);
    assert CallbackOk(c, s', cb);
    assert SplitCallbacks(s') == SplitCallbacks(s) + [cb];
  }

  lemma CallBack(c: Config, s: State, i: nat, s': State)
    requires c.mode.FileMode? && FilesOk(c, s) && Calls(c, s, i, s')
    ensures FilesOk(c, s')
  {
    forall x ensures Uncompressed(s', x) == Uncompressed(s, x) && Reported(c, s', x) == Reported(c, s, x) {
      CallCounts(c, s, i, s', x);
    }
    EntriesKept(c, s, s');
    CallAnnouncements(c, s, i, s');
  }

  // ----- The producer splits, flushes and compresses the last file -----

  ghost predicate Splits(c: Config, s: State, rest: string, closedNonEmpty: bool, s': State) {
    var name := FileName(|s.openedFiles|, rest);
    && !LastDone(s.p) && !LastDone(s'.p) && !s'.p.WantsStorageToRename? && !s'.p.RenamesLast?
    && s'.openedFiles == s.openedFiles + [name]
    && s'.nonEmpty == (if closedNonEmpty then s.nonEmpty + {s.sh.LastPath()} else s.nonEmpty)
    && s'.sh == s.sh.Split(FileMode, name)
    && |s'.ws| == |s.ws| && (forall j | 0 <= j < |s.ws| :: SameJob(s.ws[j], s'.ws[j]))
    && (forall j | 0 <= j < |s.ws| ::
          s'.ws[j].WantsRename? || s'.ws[j].Renaming? ==> s'.ws[j].file in s.nonEmpty)
  }

  /** Before it is done, the last file stands in the list under its raw name, nobody else holds
      it, and it is not among the closed ones. */
  lemma LastIsRaw(c: Config, s: State)
    requires FilesOk(c, s) && c.mode.FileMode?
    ensures s.openedFiles[Last(s)] !in ClosedBySplit(s)
    ensures !LastDone(s.p) ==> s.sh.LastPath() == s.openedFiles[Last(s)]
  {
    assert EntryOk(c, s, Last(s));
    if k :| 0 <= k < Last(s) && s.openedFiles[k] == s.openedFiles[Last(s)] {
      OpenedDistinct(s, k, Last(s));
      assert false;
    }
  }

  lemma SplitCounts(c: Config, s: State, rest: string, closedNonEmpty: bool, s': State, x: string)
    requires Splits(c, s, rest, closedNonEmpty, s')
    ensures Uncompressed(s', x) == Uncompressed(s, x) + (if x == s.sh.LastPath() then 1 else 0)
    ensures Reported(c, s', x) == Reported(c, s, x)
  {
    SameCounts(s, s', x);
  }

  lemma SplitEntry(c: Config, s: State, rest: string, closedNonEmpty: bool, s': State, m: nat)
    requires c.mode.FileMode? && FilesOk(c, s) && Splits(c, s, rest, closedNonEmpty, s') && m < |s'.openedFiles|
    ensures |s'.sh.paths| == |s'.openedFiles| && EntryOk(c, s', m)
  {
    LastIsRaw(c, s);
    if m < |s.openedFiles| {
      assert EntryOk(c, s, m);
      SplitCounts(c, s, rest, closedNonEmpty, s', s.openedFiles[m]);
      if m < Last(s) {
        assert ClosedBySplit(s)[m] == s.openedFiles[m];
        assert s.openedFiles[m] != s.sh.LastPath();
      }
    }
  }

  lemma Split(c: Config, s: State, rest: string, closedNonEmpty: bool, s': State)
    requires c.mode.FileMode? && FilesOk(c, s) && Splits(c, s, rest, closedNonEmpty, s')
    ensures FilesOk(c, s')
  {
    FileNameNamedAt(|s.openedFiles|, rest);
    LastIsRaw(c, s);
    forall x ensures OnePlaceFor(c, s', x) {
      assert OnePlaceFor(c, s, x);
      SplitCounts(c, s, rest, closedNonEmpty, s', x);
      assert ClosedBySplit(s') == ClosedBySplit(s) + [s.openedFiles[Last(s)]];
    }
    forall m | 0 <= m < |s'.openedFiles| ensures |s'.sh.paths| == |s'.openedFiles| && EntryOk(c, s', m) {
      SplitEntry(c, s, rest, closedNonEmpty, s', m);
    }
    forall m | 0 <= m < Last(s) ensures s.openedFiles[m] in s'.nonEmpty <==> s.openedFiles[m] in s.nonEmpty {
      assert ClosedBySplit(s)[m] == s.openedFiles[m];
    }
    AnnouncementsKept(c, s, s');
  }

  /** flush and close the last file: it is now known whether it is empty. */
  lemma Flush(c: Config, s: State, s': State)
    requires c.mode.FileMode? && FilesOk(c, s) && s.p.Flushing? && s'.p.CompressesLast?
    requires s'.openedFiles == s.openedFiles && s'.sh == s.sh && s'.ws == s.ws
    requires s.nonEmpty <= s'.nonEmpty <= s.nonEmpty + {s.sh.LastPath()}
    ensures FilesOk(c, s')
  {
    LastIsRaw(c, s);
    forall m | 0 <= m < Last(s) ensures s.openedFiles[m] in s'.nonEmpty <==> s.openedFiles[m] in s.nonEmpty {
      assert ClosedBySplit(s)[m] == s.openedFiles[m];
    }
    forall x ensures OnePlaceFor(c, s', x) {
      assert OnePlaceFor(c, s, x);
    }
    forall m | 0 <= m < |s'.openedFiles| ensures EntryOk(c, s', m) {
      assert EntryOk(c, s, m);
    }
    AnnouncementsKept(c, s, s');
  }

  /** The last file gets its final name, in this thread, before the base class closes. */
  lemma FinishLast(c: Config, s: State, s': State)
    requires c.mode.FileMode? && FilesOk(c, s) && !LastDone(s.p) && s'.p.BaseClose?
    requires s'.openedFiles == s.openedFiles && s'.nonEmpty == s.nonEmpty && s'.ws == s.ws
    requires s'.sh == if s.sh.LastPath() in s.nonEmpty
                      then s.sh.Rename(s.sh.LastPath(), c.CompressedName(s.sh.LastPath())) else s.sh
    ensures FilesOk(c, s')
  {
    LastIsRaw(c, s);
    FindEntry(c, s, Last(s), s.sh.LastPath());
    forall x ensures OnePlaceFor(c, s', x) {
      assert OnePlaceFor(c, s, x);
    }
    forall m | 0 <= m < |s'.openedFiles| ensures EntryOk(c, s', m) {
      assert EntryOk(c, s, m);
    }
    AnnouncementsKept(c, s, s');
  }

  /** The final callback, with no successor file. */
  lemma BaseCloses(c: Config, s: State, s': State)
    requires c.mode.FileMode? && FilesOk(c, s) && s.p.BaseClose?
    requires s' == s.(p := Closed, sh := s.sh.Notify(BagSplit(s.sh.LastPath(), "")))
    ensures FilesOk(c, s')
  {
    assert SplitCallbacks(s') == SplitCallbacks(s);
    forall x ensures OnePlaceFor(c, s', x) {
      assert OnePlaceFor(c, s, x);
    }
    forall m | 0 <= m < |s'.openedFiles| ensures EntryOk(c, s', m) {
      assert EntryOk(c, s, m);
    }
    AnnouncementsKept(c, s, s');
  }

  // ----- All steps -----

  lemma FilesWorkerStep(c: Config, s: State, i: nat, ch: Choice, s': State)
    requires c.mode.FileMode? && FilesOk(c, s) && Phases(c, s)
    requires Follows(c, s, WorkerStep(i, ch), s')
    ensures FilesOk(c, s')
  {
    if HandlesFile(s.ws[i]) {
      FilesFileStep(c, s, i, s');
    } else if s.ws[i].Inspecting? && s.sh.files != [] {
      PopFile(c, s, i, s');
    } else {
      KeepFiles(c, s, s');
    }
  }

  lemma FilesFileStep(c: Config, s: State, i: nat, s': State)
    requires c.mode.FileMode? && FilesOk(c, s) && Phases(c, s)
    requires i < |s.ws| && HandlesFile(s.ws[i]) && s' == FileNext(c, s, i)
    ensures FilesOk(c, s')
  {
    match s.ws[i]
    case GotFile(f) => if f in s.nonEmpty { KeepFiles(c, s, s'); } else { FinishRename(c, s, i, s'); }
    case Renaming(f) => FinishRename(c, s, i, s');
    case LookingUp(f) => LookUp(c, s, i, s');
    case Calling(f, newFile) => CallBack(c, s, i, s');
    case _ => KeepFiles(c, s, s');
  }

  lemma FilesStorageCall(c: Config, s: State, ch: Choice, s': State)
    requires c.mode.FileMode? && FilesOk(c, s) && StorageCall(s.p) && s' == StorageCallNext(c, s, ch)
    ensures FilesOk(c, s')
  {
    if s.p.Splitting? {
      Split(c, s, ch.rest, ch.closedNonEmpty, s');
    } else {
      KeepFiles(c, s, s');
    }
  }

  lemma FilesCloseLast(c: Config, s: State, ch: Choice, s': State)
    requires c.mode.FileMode? && FilesOk(c, s) && s' == CloseNext(c, s, ch)
    requires s.p.CompressesLast? || s.p.RenamesLast? || s.p.BaseClose?
    ensures FilesOk(c, s')
  {
    LastIsRaw(c, s);
    if s.p.BaseClose? {
      BaseCloses(c, s, s');
    } else if s'.p.BaseClose? {
      FinishLast(c, s, s');
    } else {
      KeepFiles(c, s, s');
    }
  }

  lemma FilesClose(c: Config, s: State, ch: Choice, s': State)
    requires c.mode.FileMode? && FilesOk(c, s) && ProducerEnabled(c, s, ch) && s' == CloseNext(c, s, ch)
    requires !StorageCall(s.p)
    ensures FilesOk(c, s')
  {
    if s.p.CompressesLast? || s.p.RenamesLast? || s.p.BaseClose? {
      FilesCloseLast(c, s, ch, s');
    } else if s.p.Flushing? {
      Flush(c, s, s');
    } else {
      KeepFiles(c, s, s');
    }
  }

  lemma FileModeStep(c: Config, s: State, st: Step, s': State)
    requires c.mode.FileMode? && FilesOk(c, s) && Phases(c, s) && Follows(c, s, st, s')
    ensures FilesOk(c, s')
  {
    match st
    case WorkerStep(i, ch) => FilesWorkerStep(c, s, i, ch, s');
    case ProducerStep(ch) =>
      if StorageCall(s.p) {
        FilesStorageCall(c, s, ch, s');
      } else {
        FilesClose(c, s, ch, s');
      }
    case _ => KeepFiles(c, s, s');
  }

  /** Message mode: a step splits the bag, closes it, or leaves the files alone. */
  ghost predicate MessageModeMove(s: State, s': State) {
    || (&& s'.openedFiles == s.openedFiles && s'.sh.paths == s.sh.paths
        && s'.sh.callbacks == s.sh.callbacks && (s'.p.Closed? <==> s.p.Closed?))
    || (s.p.BaseClose? && s' == s.(p := Closed, sh := s.sh.Notify(BagSplit(s.sh.LastPath(), ""))))
    || (exists rest :: MessageModeSplit(s, rest, s'))
  }

  ghost predicate MessageModeSplit(s: State, rest: string, s': State) {
    var name := FileName(|s.openedFiles|, rest);
    && !s.p.Closed? && !s'.p.Closed?
    && s'.openedFiles == s.openedFiles + [name]
    && s'.sh == s.sh.Split(MessageMode, name)
  }

  lemma MessageModeKept(c: Config, s: State, s': State)
    requires c.mode.MessageMode? && FilesOk(c, s) && MessageModeMove(s, s')
    ensures FilesOk(c, s')
  {
    if rest :| MessageModeSplit(s, rest, s') {
      FileNameNamedAt(|s.openedFiles|, rest);
    }
  }

  lemma MessageModeWorkerStep(c: Config, s: State, i: nat, ch: Choice, s': State)
    requires c.mode.MessageMode? && Phases(c, s) && Follows(c, s, WorkerStep(i, ch), s')
    ensures MessageModeMove(s, s')
  {
    if s.ws[i].WSplitting? {
      assert MessageModeSplit(s, ch.rest, s');
    }
  }

  lemma MessageModeProducerStep(c: Config, s: State, ch: Choice, s': State)
    requires c.mode.MessageMode? && Phases(c, s) && Follows(c, s, ProducerStep(ch), s')
    ensures MessageModeMove(s, s')
  {
    if s.p.Splitting? {
      assert MessageModeSplit(s, ch.rest, s');
    }
  }

  lemma MessageModeStep(c: Config, s: State, st: Step, s': State)
    requires c.mode.MessageMode? && FilesOk(c, s) && Phases(c, s) && Follows(c, s, st, s')
    ensures FilesOk(c, s')
  {
    assert MessageModeMove(s, s') by {
      match st
      case WorkerStep(i, ch) => MessageModeWorkerStep(c, s, i, ch, s');
      case ProducerStep(ch) => MessageModeProducerStep(c, s, ch, s');
      case _ =>
    }
    MessageModeKept(c, s, s');
  }

  lemma FilesStep(c: Config, s: State, st: Step, s': State)
    requires FilesOk(c, s) && Phases(c, s) && Follows(c, s, st, s')
    ensures FilesOk(c, s')
  {
    if c.mode.FileMode? { FileModeStep(c, s, st, s'); } else { MessageModeStep(c, s, st, s'); }
  }
}
