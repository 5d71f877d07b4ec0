/**
 * The rebuilt metadata of a bag, field by field: each in terms of the metadata of the files.
 */
module ReindexerOutcome {
  import opened Basics
  import opened QosCodec
  import opened Sums
  import opened Reindexer

  // ----- Interval and totals -----

  /** Start and duration span the smallest interval that covers all files, and the totals are sums. */
  lemma AggregateInterval(storageId: string, paths: seq<string>, files: seq<FileMetadata>, low: int, high: int)
    requires files != [] && InRange(files)
    ensures var r := Reindexed(storageId, paths, files);
      && (forall i | 0 <= i < |files| ::
            r.start <= files[i].start && files[i].start + files[i].duration <= r.start + r.duration)
      && ((forall i | 0 <= i < |files| :: low <= files[i].start && files[i].start + files[i].duration <= high) <==>
          low <= r.start && r.start + r.duration <= high)
  {
    SmallestInterval(files, low, high);
    var r := Reindexed(storageId, paths, files);
    assert Covers(r.start, r.start + r.duration, files);
  }

  lemma AggregateTotals(storageId: string, paths: seq<string>, files: seq<FileMetadata>)
    ensures var r := Reindexed(storageId, paths, files);
      && r.size == Sum(files, (f: FileMetadata) => f.size)
      && r.messageCount == Sum(files, (f: FileMetadata) => f.messageCount)
      && r.paths == paths
      && r.storageId == if files == [] then storageId else files[|files| - 1].storageId
  {
    SumSame(files, SizeOf, (f: FileMetadata) => f.size);
    SumSame(files, CountIn, (f: FileMetadata) => f.messageCount);
  }

  // ----- Custom data and distribution -----

  predicate BringsData(files: seq<FileMetadata>, k: nat) {
    k < |files| && StartsLatest(files, k) && files[k].customData != map[]
  }

  predicate BringsDistro(files: seq<FileMetadata>, k: nat) {
    k < |files| && StartsLatest(files, k) && files[k].rosDistro != ""
  }

  lemma BringingOfMost(files: seq<FileMetadata>)
    requires files != []
    ensures var last := |files| - 1;
      && (forall k | 0 <= k < last :: BringsData(files[..last], k) <==> BringsData(files, k))
      && (forall k | 0 <= k < last :: BringsDistro(files[..last], k) <==> BringsDistro(files, k))
      && (StartsLatest(files, last) <==> LatestStart(files[..last]) < files[last].start)
  {
    var last := |files| - 1;
    assert forall i | 0 <= i < last :: files[..last][i] == files[i];
    LatestStartBelow(files[..last], files[last].start);
  }

  /** The custom data are those of the last file that has any among the files that start later than
      all before them, and there are none if there is no such file. */
  lemma {:induction false} AggregateData(storageId: string, paths: seq<string>, files: seq<FileMetadata>, k: nat)
    ensures var data := Reindexed(storageId, paths, files).customData;
      && (BringsData(files, k) && (forall i | k < i < |files| :: !BringsData(files, i)) ==>
            data == files[k].customData)
      && ((forall i | 0 <= i < |files| :: !BringsData(files, i)) ==> data == map[])
  {
    if files != [] {
      var last := |files| - 1;
      BringingOfMost(files);
      assert !BringsData(files, last) ==> CustomData(files) == CustomData(files[..last]);
      assert BringsData(files, last) ==> CustomData(files) == files[last].customData;
      AggregateData(storageId, paths, files[..last], k);
    }
  }

  /** The same for the distribution. */
  lemma {:induction false} AggregateDistro(storageId: string, paths: seq<string>, files: seq<FileMetadata>, k: nat)
    ensures var distro := Reindexed(storageId, paths, files).rosDistro;
      && (BringsDistro(files, k) && (forall i | k < i < |files| :: !BringsDistro(files, i)) ==>
            distro == files[k].rosDistro)
      && ((forall i | 0 <= i < |files| :: !BringsDistro(files, i)) ==> distro == "")
  {
    if files != [] {
      var last := |files| - 1;
      BringingOfMost(files);
      assert !BringsDistro(files, last) ==> RosDistro(files) == RosDistro(files[..last]);
      assert BringsDistro(files, last) ==> RosDistro(files) == files[last].rosDistro;
      AggregateDistro(storageId, paths, files[..last], k);
    }
  }

  // ----- Topics -----

  /** Entry j of file i is one of the topic. */
  predicate EntryAt(files: seq<FileMetadata>, i: nat, j: nat, n: string) {
    i < |files| && j < |files[i].topics| && files[i].topics[j].name == n
  }

  predicate GivesAt<T(==)>(files: seq<FileMetadata>, i: nat, j: nat, n: string, of: Topic -> T, none: T) {
    EntryAt(files, i, j, n) && of(files[i].topics[j]) != none
  }

  predicate LastToGive<T(==)>(files: seq<FileMetadata>, i: nat, j: nat, n: string, of: Topic -> T, none: T) {
    && GivesAt(files, i, j, n, of, none)
    && forall k: nat, l: nat | k < |files| && l < |files[k].topics| && GivesAt(files, k, l, n, of, none) ::
         k < i || (k == i && l <= j)
  }

  predicate FirstEntry(files: seq<FileMetadata>, i: nat, j: nat, n: string) {
    && EntryAt(files, i, j, n)
    && forall k: nat, l: nat | k < |files| && l < |files[k].topics| && EntryAt(files, k, l, n) ::
         i < k || (i == k && j <= l)
  }

  lemma {:induction false} EntryOf(files: seq<FileMetadata>, n: string)
    ensures (exists k :: 0 <= k < |Entries(files)| && Entries(files)[k].name == n) <==>
            exists i: nat, j: nat :: EntryAt(files, i, j, n)
  {
    if files != [] {
      var last := |files| - 1;
      var most := files[..last];
      EntryOf(most, n);
      var a: seq<Topic>, b: seq<Topic> := Entries(most), files[last].topics;
      assert Entries(files) == a + b;
      if k :| 0 <= k < |a + b| && (a + b)[k].name == n {
        if k < |a| {
          assert a[k].name == n;
          var i: nat, j: nat :| EntryAt(most, i, j, n);
          assert EntryAt(files, i, j, n);
        } else {
          assert EntryAt(files, last, k - |a|, n);
        }
      }
      if i: nat, j: nat :| EntryAt(files, i, j, n) {
        if i < last {
          assert EntryAt(most, i, j, n);
          var k :| 0 <= k < |a| && a[k].name == n;
          assert (a + b)[k].name == n;
        } else {
          assert (a + b)[|a| + j].name == n;
        }
      }
    }
  }

  /** A file's messages of the topic. */
  function MessagesOf(n: string): FileMetadata -> nat { (f: FileMetadata) => Sum(f.topics, MessagesIfNamed(n)) }

  function MessagesIfNamed(n: string): Topic -> nat { (t: Topic) => if t.name == n then t.messageCount else 0 }

  lemma MessagesOfFile(f: FileMetadata, n: string)
    ensures CountFor(n)(f) == MessagesOf(n)(f)
  {
    assert CountFor(n)(f) == Share(f.topics, CountOf, NameOf)(n);
    SumSame(f.topics, Only(CountOf, NameOf, n), MessagesIfNamed(n));
  }

  /** The topics are those of the files, each with all its messages in all files. */
  lemma AggregateTopics(storageId: string, paths: seq<string>, files: seq<FileMetadata>, n: string)
    ensures var topics := Reindexed(storageId, paths, files).topics;
      && (n in topics <==> exists i: nat, j: nat :: EntryAt(files, i, j, n))
      && (n in topics ==> topics[n].name == n && topics[n].messageCount == Sum(files, MessagesOf(n)))
  {
    MergedNames(Entries(files), n);
    EntryOf(files, n);
    MergedCounts(Entries(files), n);
    ShareOfEntries(files, n);
    forall i | 0 <= i < |files| ensures CountFor(n)(files[i]) == MessagesOf(n)(files[i]) {
      MessagesOfFile(files[i], n);
    }
    SumSame(files, CountFor(n), MessagesOf(n));
  }

  lemma {:induction false} GivenConcat<T>(a: seq<Topic>, b: seq<Topic>, n: string, of: Topic -> T, none: T)
    ensures LastGiven(a + b, n, of, none) ==
            var last := LastGiven(b, n, of, none); if last != none then last else LastGiven(a, n, of, none)
  {
    if b == [] {
      assert a + b == a;
    } else {
      assert (a + b)[..|a + b| - 1] == a + b[..|b| - 1];
      GivenConcat(a, b[..|b| - 1], n, of, none);
    }
  }

  lemma {:induction false} GivenIn<T>(ts: seq<Topic>, n: string, of: Topic -> T, none: T, j: nat)
    requires j < |ts| && ts[j].name == n && of(ts[j]) != none
    requires forall l | j < l < |ts| :: ts[l].name == n ==> of(ts[l]) == none
    ensures LastGiven(ts, n, of, none) == of(ts[j])
  {
    if j < |ts| - 1 { GivenIn(ts[..|ts| - 1], n, of, none, j); }
  }

  lemma {:induction false} NoneGiven<T>(ts: seq<Topic>, n: string, of: Topic -> T, none: T)
    requires forall l | 0 <= l < |ts| :: ts[l].name == n ==> of(ts[l]) == none
    ensures LastGiven(ts, n, of, none) == none
  {
    if ts != [] { NoneGiven(ts[..|ts| - 1], n, of, none); }
  }

  lemma {:induction false} GivenByFiles<T>(files: seq<FileMetadata>, n: string, of: Topic -> T, none: T, i: nat, j: nat)
    requires LastToGive(files, i, j, n, of, none)
    ensures LastGiven(Entries(files), n, of, none) == of(files[i].topics[j])
  {
    var last := |files| - 1;
    var ts := files[last].topics;
    GivenConcat(Entries(files[..last]), ts, n, of, none);
    if i == last {
      forall l | j < l < |ts| ensures ts[l].name == n ==> of(ts[l]) == none {
        assert !GivesAt(files, last, l, n, of, none);
      }
      GivenIn(ts, n, of, none, j);
    } else {
      forall l | 0 <= l < |ts| ensures ts[l].name == n ==> of(ts[l]) == none {
        assert !GivesAt(files, last, l, n, of, none);
      }
      NoneGiven(ts, n, of, none);
      forall k: nat, l: nat | GivesAt(files[..last], k, l, n, of, none) ensures k < i || (k == i && l <= j) {
        assert GivesAt(files, k, l, n, of, none);
      }
      GivenByFiles(files[..last], n, of, none, i, j);
    }
  }

  lemma {:induction false} NoneByFiles<T>(files: seq<FileMetadata>, n: string, of: Topic -> T, none: T)
    requires forall i: nat, j: nat :: !GivesAt(files, i, j, n, of, none)
    ensures LastGiven(Entries(files), n, of, none) == none
  {
    if files != [] {
      var last := |files| - 1;
      var ts := files[last].topics;
      GivenConcat(Entries(files[..last]), ts, n, of, none);
      forall l | 0 <= l < |ts| ensures ts[l].name == n ==> of(ts[l]) == none {
        assert !GivesAt(files, last, l, n, of, none);
      }
      NoneGiven(ts, n, of, none);
      forall k: nat, l: nat ensures !GivesAt(files[..last], k, l, n, of, none) {
        assert !GivesAt(files, k, l, n, of, none);
      }
      NoneByFiles(files[..last], n, of, none);
    }
  }

  /** The type of a topic is the last that an entry of any file gives; likewise its format and its
      offered profiles. */
  lemma AggregateTexts(storageId: string, paths: seq<string>, files: seq<FileMetadata>, n: string, i: nat, j: nat)
    requires n in Reindexed(storageId, paths, files).topics
    ensures var topic := Reindexed(storageId, paths, files).topics[n];
      && (LastToGive(files, i, j, n, TypeOf, "") ==> topic.typeName == files[i].topics[j].typeName)
      && (LastToGive(files, i, j, n, FormatOf, "") ==> topic.format == files[i].topics[j].format)
      && (LastToGive(files, i, j, n, ProfilesOf, []) ==> topic.profiles == files[i].topics[j].profiles)
  {
    MergedTexts(Entries(files), n);
    if LastToGive(files, i, j, n, TypeOf, "") { GivenByFiles(files, n, TypeOf, "", i, j); }
    if LastToGive(files, i, j, n, FormatOf, "") { GivenByFiles(files, n, FormatOf, "", i, j); }
    if LastToGive(files, i, j, n, ProfilesOf, []) { GivenByFiles(files, n, ProfilesOf, [], i, j); }
  }

  /** What no entry gives stays empty. */
  lemma AggregateNothing(storageId: string, paths: seq<string>, files: seq<FileMetadata>, n: string)
    requires n in Reindexed(storageId, paths, files).topics
    ensures var topic := Reindexed(storageId, paths, files).topics[n];
      && ((forall i: nat, j: nat | EntryAt(files, i, j, n) :: files[i].topics[j].typeName == "") ==>
            topic.typeName == "")
      && ((forall i: nat, j: nat | EntryAt(files, i, j, n) :: files[i].topics[j].format == "") ==> topic.format == "")
      && ((forall i: nat, j: nat | EntryAt(files, i, j, n) :: files[i].topics[j].profiles == []) ==>
            topic.profiles == [])
  {
    MergedTexts(Entries(files), n);
    if forall i: nat, j: nat | EntryAt(files, i, j, n) :: files[i].topics[j].typeName == "" {
      NoneByFiles(files, n, TypeOf, "");
    }
    if forall i: nat, j: nat | EntryAt(files, i, j, n) :: files[i].topics[j].format == "" {
      NoneByFiles(files, n, FormatOf, "");
    }
    if forall i: nat, j: nat | EntryAt(files, i, j, n) :: files[i].topics[j].profiles == [] {
      NoneByFiles(files, n, ProfilesOf, []);
    }
  }

  /** The first entries are those of the first files. */
  lemma {:induction false} EntriesOfFront(files: seq<FileMetadata>, i: nat)
    requires i <= |files|
    ensures Entries(files[..i]) <= Entries(files)
  {
    if i < |files| {
      EntriesOfFront(files[..|files| - 1], i);
      assert files[..|files| - 1][..i] == files[..i];
    } else {
      assert files[..i] == files;
    }
  }

  lemma NotBefore(files: seq<FileMetadata>, n: string, i: nat, j: nat, l: nat)
    requires FirstEntry(files, i, j, n) && l < |Entries(files[..i])|
    ensures Entries(files[..i])[l].name != n
  {
    if Entries(files[..i])[l].name == n {
      EntryOf(files[..i], n);
      assert exists k: nat, m: nat :: EntryAt(files[..i], k, m, n);
      var k: nat, m: nat :| EntryAt(files[..i], k, m, n);
      assert EntryAt(files, k, m, n);
    }
  }

  /** The type hash of a topic is that of its first entry in all files. */
  lemma AggregateHash(storageId: string, paths: seq<string>, files: seq<FileMetadata>, n: string, i: nat, j: nat)
    requires FirstEntry(files, i, j, n)
    ensures var topics := Reindexed(storageId, paths, files).topics;
      n in topics && topics[n].typeHash == files[i].topics[j].typeHash
  {
    var before, ts := Entries(files[..i]), files[i].topics;
    assert files[..i + 1][..i] == files[..i];
    assert Entries(files[..i + 1]) == before + ts;
    EntriesOfFront(files, i + 1);
    var k := |before| + j;
    assert Entries(files)[k] == (before + ts)[k] == ts[j];
    forall l | 0 <= l < k ensures Entries(files)[l].name != n {
      assert Entries(files)[l] == (before + ts)[l];
      if l < |before| {
        NotBefore(files, n, i, j, l);
      } else {
        assert EntryAt(files, i, l - |before|, n) <==> ts[l - |before|].name == n;
      }
    }
    MergedHash(Entries(files), n, k);
  }
}
