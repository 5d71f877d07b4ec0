/**
 * Rebuilding the metadata of a bag from its files: which file comes first, and what the files'
 * own metadata add up to.
 */
module Reindexer {
  import opened Basics
  import opened Decimal
  import opened QosCodec
  import opened Sums

  const INT64_MIN := -INT64_MAX - 1

  datatype Topic = Topic(
    name: string, typeName: string, format: string, profiles: seq<Qos>, typeHash: string, messageCount: nat)

  datatype FileMetadata = FileMetadata(
    size: nat, storageId: string, start: int, duration: int, messageCount: nat, topics: seq<Topic>,
    customData: map<string, string>, rosDistro: string)

  datatype Aggregate = Aggregate(
    storageId: string, paths: seq<string>, size: nat, start: int, duration: int, messageCount: nat,
    topics: map<string, Topic>, customData: map<string, string>, rosDistro: string)

  // ----- Times -----

  function End(f: FileMetadata): int { f.start + f.duration }

  function Earliest(files: seq<FileMetadata>): int {
    if files == [] then INT64_MAX
    else Min(files[|files| - 1].start, Earliest(files[..|files| - 1]))
  }

  function LatestStart(files: seq<FileMetadata>): int {
    if files == [] then INT64_MIN
    else Max(LatestStart(files[..|files| - 1]), files[|files| - 1].start)
  }

  function LatestEnd(files: seq<FileMetadata>): int {
    if files == [] then INT64_MIN
    else Max(LatestEnd(files[..|files| - 1]), End(files[|files| - 1]))
  }

  predicate Covers(low: int, high: int, files: seq<FileMetadata>) {
    forall i | 0 <= i < |files| :: low <= files[i].start && End(files[i]) <= high
  }

  /** Starts and ends are time points. */
  predicate InRange(files: seq<FileMetadata>) {
    forall i | 0 <= i < |files| ::
      INT64_MIN <= files[i].start <= INT64_MAX && INT64_MIN <= End(files[i]) <= INT64_MAX
  }

  lemma {:induction false} CoversAll(files: seq<FileMetadata>)
    ensures Covers(Earliest(files), LatestEnd(files), files)
  {
    if files != [] {
      CoversAll(files[..|files| - 1]);
      forall i | 0 <= i < |files|
        ensures Earliest(files) <= files[i].start && End(files[i]) <= LatestEnd(files)
      {
        if i < |files| - 1 { assert files[i] == files[..|files| - 1][i]; }
      }
    }
  }

  lemma {:induction false} Tight(files: seq<FileMetadata>, low: int, high: int)
    requires files != [] && InRange(files) && Covers(low, high, files)
    ensures low <= Earliest(files) && LatestEnd(files) <= high
  {
    var most := files[..|files| - 1];
    if most != [] {
      assert forall i | 0 <= i < |most| :: most[i] == files[i];
      Tight(most, low, high);
    }
  }

  /** Start and end span the smallest interval that covers every file. */
  lemma {:induction false} SmallestInterval(files: seq<FileMetadata>, low: int, high: int)
    requires files != [] && InRange(files)
    ensures Covers(Earliest(files), LatestEnd(files), files)
    ensures Covers(low, high, files) <==> low <= Earliest(files) && LatestEnd(files) <= high
  {
    CoversAll(files);
    if Covers(low, high, files) { Tight(files, low, high); }
  }

  // ----- Topics -----

  function Merge(m: map<string, Topic>, t: Topic): map<string, Topic> {
    if t.name !in m then m[t.name := t]
    else
      var known := m[t.name];
      m[t.name := known.(
        messageCount := known.messageCount + t.messageCount,
        profiles := if t.profiles != [] then t.profiles else known.profiles,
        format := if t.format != "" then t.format else known.format,
        typeName := if t.typeName != "" then t.typeName else known.typeName)]
  }

  function MergeAll(m: map<string, Topic>, ts: seq<Topic>): map<string, Topic> {
    if ts == [] then m else Merge(MergeAll(m, ts[..|ts| - 1]), ts[|ts| - 1])
  }

  /** Every topic entry of every file, in order. */
  function Entries(files: seq<FileMetadata>): seq<Topic> {
    if files == [] then [] else Entries(files[..|files| - 1]) + files[|files| - 1].topics
  }

  lemma {:induction false} MergeConcat(m: map<string, Topic>, a: seq<Topic>, b: seq<Topic>)
    ensures MergeAll(MergeAll(m, a), b) == MergeAll(m, a + b)
  {
    if b == [] {
      assert a + b == a;
    } else {
      assert (a + b)[..|a + b| - 1] == a + b[..|b| - 1];
      MergeConcat(m, a, b[..|b| - 1]);
    }
  }

  const NameOf := (t: Topic) => t.name
  const CountOf := (t: Topic) => t.messageCount
  const TypeOf := (t: Topic) => t.typeName
  const FormatOf := (t: Topic) => t.format
  const ProfilesOf := (t: Topic) => t.profiles

  /** The last value that is not the empty one, among the entries of one topic. */
  function LastGiven<T(==)>(ts: seq<Topic>, name: string, of: Topic -> T, none: T): T {
    if ts == [] then none
    else
      var t := ts[|ts| - 1];
      if t.name == name && of(t) != none then of(t) else LastGiven(ts[..|ts| - 1], name, of, none)
  }

  /** The merged topics are those that some entry names. */
  lemma {:induction false} MergedNames(ts: seq<Topic>, n: string)
    ensures var m := MergeAll(map[], ts);
      && (n in m <==> exists i :: 0 <= i < |ts| && ts[i].name == n)
      && (n in m ==> m[n].name == n)
  {
    if ts != [] {
      var most := ts[..|ts| - 1];
      MergedNames(most, n);
      assert forall i | 0 <= i < |most| :: most[i] == ts[i];
    }
  }

  /** A topic's merged count is the sum of its counts over all entries. */
  lemma {:induction false} MergedCounts(ts: seq<Topic>, n: string)
    ensures var m := MergeAll(map[], ts);
      Share(ts, CountOf, NameOf)(n) == if n in m then m[n].messageCount else 0
  {
    if ts != [] {
      MergedCounts(ts[..|ts| - 1], n);
      assert Share(ts, CountOf, NameOf)(n)
          == Share(ts[..|ts| - 1], CountOf, NameOf)(n) + Only(CountOf, NameOf, n)(ts[|ts| - 1]);
    }
  }

  /** A topic's merged type, format and offered profiles are the last that any entry gives. */
  lemma {:induction false} MergedTexts(ts: seq<Topic>, n: string)
    ensures var m := MergeAll(map[], ts);
      && LastGiven(ts, n, TypeOf, "") == (if n in m then m[n].typeName else "")
      && LastGiven(ts, n, FormatOf, "") == (if n in m then m[n].format else "")
      && LastGiven(ts, n, ProfilesOf, []) == (if n in m then m[n].profiles else [])
  {
    if ts != [] { MergedTexts(ts[..|ts| - 1], n); }
  }

  /** A topic's hash stays that of its first entry. */
  lemma {:induction false} MergedHash(ts: seq<Topic>, n: string, k: nat)
    requires k < |ts| && ts[k].name == n && forall i | 0 <= i < k :: ts[i].name != n
    ensures n in MergeAll(map[], ts) && MergeAll(map[], ts)[n].typeHash == ts[k].typeHash
  {
    var most := ts[..|ts| - 1];
    if k < |most| {
      assert forall i | 0 <= i < |most| :: most[i] == ts[i];
      MergedHash(most, n, k);
    } else {
      MergedNames(most, n);
    }
  }

  // ----- Custom data -----

  /** A file counts when it starts later than all before it, and then only what it has. */
  function CustomData(files: seq<FileMetadata>): map<string, string> {
    if files == [] then map[]
    else
      var most, f := files[..|files| - 1], files[|files| - 1];
      if LatestStart(most) < f.start && f.customData != map[] then f.customData else CustomData(most)
  }

  function RosDistro(files: seq<FileMetadata>): string {
    if files == [] then ""
    else
      var most, f := files[..|files| - 1], files[|files| - 1];
      if LatestStart(most) < f.start && f.rosDistro != "" then f.rosDistro else RosDistro(most)
  }

  /** The file starts later than every file before it. */
  predicate StartsLatest(files: seq<FileMetadata>, k: nat)
    requires k < |files|
  {
    files[k].start > -0x8000_0000_0000_0000 && forall i | 0 <= i < k :: files[i].start < files[k].start
  }

  lemma {:induction false} LatestStartBelow(files: seq<FileMetadata>, time: int)
    ensures LatestStart(files) < time <==> INT64_MIN < time && forall i | 0 <= i < |files| :: files[i].start < time
  {
    if files != [] {
      var most := files[..|files| - 1];
      LatestStartBelow(most, time);
      assert forall i | 0 <= i < |most| :: most[i] == files[i];
    }
  }

  /** The last file that has custom data decides exactly when it starts later than every file
      before it; otherwise the files before it decide. */
  lemma {:induction false} LastDataDecides(files: seq<FileMetadata>, k: nat)
    requires k < |files| && files[k].customData != map[]
    requires forall i | k < i < |files| :: files[i].customData == map[]
    ensures CustomData(files) == if StartsLatest(files, k) then files[k].customData else CustomData(files[..k])
  {
    if k < |files| - 1 {
      LastDataDecides(files[..|files| - 1], k);
      assert files[..|files| - 1][..k] == files[..k];
    } else {
      LatestStartBelow(files[..k], files[k].start);
    }
  }

  /** The same for the distribution. */
  lemma {:induction false} LastDistroDecides(files: seq<FileMetadata>, k: nat)
    requires k < |files| && files[k].rosDistro != ""
    requires forall i | k < i < |files| :: files[i].rosDistro == ""
    ensures RosDistro(files) == if StartsLatest(files, k) then files[k].rosDistro else RosDistro(files[..k])
  {
    if k < |files| - 1 {
      LastDistroDecides(files[..|files| - 1], k);
      assert files[..|files| - 1][..k] == files[..k];
    } else {
      LatestStartBelow(files[..k], files[k].start);
    }
  }

  /** Custom data and distribution are those of the last file that has any if and only if that
      file starts later than every file before it, or these yield the same already. */
  lemma LatestWins(files: seq<FileMetadata>, k: nat)
    requires k < |files|
    ensures files[k].customData != map[] && (forall i | k < i < |files| :: files[i].customData == map[]) ==>
              (CustomData(files) == files[k].customData <==>
               StartsLatest(files, k) || CustomData(files[..k]) == files[k].customData)
    ensures files[k].rosDistro != "" && (forall i | k < i < |files| :: files[i].rosDistro == "") ==>
              (RosDistro(files) == files[k].rosDistro <==>
               StartsLatest(files, k) || RosDistro(files[..k]) == files[k].rosDistro)
  {
    if files[k].customData != map[] && (forall i | k < i < |files| :: files[i].customData == map[]) {
      LastDataDecides(files, k);
    }
    if files[k].rosDistro != "" && (forall i | k < i < |files| :: files[i].rosDistro == "") {
      LastDistroDecides(files, k);
    }
  }

  /** What a file carries makes no difference at all unless it starts later than every file before it. */
  lemma {:induction false} OthersIgnored(files: seq<FileMetadata>, k: nat, data: map<string, string>, distro: string)
    requires k < |files| && !StartsLatest(files, k)
    ensures var changed := files[k := files[k].(customData := data, rosDistro := distro)];
      CustomData(changed) == CustomData(files) && RosDistro(changed) == RosDistro(files)
  {
    var changed := files[k := files[k].(customData := data, rosDistro := distro)];
    var last := |files| - 1;
    if k == last {
      assert changed[..last] == files[..last];
      LatestStartBelow(files[..last], files[last].start);
    } else {
      assert changed[..last] == files[..last][k := changed[k]];
      OthersIgnored(files[..last], k, data, distro);
      SameLatestStart(changed[..last], files[..last]);
    }
  }

  lemma {:induction false} SameLatestStart(a: seq<FileMetadata>, b: seq<FileMetadata>)
    requires |a| == |b| && forall i | 0 <= i < |a| :: a[i].start == b[i].start
    ensures LatestStart(a) == LatestStart(b)
  {
    if a != [] { SameLatestStart(a[..|a| - 1], b[..|b| - 1]); }
  }

  /** Of all files with custom data let one start last. Its data are taken exactly when it also
      starts later than every file before it, those without data included; otherwise it might as
      well have none. */
  lemma {:induction false} GreatestStartWins(files: seq<FileMetadata>, k: nat)
    requires k < |files| && files[k].customData != map[]
    requires forall i | 0 <= i < |files| && i != k && files[i].customData != map[] :: files[i].start < files[k].start
    ensures if StartsLatest(files, k) then CustomData(files) == files[k].customData
            else CustomData(files) == CustomData(files[k := files[k].(customData := map[])])
  {
    if !StartsLatest(files, k) {
      OthersIgnored(files, k, map[], files[k].rosDistro);
    } else if k == |files| - 1 {
      LastDataDecides(files, k);
    } else {
      var most := files[..|files| - 1];
      assert forall i | 0 <= i < |most| :: most[i] == files[i];
      GreatestStartWins(most, k);
      LatestStartBelow(most, files[|files| - 1].start);
    }
  }

  predicate StartsIncrease(files: seq<FileMetadata>) {
    && (forall i | 0 <= i < |files| :: INT64_MIN < files[i].start)
    && (forall i, j | 0 <= i < j < |files| :: files[i].start < files[j].start)
  }

  /** In particular, with increasing starts they always come from the last file that has any. */
  lemma IncreasingStartsSuffice(files: seq<FileMetadata>, k: nat)
    requires StartsIncrease(files) && k < |files|
    ensures files[k].customData != map[] && (forall i | k < i < |files| :: files[i].customData == map[]) ==>
              CustomData(files) == files[k].customData
    ensures files[k].rosDistro != "" && (forall i | k < i < |files| :: files[i].rosDistro == "") ==>
              RosDistro(files) == files[k].rosDistro
  {
    assert StartsLatest(files, k);
    LatestWins(files, k);
  }

  /** Two files, of which only the second has data and does not start later: the data are lost. */
  lemma UnorderedLoses(first: FileMetadata, second: FileMetadata)
    requires second.start <= first.start && first.customData == map[]
    ensures CustomData([first, second]) == map[]
  {
    var files := [first, second];
    assert files[..1] == [first] && [first][..0] == [];
    assert CustomData([first]) == map[];
    if second.customData != map[] {
      assert files[0].start >= files[1].start && !StartsLatest(files, 1);
      LastDataDecides(files, 1);
    }
  }

  // ----- The aggregate -----

  const CountIn := (f: FileMetadata) => f.messageCount
  const SizeOf := (f: FileMetadata) => f.size

  function LastStorageId(initial: string, files: seq<FileMetadata>): string {
    if files == [] then initial else files[|files| - 1].storageId
  }

  function Reindexed(storageId: string, paths: seq<string>, files: seq<FileMetadata>): Aggregate {
    Aggregate(LastStorageId(storageId, files), paths, Sum(files, SizeOf), Earliest(files),
              LatestEnd(files) - Earliest(files), Sum(files, CountIn), MergeAll(map[], Entries(files)),
              CustomData(files), RosDistro(files))
  }

  class Reindexer {
    var metadata: Aggregate

    method InitMetadata(paths: seq<string>, storageId: string)
      modifies this
      ensures metadata == Aggregate(storageId, paths, 0, INT64_MAX, 0, 0, map[], map[], "")
    {
      metadata := Aggregate(storageId, [], 0, 0, 0, 0, map[], map[], "");
      metadata := metadata.(start := INT64_MAX);
      for k := 0 to |paths|
        invariant metadata == Aggregate(storageId, paths[..k], 0, INT64_MAX, 0, 0, map[], map[], "")
      {
        metadata := metadata.(paths := metadata.paths + [paths[k]]);
      }
      assert paths[..|paths|] == paths;
    }

    method MergeTopics(known: map<string, Topic>, ts: seq<Topic>) returns (m: map<string, Topic>)
      ensures m == MergeAll(known, ts)
    {
      m := known;
      for k := 0 to |ts|
        invariant m == MergeAll(known, ts[..k])
      {
        assert ts[..k + 1][..k] == ts[..k];
        m := Merge(m, ts[k]);
      }
      assert ts[..|ts|] == ts;
    }

    method AggregateMetadata(files: seq<FileMetadata>)
      requires metadata.size == 0 && metadata.start == INT64_MAX && metadata.messageCount == 0
      requires metadata.topics == map[] && metadata.customData == map[] && metadata.rosDistro == ""
      modifies this
      ensures metadata == Reindexed(old(metadata.storageId), old(metadata.paths), files)
    {
      var topics, latestLogStart, endingTime := map[], INT64_MIN, INT64_MIN;
      for k := 0 to |files|
        invariant latestLogStart == LatestStart(files[..k]) && endingTime == LatestEnd(files[..k])
        invariant topics == MergeAll(map[], Entries(files[..k]))
        invariant metadata == Reindexed(old(metadata.storageId), old(metadata.paths), files[..k])
                                .(duration := metadata.duration, topics := map[])
      {
        var f := files[k];
        assert files[..k + 1][..k] == files[..k];
        MergeConcat(map[], Entries(files[..k]), f.topics);
        metadata := metadata.(size := metadata.size + f.size);
        metadata := metadata.(storageId := f.storageId);
        if latestLogStart < f.start {
          latestLogStart := f.start;
          if f.customData != map[] { metadata := metadata.(customData := f.customData); }
          if f.rosDistro != "" { metadata := metadata.(rosDistro := f.rosDistro); }
        }
        metadata := metadata.(start := Min(f.start, metadata.start));
        endingTime := Max(endingTime, f.start + f.duration);
        metadata := metadata.(messageCount := metadata.messageCount + f.messageCount);
        topics := MergeTopics(topics, f.topics);
      }
      assert files[..|files|] == files;
      metadata := metadata.(duration := endingTime - metadata.start);
      metadata := metadata.(topics := topics);
    }

    /** False stands for the exception when there is no file. */
    method Reindex(paths: seq<string>, storageId: string, files: seq<FileMetadata>) returns (ok: bool)
      modifies this
      ensures ok <==> files != []
      ensures ok ==> metadata == Reindexed(storageId, paths, files)
    {
      if files == [] { return false; }
      InitMetadata(paths, storageId);
      AggregateMetadata(files);
      return true;
    }
  }

  /** The total count of a file is what its topics add up to. */
  predicate Balanced(f: FileMetadata) { f.messageCount == Sum(f.topics, CountOf) }

  lemma {:induction false} EntriesTotal(files: seq<FileMetadata>)
    requires forall i | 0 <= i < |files| :: Balanced(files[i])
    ensures Sum(Entries(files), CountOf) == Sum(files, CountIn)
  {
    if files != [] {
      EntriesTotal(files[..|files| - 1]);
      SumConcat(Entries(files[..|files| - 1]), files[|files| - 1].topics, CountOf);
    }
  }

  function MergedCount(m: map<string, Topic>): string -> nat {
    (n: string) => if n in m then m[n].messageCount else 0
  }

  /** However the merged topics are listed, their counts add up to the total whenever the counts
      of every file do. */
  lemma CountsAddUp(storageId: string, paths: seq<string>, files: seq<FileMetadata>, names: seq<string>)
    requires forall i | 0 <= i < |files| :: Balanced(files[i])
    requires Distinct(names) && forall n :: n in names <==> n in Reindexed(storageId, paths, files).topics
    ensures var r := Reindexed(storageId, paths, files);
      Sum(names, MergedCount(r.topics)) == r.messageCount
  {
    var ts := Entries(files);
    EntriesTotal(files);
    forall i | 0 <= i < |ts| ensures NameOf(ts[i]) in names { MergedNames(ts, ts[i].name); }
    SharesAddUp(names, ts, CountOf, NameOf);
    forall i | 0 <= i < |names|
      ensures Share(ts, CountOf, NameOf)(names[i]) == MergedCount(MergeAll(map[], ts))(names[i])
    {
      MergedCounts(ts, names[i]);
    }
    SumSame(names, Share(ts, CountOf, NameOf), MergedCount(MergeAll(map[], ts)));
  }

  // ----- The order of the files -----

  function CountFor(n: string): FileMetadata -> nat {
    (f: FileMetadata) => Share(f.topics, CountOf, NameOf)(n)
  }

  lemma {:induction false} ShareOfEntries(files: seq<FileMetadata>, n: string)
    ensures Share(Entries(files), CountOf, NameOf)(n) == Sum(files, CountFor(n))
  {
    if files != [] {
      ShareOfEntries(files[..|files| - 1], n);
      assert CountFor(n)(files[|files| - 1]) == Share(files[|files| - 1].topics, CountOf, NameOf)(n);
      SumConcat(Entries(files[..|files| - 1]), files[|files| - 1].topics, Only(CountOf, NameOf, n));
    }
  }

  lemma CoversPermuted(low: int, high: int, a: seq<FileMetadata>, b: seq<FileMetadata>)
    requires multiset(a) == multiset(b) && Covers(low, high, a)
    ensures Covers(low, high, b)
  {
    forall i | 0 <= i < |b| ensures low <= b[i].start && End(b[i]) <= high {
      assert b[i] in multiset(a);
    }
  }

  /** Interval, total, size and per-topic counts do not depend on the order of the files. */
  lemma OrderIrrelevant(storageId: string, paths: seq<string>, a: seq<FileMetadata>, b: seq<FileMetadata>, n: string)
    requires a != [] && InRange(a) && InRange(b) && multiset(a) == multiset(b)
    ensures var r, s := Reindexed(storageId, paths, a), Reindexed(storageId, paths, b);
      && r.start == s.start && r.duration == s.duration && r.messageCount == s.messageCount && r.size == s.size
      && MergedCount(r.topics)(n) == MergedCount(s.topics)(n)
  {
    assert |a| == |multiset(a)| == |b|;
    CoversAll(a);
    CoversAll(b);
    CoversPermuted(Earliest(a), LatestEnd(a), a, b);
    CoversPermuted(Earliest(b), LatestEnd(b), b, a);
    SmallestInterval(a, Earliest(b), LatestEnd(b));
    SmallestInterval(b, Earliest(a), LatestEnd(a));
    SumPermuted(a, b, CountIn);
    SumPermuted(a, b, SizeOf);
    SumPermuted(a, b, CountFor(n));
    ShareOfEntries(a, n);
    ShareOfEntries(b, n);
    MergedCounts(Entries(a), n);
    MergedCounts(Entries(b), n);
  }

  // ----- Which file comes first -----

  function LeadingDigits(s: string): (n: nat)
    ensures n <= |s| && (forall i | 0 <= i < n :: IsDigit(s[i])) && (n < |s| ==> !IsDigit(s[n]))
  {
    if s == [] || !IsDigit(s[0]) then 0 else
      var n := LeadingDigits(s[1..]);
      assert forall i | 0 < i < n + 1 :: s[i] == s[1..][i - 1];
      n + 1
  }

  predicate IsAlphanumeric(c: char) { IsDigit(c) || 'a' <= c <= 'z' || 'A' <= c <= 'Z' }

  predicate IsSuffix(s: string) {
    |s| > 1 && s[0] == '.' && forall i | 0 < i < |s| :: IsAlphanumeric(s[i])
  }

  /** One or two suffixes like .mcap.zstd */
  predicate IsExtension(s: string) {
    IsSuffix(s) || exists i | 0 < i < |s| :: IsSuffix(s[..i]) && IsSuffix(s[i..])
  }

  /** dddd_dd_dd-dd_dd_dd */
  predicate IsTimestamp(s: string) {
    && |s| == 19 && s[4] == s[7] == s[13] == s[16] == '_' && s[10] == '-'
    && forall i | 0 <= i < 19 && i !in {4, 7, 10, 13, 16} :: IsDigit(s[i])
  }

  /** From k on: an underscore, a time stamp and an extension, and nothing else. */
  predicate StampAt(path: string, k: nat)
    requires k + 20 <= |path|
  {
    path[k] == '_' && IsTimestamp(path[k + 1..k + 20]) && IsExtension(path[k + 20..])
  }

  /** counter_prefix_timestamp.extension: the counter. */
  function NewNumber(path: string): Option<nat> {
    var n := LeadingDigits(path);
    if n > 0 && n < |path| && path[n] == '_'
       && exists k | n < k < |path| - 20 :: StampAt(path, k)
    then ParseNat(path[..n]) else None
  }

  function AfterLastUnderscore(path: string): (r: Option<string>)
    ensures r.None? ==> '_' !in path
    ensures r.Some? ==> |r.value| < |path| && path[|path| - |r.value|..] == r.value
                        && path[|path| - |r.value| - 1] == '_' && '_' !in r.value
  {
    if path == "" then None
    else if path[|path| - 1] == '_' then Some("")
    else
      var most := AfterLastUnderscore(path[..|path| - 1]);
      assert path == path[..|path| - 1] + [path[|path| - 1]];
      if most.None? then None else Some(most.value + [path[|path| - 1]])
  }

  /** anything_number.extension: the number. */
  function OldNumber(path: string): Option<nat> {
    match AfterLastUnderscore(path)
    case None => None
    case Some(s) =>
      var n := LeadingDigits(s);
      if n > 0 && IsExtension(s[n..]) then ParseNat(s[..n]) else None
  }

  function FileNumber(path: string): Option<nat> {
    if NewNumber(path).Some? then NewNumber(path) else OldNumber(path)
  }

  /** None stands for the exception for a path that follows neither convention. */
  function CompareRelativeFile(first: string, second: string): Option<bool> {
    match (FileNumber(first), FileNumber(second))
    case (Some(a), Some(b)) => Some(a < b)
    case _ => None
  }

  lemma {:induction false} LastUnderscoreAt(front: string, back: string)
    requires '_' !in back
    ensures AfterLastUnderscore(front + "_" + back) == Some(back)
  {
    if back != "" {
      var path, most := front + "_" + back, back[..|back| - 1];
      assert path[..|path| - 1] == front + "_" + most;
      LastUnderscoreAt(front, most);
      assert most + [back[|back| - 1]] == back;
    }
  }

  lemma {:induction false} LeadingDigitsOf(digits: string, rest: string)
    requires (forall i | 0 <= i < |digits| :: IsDigit(digits[i])) && (rest != "" ==> !IsDigit(rest[0]))
    ensures LeadingDigits(digits + rest) == |digits|
  {
    if digits == "" {
      assert digits + rest == rest;
    } else {
      assert (digits + rest)[1..] == digits[1..] + rest;
      LeadingDigitsOf(digits[1..], rest);
    }
  }

  lemma NoUnderscoreInExtension(e: string)
    requires IsExtension(e)
    ensures '_' !in e && !IsDigit(e[0])
  {
    if !IsSuffix(e) {
      var i :| 0 < i < |e| && IsSuffix(e[..i]) && IsSuffix(e[i..]);
      assert e == e[..i] + e[i..];
    }
  }

  /** Where the old convention applies, the number of a file is the last one before the extension,
      not the counter its name begins with. */
  lemma NumberIsLast(front: string, digits: string, extension: string)
    requires IsExtension(extension)
    requires digits != "" && forall i | 0 <= i < |digits| :: IsDigit(digits[i])
    ensures OldNumber(front + "_" + digits + extension) == ParseNat(digits)
  {
    var path, back := front + "_" + digits + extension, digits + extension;
    assert path == front + "_" + back;
    NoUnderscoreInExtension(extension);
    LastUnderscoreAt(front, back);
    LeadingDigitsOf(digits, extension);
    assert back[..|digits|] == digits && back[|digits|..] == extension;
  }

  /** The full path of a file of a recording; the stamp is that of the moment the file was opened, and
      an empty base stands for the root folder. */
  function WriterPath(base: string, counter: nat, prefix: string, stamp: string, extension: string): string {
    base + "/" + FileName(counter, prefix + "_" + stamp) + extension
  }

  function Seconds(stamp: string): nat
    requires IsTimestamp(stamp)
  {
    10 * DigitValue(stamp[17]) + DigitValue(stamp[18])
  }

  /** The path of the bag begins with digits followed by an underscore. */
  predicate NumberedFolder(base: string) {
    var n := LeadingDigits(base);
    0 < n < |base| && base[n] == '_'
  }

  lemma SecondsParse(stamp: string)
    requires IsTimestamp(stamp)
    ensures ParseNat(stamp[17..]) == Some(Seconds(stamp))
  {
    var s := stamp[17..];
    assert s[..1] == [s[0]];
    assert ParseNat([s[0]]) == Some(DigitValue(s[0]));
  }

  lemma OldNumberOfWriterPath(base: string, counter: nat, prefix: string, stamp: string, extension: string)
    requires IsTimestamp(stamp) && IsExtension(extension)
    ensures OldNumber(WriterPath(base, counter, prefix, stamp, extension)) == Some(Seconds(stamp))
  {
    var front := base + "/" + FileName(counter, prefix + "_" + stamp[..16]);
    assert stamp == stamp[..16] + "_" + stamp[17..];
    assert WriterPath(base, counter, prefix, stamp, extension) == front + "_" + stamp[17..] + extension;
    NumberIsLast(front, stamp[17..], extension);
    SecondsParse(stamp);
  }

  lemma {:induction false} LeadingDigitsOfPath(base: string, rest: string)
    requires rest != "" && rest[0] == '/'
    ensures LeadingDigits(base + rest) == LeadingDigits(base)
  {
    var n := LeadingDigits(base);
    assert base + rest == base[..n] + (base[n..] + rest);
    LeadingDigitsOf(base[..n], base[n..] + rest);
  }

  lemma {:induction false} DigitsParse(s: string)
    requires s != "" && forall i | 0 <= i < |s| :: IsDigit(s[i])
    ensures ParseNat(s).Some?
  {
    if |s| > 1 { DigitsParse(s[..|s| - 1]); }
  }

  lemma StampAtEnd(head: string, stamp: string, extension: string)
    requires IsTimestamp(stamp) && IsExtension(extension)
    ensures StampAt(head + "_" + stamp + extension, |head|)
  {
    var path, k := head + "_" + stamp + extension, |head|;
    assert path[k] == '_' && path[k + 1..k + 20] == stamp && path[k + 20..] == extension;
  }

  /** A path that ends in a time stamp and an extension follows the new convention exactly when it
      begins with digits and an underscore before that. */
  lemma NewNumberOf(path: string, k: nat)
    requires LeadingDigits(path) < k < |path| - 20 && StampAt(path, k)
    ensures NewNumber(path) == if NumberedFolder(path) then ParseNat(path[..LeadingDigits(path)]) else None
  {
  }

  lemma WriterPathParts(base: string, counter: nat, prefix: string, stamp: string, extension: string)
    ensures var path := WriterPath(base, counter, prefix, stamp, extension);
      && path == (base + "/" + Digits(counter) + "_" + prefix) + "_" + stamp + extension
      && path == base + ("/" + FileName(counter, prefix + "_" + stamp) + extension)
  {
  }

  lemma NumberedByBase(base: string, rest: string)
    requires rest != "" && rest[0] == '/'
    ensures LeadingDigits(base + rest) == LeadingDigits(base)
    ensures NumberedFolder(base + rest) <==> NumberedFolder(base)
  {
    var n := LeadingDigits(base);
    LeadingDigitsOfPath(base, rest);
    assert (base + rest)[n] == if n < |base| then base[n] else '/';
  }

  /** The new convention applies exactly to bags in a numbered folder, and then takes the number of
      the folder. */
  lemma NewNumberOfWriterPath(base: string, counter: nat, prefix: string, stamp: string, extension: string)
    requires IsTimestamp(stamp) && IsExtension(extension)
    ensures NewNumber(WriterPath(base, counter, prefix, stamp, extension)) ==
            if NumberedFolder(base) then ParseNat(base[..LeadingDigits(base)]) else None
    ensures NumberedFolder(base) ==> ParseNat(base[..LeadingDigits(base)]).Some?
  {
    var path, n := WriterPath(base, counter, prefix, stamp, extension), LeadingDigits(base);
    var head := base + "/" + Digits(counter) + "_" + prefix;
    var rest := "/" + FileName(counter, prefix + "_" + stamp) + extension;
    WriterPathParts(base, counter, prefix, stamp, extension);
    StampAtEnd(head, stamp, extension);
    NumberedByBase(base, rest);
    NewNumberOf(path, |head|);
    assert path[..n] == base[..n];
    if NumberedFolder(base) { DigitsParse(base[..n]); }
  }

  /** Two files of one recording, whatever their counters: in a numbered folder they tie, and
      anywhere else the seconds of their time stamps are compared. So the file opened first is put
      first if and only if the folder is not numbered and its seconds are less. */
  lemma OrderedBySeconds(base: string, i: nat, j: nat, prefix: string, stampI: string, stampJ: string,
                         extension: string)
    requires IsTimestamp(stampI) && IsTimestamp(stampJ) && IsExtension(extension)
    ensures CompareRelativeFile(WriterPath(base, i, prefix, stampI, extension),
                                WriterPath(base, j, prefix, stampJ, extension))
            == Some(!NumberedFolder(base) && Seconds(stampI) < Seconds(stampJ))
  {
    NewNumberOfWriterPath(base, i, prefix, stampI, extension);
    NewNumberOfWriterPath(base, j, prefix, stampJ, extension);
    OldNumberOfWriterPath(base, i, prefix, stampI, extension);
    OldNumberOfWriterPath(base, j, prefix, stampJ, extension);
  }

  /** The comparison puts the files of a recording in opening order, each before all later ones. */
  ghost predicate KeepsOpeningOrder(base: string, prefix: string, stamps: seq<string>, extension: string) {
    forall i: nat, j: nat | i < j < |stamps| :: PutBefore(base, prefix, stamps, extension, i, j)
  }

  ghost predicate PutBefore(base: string, prefix: string, stamps: seq<string>, extension: string, i: nat, j: nat)
    requires i < |stamps| && j < |stamps|
  {
    CompareRelativeFile(WriterPath(base, i, prefix, stamps[i], extension),
                        WriterPath(base, j, prefix, stamps[j], extension)) == Some(true)
  }

  lemma PutBeforeExact(base: string, prefix: string, stamps: seq<string>, extension: string, i: nat, j: nat)
    requires IsExtension(extension) && i < |stamps| && j < |stamps|
    requires IsTimestamp(stamps[i]) && IsTimestamp(stamps[j])
    ensures PutBefore(base, prefix, stamps, extension, i, j) <==>
      !NumberedFolder(base) && Seconds(stamps[i]) < Seconds(stamps[j])
  {
    OrderedBySeconds(base, i, j, prefix, stamps[i], stamps[j], extension);
  }

  predicate SecondsIncrease(stamps: seq<string>)
    requires forall i | 0 <= i < |stamps| :: IsTimestamp(stamps[i])
  {
    forall i, j | 0 <= i < j < |stamps| :: Seconds(stamps[i]) < Seconds(stamps[j])
  }

  /** Sorting restores the opening order of a recording of two files or more if and only if its
      folder is not numbered and the seconds of the time stamps increase from file to file. */
  lemma OpeningOrderExact(base: string, prefix: string, stamps: seq<string>, extension: string)
    requires IsExtension(extension) && |stamps| > 1
    requires forall i | 0 <= i < |stamps| :: IsTimestamp(stamps[i])
    ensures KeepsOpeningOrder(base, prefix, stamps, extension) <==> !NumberedFolder(base) && SecondsIncrease(stamps)
  {
    if KeepsOpeningOrder(base, prefix, stamps, extension) {
      forall i, j | 0 <= i < j < |stamps| ensures !NumberedFolder(base) && Seconds(stamps[i]) < Seconds(stamps[j]) {
        assert PutBefore(base, prefix, stamps, extension, i, j);
        PutBeforeExact(base, prefix, stamps, extension, i, j);
      }
      assert 0 < 1 < |stamps| && Seconds(stamps[0]) < Seconds(stamps[1]);
    } else {
      var i: nat, j: nat :| i < j < |stamps| && !PutBefore(base, prefix, stamps, extension, i, j);
      PutBeforeExact(base, prefix, stamps, extension, i, j);
    }
  }

  const EARLY := "2024_01_02-03_04_58"
  const LATE := "2024_01_02-03_05_05"

  lemma SampleNames()
    ensures IsTimestamp(EARLY) && Seconds(EARLY) == 58 && IsTimestamp(LATE) && Seconds(LATE) == 5
    ensures IsExtension(".mcap") && !NumberedFolder("/bags/run") && NumberedFolder("2024_run")
  {
    assert IsSuffix(".mcap");
    LeadingDigitsOf("2024", "_run");
    assert "2024" + "_run" == "2024_run";
  }

  lemma SamplePath(base: string, stamp: string, extension: string)
    ensures WriterPath(base, 0, "run", stamp, extension) == base + "/0_run_" + stamp + extension
    ensures WriterPath(base, 1, "run", stamp, extension) == base + "/1_run_" + stamp + extension
  {
    assert Digits(0) == "0" && Digits(1) == "1";
    assert FileName(0, "run" + "_" + stamp) == "0_run_" + stamp;
    assert FileName(1, "run" + "_" + stamp) == "1_run_" + stamp;
    assert "/" + "0_run_" == "/0_run_" && "/" + "1_run_" == "/1_run_";
    assert base + "/" + ("0_run_" + stamp) == base + ("/" + "0_run_") + stamp;
    assert base + "/" + ("1_run_" + stamp) == base + ("/" + "1_run_") + stamp;
  }

  /** A file opened seven seconds after another is put before it; in a numbered folder neither is
      put before the other. */
  lemma MisorderedRecording()
    ensures CompareRelativeFile("/bags/run" + "/1_run_" + "2024_01_02-03_05_05" + ".mcap",
                                "/bags/run" + "/0_run_" + "2024_01_02-03_04_58" + ".mcap") == Some(true)
    ensures var first := "2024_run" + "/0_run_" + "2024_01_02-03_04_58" + ".mcap";
      var second := "2024_run" + "/1_run_" + "2024_01_02-03_05_05" + ".mcap";
      CompareRelativeFile(first, second) == CompareRelativeFile(second, first) == Some(false)
  {
    SampleNames();
    SamplePath("/bags/run", EARLY, ".mcap");
    SamplePath("/bags/run", LATE, ".mcap");
    SamplePath("2024_run", EARLY, ".mcap");
    SamplePath("2024_run", LATE, ".mcap");
    OrderedBySeconds("/bags/run", 1, 0, "run", LATE, EARLY, ".mcap");
    OrderedBySeconds("2024_run", 0, 1, "run", EARLY, LATE, ".mcap");
    OrderedBySeconds("2024_run", 1, 0, "run", LATE, EARLY, ".mcap");
  }
}
