/** From the Vitest inventory to the include lists of every partition: no file is lost,
    run twice or run under the wrong project, and the split is close to optimal. */
module PartitionPlan {
  import opened Scheduling
  import opened HeapScheduler
  import opened PathText
  import Sorting

  datatype Project = ThreadSafe | ProcessBound

  /** One element of Vitest's JSON inventory, its file already relative to the root. */
  datatype Entry = Malformed | Entry(file: File, project: Project)

  datatype Error = MalformedEntry | ListedTwice(file: File) | EmptyPartition(index: nat) | TooFewPartitions

  datatype Outcome<+T> = Success(value: T) | Failure(error: Error)

  datatype Inventory = Inventory(files: seq<File>, projectOf: map<File, Project>)

  // ----- weights of file lists

  function PartitionWeight(files: seq<File>, weights: map<File, real>): real {
    if files == [] then 0.0
    else PartitionWeight(files[..|files| - 1], weights) + WeightOf(weights, files[|files| - 1])
  }

  lemma {:induction false} WeightOfConcat(a: seq<File>, b: seq<File>, weights: map<File, real>)
    ensures PartitionWeight(a + b, weights) == PartitionWeight(a, weights) + PartitionWeight(b, weights)
  {
    if b == [] {
      assert a + b == a;
    } else {
      var k := |b| - 1;
      assert (a + b)[..|a + b| - 1] == a + b[..k];
      WeightOfConcat(a, b[..k], weights);
    }
  }

  ghost predicate Faithful(jobs: seq<Job>, weights: map<File, real>) {
    forall i | 0 <= i < |jobs| :: jobs[i].weight == WeightOf(weights, jobs[i].file)
  }

  /** The running sum kept in a bucket is the weight of its file list. */
  lemma {:induction false} BucketSumIsWeight(jobs: seq<Job>, p: seq<nat>, b: nat, weights: map<File, real>)
    requires |p| <= |jobs| && Faithful(jobs, weights)
    ensures PartitionWeight(FilesIn(jobs, p, b), weights) == Load(WeightsOf(jobs), p, b)
  {
    if p != [] {
      var k := |p| - 1;
      BucketSumIsWeight(jobs, p[..k], b, weights);
      if p[k] == b {
        WeightOfConcat(FilesIn(jobs, p[..k], b), [jobs[k].file], weights);
        assert [jobs[k].file][..0] == [];
      } else {
        assert FilesIn(jobs, p, b) == FilesIn(jobs, p[..k], b);
      }
    }
  }

  // ----- every file in exactly one list

  ghost function Pool(lists: seq<seq<File>>): multiset<File> {
    if lists == [] then multiset{} else Pool(lists[..|lists| - 1]) + multiset(lists[|lists| - 1])
  }

  lemma {:induction false} PoolUpdate(lists: seq<seq<File>>, b: nat, l: seq<File>)
    requires b < |lists|
    ensures Pool(lists[b := l]) + multiset(lists[b]) == Pool(lists) + multiset(l)
  {
    var k := |lists| - 1;
    if b == k {
      assert lists[b := l][..k] == lists[..k];
    } else {
      assert lists[b := l][..k] == lists[..k][b := l];
      PoolUpdate(lists[..k], b, l);
      var last := multiset(lists[k]);
      assert Pool(lists[b := l]) + multiset(lists[b]) == (Pool(lists[..k][b := l]) + multiset(lists[b])) + last;
      assert Pool(lists) + multiset(l) == (Pool(lists[..k]) + multiset(l)) + last;
    }
  }

  lemma {:induction false} PoolOfEmpties(lists: seq<seq<File>>)
    requires forall b | 0 <= b < |lists| :: lists[b] == []
    ensures Pool(lists) == multiset{}
  {
    if lists != [] { PoolOfEmpties(lists[..|lists| - 1]); }
  }

  lemma {:induction false} PoolMembers(lists: seq<seq<File>>, b: nat)
    requires b < |lists|
    ensures multiset(lists[b]) <= Pool(lists)
  {
    if b < |lists| - 1 { PoolMembers(lists[..|lists| - 1], b); }
  }

  /** The buckets of a schedule hold exactly the scheduled files. */
  lemma {:induction false} ScheduleKeepsFiles(jobs: seq<Job>, p: seq<nat>, m: nat)
    requires |p| <= |jobs| && IsSchedule(p, m)
    ensures Pool(FileLists(Contents(jobs, p, m))) == multiset(FilesOf(jobs[..|p|]))
  {
    hide Load, Pool, FilesIn;
    var lists := FileLists(Contents(jobs, p, m));
    if p == [] {
      EmptyContents(jobs, m);
      PoolOfEmpties(lists);
    } else {
      var k := |p| - 1;
      var q, c := p[..k], p[k];
      ScheduleKeepsFiles(jobs, q, m);
      var f := jobs[k].file;
      var before := FileLists(Contents(jobs, q, m));
      assert p == q + [c];
      PlacementGrowsRoot(jobs, q, m, c);
      assert lists == before[c := before[c] + [f]];
      PoolUpdate(before, c, before[c] + [f]);
      assert FilesOf(jobs[..|p|]) == FilesOf(jobs[..k]) + [f];
      AppendedFile(Pool(lists), Pool(before), before[c], f);
    }
  }

  lemma EmptyContents(jobs: seq<Job>, m: nat)
    ensures forall b | 0 <= b < m :: FileLists(Contents(jobs, [], m))[b] == []
  {
  }

  lemma AppendedFile(grown: multiset<File>, pool: multiset<File>, l: seq<File>, f: File)
    requires grown + multiset(l) == pool + multiset(l + [f])
    ensures grown == pool + multiset{f}
  {
    assert grown == grown + multiset(l) - multiset(l);
    assert pool + multiset{f} == pool + multiset(l + [f]) - multiset(l);
  }

  // ----- near-optimality against any split of the same files

  /** Any split of the jobs' files over m lists is some assignment of the jobs with the same weights. */
  lemma {:induction false} SplitIsAssignment(jobs: seq<Job>, lists: seq<seq<File>>, weights: map<File, real>)
      returns (a: seq<nat>)
    requires Faithful(jobs, weights) && Pool(lists) == multiset(FilesOf(jobs))
    ensures |a| == |jobs| && IsSchedule(a, |lists|)
    ensures forall b: nat | b < |lists| :: Load(WeightsOf(jobs), a, b) == PartitionWeight(lists[b], weights)
  {
    hide Pool;
    if jobs == [] {
      a := [];
      forall b: nat | b < |lists| ensures PartitionWeight(lists[b], weights) == 0.0 {
        PoolMembers(lists, b);
        assert |multiset(lists[b])| == 0;
      }
    } else {
      var k := |jobs| - 1;
      var f := jobs[k].file;
      assert FilesOf(jobs) == FilesOf(jobs[..k]) + [f];
      assert f in multiset(FilesOf(jobs));
      var c := ListWith(lists, f);
      var i :| 0 <= i < |lists[c]| && lists[c][i] == f;
      var rest := lists[c][..i] + lists[c][i + 1..];
      Removed(lists[c], i, weights);
      PoolWithout(lists, c, i);
      CancelFile(Pool(lists[c := rest]), multiset(FilesOf(jobs[..k])), f);
      var a' := SplitIsAssignment(jobs[..k], lists[c := rest], weights);
      a := a' + [c];
      assert a[..k] == a';
      forall b: nat | b < |lists| ensures Load(WeightsOf(jobs), a, b) == PartitionWeight(lists[b], weights) {
        assert WeightsOf(jobs)[..k] == WeightsOf(jobs[..k])[..k];
        LoadReadsPrefix(WeightsOf(jobs), WeightsOf(jobs[..k]), a', b);
      }
    }
  }

  lemma {:induction false} ListWith(lists: seq<seq<File>>, f: File) returns (b: nat)
    requires f in Pool(lists)
    ensures b < |lists| && f in lists[b]
  {
    b := |lists| - 1;
    if f !in lists[b] { b := ListWith(lists[..b], f); }
  }

  lemma Removed(l: seq<File>, i: nat, weights: map<File, real>)
    requires i < |l|
    ensures var rest := l[..i] + l[i + 1..];
            && PartitionWeight(l, weights) == PartitionWeight(rest, weights) + WeightOf(weights, l[i])
  {
    assert l == l[..i] + [l[i]] + l[i + 1..];
    WeightOfConcat(l[..i] + [l[i]], l[i + 1..], weights);
    WeightOfConcat(l[..i], [l[i]], weights);
    assert [l[i]][..0] == [];
    WeightOfConcat(l[..i], l[i + 1..], weights);
  }

  lemma PoolWithout(lists: seq<seq<File>>, c: nat, i: nat)
    requires c < |lists| && i < |lists[c]|
    ensures Pool(lists) == Pool(lists[c := lists[c][..i] + lists[c][i + 1..]]) + multiset{lists[c][i]}
  {
    var l := lists[c];
    var rest := l[..i] + l[i + 1..];
    assert l == l[..i] + [l[i]] + l[i + 1..];
    PoolUpdate(lists, c, rest);
    Cancelled(Pool(lists), Pool(lists[c := rest]), multiset(rest), multiset{l[i]});
  }

  lemma Cancelled(pool: multiset<File>, smaller: multiset<File>, rest: multiset<File>, one: multiset<File>)
    requires smaller + (rest + one) == pool + rest
    ensures pool == smaller + one
  {
    assert pool == pool + rest - rest;
    assert smaller + one == smaller + (rest + one) - rest;
  }

  lemma CancelFile(pool: multiset<File>, files: multiset<File>, f: File)
    requires pool + multiset{f} == files + multiset{f}
    ensures pool == files
  {
    assert pool == pool + multiset{f} - multiset{f};
    assert files == files + multiset{f} - multiset{f};
  }

  ghost predicate NonNegativeWeights(weights: map<File, real>) {
    forall f | f in weights :: weights[f] >= 0.0
  }

  /** Same lists, possibly in another order. */
  ghost predicate ComesFromRun(lists: seq<seq<File>>, files: seq<File>, weights: map<File, real>, m: nat,
                               collate: (File, File) -> bool, run: seq<nat>)
  {
    var jobs := SortedJobs(files, weights, collate);
    && |run| == |jobs| && IsRun(WeightsOf(jobs), run, m)
    && multiset(lists) == multiset(FileLists(Contents(jobs, run, m)))
  }

  lemma ListIsBucket(lists: seq<seq<File>>, files: seq<File>, weights: map<File, real>, m: nat,
                     collate: (File, File) -> bool, run: seq<nat>, i: nat) returns (b: nat)
    requires ComesFromRun(lists, files, weights, m, collate, run) && i < |lists|
    ensures var jobs := SortedJobs(files, weights, collate);
            && |run| == |jobs| && b < m && lists[i] == FilesIn(jobs, run, b)
            && PartitionWeight(lists[i], weights) == Load(WeightsOf(jobs), run, b)
  {
    var jobs := SortedJobs(files, weights, collate);
    var buckets := FileLists(Contents(jobs, run, m));
    assert lists[i] in multiset(lists);
    assert lists[i] in buckets;
    b :| 0 <= b < |buckets| && buckets[b] == lists[i];
    SortedJobsFaithful(files, weights, collate);
    BucketSumIsWeight(jobs, run, b, weights);
  }

  lemma JobWeightsNonNegative(files: seq<File>, weights: map<File, real>, collate: (File, File) -> bool)
    requires NonNegativeWeights(weights)
    ensures NonNegative(WeightsOf(SortedJobs(files, weights, collate)))
  {
    SortedJobsFaithful(files, weights, collate);
  }

  /** Graham's bound on the produced lists: if some split of the same files into equally many
      lists keeps every list within `t`, no produced list exceeds (4m - 1) / 3m times `t`. */
  lemma NearOptimal(lists: seq<seq<File>>, files: seq<File>, weights: map<File, real>, m: nat,
                    collate: (File, File) -> bool, run: seq<nat>, split: seq<seq<File>>, t: real, i: nat)
    requires NonNegativeWeights(weights) && ComesFromRun(lists, files, weights, m, collate, run)
    requires i < |lists|
    requires |split| == m && Pool(split) == multiset(files)
    requires forall b: nat | b < m :: PartitionWeight(split[b], weights) <= t
    ensures WithinGraham(m, PartitionWeight(lists[i], weights), t)
  {
    var jobs := SortedJobs(files, weights, collate);
    var b := ListIsBucket(lists, files, weights, m, collate, run, i);
    SortedJobsFaithful(files, weights, collate);
    JobWeightsNonNegative(files, weights, collate);
    var a := SplitIsAssignment(jobs, split, weights);
    GrahamBound(WeightsOf(jobs), run, m, a, t, b);
  }

  /** Taking any one file (its lightest included) out of a list leaves it no heavier than any other list. */
  lemma NoListTowers(lists: seq<seq<File>>, files: seq<File>, weights: map<File, real>, m: nat,
                     collate: (File, File) -> bool, run: seq<nat>, i: nat, j: nat, f: File)
    requires NonNegativeWeights(weights) && ComesFromRun(lists, files, weights, m, collate, run)
    requires i < |lists| && j < |lists| && f in lists[i]
    ensures PartitionWeight(lists[i], weights) - WeightOf(weights, f) <= PartitionWeight(lists[j], weights)
  {
    var jobs := SortedJobs(files, weights, collate);
    var b := ListIsBucket(lists, files, weights, m, collate, run, i);
    var c := ListIsBucket(lists, files, weights, m, collate, run, j);
    SortedJobsFaithful(files, weights, collate);
    JobWeightsNonNegative(files, weights, collate);
    var k := JobOfFile(jobs, run, b, f);
    Balanced(WeightsOf(jobs), run, m, k, c);
  }

  lemma {:induction false} JobOfFile(jobs: seq<Job>, p: seq<nat>, b: nat, f: File) returns (k: nat)
    requires |p| <= |jobs| && f in FilesIn(jobs, p, b)
    ensures k < |p| && p[k] == b && jobs[k].file == f
  {
    k := |p| - 1;
    if !(p[k] == b && jobs[k].file == f) { k := JobOfFile(jobs, p[..k], b, f); }
  }

  // ----- the inventory

  ghost predicate WellFormed(entries: seq<Entry>) {
    && Malformed !in entries
    && (forall i, j | 0 <= i < j < |entries| && entries[i].Entry? && entries[j].Entry? :: entries[i].file != entries[j].file)
  }

  /** `projectOf` holds exactly the listed, non-exempt files with the project that lists them. */
  ghost predicate Owns(projectOf: map<File, Project>, entries: seq<Entry>, exempt: seq<File>) {
    && (forall f | f in projectOf :: f !in exempt && Entry(f, projectOf[f]) in entries)
    && (forall e | e in entries && e.Entry? && e.file !in exempt :: e.file in projectOf)
  }

  ghost predicate Instruments(inventory: Inventory, entries: seq<Entry>, exempt: seq<File>) {
    && Owns(inventory.projectOf, entries, exempt)
    && Sorting.Distinct(inventory.files)
    && (forall f :: f in inventory.files <==> f in inventory.projectOf)
  }

  /** Entry `k` is the first that is malformed or lists a file again, and `error` says which. */
  ghost predicate Rejects(entries: seq<Entry>, k: nat, error: Error) {
    && k < |entries| && WellFormed(entries[..k])
    && match entries[k]
       case Malformed => error == MalformedEntry
       case Entry(file, _) => error == ListedTwice(file) && exists j :: 0 <= j < k && entries[j].Entry? && entries[j].file == file
  }

  function Without(files: seq<File>, f: File): (r: seq<File>)
    ensures forall g :: g in r <==> g in files && g != f
    ensures Sorting.Distinct(files) ==> Sorting.Distinct(r)
  {
    if files == [] then []
    else
      var rest := Without(files[1..], f);
      assert Sorting.Distinct(files) ==> files[0] !in files[1..];
      if files[0] == f then rest else [files[0]] + rest
  }

  /** Vitest's inventory without the exempt suites; rejects exactly the malformed and the ambiguous. */
  method ParseFileInventory(entries: seq<Entry>, exempt: seq<File>, unitOrder: (File, File) -> bool)
      returns (r: Outcome<Inventory>)
    ensures r.Success? <==> WellFormed(entries)
    ensures r.Success? ==> Instruments(r.value, entries, exempt)
    ensures r.Success? && Sorting.TotalOrder(unitOrder) ==> Sorting.Ordered(r.value.files, unitOrder)
    ensures r.Failure? ==> exists k :: Rejects(entries, k, r.error)
  {
    var files: seq<File>, projectOf: map<File, Project> := [], map[];
    for i := 0 to |entries|
      invariant WellFormed(entries[..i]) && Owns(projectOf, entries[..i], []) && Sorting.Distinct(files)
      invariant forall f :: f in files <==> f in projectOf
    {
      var entry := entries[i];
      if entry.Malformed? {
        assert Rejects(entries, i, MalformedEntry);
        return Failure(MalformedEntry);
      }
      if entry.file in files {
        assert Rejects(entries, i, ListedTwice(entry.file));
        return Failure(ListedTwice(entry.file));
      }
      assert entries[..i + 1] == entries[..i] + [entry];
      files := files + [entry.file];
      projectOf := projectOf[entry.file := entry.project];
    }
    assert entries[..|entries|] == entries;
    for i := 0 to |exempt|
      invariant Owns(projectOf, entries, exempt[..i]) && Sorting.Distinct(files)
      invariant forall f :: f in files <==> f in projectOf
    {
      assert exempt[..i + 1] == exempt[..i] + [exempt[i]];
      files := Without(files, exempt[i]);
      projectOf := projectOf - {exempt[i]};
    }
    assert exempt[..|exempt|] == exempt;
    Sorting.SortPermutes(files, unitOrder);
    Sorting.DistinctPermutation(files, Sorting.SortBy(files, unitOrder));
    if Sorting.TotalOrder(unitOrder) { Sorting.SortOrders(files, unitOrder, unitOrder); }
    r := Success(Inventory(Sorting.SortBy(files, unitOrder), projectOf));
  }

  // ----- include lists

  function RunsUnder(projectOf: map<File, Project>, file: File): Project {
    if file in projectOf && projectOf[file] == ProcessBound then ProcessBound else ThreadSafe
  }

  /** The include list that a partition's generated config gives to project `q`. */
  function Include(files: seq<File>, projectOf: map<File, Project>, q: Project): seq<File> {
    if files == [] then []
    else
      var k := |files| - 1;
      Include(files[..k], projectOf, q) + if RunsUnder(projectOf, files[k]) == q then [Slashes(files[k])] else []
  }

  function Includes(lists: seq<seq<File>>, projectOf: map<File, Project>, q: Project): (r: seq<seq<File>>)
    ensures |r| == |lists| && forall i | 0 <= i < |r| :: r[i] == Include(lists[i], projectOf, q)
  {
    seq(|lists|, i requires 0 <= i < |lists| => Include(lists[i], projectOf, q))
  }

  lemma {:induction false} IncludeConcat(a: seq<File>, b: seq<File>, projectOf: map<File, Project>, q: Project)
    ensures Include(a + b, projectOf, q) == Include(a, projectOf, q) + Include(b, projectOf, q)
  {
    if b == [] {
      assert a + b == a;
    } else {
      var k := |b| - 1;
      assert (a + b)[..|a + b| - 1] == a + b[..k];
      IncludeConcat(a, b[..k], projectOf, q);
    }
  }

  lemma IncludeRemoved(l: seq<File>, i: nat, projectOf: map<File, Project>, q: Project)
    requires i < |l|
    ensures var rest := l[..i] + l[i + 1..];
            && multiset(Include(l, projectOf, q))
               == multiset(Include(rest, projectOf, q)) + multiset(Include([l[i]], projectOf, q))
  {
    assert l == l[..i] + [l[i]] + l[i + 1..];
    IncludeConcat(l[..i] + [l[i]], l[i + 1..], projectOf, q);
    IncludeConcat(l[..i], [l[i]], projectOf, q);
    IncludeConcat(l[..i], l[i + 1..], projectOf, q);
  }

  /** Per project, the include lists of all partitions together are the inventory's own include list. */
  lemma {:induction false} IncludesConserve(lists: seq<seq<File>>, files: seq<File>, projectOf: map<File, Project>, q: Project)
    requires Pool(lists) == multiset(files)
    ensures Pool(Includes(lists, projectOf, q)) == multiset(Include(files, projectOf, q))
    decreases |files|
  {
    if files == [] {
      forall b | 0 <= b < |lists| ensures lists[b] == [] {
        PoolMembers(lists, b);
        assert |multiset(lists[b])| == 0;
      }
      PoolOfEmpties(Includes(lists, projectOf, q));
    } else {
      var k := |files| - 1;
      var f := files[k];
      assert files == files[..k] + [f];
      assert f in multiset(files);
      var c := ListWith(lists, f);
      var i :| 0 <= i < |lists[c]| && lists[c][i] == f;
      var rest := lists[c][..i] + lists[c][i + 1..];
      PoolWithout(lists, c, i);
      CancelFile(Pool(lists[c := rest]), multiset(files[..k]), f);
      IncludesConserve(lists[c := rest], files[..k], projectOf, q);
      IncludeConcat(files[..k], [f], projectOf, q);
      IncludesWithout(lists, c, i, projectOf, q);
    }
  }

  lemma IncludesWithout(lists: seq<seq<File>>, c: nat, i: nat, projectOf: map<File, Project>, q: Project)
    requires c < |lists| && i < |lists[c]|
    ensures Pool(Includes(lists, projectOf, q))
         == Pool(Includes(lists[c := lists[c][..i] + lists[c][i + 1..]], projectOf, q))
            + multiset(Include([lists[c][i]], projectOf, q))
  {
    var l := lists[c];
    var rest := l[..i] + l[i + 1..];
    var all, shorter := Includes(lists, projectOf, q), Include(rest, projectOf, q);
    IncludeRemoved(l, i, projectOf, q);
    assert Includes(lists[c := rest], projectOf, q) == all[c := shorter];
    PoolUpdate(all, c, shorter);
    Cancelled(Pool(all), Pool(all[c := shorter]), multiset(shorter), multiset(Include([l[i]], projectOf, q)));
  }

  /** How many files the configs spell as `name`. */
  function Spelled(files: seq<File>, name: File): nat {
    if files == [] then 0
    else Spelled(files[..|files| - 1], name) + if Slashes(files[|files| - 1]) == name then 1 else 0
  }

  lemma {:induction false} IncludeCounts(files: seq<File>, projectOf: map<File, Project>, name: File)
    ensures multiset(Include(files, projectOf, ThreadSafe))[name] + multiset(Include(files, projectOf, ProcessBound))[name]
         == Spelled(files, name)
  {
    hide Slashes, RunsUnder;
    if files != [] { IncludeCounts(files[..|files| - 1], projectOf, name); }
  }

  /** The partitions' include lists name a file as often as inventoried files are spelled that way. */
  lemma NamedAsOftenAsSpelled(lists: seq<seq<File>>, files: seq<File>, projectOf: map<File, Project>, name: File)
    requires Pool(lists) == multiset(files)
    ensures Pool(Includes(lists, projectOf, ThreadSafe))[name] + Pool(Includes(lists, projectOf, ProcessBound))[name]
         == Spelled(files, name)
  {
    IncludesConserve(lists, files, projectOf, ThreadSafe);
    IncludesConserve(lists, files, projectOf, ProcessBound);
    IncludeCounts(files, projectOf, name);
  }

  /** `f` is spelled as itself, and nothing else is. */
  ghost predicate Unambiguous(files: seq<File>, f: File) {
    '\\' !in f && forall g | g in files :: Slashes(g) == f ==> g == f
  }

  lemma {:induction false} IncludedOnce(files: seq<File>, projectOf: map<File, Project>, q: Project, f: File)
    requires Sorting.Distinct(files) && Unambiguous(files, f)
    ensures multiset(Include(files, projectOf, q))[f] == if f in files && RunsUnder(projectOf, f) == q then 1 else 0
  {
    hide Slashes, RunsUnder;
    if files != [] {
      var k := |files| - 1;
      IncludedOnce(files[..k], projectOf, q, f);
      assert Slashes(files[k]) == f <==> files[k] == f;
    }
  }

  lemma {:induction false} SpelledAtLeast(files: seq<File>, name: File, i: nat, j: nat)
    requires i < j < |files| && Slashes(files[i]) == Slashes(files[j]) == name
    ensures Spelled(files, name) >= 2
  {
    hide Slashes;
    var k := |files| - 1;
    if j < k {
      SpelledAtLeast(files[..k], name, i, j);
    } else {
      SpelledSome(files[..k], name, i);
    }
  }

  lemma {:induction false} SpelledSome(files: seq<File>, name: File, i: nat)
    requires i < |files| && Slashes(files[i]) == name
    ensures Spelled(files, name) >= 1
  {
    hide Slashes;
    if i < |files| - 1 { SpelledSome(files[..|files| - 1], name, i); }
  }

  lemma {:induction false} NeverSpelled(files: seq<File>, name: File)
    requires '\\' in name
    ensures Spelled(files, name) == 0
  {
    if files != [] { NeverSpelled(files[..|files| - 1], name); }
  }

  /** A file of a duplicate-free inventory is spelled once exactly when it is unambiguous. */
  lemma SpelledOnceIff(files: seq<File>, projectOf: map<File, Project>, f: File)
    requires Sorting.Distinct(files) && f in files
    ensures Spelled(files, f) == 1 <==> Unambiguous(files, f)
  {
    if Unambiguous(files, f) {
      IncludedOnce(files, projectOf, ThreadSafe, f);
      IncludedOnce(files, projectOf, ProcessBound, f);
      IncludeCounts(files, projectOf, f);
    } else if '\\' in f {
      NeverSpelled(files, f);
    } else {
      var g :| g in files && Slashes(g) == f && g != f;
      var i :| 0 <= i < |files| && files[i] == f;
      var j :| 0 <= j < |files| && files[j] == g;
      if i < j { SpelledAtLeast(files, f, i, j); } else { SpelledAtLeast(files, f, j, i); }
    }
  }

  lemma {:induction false} OnceInPool(lists: seq<seq<File>>, f: File) returns (i: nat)
    requires Pool(lists)[f] == 1
    ensures i < |lists| && multiset(lists[i])[f] == 1
    ensures forall j | 0 <= j < |lists| && f in lists[j] :: j == i
  {
    i := |lists| - 1;
    if f in lists[i] {
      assert f in multiset(lists[i]);
      forall j | 0 <= j < |lists| && f in lists[j] ensures j == i {
        if j < i {
          assert f in multiset(lists[j]);
          PoolMembers(lists[..i], j);
        }
      }
    } else {
      i := OnceInPool(lists[..i], f);
    }
  }

  lemma {:induction false} NowhereInPool(lists: seq<seq<File>>, f: File)
    requires forall j | 0 <= j < |lists| :: f !in lists[j]
    ensures Pool(lists)[f] == 0
  {
    if lists != [] {
      var k := |lists| - 1;
      NowhereInPool(lists[..k], f);
      assert f !in lists[k];
      assert f !in multiset(lists[k]);
    }
  }

  lemma {:induction false} OnlyInPool(lists: seq<seq<File>>, f: File, i: nat)
    requires i < |lists| && forall j | 0 <= j < |lists| && f in lists[j] :: j == i
    ensures Pool(lists)[f] == multiset(lists[i])[f]
  {
    var k := |lists| - 1;
    if i == k {
      NowhereInPool(lists[..k], f);
    } else {
      OnlyInPool(lists[..k], f, i);
      assert f !in lists[k];
      assert f !in multiset(lists[k]);
    }
  }

  /** `f` is in the include list of partition `i` under project `own`, once, and in no other include list. */
  ghost predicate OnlyThere(lists: seq<seq<File>>, projectOf: map<File, Project>, f: File, own: Project, i: nat) {
    && i < |lists| && multiset(Include(lists[i], projectOf, own))[f] == 1
    && forall j, q | 0 <= j < |lists| && f in Include(lists[j], projectOf, q) :: j == i && q == own
  }

  /** The project that lists the file; a file that none lists counts as thread-safe. */
  ghost predicate Lists(projectOf: map<File, Project>, f: File, own: Project) {
    if f in projectOf then projectOf[f] == own else own == ThreadSafe
  }

  lemma RunsWhereListed(projectOf: map<File, Project>, f: File, own: Project)
    ensures RunsUnder(projectOf, f) == own <==> Lists(projectOf, f, own)
  {
  }

  lemma OnceWhere(lists: seq<seq<File>>, files: seq<File>, projectOf: map<File, Project>, f: File) returns (i: nat)
    requires Pool(lists) == multiset(files) && Sorting.Distinct(files)
    requires f in files && Unambiguous(files, f)
    ensures OnlyThere(lists, projectOf, f, RunsUnder(projectOf, f), i)
  {
    hide Pool, Include, Unambiguous;
    var own := RunsUnder(projectOf, f);
    IncludesConserve(lists, files, projectOf, own);
    IncludedOnce(files, projectOf, own, f);
    i := OnceInPool(Includes(lists, projectOf, own), f);
    forall j, q | 0 <= j < |lists| && f in Include(lists[j], projectOf, q) ensures j == i && q == own {
      IncludesConserve(lists, files, projectOf, q);
      IncludedOnce(files, projectOf, q, f);
      PoolMembers(Includes(lists, projectOf, q), j);
      assert f in multiset(Include(lists[j], projectOf, q));
      if q == own { assert f in Includes(lists, projectOf, own)[j]; }
    }
  }

  lemma OnlyThereIsSpelledOnce(lists: seq<seq<File>>, files: seq<File>, projectOf: map<File, Project>, f: File, own: Project, i: nat)
    requires Pool(lists) == multiset(files) && OnlyThere(lists, projectOf, f, own, i)
    ensures Spelled(files, f) == 1
  {
    hide Pool, Include, Spelled;
    var other := if own == ThreadSafe then ProcessBound else ThreadSafe;
    OnlyInPool(Includes(lists, projectOf, own), f, i);
    NowhereInPool(Includes(lists, projectOf, other), f);
    NamedAsOftenAsSpelled(lists, files, projectOf, f);
  }

  /** An inventoried file is in the include list of exactly one partition, once, and only under its own project,
      exactly when its name holds no backslash and no other file is normalised to it. */
  lemma ExactlyOnceIff(lists: seq<seq<File>>, files: seq<File>, projectOf: map<File, Project>, f: File, own: Project)
    requires Pool(lists) == multiset(files) && Sorting.Distinct(files) && f in files && Lists(projectOf, f, own)
    ensures (exists i :: OnlyThere(lists, projectOf, f, own, i)) <==> Unambiguous(files, f)
  {
    hide OnlyThere, Unambiguous, Pool;
    SpelledOnceIff(files, projectOf, f);
    RunsWhereListed(projectOf, f, own);
    if Unambiguous(files, f) {
      var i := OnceWhere(lists, files, projectOf, f);
    } else if i: nat :| OnlyThere(lists, projectOf, f, own, i) {
      OnlyThereIsSpelledOnce(lists, files, projectOf, f, own, i);
    }
  }

  /** From Vitest's own entry to the config: a listed file that is not exempt runs once, under the project of its entry. */
  lemma RunsAsListed(lists: seq<seq<File>>, inventory: Inventory, entries: seq<Entry>, exempt: seq<File>, e: Entry) returns (i: nat)
    requires WellFormed(entries) && Instruments(inventory, entries, exempt) && Pool(lists) == multiset(inventory.files)
    requires e in entries && e.Entry? && e.file !in exempt && Unambiguous(inventory.files, e.file)
    ensures OnlyThere(lists, inventory.projectOf, e.file, e.project, i)
  {
    var listing := Entry(e.file, inventory.projectOf[e.file]);
    assert listing in entries;
    var x :| 0 <= x < |entries| && entries[x] == listing;
    var y :| 0 <= y < |entries| && entries[y] == e;
    assert x == y;
    RunsWhereListed(inventory.projectOf, e.file, e.project);
    i := OnceWhere(lists, inventory.files, inventory.projectOf, e.file);
  }

  const TWINS: seq<File> := ["a\\b.spec.ts", "a/b.spec.ts"]

  lemma TwinsAreSpelledAlike()
    ensures Slashes(TWINS[0]) == TWINS[1] && Slashes(TWINS[1]) == TWINS[1] && TWINS[0] != TWINS[1]
  {
    hide Slashes;
    assert TWINS[0] == "a" + "\\" + "b.spec.ts" && TWINS[1] == "a" + "/" + "b.spec.ts";
    SlashesConcat("a" + "\\", "b.spec.ts");
    SlashesConcat("a", "\\");
    assert Slashes("\\") == "/" by { BackslashAlone(); }
    assert TWINS[0][1] == '\\' && TWINS[1][1] == '/';
  }

  lemma BackslashAlone()
    ensures Slashes("\\") == "/"
  {
  }

  /** Two names that differ only by a backslash, which POSIX permits: however they are split, the include lists never
      name the one and name the other twice. */
  lemma BackslashExample(lists: seq<seq<File>>, projectOf: map<File, Project>)
    requires Pool(lists) == multiset(TWINS)
    ensures Sorting.Distinct(TWINS) && !Unambiguous(TWINS, TWINS[0]) && !Unambiguous(TWINS, TWINS[1])
    ensures Pool(Includes(lists, projectOf, ThreadSafe))[TWINS[0]] + Pool(Includes(lists, projectOf, ProcessBound))[TWINS[0]] == 0
    ensures Pool(Includes(lists, projectOf, ThreadSafe))[TWINS[1]] + Pool(Includes(lists, projectOf, ProcessBound))[TWINS[1]] == 2
  {
    hide Slashes, Pool, Includes;
    TwinsAreSpelledAlike();
    assert TWINS[0][1] == '\\';
    NeverSpelled(TWINS, TWINS[0]);
    SpelledAtLeast(TWINS, TWINS[1], 0, 1);
    SpelledAtMost(TWINS, TWINS[1]);
    NamedAsOftenAsSpelled(lists, TWINS, projectOf, TWINS[0]);
    NamedAsOftenAsSpelled(lists, TWINS, projectOf, TWINS[1]);
    assert TWINS[0] in TWINS;
  }

  lemma {:induction false} SpelledAtMost(files: seq<File>, name: File)
    ensures Spelled(files, name) <= |files|
  {
    if files != [] { SpelledAtMost(files[..|files| - 1], name); }
  }

  // ----- the coordinator

  predicate Heavier(weights: map<File, real>, left: seq<File>, right: seq<File>) {
    PartitionWeight(left, weights) >= PartitionWeight(right, weights)
  }

  lemma {:induction false} PoolOfPermutation(s: seq<seq<File>>, t: seq<seq<File>>)
    requires multiset(s) == multiset(t)
    ensures Pool(s) == Pool(t)
    decreases |s|
  {
    if s == [] {
      assert |multiset(t)| == 0;
    } else {
      var k := |s| - 1;
      var x := s[k];
      assert s == s[..k] + [x];
      assert x in multiset(t);
      var i :| 0 <= i < |t| && t[i] == x;
      assert t == t[..i] + [x] + t[i + 1..];
      var u := t[..i] + t[i + 1..];
      assert multiset(s[..k]) == multiset(s) - multiset{x};
      assert multiset(u) == multiset(t) - multiset{x};
      PoolOfPermutation(s[..k], u);
      PoolConcat(t[..i], t[i + 1..]);
      PoolConcat(t[..i] + [x], t[i + 1..]);
      assert (t[..i] + [x])[..i] == t[..i];
    }
  }

  lemma {:induction false} PoolConcat(a: seq<seq<File>>, b: seq<seq<File>>)
    ensures Pool(a + b) == Pool(a) + Pool(b)
  {
    if b == [] {
      assert a + b == a;
    } else {
      assert (a + b)[..|a + b| - 1] == a + b[..|b| - 1];
      PoolConcat(a, b[..|b| - 1]);
    }
  }

  /** What the run's lists hold, whatever their order. */
  lemma RunKeepsFiles(lists: seq<seq<File>>, files: seq<File>, weights: map<File, real>, m: nat,
                      collate: (File, File) -> bool, run: seq<nat>)
    requires ComesFromRun(lists, files, weights, m, collate, run)
    ensures |lists| == m && Pool(lists) == multiset(files)
  {
    var jobs := SortedJobs(files, weights, collate);
    RunIsSchedule(WeightsOf(jobs), run, m);
    ScheduleKeepsFiles(jobs, run, m);
    assert jobs[..|run|] == jobs;
    SortedJobsFaithful(files, weights, collate);
    var buckets := FileLists(Contents(jobs, run, m));
    assert |multiset(lists)| == |multiset(buckets)|;
    PoolOfPermutation(lists, buckets);
  }

  /** Some list is empty exactly when there are fewer files than lists. */
  lemma EmptyListIffScarce(lists: seq<seq<File>>, files: seq<File>, weights: map<File, real>, m: nat,
                           collate: (File, File) -> bool, run: seq<nat>)
    requires NonNegativeWeights(weights) && ComesFromRun(lists, files, weights, m, collate, run)
    ensures [] in lists <==> |files| < m
  {
    var jobs := SortedJobs(files, weights, collate);
    var buckets := FileLists(Contents(jobs, run, m));
    SortedJobsFaithful(files, weights, collate);
    JobWeightsNonNegative(files, weights, collate);
    AllUsedIffEnoughJobs(WeightsOf(jobs), run, m);
    assert [] in lists <==> [] in multiset(lists);
    assert [] in buckets <==> [] in multiset(buckets);
    forall b: nat | b < m ensures buckets[b] == [] <==> Count(run, b) == 0 {
      FilesInCount(jobs, run, b);
    }
    if [] in buckets {
      var b :| 0 <= b < |buckets| && buckets[b] == [];
      assert Count(run, b) == 0;
    }
  }

  class Coordinator {
    const partitions: nat
    const files: seq<File>
    const weights: map<File, real>
    var projectOf: map<File, Project>

    constructor (partitions: nat, files: seq<File>, weights: map<File, real>, projectOf: map<File, Project>)
      requires partitions >= 2
      ensures this.partitions == partitions && this.files == files && this.weights == weights && this.projectOf == projectOf
    {
      this.partitions, this.files, this.weights, this.projectOf := partitions, files, weights, projectOf;
    }

    static method Create(partitions: int, files: seq<File>, weights: map<File, real>, projectOf: map<File, Project>)
        returns (r: Outcome<Coordinator>)
      ensures r.Failure? <==> partitions < 2
      ensures r.Failure? ==> r.error.TooFewPartitions?
      ensures r.Success? ==> fresh(r.value) && r.value.partitions == partitions && r.value.files == files
      ensures r.Success? ==> r.value.weights == weights && r.value.projectOf == projectOf
    {
      if partitions < 2 { return Failure(TooFewPartitions); }
      var c := new Coordinator(partitions, files, weights, projectOf);
      r := Success(c);
    }

    /** The injected inventory when there is one, otherwise the listed one with the persisted
        durations; partitions come heaviest first.  `used` and `weighed` are the files and weights
        that were scheduled. */
    method AssignFiles(listed: seq<Entry>, exempt: seq<File>, persisted: map<File, real>,
                       collate: (File, File) -> bool, unitOrder: (File, File) -> bool)
        returns (r: Outcome<seq<seq<File>>>, ghost used: seq<File>, ghost weighed: map<File, real>, ghost run: seq<nat>)
      requires partitions >= 2
      modifies this
      ensures r.Failure? <==> files == [] && !WellFormed(listed)
      ensures r.Failure? ==> projectOf == old(projectOf)
      ensures files != [] ==> used == files && weighed == weights && projectOf == old(projectOf)
      ensures r.Success? && files == [] ==> weighed == persisted && Instruments(Inventory(used, projectOf), listed, exempt)
      ensures r.Success? ==> ComesFromRun(r.value, used, weighed, partitions, collate, run)
      ensures r.Success? ==> |r.value| == partitions && Pool(r.value) == multiset(used)
      ensures r.Success? ==> forall i, j | 0 <= i < j < |r.value| ::
                PartitionWeight(r.value[i], weighed) >= PartitionWeight(r.value[j], weighed)
    {
      var inventory, durations := files, weights;
      used, weighed, run := files, weights, [];
      if files == [] {
        var parsed := ParseFileInventory(listed, exempt, unitOrder);
        if parsed.Failure? { return Failure(parsed.error), used, weighed, run; }
        inventory, durations, projectOf := parsed.value.files, persisted, parsed.value.projectOf;
        used, weighed := inventory, durations;
        assert parsed.value == Inventory(used, projectOf);
      }
      var placed;
      placed, run := AssignWeightedPartitions(inventory, durations, partitions, collate);
      var order := (x, y) => Heavier(durations, x, y);
      Sorting.SortPermutes(placed.value, order);
      Sorting.SortOrders(placed.value, order, order);
      r := Success(Sorting.SortBy(placed.value, order));
      RunKeepsFiles(r.value, used, weighed, partitions, collate, run);
    }
  }

  /** Names the first empty partition, or none. */
  method AssertNonEmptyAssignments(assignments: seq<seq<File>>) returns (r: Outcome<()>)
    ensures r.Success? <==> [] !in assignments
    ensures r.Failure? ==> r.error.EmptyPartition? && r.error.index < |assignments|
                           && assignments[r.error.index] == [] && [] !in assignments[..r.error.index]
  {
    for i := 0 to |assignments|
      invariant [] !in assignments[..i]
    {
      if assignments[i] == [] { return Failure(EmptyPartition(i)); }
    }
    assert assignments[..|assignments|] == assignments;
    r := Success(());
  }
}
