/** The coverage scheduler: files are sorted by weight and handed, heaviest first, to the
    bucket at the root of an index min-heap ordered by (weight, number of files). */
module HeapScheduler {
  import opened Scheduling
  import Sorting

  const UNKNOWN_FILE_WEIGHT := 1.0

  type File = string

  datatype Job = Job(file: File, weight: real)

  datatype Bucket = Bucket(sum: real, files: seq<File>)

  datatype Result<T> = Ok(value: T) | HeapOutOfBounds

  function WeightOf(weights: map<File, real>, file: File): real {
    if file in weights then weights[file] else UNKNOWN_FILE_WEIGHT
  }

  /** The recorded weight; one for a file without a record. */
  ghost predicate Weighs(weights: map<File, real>, file: File, weight: real) {
    if file in weights then weight == weights[file] else weight == 1.0
  }

  // ----- the sorted job list

  predicate Precedes(collate: (File, File) -> bool, x: Job, y: Job) {
    x.weight > y.weight || (x.weight == y.weight && collate(x.file, y.file))
  }

  function JobsOf(files: seq<File>, weights: map<File, real>): (jobs: seq<Job>)
    ensures |jobs| == |files|
    ensures forall i | 0 <= i < |jobs| :: jobs[i] == Job(files[i], WeightOf(weights, files[i]))
  {
    seq(|files|, i requires 0 <= i < |files| => Job(files[i], WeightOf(weights, files[i])))
  }

  /** The order in which jobs are placed; `collate` is the locale's "not after". */
  function SortedJobs(files: seq<File>, weights: map<File, real>, collate: (File, File) -> bool): seq<Job> {
    Sorting.SortBy(JobsOf(files, weights), (x, y) => Precedes(collate, x, y))
  }

  function WeightsOf(jobs: seq<Job>): (w: seq<real>)
    ensures |w| == |jobs| && forall i | 0 <= i < |w| :: w[i] == jobs[i].weight
  {
    seq(|jobs|, i requires 0 <= i < |jobs| => jobs[i].weight)
  }

  function FilesOf(jobs: seq<Job>): (fs: seq<File>)
    ensures |fs| == |jobs| && forall i | 0 <= i < |fs| :: fs[i] == jobs[i].file
  {
    seq(|jobs|, i requires 0 <= i < |jobs| => jobs[i].file)
  }

  /** Sorting keeps exactly the files, each with its weight, heaviest first. */
  lemma SortedJobsFaithful(files: seq<File>, weights: map<File, real>, collate: (File, File) -> bool)
    ensures var s := SortedJobs(files, weights, collate);
            && |s| == |files|
            && multiset(FilesOf(s)) == multiset(files)
            && (forall i | 0 <= i < |s| :: s[i].weight == WeightOf(weights, s[i].file) && Weighs(weights, s[i].file, s[i].weight))
            && Descending(WeightsOf(s))
  {
    var jobs := JobsOf(files, weights);
    var before := (x, y) => Precedes(collate, x, y);
    var heavier := (x: Job, y: Job) => x.weight >= y.weight;
    var s := Sorting.SortBy(jobs, before);
    Sorting.SortPermutes(jobs, before);
    Sorting.SortOrders(jobs, before, heavier);
    forall i | 0 <= i < |s| ensures s[i].weight == WeightOf(weights, s[i].file) {
      assert s[i] in multiset(s);
      assert s[i] in jobs;
    }
    var w := WeightsOf(s);
    forall i, j | 0 <= i < j < |w| ensures w[i] >= w[j] {
      assert heavier(s[i], s[j]);
    }
    SortKeepsFiles(jobs, before);
    assert FilesOf(jobs) == files;
  }

  ghost predicate InFileOrder(s: seq<Job>, collate: (File, File) -> bool) {
    forall i, j | 0 <= i < j < |s| && s[i].weight == s[j].weight :: collate(s[i].file, s[j].file)
  }

  /** Files of equal weight keep the locale's order. */
  lemma TiesByName(files: seq<File>, weights: map<File, real>, collate: (File, File) -> bool)
    requires Sorting.TotalOrder(collate)
    ensures InFileOrder(SortedJobs(files, weights, collate), collate)
  {
    var before := (x, y) => Precedes(collate, x, y);
    var jobs := JobsOf(files, weights);
    Sorting.SortOrders(jobs, before, before);
    var s := Sorting.SortBy(jobs, before);
    forall i, j | 0 <= i < j < |s| && s[i].weight == s[j].weight ensures collate(s[i].file, s[j].file) {
      assert before(s[i], s[j]);
    }
  }

  lemma {:induction false} InsertKeepsFiles(x: Job, s: seq<Job>, before: (Job, Job) -> bool)
    ensures multiset(FilesOf(Sorting.Insert(x, s, before))) == multiset(FilesOf(s)) + multiset{x.file}
  {
    if s == [] || before(x, s[0]) {
      FilesOfCons(x, s);
    } else {
      InsertKeepsFiles(x, s[1..], before);
      assert s == [s[0]] + s[1..];
      FilesOfCons(s[0], s[1..]);
      FilesOfCons(s[0], Sorting.Insert(x, s[1..], before));
    }
  }

  lemma FilesOfCons(x: Job, s: seq<Job>)
    ensures FilesOf([x] + s) == [x.file] + FilesOf(s)
  {
  }

  lemma {:induction false} SortKeepsFiles(s: seq<Job>, before: (Job, Job) -> bool)
    ensures multiset(FilesOf(Sorting.SortBy(s, before))) == multiset(FilesOf(s))
  {
    if s != [] {
      SortKeepsFiles(s[1..], before);
      InsertKeepsFiles(s[0], Sorting.SortBy(s[1..], before), before);
      assert s == [s[0]] + s[1..];
      FilesOfCons(s[0], s[1..]);
    }
  }

  // ----- the heap

  predicate BucketLess(left: Bucket, right: Bucket) {
    if left.sum != right.sum then left.sum < right.sum else |left.files| < |right.files|
  }

  predicate Child(i: nat, c: nat) {
    c == 2 * i + 1 || c == 2 * i + 2
  }

  ghost predicate Indexes(buckets: seq<Bucket>, heap: seq<nat>) {
    forall k | 0 <= k < |heap| :: heap[k] < |buckets|
  }

  /** No child is less than its parent, leaving out the children of `hole`. */
  ghost predicate HeapBut(buckets: seq<Bucket>, heap: seq<nat>, hole: int)
    requires Indexes(buckets, heap)
  {
    forall i: nat, c: nat | c < |heap| && i < c && Child(i, c) && i != hole ::
      !BucketLess(buckets[heap[c]], buckets[heap[i]])
  }

  /** The children of `hole` are not less than its parent. */
  ghost predicate Bridged(buckets: seq<Bucket>, heap: seq<nat>, hole: nat)
    requires Indexes(buckets, heap)
  {
    forall i: nat, c: nat | c < |heap| && i < hole < c && Child(i, hole) && Child(hole, c) ::
      !BucketLess(buckets[heap[c]], buckets[heap[i]])
  }

  function Swapped(heap: seq<nat>, i: nat, j: nat): (r: seq<nat>)
    requires i < |heap| && j < |heap|
    ensures multiset(r) == multiset(heap)
  {
    heap[i := heap[j]][j := heap[i]]
  }

  ghost predicate SmallestAt(buckets: seq<Bucket>, heap: seq<nat>, i: nat, s: nat)
    requires Indexes(buckets, heap) && i < |heap|
  {
    && s < |heap| && Child(i, s) && BucketLess(buckets[heap[s]], buckets[heap[i]])
    && forall c: nat | c < |heap| && Child(i, c) :: !BucketLess(buckets[heap[c]], buckets[heap[s]])
  }

  /** Moving the smallest child up leaves only that child's subtree in question. */
  lemma SwapKeepsHeap(buckets: seq<Bucket>, heap: seq<nat>, i: nat, s: nat)
    requires Indexes(buckets, heap) && i < |heap| && SmallestAt(buckets, heap, i, s)
    requires HeapBut(buckets, heap, i) && Bridged(buckets, heap, i)
    ensures var h := Swapped(heap, i, s);
            Indexes(buckets, h) && HeapBut(buckets, h, s) && Bridged(buckets, h, s)
  {
    var h := Swapped(heap, i, s);
    forall a: nat, c: nat | c < |h| && a < c && Child(a, c) && a != s
      ensures !BucketLess(buckets[h[c]], buckets[h[a]])
    {
      if a == i || c == i {
        assert Child(i, s);
      } else {
        assert !BucketLess(buckets[heap[c]], buckets[heap[a]]);
      }
    }
  }

  lemma {:induction false} RootIsLeast(buckets: seq<Bucket>, heap: seq<nat>, k: nat)
    requires Indexes(buckets, heap) && HeapBut(buckets, heap, -1) && k < |heap|
    ensures !BucketLess(buckets[heap[k]], buckets[heap[0]])
  {
    if k > 0 {
      var parent := (k - 1) / 2;
      RootIsLeast(buckets, heap, parent);
      assert Child(parent, k);
    }
  }

  lemma NoSmallerChild(buckets: seq<Bucket>, heap: seq<nat>, i: nat)
    requires Indexes(buckets, heap) && i < |heap| && HeapBut(buckets, heap, i)
    requires forall c: nat | c < |heap| && Child(i, c) :: !BucketLess(buckets[heap[c]], buckets[heap[i]])
    ensures HeapBut(buckets, heap, -1)
  {
  }

  /** The least of an entry and its children, or the entry itself when no child is less. */
  method SmallestOf(buckets: array<Bucket>, heap: array<nat>, index: nat) returns (smallest: nat)
    requires index < heap.Length && Indexes(buckets[..], heap[..])
    ensures smallest == index ==>
              forall c: nat | c < heap.Length && Child(index, c) ::
                !BucketLess(buckets[..][heap[..][c]], buckets[..][heap[..][index]])
    ensures smallest != index ==> SmallestAt(buckets[..], heap[..], index, smallest)
  {
    ghost var bs, h := buckets[..], heap[..];
    var left, right := 2 * index + 1, 2 * index + 2;
    smallest := index;
    assert buckets[heap[index]] == bs[h[index]];
    if left < heap.Length {
      assert buckets[heap[left]] == bs[h[left]];
      if BucketLess(buckets[heap[left]], buckets[heap[smallest]]) { smallest := left; }
    }
    if right < heap.Length {
      assert buckets[heap[right]] == bs[h[right]];
      if BucketLess(buckets[heap[right]], buckets[heap[smallest]]) { smallest := right; }
    }
  }

  /** Restores the heap after the entry at `start` grew (or changed at all, at the root). */
  method SiftDown(buckets: array<Bucket>, heap: array<nat>, start: nat)
    requires start < heap.Length && Indexes(buckets[..], heap[..])
    requires HeapBut(buckets[..], heap[..], start) && Bridged(buckets[..], heap[..], start)
    modifies heap
    ensures Indexes(buckets[..], heap[..]) && HeapBut(buckets[..], heap[..], -1)
    ensures multiset(heap[..]) == old(multiset(heap[..]))
    ensures buckets[..] == old(buckets[..])
  {
    var index := start;
    ghost var bs := buckets[..];
    while true
      invariant index < heap.Length && buckets[..] == bs && Indexes(bs, heap[..])
      invariant HeapBut(bs, heap[..], index) && Bridged(bs, heap[..], index)
      invariant multiset(heap[..]) == old(multiset(heap[..]))
      decreases heap.Length - index
    {
      ghost var h := heap[..];
      var smallest := SmallestOf(buckets, heap, index);
      if smallest == index {
        NoSmallerChild(bs, h, index);
        return;
      }
      SwapKeepsHeap(bs, h, index, smallest);
      heap[index], heap[smallest] := heap[smallest], heap[index];
      assert heap[..] == Swapped(h, index, smallest);
      index := smallest;
    }
  }

  // ----- the placement loop

  /** The files that schedule `p` puts into bucket `b`, in placement order. */
  function FilesIn(jobs: seq<Job>, p: seq<nat>, b: nat): seq<File>
    requires |p| <= |jobs|
  {
    if p == [] then []
    else
      var k := |p| - 1;
      FilesIn(jobs, p[..k], b) + if p[k] == b then [jobs[k].file] else []
  }

  lemma {:induction false} FilesInCount(jobs: seq<Job>, p: seq<nat>, b: nat)
    requires |p| <= |jobs|
    ensures |FilesIn(jobs, p, b)| == Count(p, b)
  {
    if p != [] { FilesInCount(jobs, p[..|p| - 1], b); }
  }

  function Contents(jobs: seq<Job>, p: seq<nat>, m: nat): (r: seq<Bucket>)
    requires |p| <= |jobs|
    ensures |r| == m
    ensures forall b | 0 <= b < m :: r[b] == Bucket(Load(WeightsOf(jobs), p, b), FilesIn(jobs, p, b))
  {
    seq(m, b requires 0 <= b < m => Bucket(Load(WeightsOf(jobs), p, b), FilesIn(jobs, p, b)))
  }

  /** The heap root is a bucket that a full scan would call lightest. */
  lemma RootIsLightest(jobs: seq<Job>, p: seq<nat>, m: nat, heap: seq<nat>)
    requires |p| <= |jobs| && 0 < |heap|
    requires forall b: nat | b < m :: b in heap
    requires Indexes(Contents(jobs, p, m), heap) && HeapBut(Contents(jobs, p, m), heap, -1)
    ensures IsLightest(WeightsOf(jobs), p, m, heap[0])
  {
    var w, bs := WeightsOf(jobs), Contents(jobs, p, m);
    forall b: nat | b < m ensures !Lighter(w, p, b, heap[0]) {
      assert b in heap;
      var k :| 0 <= k < |heap| && heap[k] == b;
      RootIsLeast(bs, heap, k);
      FilesInCount(jobs, p, b);
      FilesInCount(jobs, p, heap[0]);
    }
  }

  lemma PlacementGrowsRoot(jobs: seq<Job>, p: seq<nat>, m: nat, c: nat)
    requires |p| < |jobs| && c < m
    ensures var old', k := Contents(jobs, p, m), |p|;
            Contents(jobs, p + [c], m) == old'[c := Bucket(old'[c].sum + jobs[k].weight, old'[c].files + [jobs[k].file])]
  {
    var q := p + [c];
    assert q[..|p|] == p;
    var next, old' := Contents(jobs, q, m), Contents(jobs, p, m);
    forall b | 0 <= b < m
      ensures next[b] == old'[c := Bucket(old'[c].sum + jobs[|p|].weight, old'[c].files + [jobs[|p|].file])][b]
    {
    }
  }

  /** Growing the root's bucket disturbs the heap at the root only: no other entry points to it. */
  lemma HeapButRoot(bs: seq<Bucket>, heap: seq<nat>, x: Bucket)
    requires 0 < |heap| && Indexes(bs, heap) && HeapBut(bs, heap, -1)
    requires forall k | 0 < k < |heap| :: heap[k] != heap[0]
    ensures Indexes(bs[heap[0] := x], heap) && HeapBut(bs[heap[0] := x], heap, 0)
    ensures Bridged(bs[heap[0] := x], heap, 0)
  {
  }

  /** The bucket indices 0, ..., m - 1, the heap's initial content. */
  function Range(m: nat): (r: seq<nat>)
    ensures |r| == m && forall b | 0 <= b < m :: r[b] == b
  {
    seq(m, b requires 0 <= b < m => b)
  }

  lemma PermutationFacts(heap: seq<nat>, m: nat)
    requires multiset(heap) == multiset(Range(m))
    ensures |heap| == m
    ensures forall k | 0 <= k < |heap| :: heap[k] < m
    ensures forall b: nat | b < m :: b in heap
    ensures forall i, j | 0 <= i < j < |heap| :: heap[i] != heap[j]
  {
    assert |multiset(heap)| == |multiset(Range(m))|;
    forall k | 0 <= k < |heap| ensures heap[k] < m {
      assert heap[k] in multiset(heap);
      assert heap[k] in Range(m);
    }
    forall b: nat | b < m ensures b in heap {
      assert Range(m)[b] == b;
      assert b in multiset(Range(m));
    }
    forall i, j | 0 <= i < j < |heap| ensures heap[i] != heap[j] {
      RangeDistinct(m, heap[i]);
      if heap[i] == heap[j] { Sorting.Twice(heap, i, j); }
    }
  }

  lemma {:induction false} RangeDistinct(m: nat, x: nat)
    ensures multiset(Range(m))[x] <= 1
    ensures x >= m ==> x !in Range(m)
  {
    if m > 0 {
      RangeDistinct(m - 1, x);
      assert Range(m) == Range(m - 1) + [m - 1];
    }
  }

  ghost function FileLists(bs: seq<Bucket>): (r: seq<seq<File>>)
    ensures |r| == |bs| && forall b | 0 <= b < |bs| :: r[b] == bs[b].files
  {
    seq(|bs|, b requires 0 <= b < |bs| => bs[b].files)
  }

  lemma EmptySchedule(jobs: seq<Job>, m: nat)
    ensures IsRun(WeightsOf(jobs), [], m)
    ensures forall b | 0 <= b < m :: Contents(jobs, [], m)[b] == Bucket(0.0, [])
    ensures Indexes(Contents(jobs, [], m), Range(m)) && HeapBut(Contents(jobs, [], m), Range(m), -1)
  {
  }

  /** After every placement: the buckets hold what the run put there, and the heap is a permutation
      of the bucket indices in heap order. */
  ghost predicate Placing(jobs: seq<Job>, run: seq<nat>, m: nat, buckets: seq<Bucket>, heap: seq<nat>) {
    && |run| <= |jobs| && IsRun(WeightsOf(jobs), run, m)
    && buckets == Contents(jobs, run, m)
    && multiset(heap) == multiset(Range(m))
    && Indexes(buckets, heap) && HeapBut(buckets, heap, -1)
  }

  /** Puts the next job into the bucket at the heap's root. */
  method PlaceNext(ghost jobs: seq<Job>, job: Job, ghost run: seq<nat>, ghost m: nat,
                   buckets: array<Bucket>, heap: array<nat>) returns (top: nat)
    requires |run| < |jobs| && job == jobs[|run|] && heap.Length > 0 && Placing(jobs, run, m, buckets[..], heap[..])
    modifies buckets, heap
    ensures Placing(jobs, run + [top], m, buckets[..], heap[..])
    ensures IsLightest(WeightsOf(jobs), run, m, top)
  {
    hide HeapBut, Bridged, Lighter, IsLightest, IsRun, FilesIn, Load;
    ghost var before, h := buckets[..], heap[..];
    PermutationFacts(h, m);
    RootIsLightest(jobs, run, m, h);
    PlacementGrowsRoot(jobs, run, m, h[0]);
    top := heap[0];
    RunGrows(WeightsOf(jobs), run, m, top);
    var grown := Bucket(buckets[top].sum + job.weight, buckets[top].files + [job.file]);
    HeapButRoot(before, h, grown);
    buckets[top] := grown;
    assert buckets[..] == before[top := grown];
    SiftDown(buckets, heap, 0);
  }

  /** Distributes `files` over `partitions` buckets.  The ghost result is the run the heap
      made: it shows that every file went to a bucket that a full scan would accept. */
  method AssignWeightedPartitions(files: seq<File>, weights: map<File, real>, partitions: nat,
                                  collate: (File, File) -> bool)
      returns (r: Result<seq<seq<File>>>, ghost run: seq<nat>)
    ensures r.HeapOutOfBounds? <==> partitions == 0 && files != []
    ensures r.Ok? ==>
              var jobs := SortedJobs(files, weights, collate);
              && |run| == |jobs|
              && IsRun(WeightsOf(jobs), run, partitions)
              && r.value == FileLists(Contents(jobs, run, partitions))
  {
    hide SortedJobs, HeapBut, Bridged, Lighter, IsLightest, IsRun, FilesIn, Load;
    SortedJobsFaithful(files, weights, collate);
    var weighted := SortedJobs(files, weights, collate);
    EmptySchedule(weighted, partitions);
    run := [];
    if files == [] {
      var lists := seq(partitions, _ => []);
      assert lists == FileLists(Contents(weighted, [], partitions));
      return Ok(lists), run;
    }
    var buckets := new Bucket[partitions](_ => Bucket(0.0, []));
    var heap := new nat[partitions](b => b);
    assert buckets[..] == Contents(weighted, run, partitions);
    assert heap[..] == Range(partitions);
    var k := 0;
    while k < |weighted|
      invariant k == |run| <= |weighted| && (k > 0 ==> partitions > 0)
      invariant Placing(weighted, run, partitions, buckets[..], heap[..])
    {
      if heap.Length == 0 { return HeapOutOfBounds, run; }
      var top := PlaceNext(weighted, weighted[k], run, partitions, buckets, heap);
      run := run + [top];
      k := k + 1;
    }
    var lists := seq(partitions, b requires 0 <= b < buckets.Length reads buckets => buckets[b].files);
    assert lists == FileLists(buckets[..]);
    r := Ok(lists);
  }
}
