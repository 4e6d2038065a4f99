/**
 * The external merge sort of the sort operator: in-memory sorting of a run,
 * k-way merging through a priority queue, one merge pass over groups of
 * numBuffers - 1 runs, run generation over the table's pages, and the
 * operator object that caches its sorted result.
 *
 * A run is modelled by its records and a table by its data pages; the
 * temporary tables that back runs in the engine are left out.
 */
module Sorting {
  import opened Wrappers
  import opened Records
  import opened Ordering
  import opened Arithmetic

  // ---------------------------------------------------------------------------
  // sortRun: sorting one run in memory
  // ---------------------------------------------------------------------------

  /** Inserts `x` before the first record it does not follow (so ties keep their order). */
  function Insert(le: Comparator, x: Record, s: seq<Record>): (r: seq<Record>)
    ensures multiset(r) == multiset(s) + multiset{x}
  {
    if s == [] then [x]
    else if le(x, s[0]) then [x] + s
    else
      assert s == [s[0]] + s[1..];
      [s[0]] + Insert(le, x, s[1..])
  }

  /** A stable in-memory sort: what `List.sort(comparator)` computes. */
  function InsertionSort(le: Comparator, s: seq<Record>): (r: seq<Record>)
    ensures multiset(r) == multiset(s)
  {
    if s == [] then []
    else
      assert s == [s[0]] + s[1..];
      Insert(le, s[0], InsertionSort(le, s[1..]))
  }

  lemma {:induction false} InsertSorted(le: Comparator, x: Record, s: seq<Record>)
    requires TotalPreorder(le)
    requires Sorted(le, s)
    ensures Sorted(le, Insert(le, x, s))
  {
    if s != [] && !le(x, s[0]) {
      var t := Insert(le, x, s[1..]);
      InsertSorted(le, x, s[1..]);
      forall k | 0 <= k < |t|
        ensures le(s[0], t[k])
      {
        assert t[k] in multiset(t);
        if t[k] != x {
          assert t[k] in multiset(s[1..]);
          var m :| 0 <= m < |s[1..]| && s[1..][m] == t[k];
          assert s[1 + m] == t[k];
        }
      }
      assert Insert(le, x, s) == [s[0]] + t;
    }
  }

  lemma {:induction false} InsertionSortSorted(le: Comparator, s: seq<Record>)
    requires TotalPreorder(le)
    ensures Sorted(le, InsertionSort(le, s))
  {
    if s != [] {
      InsertionSortSorted(le, s[1..]);
      InsertSorted(le, s[0], InsertionSort(le, s[1..]));
    }
  }

  /** sortRun: reads the run into a list, sorts the list and writes it out as a new run. */
  method SortRun(le: Comparator, run: seq<Record>) returns (sorted: seq<Record>)
    requires TotalPreorder(le)
    ensures Sorted(le, sorted)
    ensures multiset(sorted) == multiset(run)
  {
    var needSort: seq<Record> := [];
    var i := 0;
    while i < |run|
      invariant 0 <= i <= |run|
      invariant needSort == run[..i]
    {
      needSort := needSort + [run[i]];
      i := i + 1;
    }
    assert needSort == run;
    sorted := InsertionSort(le, needSort);
    InsertionSortSorted(le, needSort);
  }

  // ---------------------------------------------------------------------------
  // mergeSortedRuns: k-way merge through a priority queue
  // ---------------------------------------------------------------------------

  /** A priority-queue entry: a record and the index of the run it was read from. */
  datatype Entry = Entry(rec: Record, run: nat)

  /** RecordPairComparator: entries are ordered by their records; the run index plays no part. */
  function PairLe(le: Comparator, a: Entry, b: Entry): bool {
    le(a.rec, b.rec)
  }

  lemma PairOrderIsTotalPreorder(le: Comparator)
    requires TotalPreorder(le)
    ensures forall a, b :: PairLe(le, a, b) || PairLe(le, b, a)
    ensures forall a, b, c :: PairLe(le, a, b) && PairLe(le, b, c) ==> PairLe(le, a, c)
    ensures forall x, y, i, j :: PairLe(le, Entry(x, i), Entry(y, j)) == le(x, y)
  {
  }

  /** `PriorityQueue.poll`: the position of a least entry (the first one, where the heap may choose any). */
  method PollMin(le: Comparator, pq: seq<Entry>) returns (k: nat)
    requires TotalPreorder(le)
    requires |pq| > 0
    ensures k < |pq|
    ensures forall j :: 0 <= j < |pq| ==> PairLe(le, pq[k], pq[j])
  {
    k := 0;
    var i := 1;
    while i < |pq|
      invariant 1 <= i <= |pq| && k < i
      invariant forall j :: 0 <= j < i ==> PairLe(le, pq[k], pq[j])
    {
      if !PairLe(le, pq[k], pq[i]) {
        k := i;
      }
      i := i + 1;
    }
  }

  /** The records held by the queue. */
  ghost function QueueRecords(pq: seq<Entry>): multiset<Record> {
    if pq == [] then multiset{} else multiset{pq[0].rec} + QueueRecords(pq[1..])
  }

  lemma {:induction false} QueueRecordsAppend(a: seq<Entry>, b: seq<Entry>)
    ensures QueueRecords(a + b) == QueueRecords(a) + QueueRecords(b)
  {
    if a == [] {
      assert a + b == b;
    } else {
      assert (a + b)[1..] == a[1..] + b;
      QueueRecordsAppend(a[1..], b);
    }
  }

  lemma QueueRecordsRemove(pq: seq<Entry>, k: nat)
    requires k < |pq|
    ensures QueueRecords(pq[..k] + pq[k + 1..]) + multiset{pq[k].rec} == QueueRecords(pq)
  {
    var before, after := pq[..k], pq[k + 1..];
    var rest := [pq[k]] + after;
    assert pq == before + rest;
    assert rest[0] == pq[k] && rest[1..] == after;
    QueueRecordsAppend(before, rest);
    QueueRecordsAppend(before, after);
    assert QueueRecords(rest) == multiset{pq[k].rec} + QueueRecords(after);
    SwapLast(QueueRecords(before), QueueRecords(after), multiset{pq[k].rec});
  }

  lemma SwapLast<T>(a: multiset<T>, b: multiset<T>, c: multiset<T>)
    ensures a + b + c == a + (c + b)
  {
  }

  /** Every record is merged, queued or still unread, exactly once. */
  ghost predicate Conserved(runs: seq<seq<Record>>, iterators: seq<seq<Record>>, pq: seq<Entry>, merged: seq<Record>) {
    multiset(merged) + QueueRecords(pq) + multiset(Concat(iterators)) == multiset(Concat(runs))
  }

  /** Entries name existing runs, and a run with unread records has an entry in the queue. */
  ghost predicate QueueCoversRuns(pq: seq<Entry>, iterators: seq<seq<Record>>) {
    && (forall j :: 0 <= j < |pq| ==> pq[j].run < |iterators|)
    && (forall i :: 0 <= i < |iterators| && iterators[i] != [] ==>
          exists j :: 0 <= j < |pq| && pq[j].run == i)
  }

  /** For sorted runs: the output so far is sorted and precedes the queue, which precedes each unread suffix. */
  ghost predicate MergeOrdered(le: Comparator, iterators: seq<seq<Record>>, pq: seq<Entry>, merged: seq<Record>) {
    && Sorted(le, merged)
    && AllSorted(le, iterators)
    && (forall j, k :: 0 <= j < |pq| && 0 <= k < |merged| ==> le(merged[k], pq[j].rec))
    && (forall j, m :: 0 <= j < |pq| && pq[j].run < |iterators| && 0 <= m < |iterators[pq[j].run]| ==>
          le(pq[j].rec, iterators[pq[j].run][m]))
  }

  /** The queue and iterators after moving entry `k` to the output and refilling from its run. */
  ghost predicate MergeStep(it0: seq<seq<Record>>, pq0: seq<Entry>, k: nat, it1: seq<seq<Record>>, pq1: seq<Entry>) {
    && k < |pq0|
    && pq0[k].run < |it0|
    && var r := pq0[k].run;
       if it0[r] != [] then
         it1 == it0[r := it0[r][1..]] && pq1 == pq0[..k] + pq0[k + 1..] + [Entry(it0[r][0], r)]
       else
         it1 == it0 && pq1 == pq0[..k] + pq0[k + 1..]
  }

  /** Seeding leaves the first record of each run queued and the rest unread. */
  ghost predicate Seeded(runs: seq<seq<Record>>, iterators: seq<seq<Record>>, pq: seq<Entry>) {
    && |iterators| == |runs| && |pq| == |runs|
    && forall k :: 0 <= k < |runs| ==> runs[k] != [] && iterators[k] == runs[k][1..] && pq[k] == Entry(runs[k][0], k)
  }

  /** The first `i` runs are seeded and the others untouched. */
  ghost predicate SeedPrefix(runs: seq<seq<Record>>, iterators: seq<seq<Record>>, pq: seq<Entry>, i: nat) {
    && i <= |runs| && |iterators| == |runs| && |pq| == i
    && (forall k :: 0 <= k < i ==> runs[k] != [] && iterators[k] == runs[k][1..] && pq[k] == Entry(runs[k][0], k))
    && (forall k :: i <= k < |runs| ==> iterators[k] == runs[k])
  }

  /** Seeding one more run extends the seeded prefix. */
  lemma SeedPrefixStep(runs: seq<seq<Record>>, iterators: seq<seq<Record>>, pq: seq<Entry>, i: nat)
    requires SeedPrefix(runs, iterators, pq, i) && i < |runs| && iterators[i] != []
    ensures SeedPrefix(runs, iterators[i := iterators[i][1..]], pq + [Entry(iterators[i][0], i)], i + 1)
  {
  }

  lemma SeedStep(runs: seq<seq<Record>>, iterators: seq<seq<Record>>, pq: seq<Entry>, i: nat)
    requires i < |iterators| && iterators[i] != []
    requires QueueRecords(pq) + multiset(Concat(iterators)) == multiset(Concat(runs))
    ensures QueueRecords(pq + [Entry(iterators[i][0], i)]) + multiset(Concat(iterators[i := iterators[i][1..]]))
            == multiset(Concat(runs))
  {
    var head, tail := iterators[i][0], iterators[i][1..];
    ConcatUpdate(iterators, i, tail);
    MultisetHeadTail(iterators[i]);
    QueueRecordsAppend(pq, [Entry(head, i)]);
    assert QueueRecords([Entry(head, i)]) == multiset{head} by {
      assert [Entry(head, i)][1..] == [];
    }
    assert multiset(iterators[i]) == multiset{head} + multiset(tail);
    MoveOne(QueueRecords(pq), multiset{head}, multiset(tail), multiset(Concat(iterators[i := tail])),
            multiset(Concat(iterators)), multiset(Concat(runs)));
  }

  /** The multiset bookkeeping of moving one record `head` from the unread records to the queue. */
  lemma MoveOne<T>(queued: multiset<T>, head: multiset<T>, tail: multiset<T>, unread1: multiset<T>,
                   unread0: multiset<T>, total: multiset<T>)
    requires queued + unread0 == total
    requires unread1 + (head + tail) == unread0 + tail
    ensures (queued + head) + unread1 == total
  {
    forall x ensures (unread1 + head)[x] == unread0[x] {
      assert (unread1 + (head + tail))[x] == (unread0 + tail)[x];
    }
    assert unread1 + head == unread0;
  }

  lemma SeededCoversAndOrders(le: Comparator, runs: seq<seq<Record>>, iterators: seq<seq<Record>>, pq: seq<Entry>)
    requires Seeded(runs, iterators, pq)
    ensures QueueCoversRuns(pq, iterators)
    ensures AllSorted(le, runs) ==> MergeOrdered(le, iterators, pq, [])
  {
    forall i | 0 <= i < |iterators| && iterators[i] != []
      ensures exists j :: 0 <= j < |pq| && pq[j].run == i
    {
      assert pq[i].run == i;
    }
    if AllSorted(le, runs) {
      forall i | 0 <= i < |iterators|
        ensures Sorted(le, iterators[i])
      {
        assert Sorted(le, runs[i]);
      }
      forall j, m | 0 <= j < |pq| && pq[j].run < |iterators| && 0 <= m < |iterators[pq[j].run]|
        ensures le(pq[j].rec, iterators[pq[j].run][m])
      {
        assert pq[j].run == j;
        assert iterators[j][m] == runs[j][1 + m];
        assert Sorted(le, runs[j]);
      }
    }
  }

  /** One step of the merge moves exactly one record to the output. */
  lemma MergeStepConserved(runs: seq<seq<Record>>, it0: seq<seq<Record>>, pq0: seq<Entry>, merged0: seq<Record>,
                           k: nat, it1: seq<seq<Record>>, pq1: seq<Entry>)
    requires Conserved(runs, it0, pq0, merged0)
    requires MergeStep(it0, pq0, k, it1, pq1)
    ensures Conserved(runs, it1, pq1, merged0 + [pq0[k].rec])
    ensures |pq1| <= |pq0|
    ensures |Concat(it1)| + |pq1| < |Concat(it0)| + |pq0|
  {
    var least := pq0[k];
    var r := least.run;
    var rest := pq0[..k] + pq0[k + 1..];
    QueueRecordsRemove(pq0, k);
    if it0[r] != [] {
      RefillConserved(runs, it0, pq0, merged0, k, it1, pq1);
    } else {
      assert multiset(merged0 + [least.rec]) == multiset(merged0) + multiset{least.rec};
    }
  }

  lemma RefillConserved(runs: seq<seq<Record>>, it0: seq<seq<Record>>, pq0: seq<Entry>, merged0: seq<Record>,
                        k: nat, it1: seq<seq<Record>>, pq1: seq<Entry>)
    requires Conserved(runs, it0, pq0, merged0)
    requires MergeStep(it0, pq0, k, it1, pq1)
    requires it0[pq0[k].run] != []
    ensures Conserved(runs, it1, pq1, merged0 + [pq0[k].rec])
    ensures |Concat(it1)| + 1 == |Concat(it0)|
  {
    var least := pq0[k];
    var r := least.run;
    var rest := pq0[..k] + pq0[k + 1..];
    QueueRecordsRemove(pq0, k);
    var next, tail := it0[r][0], it0[r][1..];
    assert pq1 == rest + [Entry(next, r)];
    QueueRecordsAppend(rest, [Entry(next, r)]);
    assert QueueRecords([Entry(next, r)]) == multiset{next} by {
      assert [Entry(next, r)][1..] == [];
    }
    assert QueueRecords(pq1) == QueueRecords(rest) + multiset{next};
    var done, queued, unread0, unread1 := multiset(merged0), QueueRecords(rest), multiset(Concat(it0)), multiset(Concat(it1));
    assert done + (queued + multiset{least.rec}) + unread0 == multiset(Concat(runs));
    ConcatUpdate(it0, r, tail);
    MultisetHeadTail(it0[r]);
    assert unread1 + (multiset{next} + multiset(tail)) == unread0 + multiset(tail);
    Rebalance(done, queued, multiset{least.rec}, multiset{next}, multiset(tail), unread1, unread0, multiset(Concat(runs)));
    assert multiset(merged0 + [least.rec]) == done + multiset{least.rec};
  }

  /** The multiset bookkeeping of one merge step: `least` moves out of the queue, `next` moves into it. */
  lemma Rebalance<T>(done: multiset<T>, queued: multiset<T>, least: multiset<T>, next: multiset<T>,
                     tail: multiset<T>, unread1: multiset<T>, unread0: multiset<T>, total: multiset<T>)
    requires done + (queued + least) + unread0 == total
    requires unread1 + (next + tail) == unread0 + tail
    ensures (done + least) + (queued + next) + unread1 == total
  {
    forall x ensures (unread1 + next)[x] == unread0[x] {
      assert (unread1 + (next + tail))[x] == (unread0 + tail)[x];
    }
    assert unread1 + next == unread0;
    calc {
      (done + least) + (queued + next) + unread1;
      done + (queued + least) + (unread1 + next);
      done + (queued + least) + unread0;
    }
  }

  /** One step of the merge keeps a queue entry for every run with unread records. */
  lemma MergeStepCovers(it0: seq<seq<Record>>, pq0: seq<Entry>, k: nat, it1: seq<seq<Record>>, pq1: seq<Entry>)
    requires QueueCoversRuns(pq0, it0)
    requires MergeStep(it0, pq0, k, it1, pq1)
    ensures QueueCoversRuns(pq1, it1)
  {
    var r := pq0[k].run;
    var rest := pq0[..k] + pq0[k + 1..];
    assert |it1| == |it0|;
    forall j | 0 <= j < |pq1|
      ensures pq1[j].run < |it1|
    {
      if j < |rest| {
        assert pq1[j] == pq0[if j < k then j else j + 1];
      }
    }
    forall i | 0 <= i < |it1| && it1[i] != []
      ensures exists j :: 0 <= j < |pq1| && pq1[j].run == i
    {
      if i == r {
        assert pq1[|pq1| - 1].run == i;
      } else {
        assert it0[i] == it1[i];
        var j0 :| 0 <= j0 < |pq0| && pq0[j0].run == i;
        var j1 := if j0 < k then j0 else j0 - 1;
        assert pq1[j1] == pq0[j0];
      }
    }
  }

  /**
   * mergeSortedRuns: seeds the queue with the first record of each run, then
   * repeatedly moves a least entry to the output and refills the queue from
   * that entry's run. `peak` is the largest size the queue reaches. A run
   * without records makes the seeding next() throw.
   */
  method MergeSortedRuns(le: Comparator, runs: seq<seq<Record>>) returns (r: Result<seq<Record>, SortError>, ghost peak: nat)
    requires TotalPreorder(le)
    ensures r.Err? <==> exists k :: 0 <= k < |runs| && runs[k] == []
    ensures r.Err? ==> r.error == EmptyRunMerged
    ensures r.Ok? ==> multiset(r.value) == multiset(Concat(runs))
    ensures r.Ok? && AllSorted(le, runs) ==> Sorted(le, r.value)
    ensures r.Ok? ==> peak <= |runs|
  {
    var seeded, pq, iterators := SeedQueue(runs);
    if !seeded {
      return Err(EmptyRunMerged), 0;
    }
    SeededCoversAndOrders(le, runs, iterators, pq);
    var merged;
    merged, peak := DrainQueue(le, runs, iterators, pq);
    r := Ok(merged);
  }

  /**
   * mergeSortedRuns's main loop: polls a least entry, appends its record and
   * queues the next record of the same run, until the queue is empty.
   */
  method DrainQueue(le: Comparator, runs: seq<seq<Record>>, unread: seq<seq<Record>>, queue: seq<Entry>)
    returns (merged: seq<Record>, ghost peak: nat)
    requires TotalPreorder(le)
    requires MergeInvariant(le, runs, unread, queue, []) && |queue| <= |runs|
    ensures multiset(merged) == multiset(Concat(runs))
    ensures AllSorted(le, runs) ==> Sorted(le, merged)
    ensures |queue| <= peak <= |runs|
  {
    var pq, iterators := queue, unread;
    peak := |pq|;
    merged := [];
    while pq != []
      invariant |pq| <= peak <= |runs| && |queue| <= peak
      invariant MergeInvariant(le, runs, iterators, pq, merged)
      decreases |Concat(iterators)| + |pq|
    {
      var k := PollMin(le, pq);
      var least := pq[k];
      ghost var pq0, it0, merged0 := pq, iterators, merged;
      pq := pq[..k] + pq[k + 1..];
      merged := merged + [least.rec];
      if iterators[least.run] != [] {
        pq := pq + [Entry(iterators[least.run][0], least.run)];
        iterators := iterators[least.run := iterators[least.run][1..]];
      }
      MergeStepKeeps(le, runs, it0, pq0, merged0, k, iterators, pq);
      peak := Max(peak, |pq|);
    }
    MergeDone(le, runs, iterators, merged);
  }

  /**
   * mergeSortedRuns's first loop: queues the first record of every run, paired
   * with the run's index. next() on a run without records throws, which ends
   * the merge (`seeded` is false).
   */
  method SeedQueue(runs: seq<seq<Record>>) returns (seeded: bool, pq: seq<Entry>, iterators: seq<seq<Record>>)
    ensures seeded <==> forall k :: 0 <= k < |runs| ==> runs[k] != []
    ensures seeded ==> Seeded(runs, iterators, pq) && Conserved(runs, iterators, pq, [])
  {
    pq := [];
    iterators := runs;
    for i := 0 to |runs|
      invariant SeedPrefix(runs, iterators, pq, i)
      invariant QueueRecords(pq) + multiset(Concat(iterators)) == multiset(Concat(runs))
    {
      if iterators[i] == [] {
        assert runs[i] == [];
        return false, pq, iterators;
      }
      SeedStep(runs, iterators, pq, i);
      SeedPrefixStep(runs, iterators, pq, i);
      pq := pq + [Entry(iterators[i][0], i)];
      iterators := iterators[i := iterators[i][1..]];
    }
    seeded := true;
  }

  /** The invariant of mergeSortedRuns's main loop. */
  ghost predicate MergeInvariant(le: Comparator, runs: seq<seq<Record>>, iterators: seq<seq<Record>>, pq: seq<Entry>,
                                 merged: seq<Record>) {
    && |iterators| == |runs|
    && Conserved(runs, iterators, pq, merged)
    && QueueCoversRuns(pq, iterators)
    && (AllSorted(le, runs) ==> MergeOrdered(le, iterators, pq, merged))
  }

  /** One step of the merge, polling a least entry, keeps the invariant and shrinks what is left. */
  lemma MergeStepKeeps(le: Comparator, runs: seq<seq<Record>>, it0: seq<seq<Record>>, pq0: seq<Entry>,
                       merged0: seq<Record>, k: nat, it1: seq<seq<Record>>, pq1: seq<Entry>)
    requires TotalPreorder(le)
    requires MergeInvariant(le, runs, it0, pq0, merged0)
    requires k < |pq0| && forall j :: 0 <= j < |pq0| ==> PairLe(le, pq0[k], pq0[j])
    requires var r := pq0[k].run;
      if it0[r] != [] then
        it1 == it0[r := it0[r][1..]] && pq1 == pq0[..k] + pq0[k + 1..] + [Entry(it0[r][0], r)]
      else
        it1 == it0 && pq1 == pq0[..k] + pq0[k + 1..]
    ensures MergeInvariant(le, runs, it1, pq1, merged0 + [pq0[k].rec])
    ensures |pq1| <= |pq0|
    ensures |Concat(it1)| + |pq1| < |Concat(it0)| + |pq0|
  {
    assert MergeStep(it0, pq0, k, it1, pq1);
    MergeStepConserved(runs, it0, pq0, merged0, k, it1, pq1);
    MergeStepCovers(it0, pq0, k, it1, pq1);
    if AllSorted(le, runs) {
      MergeStepOrdered(le, it0, pq0, merged0, k, it1, pq1);
    }
  }

  /** When the queue is empty every iterator is exhausted, so the output holds every record. */
  lemma MergeDone(le: Comparator, runs: seq<seq<Record>>, iterators: seq<seq<Record>>, merged: seq<Record>)
    requires MergeInvariant(le, runs, iterators, [], merged)
    ensures multiset(merged) == multiset(Concat(runs))
    ensures AllSorted(le, runs) ==> Sorted(le, merged)
  {
    ConcatOfEmpty(iterators);
  }

  /** One step of the merge keeps the order invariant. */
  lemma MergeStepOrdered(le: Comparator, it0: seq<seq<Record>>, pq0: seq<Entry>, merged0: seq<Record>, k: nat,
                         it1: seq<seq<Record>>, pq1: seq<Entry>)
    requires TotalPreorder(le)
    requires MergeOrdered(le, it0, pq0, merged0)
    requires MergeStep(it0, pq0, k, it1, pq1)
    requires forall j :: 0 <= j < |pq0| ==> PairLe(le, pq0[k], pq0[j])
    ensures MergeOrdered(le, it1, pq1, merged0 + [pq0[k].rec])
  {
    OutputStaysSorted(le, merged0, pq0, k);
    forall i | 0 <= i < |it1|
      ensures Sorted(le, it1[i])
    {
      assert Sorted(le, it0[i]);
    }
    OutputPrecedesQueue(le, it0, pq0, merged0, k, it1, pq1);
    QueuePrecedesUnread(le, it0, pq0, k, it1, pq1);
  }

  /** Appending a least queue entry keeps the output sorted. */
  lemma OutputStaysSorted(le: Comparator, merged0: seq<Record>, pq0: seq<Entry>, k: nat)
    requires k < |pq0| && Sorted(le, merged0)
    requires forall j, m :: 0 <= j < |pq0| && 0 <= m < |merged0| ==> le(merged0[m], pq0[j].rec)
    ensures Sorted(le, merged0 + [pq0[k].rec])
  {
    var merged1 := merged0 + [pq0[k].rec];
    forall i, j | 0 <= i < j < |merged1|
      ensures le(merged1[i], merged1[j])
    {
      if j == |merged0| {
        assert le(merged0[i], pq0[k].rec);
      } else {
        assert merged1[i] == merged0[i] && merged1[j] == merged0[j];
      }
    }
  }

  /** After the step, every output record still precedes every queued record. */
  lemma OutputPrecedesQueue(le: Comparator, it0: seq<seq<Record>>, pq0: seq<Entry>, merged0: seq<Record>, k: nat,
                            it1: seq<seq<Record>>, pq1: seq<Entry>)
    requires TotalPreorder(le)
    requires MergeOrdered(le, it0, pq0, merged0)
    requires MergeStep(it0, pq0, k, it1, pq1)
    requires forall j :: 0 <= j < |pq0| ==> PairLe(le, pq0[k], pq0[j])
    ensures forall j, m :: 0 <= j < |pq1| && 0 <= m < |merged0| + 1 ==> le((merged0 + [pq0[k].rec])[m], pq1[j].rec)
  {
    var least := pq0[k];
    var r := least.run;
    var merged1 := merged0 + [least.rec];
    var rest := pq0[..k] + pq0[k + 1..];
    forall j, m | 0 <= j < |pq1| && 0 <= m < |merged1|
      ensures le(merged1[m], pq1[j].rec)
    {
      if j < |rest| {
        var j0 := if j < k then j else j + 1;
        assert pq1[j] == rest[j] == pq0[j0];
        assert PairLe(le, pq0[k], pq0[j0]);
        if m < |merged0| {
          assert merged1[m] == merged0[m];
          assert le(merged0[m], pq0[j0].rec);
        }
      } else {
        assert it0[r] != [] && pq1[j] == Entry(it0[r][0], r);
        assert le(least.rec, it0[r][0]);
        if m < |merged0| {
          assert merged1[m] == merged0[m];
          assert le(merged0[m], least.rec);
        }
      }
    }
  }

  /** After the step, every queued record still precedes the unread records of its run. */
  lemma QueuePrecedesUnread(le: Comparator, it0: seq<seq<Record>>, pq0: seq<Entry>, k: nat,
                            it1: seq<seq<Record>>, pq1: seq<Entry>)
    requires TotalPreorder(le)
    requires AllSorted(le, it0)
    requires forall j, m :: 0 <= j < |pq0| && pq0[j].run < |it0| && 0 <= m < |it0[pq0[j].run]| ==>
               le(pq0[j].rec, it0[pq0[j].run][m])
    requires MergeStep(it0, pq0, k, it1, pq1)
    ensures forall j, m :: 0 <= j < |pq1| && pq1[j].run < |it1| && 0 <= m < |it1[pq1[j].run]| ==>
              le(pq1[j].rec, it1[pq1[j].run][m])
  {
    var r := pq0[k].run;
    var rest := pq0[..k] + pq0[k + 1..];
    forall j, m | 0 <= j < |pq1| && pq1[j].run < |it1| && 0 <= m < |it1[pq1[j].run]|
      ensures le(pq1[j].rec, it1[pq1[j].run][m])
    {
      var e := pq1[j];
      if j < |rest| {
        var j0 := if j < k then j else j + 1;
        assert e == rest[j] == pq0[j0];
        if e.run == r && it0[r] != [] {
          assert it1[r][m] == it0[r][m + 1];
        } else {
          assert it1[e.run] == it0[e.run];
        }
      } else {
        assert it0[r] != [] && e == Entry(it0[r][0], r);
        assert it1[r][m] == it0[r][m + 1];
        assert Sorted(le, it0[r]);
      }
    }
  }

  // ---------------------------------------------------------------------------
  // mergePass: merging consecutive groups of numBuffers - 1 runs
  // ---------------------------------------------------------------------------

  /** The j-th group of `g` consecutive runs (the last group may be shorter). */
  function Group(runs: seq<seq<Record>>, g: nat, j: nat): (group: seq<seq<Record>>)
    requires g > 0
    ensures |group| <= g
  {
    var lo := Min(Multiple(j, g), |runs|);
    runs[lo..Min(lo + g, |runs|)]
  }

  /** Inside mergePass's loop, index `i` closes the current group exactly when it is `g` past the group's start. */
  lemma GroupBoundary(i: nat, start: nat, k: nat, g: nat)
    requires g > 0 && start == Multiple(k, g)
    requires (i == 0 && start == 0) || start < i <= start + g
    ensures (i % g == 0 && i != 0) <==> i == start + g
    ensures i != start + g ==> start < i + 1 <= start + g
  {
    if i != 0 {
      if i - start < g {
        DivModMultiple(i, g, k, i - start);
      } else {
        DivModMultiple(i, g, k + 1, 0);
      }
    }
  }

  /** After mergePass's loop: the number of groups, and when the last group is a single run. */
  lemma PassTail(n: nat, start: nat, k: nat, numBuffers: nat)
    requires numBuffers >= 2 && start == Multiple(k, numBuffers - 1)
    requires start < n <= start + (numBuffers - 1)
    ensures (n + numBuffers - 2) / (numBuffers - 1) == k + 1
    ensures (n - 1) % (numBuffers - 1) == 0 <==> start == n - 1
  {
    var g := numBuffers - 1;
    DivModMultiple(n - 1, g, k, n - 1 - start);
    DivModMultiple(n + numBuffers - 2, g, k + 1, n - 1 - start);
  }

  /** What mergePass has produced once the runs before `start` are merged, group by group. */
  ghost predicate PassSoFar(le: Comparator, runs: seq<seq<Record>>, g: nat, merged: seq<seq<Record>>, start: nat) {
    && g > 0 && start <= |runs|
    && (forall j :: 0 <= j < |merged| ==> multiset(merged[j]) == multiset(Concat(Group(runs, g, j))))
    && (AllSorted(le, runs) ==> AllSorted(le, merged))
    && multiset(Concat(merged)) == multiset(Concat(runs[..start]))
  }

  /** Appending the merge of the runs from `start` to `stop`, which form group |merged|, keeps PassSoFar. */
  lemma PassStep(le: Comparator, runs: seq<seq<Record>>, g: nat, merged: seq<seq<Record>>, start: nat, stop: nat,
                 m: seq<Record>)
    requires PassSoFar(le, runs, g, merged, start)
    requires start == Multiple(|merged|, g) && start <= stop <= |runs|
    requires stop == start + g || stop == |runs| <= start + g
    requires multiset(m) == multiset(Concat(runs[start..stop]))
    requires AllSorted(le, runs[start..stop]) ==> Sorted(le, m)
    ensures PassSoFar(le, runs, g, merged + [m], stop)
  {
    PassStepGroups(runs, g, merged, start, stop, m);
    PassStepConcat(runs, merged, start, stop, m);
    if AllSorted(le, runs) {
      PassStepSorted(le, runs, merged, start, stop, m);
    }
  }

  lemma PassStepGroups(runs: seq<seq<Record>>, g: nat, merged: seq<seq<Record>>, start: nat, stop: nat, m: seq<Record>)
    requires g > 0 && start == Multiple(|merged|, g) && start <= stop <= |runs|
    requires stop == start + g || stop == |runs| <= start + g
    requires forall j :: 0 <= j < |merged| ==> multiset(merged[j]) == multiset(Concat(Group(runs, g, j)))
    requires multiset(m) == multiset(Concat(runs[start..stop]))
    ensures forall j :: 0 <= j < |merged| + 1 ==> multiset((merged + [m])[j]) == multiset(Concat(Group(runs, g, j)))
  {
    assert Group(runs, g, |merged|) == runs[start..stop];
    forall j | 0 <= j < |merged| + 1
      ensures multiset((merged + [m])[j]) == multiset(Concat(Group(runs, g, j)))
    {
      if j < |merged| {
        assert (merged + [m])[j] == merged[j];
      }
    }
  }

  lemma PassStepSorted(le: Comparator, runs: seq<seq<Record>>, merged: seq<seq<Record>>, start: nat, stop: nat,
                       m: seq<Record>)
    requires start <= stop <= |runs|
    requires AllSorted(le, runs) && AllSorted(le, merged)
    requires AllSorted(le, runs[start..stop]) ==> Sorted(le, m)
    ensures AllSorted(le, merged + [m])
  {
    forall k | 0 <= k < stop - start ensures Sorted(le, runs[start..stop][k]) {
      assert runs[start..stop][k] == runs[start + k];
    }
    forall k | 0 <= k < |merged| + 1 ensures Sorted(le, (merged + [m])[k]) {
      if k < |merged| {
        assert (merged + [m])[k] == merged[k];
      }
    }
  }

  lemma PassStepConcat(runs: seq<seq<Record>>, merged: seq<seq<Record>>, start: nat, stop: nat, m: seq<Record>)
    requires start <= stop <= |runs|
    requires multiset(Concat(merged)) == multiset(Concat(runs[..start]))
    requires multiset(m) == multiset(Concat(runs[start..stop]))
    ensures multiset(Concat(merged + [m])) == multiset(Concat(runs[..stop]))
  {
    ConcatAppend(merged, m);
    ConcatSplit(runs[..stop], start);
    assert runs[..stop][..start] == runs[..start];
    assert runs[..stop][start..] == runs[start..stop];
  }

  /** The invariant of mergePass's loop at index i: groups before `start` are merged, runs start..i are pending. */
  ghost predicate FullGroupsLoop(le: Comparator, runs: seq<seq<Record>>, g: nat, i: nat, merged: seq<seq<Record>>,
                                 start: nat) {
    && g > 0
    && start == Multiple(|merged|, g)
    && ((i == 0 && start == 0) || start < i <= start + g)
    && PassSoFar(le, runs, g, merged, start)
  }

  /** At index i < |runs| the modulo test fires exactly at a group boundary; otherwise i + 1 is still pending. */
  lemma PendingStep(le: Comparator, runs: seq<seq<Record>>, g: nat, i: nat, merged: seq<seq<Record>>, start: nat)
    requires FullGroupsLoop(le, runs, g, i, merged, start)
    ensures (i % g == 0 && i != 0) <==> i == start + g
    ensures i != start + g ==> FullGroupsLoop(le, runs, g, i + 1, merged, start)
  {
    GroupBoundary(i, start, |merged|, g);
  }

  /** Merging the full group start..i and starting the next group at i keeps the invariant. */
  lemma MergedStep(le: Comparator, runs: seq<seq<Record>>, g: nat, i: nat, merged: seq<seq<Record>>, start: nat,
                   m: seq<Record>)
    requires FullGroupsLoop(le, runs, g, i, merged, start)
    requires i == start + g && i < |runs|
    requires multiset(m) == multiset(Concat(runs[start..i]))
    requires AllSorted(le, runs[start..i]) ==> Sorted(le, m)
    ensures FullGroupsLoop(le, runs, g, i + 1, merged + [m], i)
  {
    PassStep(le, runs, g, merged, start, i, m);
  }

  /**
   * mergePass reaches a run without records in a group it merges: every run
   * is merged except a lone last run, which is passed through.
   */
  predicate MergesEmptyRun(runs: seq<seq<Record>>, g: nat)
    requires g > 0
  {
    exists k :: 0 <= k < |runs| && runs[k] == [] && !(k == |runs| - 1 && k % g == 0)
  }

  /** A run without records in a complete group, which ends before the last run, is merged. */
  lemma GroupHoldsEmptyRun(runs: seq<seq<Record>>, g: nat, start: nat, i: nat)
    requires g > 0 && start <= i < |runs|
    requires exists k :: 0 <= k < |runs[start..i]| && runs[start..i][k] == []
    ensures MergesEmptyRun(runs, g)
  {
    var k :| 0 <= k < |runs[start..i]| && runs[start..i][k] == [];
    assert runs[start + k] == [] && start + k < |runs| - 1;
  }

  lemma GroupHoldsNoEmptyRun(runs: seq<seq<Record>>, start: nat, i: nat)
    requires start <= i <= |runs|
    requires forall k :: 0 <= k < |runs[start..i]| ==> runs[start..i][k] != []
    ensures forall k :: start <= k < i ==> runs[k] != []
  {
    forall k | start <= k < i
      ensures runs[k] != []
    {
      assert runs[k] == runs[start..i][k - start];
    }
  }

  /** mergePass's loop: merges each complete group of `g` runs, stopping before the last, possibly partial, group. */
  method MergeFullGroups(le: Comparator, g: nat, runs: seq<seq<Record>>)
    returns (ok: bool, merged: seq<seq<Record>>, start: nat)
    requires TotalPreorder(le)
    requires g >= 1
    ensures ok ==> FullGroupsLoop(le, runs, g, |runs|, merged, start)
    ensures ok ==> forall k :: 0 <= k < start ==> runs[k] != []
    ensures !ok ==> MergesEmptyRun(runs, g)
    ensures !ok ==> start == Multiple(|merged|, g) && start + g < |runs| &&
                    exists k :: start <= k < start + g && runs[k] == []
  {
    merged := [];
    start := 0;
    assert runs[..0] == [];
    for i := 0 to |runs|
      invariant FullGroupsLoop(le, runs, g, i, merged, start)
      invariant forall k :: 0 <= k < start ==> runs[k] != []
    {
      PendingStep(le, runs, g, i, merged, start);
      var div := i % g;
      if div == 0 && i != 0 {
        var m;
        ghost var peak;
        m, peak := MergeSortedRuns(le, runs[start..i]);
        if m.Err? {
          GroupHoldsEmptyRun(runs, g, start, i);
          assert i == start + g;
          ghost var k :| 0 <= k < |runs[start..i]| && runs[start..i][k] == [];
          assert runs[start + k] == [];
          return false, merged, start;
        }
        GroupHoldsNoEmptyRun(runs, start, i);
        MergedStep(le, runs, g, i, merged, start, m.value);
        merged := merged + [m.value];
        start := i;
      }
    }
    ok := true;
  }

  /**
   * mergePass: merges runs numBuffers - 1 at a time; a final group of a
   * single run is passed through unmerged. Fails when a merged group holds
   * a run without records.
   */
  method MergePass(le: Comparator, numBuffers: nat, runs: seq<seq<Record>>) returns (r: Result<seq<seq<Record>>, SortError>)
    requires TotalPreorder(le)
    requires numBuffers >= 2
    ensures r.Err? <==> MergesEmptyRun(runs, numBuffers - 1)
    ensures r.Err? ==> r.error == EmptyRunMerged
    ensures r.Ok? && |runs| == 0 ==> |r.value| == 1
    ensures r.Ok? && |runs| > 0 ==> |r.value| == (|runs| + numBuffers - 2) / (numBuffers - 1)
    ensures r.Ok? ==> forall j :: 0 <= j < |r.value| ==>
              multiset(r.value[j]) == multiset(Concat(Group(runs, numBuffers - 1, j)))
    ensures r.Ok? ==> multiset(Concat(r.value)) == multiset(Concat(runs))
    ensures r.Ok? && AllSorted(le, runs) ==> AllSorted(le, r.value)
    ensures r.Ok? && |runs| > 0 && (|runs| - 1) % (numBuffers - 1) == 0 ==> r.value[|r.value| - 1] == runs[|runs| - 1]
  {
    var ok, merged, start := MergeFullGroups(le, numBuffers - 1, runs);
    if !ok {
      return Err(EmptyRunMerged);
    }
    var last := MergeLastGroup(le, runs, start);
    MergedEmptyRun(runs, numBuffers, |merged|, start);
    if last.Err? {
      return Err(EmptyRunMerged);
    }
    PassDone(le, numBuffers, runs, merged, start, last.value);
    PassDoneCount(numBuffers, runs, merged, start, last.value);
    r := Ok(merged + [last.value]);
  }

  /** mergePass's tail: a single remaining run is passed through, anything else is merged. */
  method MergeLastGroup(le: Comparator, runs: seq<seq<Record>>, start: nat) returns (r: Result<seq<Record>, SortError>)
    requires TotalPreorder(le)
    requires start <= |runs|
    ensures r.Err? <==> start != |runs| - 1 && exists k :: start <= k < |runs| && runs[k] == []
    ensures r.Ok? ==> multiset(r.value) == multiset(Concat(runs[start..]))
    ensures r.Ok? && AllSorted(le, runs[start..]) ==> Sorted(le, r.value)
    ensures r.Ok? && start == |runs| - 1 ==> r.value == runs[start]
  {
    if start == |runs| - 1 {
      assert runs[start..] == [runs[start]];
      ConcatSingle(runs[start]);
      r := Ok(runs[start]);
    } else {
      ghost var peak;
      r, peak := MergeSortedRuns(le, runs[start..]);
      if r.Err? {
        ghost var k :| 0 <= k < |runs| - start && runs[start..][k] == [];
        assert runs[start + k] == [];
      } else {
        forall k | start <= k < |runs|
          ensures runs[k] != []
        {
          assert runs[k] == runs[start..][k - start];
        }
      }
    }
  }

  /** Past the full groups, an empty run is merged exactly when it is not a lone last run. */
  lemma MergedEmptyRun(runs: seq<seq<Record>>, numBuffers: nat, groups: nat, start: nat)
    requires numBuffers >= 2 && start == Multiple(groups, numBuffers - 1)
    requires (|runs| == 0 && start == 0) || start < |runs| <= start + (numBuffers - 1)
    requires forall k :: 0 <= k < start ==> runs[k] != []
    ensures MergesEmptyRun(runs, numBuffers - 1) <==>
              start != |runs| - 1 && exists k :: start <= k < |runs| && runs[k] == []
  {
    if |runs| > 0 {
      PassTail(|runs|, start, groups, numBuffers);
    }
  }

  /** The groups merged by the loop and the tail's run hold mergePass's records, group by group. */
  lemma PassDone(le: Comparator, numBuffers: nat, runs: seq<seq<Record>>, merged: seq<seq<Record>>, start: nat,
                 last: seq<Record>)
    requires numBuffers >= 2
    requires start == Multiple(|merged|, numBuffers - 1)
    requires (|runs| == 0 && start == 0) || start < |runs| <= start + (numBuffers - 1)
    requires PassSoFar(le, runs, numBuffers - 1, merged, start)
    requires multiset(last) == multiset(Concat(runs[start..]))
    requires AllSorted(le, runs[start..]) ==> Sorted(le, last)
    ensures forall j :: 0 <= j < |merged + [last]| ==>
              multiset((merged + [last])[j]) == multiset(Concat(Group(runs, numBuffers - 1, j)))
    ensures multiset(Concat(merged + [last])) == multiset(Concat(runs))
    ensures AllSorted(le, runs) ==> AllSorted(le, merged + [last])
  {
    var n, g := |runs|, numBuffers - 1;
    assert runs[start..n] == runs[start..];
    assert n == start + g || n <= start + g;
    PassStep(le, runs, g, merged, start, n, last);
    assert runs[..n] == runs;
    assert PassSoFar(le, runs, g, merged + [last], n);
  }

  /** The number of runs mergePass returns, and when its last run is passed through. */
  lemma PassDoneCount(numBuffers: nat, runs: seq<seq<Record>>, merged: seq<seq<Record>>, start: nat,
                      last: seq<Record>)
    requires numBuffers >= 2 && start == Multiple(|merged|, numBuffers - 1)
    requires (|runs| == 0 && start == 0) || start < |runs| <= start + (numBuffers - 1)
    requires start == |runs| - 1 ==> last == runs[start]
    ensures |runs| == 0 ==> |merged + [last]| == 1
    ensures |runs| > 0 ==> |merged + [last]| == (|runs| + numBuffers - 2) / (numBuffers - 1)
    ensures |runs| > 0 && (|runs| - 1) % (numBuffers - 1) == 0 ==>
              (merged + [last])[|merged + [last]| - 1] == runs[|runs| - 1]
  {
    if |runs| > 0 {
      PassTail(|runs|, start, |merged|, numBuffers);
    }
  }

  // ---------------------------------------------------------------------------
  // sort: run generation (pass 0) and one merge pass
  // ---------------------------------------------------------------------------

  /** How many pages the run after `flushed` earlier runs collects: numBuffers - 1 for the first, numBuffers - 2 after. */
  function Cap(g: nat, flushed: nat): nat
    requires g >= 1
  {
    if flushed == 0 then g else g - 1
  }

  /** Pass 0's grouping of pages: `cap` pages for the first run, `later` for each further run. */
  function Pass0Groups(pages: seq<Page>, cap: nat, later: nat): (groups: seq<seq<Page>>)
    requires cap > 0 && later > 0
    ensures |groups| >= 1
    decreases |pages|
  {
    if |pages| <= cap then [pages]
    else [pages[..cap]] + Pass0Groups(pages[cap..], later, later)
  }

  /**
   * The (unsorted) contents of the runs pass 0 creates: one run per page
   * group, flushed whether or not it holds a record, except the last group,
   * which is flushed after the loop only when it holds one.
   */
  function Pass0Runs(pages: seq<Page>, numBuffers: nat): seq<seq<Record>>
    requires numBuffers >= 3
  {
    var all := Flatten(Pass0Groups(pages, numBuffers - 1, numBuffers - 2));
    if all[|all| - 1] == [] then all[..|all| - 1] else all
  }

  /** Pass 0 covers every page once and in order; the first group takes up to `cap` pages, the others 1 to `later`. */
  lemma {:induction false} Pass0GroupsShape(pages: seq<Page>, cap: nat, later: nat)
    requires cap > 0 && later > 0
    ensures Concat(Pass0Groups(pages, cap, later)) == pages
    ensures |Pass0Groups(pages, cap, later)[0]| == Min(|pages|, cap)
    ensures forall j :: 1 <= j < |Pass0Groups(pages, cap, later)| ==>
              1 <= |Pass0Groups(pages, cap, later)[j]| <= later
    decreases |pages|
  {
    var groups := Pass0Groups(pages, cap, later);
    if |pages| <= cap {
      ConcatSingle(pages);
    } else {
      var tail := Pass0Groups(pages[cap..], later, later);
      Pass0GroupsShape(pages[cap..], later, later);
      assert groups == [pages[..cap]] + tail;
      assert groups[1..] == tail;
      assert pages == pages[..cap] + pages[cap..];
      forall j | 1 <= j < |groups|
        ensures 1 <= |groups[j]| <= later
      {
        assert groups[j] == tail[j - 1];
        if j - 1 == 0 {
          assert |tail[0]| == Min(|pages[cap..]|, later);
        }
      }
    }
  }

  /** Every record of the table lands in exactly one pass-0 run. */
  lemma Pass0RunsCover(pages: seq<Page>, numBuffers: nat)
    requires numBuffers >= 3
    ensures Concat(Pass0Runs(pages, numBuffers)) == Concat(pages)
  {
    var groups := Pass0Groups(pages, numBuffers - 1, numBuffers - 2);
    var all := Flatten(groups);
    ConcatFlatten(groups);
    Pass0GroupsShape(pages, numBuffers - 1, numBuffers - 2);
    if all[|all| - 1] == [] {
      assert all == all[..|all| - 1] + [[]];
      ConcatAppend(all[..|all| - 1], []);
    }
  }

  /** A table of at most numBuffers - 1 pages gives a single run. */
  lemma Pass0SingleRun(pages: seq<Page>, numBuffers: nat)
    requires numBuffers >= 3 && |pages| <= numBuffers - 1
    ensures Pass0Runs(pages, numBuffers) == if Concat(pages) == [] then [] else [Concat(pages)]
  {
    assert Pass0Groups(pages, numBuffers - 1, numBuffers - 2) == [pages];
  }

  /**
   * Why sort() fails: the table holds no record, or a merge group holds a run
   * without records, on which mergeSortedRuns's seeding next() throws.
   */
  datatype SortError = EmptyRelation | EmptyRunMerged

  /** What sort() promises as written: its result is sorted and holds the records of the first numBuffers - 1 runs. */
  ghost predicate SortOutcome(le: Comparator, numBuffers: nat, pages: seq<Page>, out: seq<Record>)
    requires numBuffers >= 3
  {
    && Sorted(le, out)
    && multiset(out) == multiset(Concat(Group(Pass0Runs(pages, numBuffers), numBuffers - 1, 0)))
  }

  /** The page-marker test of the pass-0 loop fires exactly when the run being filled has its quota of pages. */
  lemma FlushCondition(marker: int, g: nat, flushed: nat, cur: nat)
    requires g >= 2 && cur <= Cap(g, flushed)
    requires marker == if flushed == 0 then cur else Multiple(flushed, g) + 1 + cur
    ensures (marker % g == 0 && marker != 0) <==> cur == Cap(g, flushed)
  {
    if flushed == 0 {
      if 0 < cur < g {
        DivModMultiple(cur, g, 0, cur);
      } else if cur == g {
        DivModMultiple(cur, g, 1, 0);
      }
    } else if cur + 1 < g {
      DivModMultiple(marker, g, flushed, cur + 1);
    } else {
      DivModMultiple(marker, g, flushed + 1, 0);
    }
  }

  /** Pass 0 so far: `done` are the page groups of the runs already sorted, and the rest starts at page `gs`. */
  ghost predicate Pass0SoFar(le: Comparator, pages: seq<Page>, g: nat, gs: nat, done: seq<seq<Page>>,
                             sortedRuns: seq<seq<Record>>)
    requires g >= 2 && gs <= |pages|
  {
    && |done| == |sortedRuns|
    && Pass0Groups(pages, g, g - 1) == done + Pass0Groups(pages[gs..], Cap(g, |done|), g - 1)
    && forall j :: 0 <= j < |sortedRuns| ==>
         Sorted(le, sortedRuns[j]) && multiset(sortedRuns[j]) == multiset(Concat(done[j]))
  }

  /** The invariant of sort's pass-0 loop: pages gs..p are collected in tempRun, and `marker` counts ticks. */
  ghost predicate Pass0Loop(le: Comparator, pages: seq<Page>, g: nat, p: nat, gs: nat, marker: int,
                            tempRun: seq<Record>, done: seq<seq<Page>>, sortedRuns: seq<seq<Record>>) {
    && g >= 2 && gs <= p <= |pages|
    && p - gs <= Cap(g, |done|)
    && marker == (if |done| == 0 then p - gs else Multiple(|done|, g) + 1 + (p - gs))
    && (p == gs ==> p < |pages|)
    && tempRun == Concat(pages[gs..p])
    && Pass0SoFar(le, pages, g, gs, done, sortedRuns)
  }

  lemma Pass0Start(le: Comparator, pages: seq<Page>, g: nat)
    requires g >= 2 && Concat(pages) != []
    ensures Pass0Loop(le, pages, g, 0, 0, 0, [], [], [])
  {
    assert pages[0..] == pages;
    assert pages[0..0] == [];
  }

  /** Reading the page at p into the run being collected keeps the invariant. */
  lemma ReadStep(le: Comparator, pages: seq<Page>, g: nat, p: nat, gs: nat, marker: int, tempRun: seq<Record>,
                 done: seq<seq<Page>>, sortedRuns: seq<seq<Record>>)
    requires Pass0Loop(le, pages, g, p, gs, marker, tempRun, done, sortedRuns)
    requires p < |pages| && p - gs < Cap(g, |done|)
    ensures Pass0Loop(le, pages, g, p + 1, gs, marker + 1, tempRun + pages[p], done, sortedRuns)
  {
    assert pages[gs..p + 1] == pages[gs..p] + [pages[p]];
    ConcatAppend(pages[gs..p], pages[p]);
  }

  /** Flushing a full run of pages gs..p (more pages follow) keeps the invariant. */
  lemma FlushStep(le: Comparator, pages: seq<Page>, g: nat, p: nat, gs: nat, marker: int, tempRun: seq<Record>,
                  done: seq<seq<Page>>, sortedRuns: seq<seq<Record>>, run: seq<Record>)
    requires Pass0Loop(le, pages, g, p, gs, marker, tempRun, done, sortedRuns)
    requires p < |pages| && p - gs == Cap(g, |done|)
    requires Sorted(le, run) && multiset(run) == multiset(tempRun)
    ensures Pass0Loop(le, pages, g, p, p, marker + 1, [], done + [pages[gs..p]], sortedRuns + [run])
  {
    var cap := Cap(g, |done|);
    assert pages[gs..][..cap] == pages[gs..p];
    assert pages[gs..][cap..] == pages[p..];
    assert Pass0Groups(pages[gs..], cap, g - 1) == [pages[gs..p]] + Pass0Groups(pages[p..], g - 1, g - 1);
    var done1, runs1 := done + [pages[gs..p]], sortedRuns + [run];
    forall j | 0 <= j < |runs1|
      ensures Sorted(le, runs1[j]) && multiset(runs1[j]) == multiset(Concat(done1[j]))
    {
      if j < |sortedRuns| {
        assert runs1[j] == sortedRuns[j] && done1[j] == done[j];
      }
    }
    assert pages[p..p] == [];
  }

  /** Flushing the records left when the loop ends completes the pass-0 runs. */
  lemma FinalFlush(le: Comparator, pages: seq<Page>, g: nat, gs: nat, marker: int, tempRun: seq<Record>,
                   done: seq<seq<Page>>, sortedRuns: seq<seq<Record>>, run: seq<Record>)
    requires Pass0Loop(le, pages, g, |pages|, gs, marker, tempRun, done, sortedRuns)
    requires tempRun != []
    requires Sorted(le, run) && multiset(run) == multiset(tempRun)
    ensures |sortedRuns + [run]| == |Pass0Runs(pages, g + 1)|
    ensures forall j :: 0 <= j < |sortedRuns + [run]| ==>
              Sorted(le, (sortedRuns + [run])[j]) &&
              multiset((sortedRuns + [run])[j]) == multiset(Pass0Runs(pages, g + 1)[j])
  {
    var done1, runs1 := done + [pages[gs..]], sortedRuns + [run];
    assert pages[gs..|pages|] == pages[gs..];
    assert Pass0Groups(pages, g, g - 1) == done1;
    var all := Flatten(done1);
    assert all[|all| - 1] == tempRun;
    assert Pass0Runs(pages, g + 1) == all;
    forall j | 0 <= j < |runs1|
      ensures Sorted(le, runs1[j]) && multiset(runs1[j]) == multiset(Pass0Runs(pages, g + 1)[j])
    {
      assert all[j] == Concat(done1[j]);
      if j < |sortedRuns| {
        assert runs1[j] == sortedRuns[j] && done1[j] == done[j];
      }
    }
  }

  /** When the loop ends with no record collected, no final run is flushed and the pass-0 runs are complete. */
  lemma FinalSkip(le: Comparator, pages: seq<Page>, g: nat, gs: nat, marker: int, tempRun: seq<Record>,
                  done: seq<seq<Page>>, sortedRuns: seq<seq<Record>>)
    requires Pass0Loop(le, pages, g, |pages|, gs, marker, tempRun, done, sortedRuns)
    requires tempRun == []
    ensures |sortedRuns| == |Pass0Runs(pages, g + 1)|
    ensures forall j :: 0 <= j < |sortedRuns| ==>
              Sorted(le, sortedRuns[j]) && multiset(sortedRuns[j]) == multiset(Pass0Runs(pages, g + 1)[j])
  {
    var done1 := done + [pages[gs..]];
    assert pages[gs..|pages|] == pages[gs..];
    assert Pass0Groups(pages, g, g - 1) == done1;
    var all := Flatten(done1);
    assert all[|all| - 1] == [];
    assert Pass0Runs(pages, g + 1) == all[..|done|];
    forall j | 0 <= j < |sortedRuns|
      ensures Sorted(le, sortedRuns[j]) && multiset(sortedRuns[j]) == multiset(Pass0Runs(pages, g + 1)[j])
    {
      assert all[j] == Concat(done1[j]) && done1[j] == done[j];
    }
  }

  /** Appends every record of one page to the run being collected, in page order. */
  method AddPageRecords(tempRun: seq<Record>, page: Page) returns (collected: seq<Record>)
    ensures collected == tempRun + page
  {
    collected := tempRun;
    var k := 0;
    while k < |page|
      invariant 0 <= k <= |page|
      invariant collected == tempRun + page[..k]
    {
      collected := collected + [page[k]];
      k := k + 1;
    }
    assert page[..k] == page;
  }

  /**
   * sort's pass 0: a page marker ticks once per page read and once per flush;
   * whenever it is a non-zero multiple of g the records collected so far
   * become a sorted run, and the records left at the end become the last run.
   */
  method CreateRuns(le: Comparator, g: nat, pages: seq<Page>) returns (sortedRuns: seq<seq<Record>>)
    requires TotalPreorder(le)
    requires g >= 2
    requires Concat(pages) != []
    ensures |sortedRuns| == |Pass0Runs(pages, g + 1)|
    ensures forall j :: 0 <= j < |sortedRuns| ==>
              Sorted(le, sortedRuns[j]) &&
              multiset(sortedRuns[j]) == multiset(Pass0Runs(pages, g + 1)[j])
  {
    var marker := 0;
    var tempRun: seq<Record> := [];
    sortedRuns := [];
    var p := 0;
    ghost var gs := 0;
    ghost var done: seq<seq<Page>> := [];
    Pass0Start(le, pages, g);
    while p < |pages|
      invariant Pass0Loop(le, pages, g, p, gs, marker, tempRun, done, sortedRuns)
      decreases |pages| - p, if p - gs == Cap(g, |done|) then 1 else 0
    {
      FlushCondition(marker, g, |done|, p - gs);
      var div := marker % g;
      if div == 0 && marker != 0 {
        var run := SortRun(le, tempRun);
        FlushStep(le, pages, g, p, gs, marker, tempRun, done, sortedRuns, run);
        sortedRuns := sortedRuns + [run];
        done := done + [pages[gs..p]];
        tempRun := [];
        gs := p;
        marker := marker + 1;
      } else {
        ReadStep(le, pages, g, p, gs, marker, tempRun, done, sortedRuns);
        tempRun := AddPageRecords(tempRun, pages[p]);
        p := p + 1;
        marker := marker + 1;
      }
    }
    if tempRun != [] {
      var run := SortRun(le, tempRun);
      FinalFlush(le, pages, g, gs, marker, tempRun, done, sortedRuns, run);
      sortedRuns := sortedRuns + [run];
    } else {
      FinalSkip(le, pages, g, gs, marker, tempRun, done, sortedRuns);
    }
  }

  /**
   * sort: fails on an empty table; otherwise creates the pass-0 runs,
   * performs ONE merge pass and returns its first run. The pass fails when
   * a group it merges holds a run without records.
   */
  method Sort(le: Comparator, numBuffers: nat, pages: seq<Page>) returns (r: Result<seq<Record>, SortError>)
    requires TotalPreorder(le)
    requires numBuffers >= 3
    ensures r == Err(EmptyRelation) <==> Concat(pages) == []
    ensures r == Err(EmptyRunMerged) <==>
              Concat(pages) != [] && MergesEmptyRun(Pass0Runs(pages, numBuffers), numBuffers - 1)
    ensures r.Ok? ==> SortOutcome(le, numBuffers, pages, r.value)
    ensures r.Ok? && |Pass0Runs(pages, numBuffers)| <= numBuffers - 1 ==>
              multiset(r.value) == multiset(Concat(pages))
  {
    if Concat(pages) == [] {
      return Err(EmptyRelation);
    }
    var g := numBuffers - 1;
    var sortedRuns := CreateRuns(le, g, pages);
    SameEmptyRuns(sortedRuns, Pass0Runs(pages, numBuffers), g);
    var singleRun := MergePass(le, numBuffers, sortedRuns);
    if singleRun.Err? {
      return Err(singleRun.error);
    }
    var finalRun := singleRun.value[0];
    FirstRunOutcome(le, numBuffers, pages, sortedRuns, singleRun.value);
    r := Ok(finalRun);
  }

  /** Runs holding the same records pairwise are empty at the same places, so a merge pass fails on both or neither. */
  lemma SameEmptyRuns(a: seq<seq<Record>>, b: seq<seq<Record>>, g: nat)
    requires g > 0 && |a| == |b|
    requires forall j :: 0 <= j < |a| ==> multiset(a[j]) == multiset(b[j])
    ensures MergesEmptyRun(a, g) <==> MergesEmptyRun(b, g)
  {
    forall k | 0 <= k < |a|
      ensures a[k] == [] <==> b[k] == []
    {
      assert |multiset(a[k])| == |a[k]| && |multiset(b[k])| == |b[k]|;
    }
  }

  /** The first run of the merge pass over the pass-0 runs is what sort() returns. */
  lemma FirstRunOutcome(le: Comparator, numBuffers: nat, pages: seq<Page>, sortedRuns: seq<seq<Record>>,
                        singleRun: seq<seq<Record>>)
    requires numBuffers >= 3
    requires |sortedRuns| == |Pass0Runs(pages, numBuffers)|
    requires forall j :: 0 <= j < |sortedRuns| ==>
               Sorted(le, sortedRuns[j]) && multiset(sortedRuns[j]) == multiset(Pass0Runs(pages, numBuffers)[j])
    requires |singleRun| > 0
    requires multiset(singleRun[0]) == multiset(Concat(Group(sortedRuns, numBuffers - 1, 0)))
    requires AllSorted(le, sortedRuns) ==> AllSorted(le, singleRun)
    ensures SortOutcome(le, numBuffers, pages, singleRun[0])
    ensures |Pass0Runs(pages, numBuffers)| <= numBuffers - 1 ==> multiset(singleRun[0]) == multiset(Concat(pages))
  {
    FirstGroupHolds(numBuffers, pages, sortedRuns);
    assert AllSorted(le, sortedRuns);
    assert Sorted(le, singleRun[0]);
  }

  /** Sorting the pass-0 runs one by one keeps the records of the first merge group, and of the table. */
  lemma FirstGroupHolds(numBuffers: nat, pages: seq<Page>, sortedRuns: seq<seq<Record>>)
    requires numBuffers >= 3
    requires |sortedRuns| == |Pass0Runs(pages, numBuffers)|
    requires forall j :: 0 <= j < |sortedRuns| ==> multiset(sortedRuns[j]) == multiset(Pass0Runs(pages, numBuffers)[j])
    ensures multiset(Concat(Group(sortedRuns, numBuffers - 1, 0)))
            == multiset(Concat(Group(Pass0Runs(pages, numBuffers), numBuffers - 1, 0)))
    ensures |Pass0Runs(pages, numBuffers)| <= numBuffers - 1 ==>
              multiset(Concat(Group(sortedRuns, numBuffers - 1, 0))) == multiset(Concat(pages))
  {
    var g := numBuffers - 1;
    var runs := Pass0Runs(pages, numBuffers);
    var first := Group(runs, g, 0);
    assert Group(sortedRuns, g, 0) == sortedRuns[..Min(g, |runs|)];
    assert first == runs[..Min(g, |runs|)];
    ConcatPermutation(Group(sortedRuns, g, 0), first);
    if |runs| <= g {
      assert first == runs;
      Pass0RunsCover(pages, numBuffers);
    }
  }

  // ---------------------------------------------------------------------------
  // The sort as documented: merge passes until a single run remains
  // ---------------------------------------------------------------------------

  /** A merge pass over two or more runs leaves fewer runs, and at least one. */
  lemma MergePassShrinks(n: nat, numBuffers: nat)
    requires n >= 2 && numBuffers >= 3
    ensures 1 <= (n + numBuffers - 2) / (numBuffers - 1) < n
  {
    var g := numBuffers - 1;
    var q := (n + g - 1) / g;
    DivAsMultiple(n + g - 1, g);
    MultipleAtLeastDouble(n - 1, g);
    assert Multiple(n, g) == Multiple(n - 1, g) + g;
    if q >= n {
      MultipleMonotonic(n, q, g);
      assert false;
    }
  }

  /** Every run of a merge pass over non-empty runs is non-empty: each merges a non-empty group. */
  lemma PassRunsNonEmpty(runs: seq<seq<Record>>, numBuffers: nat, merged: seq<seq<Record>>)
    requires numBuffers >= 3 && |runs| > 0
    requires forall k :: 0 <= k < |runs| ==> runs[k] != []
    requires |merged| == (|runs| + numBuffers - 2) / (numBuffers - 1)
    requires forall j :: 0 <= j < |merged| ==> multiset(merged[j]) == multiset(Concat(Group(runs, numBuffers - 1, j)))
    ensures forall j :: 0 <= j < |merged| ==> merged[j] != []
  {
    var g, n := numBuffers - 1, |runs|;
    var q := (n + g - 1) / g;
    DivAsMultiple(n + g - 1, g);
    forall j | 0 <= j < |merged|
      ensures merged[j] != []
    {
      MultipleMonotonic(j, q - 1, g);
      assert Multiple(q, g) == Multiple(q - 1, g) + g;
      var lo := Multiple(j, g);
      assert lo < n;
      var group := Group(runs, g, j);
      assert group == runs[lo..Min(lo + g, n)];
      assert group[0] == runs[lo];
      assert Concat(group) == runs[lo] + Concat(group[1..]);
      assert runs[lo][0] in multiset(Concat(group));
    }
  }

  /** The runs that hold a record, in order. */
  function NonEmptyRuns(runs: seq<seq<Record>>): (kept: seq<seq<Record>>)
    ensures |kept| <= |runs|
    ensures forall k :: 0 <= k < |kept| ==> kept[k] != []
  {
    if runs == [] then []
    else if runs[0] == [] then NonEmptyRuns(runs[1..])
    else [runs[0]] + NonEmptyRuns(runs[1..])
  }

  /** Leaving out the runs without records keeps every record, in order, and keeps the runs sorted. */
  lemma {:induction false} NonEmptyRunsKeep(le: Comparator, runs: seq<seq<Record>>)
    ensures Concat(NonEmptyRuns(runs)) == Concat(runs)
    ensures AllSorted(le, runs) ==> AllSorted(le, NonEmptyRuns(runs))
  {
    if runs != [] {
      NonEmptyRunsKeep(le, runs[1..]);
      var rest := NonEmptyRuns(runs[1..]);
      if runs[0] != [] {
        assert ([runs[0]] + rest)[1..] == rest;
        if AllSorted(le, runs) {
          assert Sorted(le, runs[0]);
          forall k | 0 <= k < |rest| ensures Sorted(le, rest[k]) {
            assert AllSorted(le, runs[1..]);
          }
        }
      } else {
        assert AllSorted(le, runs) ==> AllSorted(le, runs[1..]);
      }
    }
  }

  /** The pass-0 runs that hold a record are sorted and together hold every record of a non-empty table. */
  lemma CreatedRunsCover(le: Comparator, numBuffers: nat, pages: seq<Page>, runs: seq<seq<Record>>)
    requires numBuffers >= 3 && Concat(pages) != []
    requires |runs| == |Pass0Runs(pages, numBuffers)|
    requires forall j :: 0 <= j < |runs| ==>
               Sorted(le, runs[j]) && multiset(runs[j]) == multiset(Pass0Runs(pages, numBuffers)[j])
    ensures MergeableRuns(le, NonEmptyRuns(runs), multiset(Concat(pages)))
  {
    ConcatPermutation(runs, Pass0Runs(pages, numBuffers));
    Pass0RunsCover(pages, numBuffers);
    NonEmptyRunsKeep(le, runs);
    assert |multiset(Concat(runs))| == |Concat(pages)| > 0;
    assert NonEmptyRuns(runs) != [];
  }

  /** Runs the documented merge loop may hold: at least one, each non-empty and sorted, holding `records` between them. */
  ghost predicate MergeableRuns(le: Comparator, runs: seq<seq<Record>>, records: multiset<Record>) {
    && |runs| >= 1 && (forall k :: 0 <= k < |runs| ==> runs[k] != [])
    && AllSorted(le, runs)
    && multiset(Concat(runs)) == records
  }

  /** A merge pass over two or more mergeable runs leaves fewer mergeable runs holding the same records. */
  lemma MergePassKeeps(le: Comparator, numBuffers: nat, runs: seq<seq<Record>>, merged: seq<seq<Record>>,
                       records: multiset<Record>)
    requires numBuffers >= 3 && |runs| >= 2 && MergeableRuns(le, runs, records)
    requires |merged| == (|runs| + numBuffers - 2) / (numBuffers - 1)
    requires forall j :: 0 <= j < |merged| ==> multiset(merged[j]) == multiset(Concat(Group(runs, numBuffers - 1, j)))
    requires multiset(Concat(merged)) == multiset(Concat(runs))
    requires AllSorted(le, runs) ==> AllSorted(le, merged)
    ensures |merged| < |runs| && MergeableRuns(le, merged, records)
  {
    MergePassShrinks(|runs|, numBuffers);
    assert 1 <= |merged| < |runs|;
    PassRunsNonEmpty(runs, numBuffers, merged);
    assert AllSorted(le, merged);
    assert multiset(Concat(merged)) == records;
  }

  /** The merge passes of the documented sort: merges pass after pass until a single run remains. */
  method MergeUntilOneRun(le: Comparator, numBuffers: nat, runs: seq<seq<Record>>) returns (run: seq<Record>)
    requires TotalPreorder(le)
    requires numBuffers >= 3
    requires MergeableRuns(le, runs, multiset(Concat(runs)))
    ensures Sorted(le, run) && multiset(run) == multiset(Concat(runs))
  {
    var current := runs;
    while |current| > 1
      invariant MergeableRuns(le, current, multiset(Concat(runs)))
      decreases |current|
    {
      var next := MergePass(le, numBuffers, current);
      assert next.Ok?;
      MergePassKeeps(le, numBuffers, current, next.value, multiset(Concat(runs)));
      current := next.value;
    }
    assert current == [current[0]];
    ConcatSingle(current[0]);
    run := current[0];
  }

  /**
   * The sort the operator documents: fails on an empty table; otherwise
   * creates the pass-0 runs, leaves out those without records, and merges
   * the rest until one run remains, which holds every record of the table
   * in order.
   */
  method SortAllRuns(le: Comparator, numBuffers: nat, pages: seq<Page>) returns (r: Result<seq<Record>, SortError>)
    requires TotalPreorder(le)
    requires numBuffers >= 3
    ensures r.Err? <==> Concat(pages) == []
    ensures r.Ok? ==> Sorted(le, r.value) && multiset(r.value) == multiset(Concat(pages))
  {
    if Concat(pages) == [] {
      return Err(EmptyRelation);
    }
    var runs := CreateRuns(le, numBuffers - 1, pages);
    CreatedRunsCover(le, numBuffers, pages, runs);
    var run := MergeUntilOneRun(le, numBuffers, NonEmptyRuns(runs));
    r := Ok(run);
  }

  /** A one-column record holding the integer n. */
  function IntRecord(n: int): (rec: Record)
    ensures rec.values == [IntValue(n)]
  {
    Record([IntValue(n)])
  }

  /** Pass 0 with three buffers turns four one-record pages into three runs: two pages, then one, then one. */
  lemma FourPagesThreeBuffers()
    ensures Pass0Runs([[IntRecord(1)], [IntRecord(2)], [IntRecord(3)], [IntRecord(4)]], 3)
            == [[IntRecord(1), IntRecord(2)], [IntRecord(3)], [IntRecord(4)]]
  {
    var a, b, c, d := IntRecord(1), IntRecord(2), IntRecord(3), IntRecord(4);
    var pages := [[a], [b], [c], [d]];
    assert pages[..2] == [[a], [b]] && pages[2..] == [[c], [d]];
    assert [[c], [d]][..1] == [[c]] && [[c], [d]][1..] == [[d]];
    assert Pass0Groups([[d]], 1, 1) == [[[d]]];
    assert Pass0Groups([[c], [d]], 1, 1) == [[[c]]] + Pass0Groups([[d]], 1, 1);
    assert Pass0Groups(pages, 2, 1) == [[[a], [b]], [[c]], [[d]]];
    assert Concat([[a], [b]]) == [a, b] by {
      ConcatSingle([b]);
    }
    ConcatSingle([c]);
    ConcatSingle([d]);
  }

  /** Four pages of one record each, holding 1, 2, 3 and 4. */
  function FourPages(): (pages: seq<Page>)
    ensures |pages| == 4 && NonEmptyPages(pages)
  {
    [[IntRecord(1)], [IntRecord(2)], [IntRecord(3)], [IntRecord(4)]]
  }

  /** With three buffers the first merge group of the four pages' runs holds records 1, 2 and 3 only. */
  lemma FourPagesFirstGroup()
    ensures |Pass0Runs(FourPages(), 3)| == 3
    ensures Concat(Group(Pass0Runs(FourPages(), 3), 2, 0)) == [IntRecord(1), IntRecord(2), IntRecord(3)]
    ensures Concat(FourPages()) == [IntRecord(1), IntRecord(2), IntRecord(3), IntRecord(4)]
  {
    var a, b, c, d := IntRecord(1), IntRecord(2), IntRecord(3), IntRecord(4);
    FourPagesThreeBuffers();
    var runs := [[a, b], [c], [d]];
    assert Group(runs, 2, 0) == [[a, b], [c]];
    assert Concat([[a, b], [c]]) == [a, b, c] by {
      ConcatSingle([c]);
    }
    Pass0RunsCover(FourPages(), 3);
    assert Concat(runs) == [a, b] + Concat([[c], [d]]);
    ConcatSingle([d]);
  }

  /**
   * With three buffers, pass 0 turns the four pages into three runs, the one
   * merge pass merges only the first two, and whatever sort() returns (any
   * `out` meeting its contract) lacks the fourth record.
   */
  lemma OnePassDropsRecords(le: Comparator, out: seq<Record>)
    requires SortOutcome(le, 3, FourPages(), out)
    ensures |Pass0Runs(FourPages(), 3)| == 3
    ensures IntRecord(4) in multiset(Concat(FourPages())) && IntRecord(4) !in multiset(out)
  {
    FourPagesFirstGroup();
    var a, b, c, d := IntRecord(1), IntRecord(2), IntRecord(3), IntRecord(4);
    assert multiset(out) == multiset([a, b, c]);
    assert d !in [a, b, c];
    assert [a, b, c, d][3] == d;
  }

  /** Four pages holding 1, nothing, nothing and 2. */
  function GapPages(): (pages: seq<Page>)
    ensures |pages| == 4 && pages[1] == [] && pages[2] == []
  {
    [[IntRecord(1)], [], [], [IntRecord(2)]]
  }

  /**
   * With three buffers, pass 0 flushes the two empty pages as a run of its
   * own, and the merge pass merges that run with the first, so sort() fails
   * although the table holds two records.
   */
  lemma EmptyPageRunIsMerged()
    ensures Pass0Runs(GapPages(), 3) == [[IntRecord(1)], [], [IntRecord(2)]]
    ensures Concat(GapPages()) != [] && MergesEmptyRun(Pass0Runs(GapPages(), 3), 2)
  {
    var a, b := IntRecord(1), IntRecord(2);
    var none: Page := [];
    var pages := GapPages();
    assert pages[..2] == [[a], []] && pages[2..] == [[], [b]];
    assert [[], [b]][..1] == [[]] && [[], [b]][1..] == [[b]];
    assert Pass0Groups([[b]], 1, 1) == [[[b]]];
    assert Pass0Groups([[], [b]], 1, 1) == [[[]]] + Pass0Groups([[b]], 1, 1);
    assert Pass0Groups(pages, 2, 1) == [[[a], []], [[]], [[b]]];
    assert Concat([[a], none]) == [a] by {
      ConcatSingle(none);
    }
    ConcatSingle(none);
    ConcatSingle([b]);
    var runs := Pass0Runs(pages, 3);
    assert runs[1] == [] && 1 % 2 != 0;
    assert Concat(pages) == [a] + Concat(pages[1..]);
  }

  /**
   * With ten pages and four buffers pass 0 groups the pages 3 + 2 + 2 + 2 + 1,
   * so it creates five runs (four when the last page is empty), not four.
   */
  lemma TenPagesFourBuffers(pages: seq<Page>)
    requires |pages| == 10
    ensures Pass0Groups(pages, 3, 2) == [pages[..3], pages[3..5], pages[5..7], pages[7..9], pages[9..]]
    ensures pages[9] != [] ==> |Pass0Runs(pages, 4)| == 5
    ensures pages[9] == [] ==> |Pass0Runs(pages, 4)| == 4
  {
    var p1 := pages[3..];
    var p2 := p1[2..];
    var p3 := p2[2..];
    var p4 := p3[2..];
    assert p4 == pages[9..] && |p4| == 1;
    assert p3[..2] == pages[7..9] && p2[..2] == pages[5..7] && p1[..2] == pages[3..5];
    assert Pass0Groups(p4, 2, 2) == [p4];
    assert Pass0Groups(p3, 2, 2) == [pages[7..9], p4];
    assert Pass0Groups(p2, 2, 2) == [pages[5..7], pages[7..9], p4];
    assert Pass0Groups(p1, 2, 2) == [pages[3..5], pages[5..7], pages[7..9], p4];
    var groups := Pass0Groups(pages, 3, 2);
    assert groups == [pages[..3], pages[3..5], pages[5..7], pages[7..9], p4];
    assert p4 == [pages[9]];
    ConcatSingle(pages[9]);
    assert Flatten(groups)[4] == pages[9];
  }

  // ---------------------------------------------------------------------------
  // The operator object: iterator() sorts once and caches the result
  // ---------------------------------------------------------------------------

  /** A sorted table: every record of the source table, in comparator order. */
  ghost predicate SortedTable(le: Comparator, pages: seq<Page>, out: seq<Record>) {
    Sorted(le, out) && multiset(out) == multiset(Concat(pages))
  }

  class SortOperator {
    const pages: seq<Page>
    const comparator: Comparator
    const numBuffers: nat
    /** The sorted table (sortedTableName); None until sort() has succeeded. */
    var sortedTable: Option<seq<Record>>
    /** How many times sort() has run. */
    ghost var sorts: nat

    ghost predicate Valid()
      reads this
    {
      && TotalPreorder(comparator)
      && numBuffers >= 3
      && (sortedTable.Some? ==> sorts >= 1 && Cached(sortedTable.value))
    }

    /** numBuffers is the transaction's memory budget, read once at construction. */
    constructor (pages: seq<Page>, comparator: Comparator, numBuffers: nat)
      requires TotalPreorder(comparator)
      requires numBuffers >= 3
      ensures Valid()
      ensures this.pages == pages && this.comparator == comparator && this.numBuffers == numBuffers
      ensures sortedTable == None && sorts == 0
    {
      this.pages := pages;
      this.comparator := comparator;
      this.numBuffers := numBuffers;
      sortedTable := None;
      sorts := 0;
    }

    /**
     * What sort() leaves cached: a sorted run of the first merge group's
     * records, which is the whole table sorted when pass 0 made at most
     * numBuffers - 1 runs.
     */
    ghost predicate Cached(out: seq<Record>)
      reads this
      requires numBuffers >= 3
    {
      && SortOutcome(comparator, numBuffers, pages, out)
      && (|Pass0Runs(pages, numBuffers)| <= numBuffers - 1 ==> SortedTable(comparator, pages, out))
    }

    /** iterator: sorts on the first call only (or until a sort succeeds) and then reuses the cached table. */
    method Iterator() returns (r: Result<seq<Record>, SortError>)
      requires Valid()
      modifies this
      ensures Valid()
      ensures old(sortedTable).Some? ==>
                r == Ok(old(sortedTable).value) && sortedTable == old(sortedTable) && sorts == old(sorts)
      ensures old(sortedTable).None? ==> sorts == old(sorts) + 1
      ensures old(sortedTable).None? ==> (r == Err(EmptyRelation) <==> Concat(pages) == [])
      ensures old(sortedTable).None? ==>
                (r == Err(EmptyRunMerged) <==>
                   Concat(pages) != [] && MergesEmptyRun(Pass0Runs(pages, numBuffers), numBuffers - 1))
      ensures r.Ok? ==> sortedTable == Some(r.value) && SortOutcome(comparator, numBuffers, pages, r.value)
      ensures r.Ok? && |Pass0Runs(pages, numBuffers)| <= numBuffers - 1 ==> SortedTable(comparator, pages, r.value)
      ensures r.Err? ==> sortedTable == None
    {
      if sortedTable.None? {
        var result := Sort(comparator, numBuffers, pages);
        sorts := sorts + 1;
        if result.Err? {
          return Err(result.error);
        }
        sortedTable := Some(result.value);
      }
      r := Ok(sortedTable.value);
    }
  }
}
