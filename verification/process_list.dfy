/** The process overview: its ordering of process cards, the colour of each card's
    left border, the card title, and the four statistics tiles. */
module ProcessList {
  import opened Wrappers
  import opened Strings
  import opened Seqs
  import opened Sdk
  import Formatters

  // ---------------------------------------------------------------------
  // Ordering
  // ---------------------------------------------------------------------

  /** The activity a card counts: running + completed + faulted + pending */
  function ActivityTotal(p: ProcessSummary): (r: int)
  {
    p.runningCount + p.completedCount + p.faultedCount + p.pendingCount
  }

  /** The `sort` comparator: negative when `a` belongs before `b`. It ranks by faults
      (descending), then by activity (descending). */
  function Compare(a: ProcessSummary, b: ProcessSummary): (r: int)
    ensures r <= 0 <==>
      a.faultedCount > b.faultedCount
      || (a.faultedCount == b.faultedCount && ActivityTotal(a) >= ActivityTotal(b))
    ensures r == 0 <==> a.faultedCount == b.faultedCount && ActivityTotal(a) == ActivityTotal(b)
  {
    if b.faultedCount != a.faultedCount then b.faultedCount - a.faultedCount
    else ActivityTotal(b) - ActivityTotal(a)
  }

  /** `a` may stand before `b`: more faults, or as many faults and at least as much activity */
  predicate InOrder(a: ProcessSummary, b: ProcessSummary) {
    Compare(a, b) <= 0
  }

  /** Neither goes first: the comparator sees them as equal */
  predicate SameRank(a: ProcessSummary, b: ProcessSummary) {
    a.faultedCount == b.faultedCount && ActivityTotal(a) == ActivityTotal(b)
  }

  /** The comparator is antisymmetric, and it is a total preorder: every pair is ordered
      one way or the other, and the order is transitive */
  lemma CompareConsistent(a: ProcessSummary, b: ProcessSummary, c: ProcessSummary)
    ensures Compare(a, b) == -Compare(b, a)
    ensures InOrder(a, b) || InOrder(b, a)
    ensures InOrder(a, b) && InOrder(b, c) ==> InOrder(a, c)
  {
  }

  /** The paused and cancelled counts play no part in the ordering */
  lemma CompareIgnoresPausedAndCancelled(a: ProcessSummary, b: ProcessSummary,
                                         pa: int, ca: int, pb: int, cb: int)
    ensures Compare(a.(pausedCount := pa, cancelledCount := ca), b.(pausedCount := pb, cancelledCount := cb))
            == Compare(a, b)
  {
  }

  predicate Sorted(s: seq<ProcessSummary>) {
    forall i, j :: 0 <= i < j < |s| ==> InOrder(s[i], s[j])
  }

  /** Puts `x` in front of the first element it may precede */
  function Insert(x: ProcessSummary, s: seq<ProcessSummary>): (r: seq<ProcessSummary>)
    ensures |r| == |s| + 1
  {
    if |s| == 0 then [x]
    else if InOrder(x, s[0]) then [x] + s
    else [s[0]] + Insert(x, s[1..])
  }

  /** `processes.sort(comparator)`; JavaScript's sort is stable, and so is this one */
  function SortProcesses(s: seq<ProcessSummary>): (r: seq<ProcessSummary>)
    ensures |r| == |s|
  {
    if |s| == 0 then [] else Insert(s[0], SortProcesses(s[1..]))
  }

  lemma {:induction false} InsertPermutes(x: ProcessSummary, s: seq<ProcessSummary>)
    ensures multiset(Insert(x, s)) == multiset(s) + multiset{x}
  {
    if |s| > 0 && !InOrder(x, s[0]) {
      InsertPermutes(x, s[1..]);
      assert s == [s[0]] + s[1..];
    }
  }

  lemma {:induction false} InsertSorted(x: ProcessSummary, s: seq<ProcessSummary>)
    requires Sorted(s)
    ensures Sorted(Insert(x, s))
  {
    if |s| > 0 && !InOrder(x, s[0]) {
      var t := Insert(x, s[1..]);
      InsertSorted(x, s[1..]);
      InsertPermutes(x, s[1..]);
      var r := [s[0]] + t;
      forall j | 0 < j < |r|
        ensures InOrder(s[0], r[j])
      {
        assert r[j] in multiset(t);
        assert r[j] == x || r[j] in multiset(s[1..]);
        if r[j] != x {
          var k :| 0 <= k < |s[1..]| && s[1..][k] == r[j];
          assert s[k + 1] == r[j];
        }
      }
    }
  }

  /** The sorted cards are the same cards */
  lemma {:induction false} SortProcessesPermutes(s: seq<ProcessSummary>)
    ensures multiset(SortProcesses(s)) == multiset(s)
  {
    if |s| > 0 {
      SortProcessesPermutes(s[1..]);
      InsertPermutes(s[0], SortProcesses(s[1..]));
      assert s == [s[0]] + s[1..];
    }
  }

  /** The sorted cards are ordered by faults, then by activity */
  lemma {:induction false} SortProcessesSorted(s: seq<ProcessSummary>)
    ensures Sorted(SortProcesses(s))
  {
    if |s| > 0 {
      SortProcessesSorted(s[1..]);
      InsertSorted(s[0], SortProcesses(s[1..]));
    }
  }

  /** Inserting `x` leaves every equal-ranked group in its order, with `x` in front of
      its own group */
  lemma {:induction false} InsertStable(x: ProcessSummary, s: seq<ProcessSummary>, z: ProcessSummary)
    ensures Filter(y => SameRank(y, z), Insert(x, s))
         == (if SameRank(x, z) then [x] else []) + Filter(y => SameRank(y, z), s)
  {
    var p := y => SameRank(y, z);
    if |s| > 0 {
      if InOrder(x, s[0]) {
        assert Insert(x, s) == [x] + s;
        FilterAppend(p, [x], s);
      } else {
        InsertStable(x, s[1..], z);
        assert Insert(x, s) == [s[0]] + Insert(x, s[1..]);
        FilterAppend(p, [s[0]], Insert(x, s[1..]));
        FilterAppend(p, [s[0]], s[1..]);
        assert s == [s[0]] + s[1..];
        assert !(p(x) && p(s[0]));
        if p(x) {
          assert Filter(p, [s[0]]) == [];
        }
      }
    }
  }

  /** Cards the comparator sees as equal keep their input order */
  lemma {:induction false} SortProcessesStable(s: seq<ProcessSummary>, z: ProcessSummary)
    ensures Filter(y => SameRank(y, z), SortProcesses(s)) == Filter(y => SameRank(y, z), s)
  {
    if |s| > 0 {
      var p := y => SameRank(y, z);
      SortProcessesStable(s[1..], z);
      InsertStable(s[0], SortProcesses(s[1..]), z);
      FilterAppend(p, [s[0]], s[1..]);
      assert s == [s[0]] + s[1..];
    }
  }

  // ---------------------------------------------------------------------
  // Card border and title
  // ---------------------------------------------------------------------

  const Rose := "border-l-rose-400"
  const Amber := "border-l-amber-400"
  const Emerald := "border-l-emerald-400"
  const Slate := "border-l-slate-300"

  /** The card's left border: faults win over running instances, which win over
      completed ones */
  function BorderColor(p: ProcessSummary): (r: string)
    ensures r == Rose <==> p.faultedCount > 0
    ensures r == Amber <==> p.faultedCount <= 0 && p.runningCount > 0
    ensures r == Emerald <==> p.faultedCount <= 0 && p.runningCount <= 0 && p.completedCount > 0
    ensures r == Slate <==> p.faultedCount <= 0 && p.runningCount <= 0 && p.completedCount <= 0
  {
    if p.faultedCount > 0 then Rose
    else if p.runningCount > 0 then Amber
    else if p.completedCount > 0 then Emerald
    else Slate
  }

  /** The card title, written out inline in the card rather than calling the formatter */
  function HeaderTitle(p: ProcessSummary): (r: string)
    ensures r == Formatters.FormatProcessName(p.packageId)
  {
    var spaced := Formatters.SpaceCaseBoundaries(
                    Formatters.ReplaceChar(Formatters.ReplaceChar(p.packageId, '.'), '_'));
    Join(Formatters.CapitalizeAll(Split(spaced, ' ')), ' ')
  }

  // ---------------------------------------------------------------------
  // Statistics
  // ---------------------------------------------------------------------

  /** The instance list endpoint answers with a page or with a non-paginated result */
  datatype InstancesResponse = Paginated(items: seq<ProcessInstance>) | NonPaginated

  datatype Stats = Stats(totalProcesses: int, runningInstances: int, completedToday: int, failedToday: int)

  /** `(i.latestRunStatus || '').toLowerCase()` */
  function StatusOf(i: ProcessInstance): (r: string)
  {
    Lower(i.latestRunStatus.GetOr(""))
  }

  predicate IsRunning(i: ProcessInstance) { StatusOf(i) == "running" || StatusOf(i) == "in progress" }

  predicate IsCompleted(i: ProcessInstance) { StatusOf(i) == "completed" || StatusOf(i) == "successful" }

  predicate IsFailed(i: ProcessInstance) { StatusOf(i) == "failed" || StatusOf(i) == "faulted" }

  /** Started at or after today's midnight; an unparsable start date is never today */
  predicate StartedSince(i: ProcessInstance, midnight: int) {
    i.startedTime.Some? && i.startedTime.value >= midnight
  }

  /** The instances the statistics look at: a non-paginated answer counts as none */
  function InstancesOf(response: InstancesResponse): (r: seq<ProcessInstance>)
  {
    match response
    case Paginated(items) => items
    case NonPaginated => []
  }

  /** The statistics tiles, with `midnight` the start of today in milliseconds */
  function ComputeStats(processes: seq<ProcessSummary>, response: InstancesResponse, midnight: int): (r: Stats)
    ensures r.totalProcesses == |processes|
    ensures 0 <= r.runningInstances <= |InstancesOf(response)|
    ensures 0 <= r.completedToday && 0 <= r.failedToday
    ensures r.completedToday + r.failedToday
            <= |Filter(i => StartedSince(i, midnight), InstancesOf(response))|
    ensures response.NonPaginated? ==> r.runningInstances == r.completedToday == r.failedToday == 0
  {
    var instances := InstancesOf(response);
    var today := Filter(i => StartedSince(i, midnight), instances);
    FilterDisjointBound(IsCompleted, IsFailed, today);
    Stats(|processes|, |Filter(IsRunning, instances)|, |Filter(IsCompleted, today)|, |Filter(IsFailed, today)|)
  }

  /** Each tile counts exactly the instances with its status (and, for the two daily
      tiles, started today) */
  lemma ComputeStatsCounts(processes: seq<ProcessSummary>, response: InstancesResponse, midnight: int)
    ensures var r := ComputeStats(processes, response, midnight);
      var instances := InstancesOf(response);
      && r.runningInstances == |Filter(IsRunning, instances)|
      && r.completedToday == |Filter(i => StartedSince(i, midnight) && IsCompleted(i), instances)|
      && r.failedToday == |Filter(i => StartedSince(i, midnight) && IsFailed(i), instances)|
  {
    var instances := InstancesOf(response);
    var today := i => StartedSince(i, midnight);
    FilterFilter(today, IsCompleted, i => StartedSince(i, midnight) && IsCompleted(i), instances);
    FilterFilter(today, IsFailed, i => StartedSince(i, midnight) && IsFailed(i), instances);
  }

  /** With nothing started today both daily tiles read zero */
  lemma NothingStartedToday(processes: seq<ProcessSummary>, response: InstancesResponse, midnight: int)
    requires forall k :: 0 <= k < |InstancesOf(response)| ==> !StartedSince(InstancesOf(response)[k], midnight)
    ensures ComputeStats(processes, response, midnight).completedToday == 0
    ensures ComputeStats(processes, response, midnight).failedToday == 0
  {
    var instances := InstancesOf(response);
    FilterNone(i => StartedSince(i, midnight), instances);
  }
}
