/** `WorkerPool`: a queue kept sorted in place refines a priority queue that serves equals in order of arrival. */
module Pool {
  import opened Wrappers
  import opened Sorting

  datatype RunPriority = Low | Normal | High | Critical

  function Rank(p: RunPriority): int {
    match p
    case Low => 1
    case Normal => 5
    case High => 10
    case Critical => 20
  }

  datatype QueuedRun = QueuedRun(runId: string, priority: RunPriority, enqueuedAt: string)

  /** `comparePriority` puts higher priorities first. */
  function ByPriority(r: QueuedRun): int {
    -Rank(r.priority)
  }

  /** Critical comes before high, high before normal, normal before low. */
  predicate Outranks(a: RunPriority, b: RunPriority) {
    || (a == Critical && b != Critical)
    || (a == High && (b == Normal || b == Low))
    || (a == Normal && b == Low)
  }

  lemma RankOrders(a: RunPriority, b: RunPriority)
    ensures Rank(a) > Rank(b) <==> Outranks(a, b)
    ensures Rank(a) == Rank(b) <==> a == b
  {
  }

  /** Of the waiting runs, in order of arrival, number `i` is the earliest of those of highest priority. */
  ghost predicate IsBest(waiting: seq<QueuedRun>, i: int) {
    && 0 <= i < |waiting|
    && (forall j | 0 <= j < |waiting| :: !Outranks(waiting[j].priority, waiting[i].priority))
    && forall j | 0 <= j < i :: Outranks(waiting[i].priority, waiting[j].priority)
  }

  lemma BestIsUnique(waiting: seq<QueuedRun>, i: int, j: int)
    requires IsBest(waiting, i) && IsBest(waiting, j)
    ensures i == j
  {
    assert !Outranks(waiting[i].priority, waiting[j].priority);
    assert !Outranks(waiting[j].priority, waiting[i].priority);
  }

  function Without(s: seq<QueuedRun>, i: int): seq<QueuedRun>
    requires 0 <= i < |s|
  {
    s[..i] + s[i + 1..]
  }

  // ----- sorting and the queue

  lemma {:induction false} WithKeyConcat(a: seq<QueuedRun>, b: seq<QueuedRun>, k: int)
    ensures WithKey(a + b, ByPriority, k) == WithKey(a, ByPriority, k) + WithKey(b, ByPriority, k)
    decreases |b|
  {
    if b == [] {
      assert a + b == a;
    } else {
      assert (a + b)[..|a + b| - 1] == a + b[..|b| - 1];
      WithKeyConcat(a, b[..|b| - 1], k);
    }
  }

  lemma WithKeyOne(x: QueuedRun, k: int)
    ensures WithKey([x], ByPriority, k) == if ByPriority(x) == k then [x] else []
  {
    assert [x][..0] == [];
  }

  /** Sorting the sorted queue with one more at its end is sorting all arrivals. */
  lemma SortPush(waiting: seq<QueuedRun>, item: QueuedRun)
    ensures StableSort(StableSort(waiting, ByPriority) + [item], ByPriority) == StableSort(waiting + [item], ByPriority)
    ensures multiset(StableSort(waiting + [item], ByPriority)) == multiset(waiting + [item])
  {
    var queue := StableSort(waiting, ByPriority);
    StableSortSorts(waiting, ByPriority);
    StableSortFixesSorted(queue, ByPriority);
    StableSortPermutes(waiting + [item], ByPriority);
    assert (queue + [item])[..|queue|] == queue && (waiting + [item])[..|waiting|] == waiting;
  }

  lemma Arrives(
      enqueued: multiset<QueuedRun>, started: multiset<QueuedRun>, waiting: seq<QueuedRun>, item: QueuedRun)
    requires enqueued == started + multiset(waiting)
    ensures enqueued + multiset{item} == started + multiset(waiting + [item])
  {
  }

  lemma {:induction false} NoneWithKey(s: seq<QueuedRun>, k: int)
    requires forall j | 0 <= j < |s| :: ByPriority(s[j]) != k
    ensures WithKey(s, ByPriority, k) == []
  {
    if s != [] {
      NoneWithKey(s[..|s| - 1], k);
    }
  }

  /** The element of a list with key `k` that comes first among those with key `k`. */
  lemma SplitAtFirst(s: seq<QueuedRun>, i: int, k: int)
    requires 0 <= i < |s| && ByPriority(s[i]) == k && forall j | 0 <= j < i :: ByPriority(s[j]) != k
    ensures WithKey(s, ByPriority, k) == [s[i]] + WithKey(Without(s, i), ByPriority, k)
  {
    Split(s, i, k);
    NoneWithKey(s[..i], k);
  }

  lemma Split(s: seq<QueuedRun>, i: int, k: int)
    requires 0 <= i < |s|
    ensures WithKey(s, ByPriority, k) ==
            WithKey(s[..i], ByPriority, k) + (if ByPriority(s[i]) == k then [s[i]] else [])
            + WithKey(s[i + 1..], ByPriority, k)
    ensures WithKey(Without(s, i), ByPriority, k) ==
            WithKey(s[..i], ByPriority, k) + WithKey(s[i + 1..], ByPriority, k)
  {
    assert s == s[..i] + ([s[i]] + s[i + 1..]);
    WithKeyConcat(s[..i], [s[i]] + s[i + 1..], k);
    WithKeyConcat([s[i]], s[i + 1..], k);
    WithKeyOne(s[i], k);
    WithKeyConcat(s[..i], s[i + 1..], k);
  }

  lemma {:induction false} FirstWithKey(s: seq<QueuedRun>, x: QueuedRun) returns (i: int)
    requires x in s
    ensures 0 <= i < |s| && ByPriority(s[i]) == ByPriority(x)
    ensures forall j | 0 <= j < i :: ByPriority(s[j]) != ByPriority(x)
  {
    if ByPriority(s[0]) == ByPriority(x) {
      i := 0;
    } else {
      var rest := s[1..];
      i := FirstWithKey(rest, x);
      i := i + 1;
      assert forall j | 0 < j < i :: s[j] == rest[j - 1];
    }
  }

  /** The head of the sorted queue is one of the arrivals, and none of them comes before it. */
  lemma HeadIsLeast(waiting: seq<QueuedRun>)
    requires waiting != []
    ensures var queue := StableSort(waiting, ByPriority);
            queue != [] && queue[0] in waiting && forall x | x in waiting :: ByPriority(queue[0]) <= ByPriority(x)
  {
    var queue := StableSort(waiting, ByPriority);
    StableSortPermutes(waiting, ByPriority);
    StableSortSorts(waiting, ByPriority);
    assert waiting[0] in multiset(queue);
    assert queue[0] in multiset(waiting);
    forall x | x in waiting ensures ByPriority(queue[0]) <= ByPriority(x) {
      assert x in multiset(queue);
      var l :| 0 <= l < |queue| && queue[l] == x;
    }
  }

  /** Where the head of the sorted queue stood among the arrivals. */
  lemma HeadIsBest(waiting: seq<QueuedRun>) returns (i: int)
    requires waiting != []
    ensures StableSort(waiting, ByPriority) != []
    ensures IsBest(waiting, i) && waiting[i] == StableSort(waiting, ByPriority)[0]
  {
    var queue := StableSort(waiting, ByPriority);
    HeadIsLeast(waiting);
    i := FirstWithKey(waiting, queue[0]);
    var k := ByPriority(queue[0]);
    StableSortIsStable(waiting, ByPriority, k);
    SplitAtFirst(waiting, i, k);
    SplitAtFirst(queue, 0, k);
    assert ([waiting[i]] + WithKey(Without(waiting, i), ByPriority, k))[0] == waiting[i];
    forall j | 0 <= j < |waiting|
      ensures !Outranks(waiting[j].priority, waiting[i].priority)
      ensures j < i ==> Outranks(waiting[i].priority, waiting[j].priority)
    {
      RankOrders(waiting[j].priority, waiting[i].priority);
      RankOrders(waiting[i].priority, waiting[j].priority);
      assert waiting[j] in waiting;
      assert j < i ==> ByPriority(waiting[j]) != k;
    }
  }

  lemma SplitElsewhere(s: seq<QueuedRun>, i: int, k: int)
    requires 0 <= i < |s| && ByPriority(s[i]) != k
    ensures WithKey(s, ByPriority, k) == WithKey(Without(s, i), ByPriority, k)
  {
    Split(s, i, k);
    assert WithKey(s[..i], ByPriority, k) + [] == WithKey(s[..i], ByPriority, k);
  }

  lemma SameTail(x: QueuedRun, a: seq<QueuedRun>, b: seq<QueuedRun>)
    requires [x] + a == [x] + b
    ensures a == b
  {
    assert ([x] + a)[1..] == a && ([x] + b)[1..] == b;
  }

  lemma PopKeepsKey(waiting: seq<QueuedRun>, queue: seq<QueuedRun>, i: int, k: int)
    requires queue != [] && IsBest(waiting, i) && waiting[i] == queue[0]
    requires WithKey(queue, ByPriority, k) == WithKey(waiting, ByPriority, k)
    ensures WithKey(queue[1..], ByPriority, k) == WithKey(Without(waiting, i), ByPriority, k)
  {
    assert Without(queue, 0) == queue[1..];
    forall j | 0 <= j < i ensures ByPriority(waiting[j]) != ByPriority(waiting[i]) {
      RankOrders(waiting[i].priority, waiting[j].priority);
    }
    if ByPriority(waiting[i]) == k {
      SplitAtFirst(waiting, i, k);
      SplitAtFirst(queue, 0, k);
      SameTail(queue[0], WithKey(queue[1..], ByPriority, k), WithKey(Without(waiting, i), ByPriority, k));
    } else {
      SplitElsewhere(waiting, i, k);
      SplitElsewhere(queue, 0, k);
    }
  }

  /** Taking the head off the sorted queue is taking the best run out of the arrivals. */
  lemma SortPop(waiting: seq<QueuedRun>, i: int)
    requires IsBest(waiting, i)
    ensures StableSort(waiting, ByPriority) != [] && waiting[i] == StableSort(waiting, ByPriority)[0]
    ensures StableSort(waiting, ByPriority)[1..] == StableSort(Without(waiting, i), ByPriority)
  {
    var queue, rest := StableSort(waiting, ByPriority), Without(waiting, i);
    var h := HeadIsBest(waiting);
    BestIsUnique(waiting, h, i);
    StableSortSorts(waiting, ByPriority);
    StableSortSorts(rest, ByPriority);
    forall k ensures WithKey(queue[1..], ByPriority, k) == WithKey(StableSort(rest, ByPriority), ByPriority, k) {
      StableSortIsStable(waiting, ByPriority, k);
      StableSortIsStable(rest, ByPriority, k);
      PopKeepsKey(waiting, queue, i, k);
    }
    StableSortUnique(queue[1..], StableSort(rest, ByPriority), ByPriority);
  }

  /** Conservation when a run moves from the waiting to the started ones. */
  lemma WithoutOne(waiting: seq<QueuedRun>, i: int)
    requires 0 <= i < |waiting|
    ensures multiset(waiting) == multiset{waiting[i]} + multiset(Without(waiting, i))
  {
    assert waiting == waiting[..i] + ([waiting[i]] + waiting[i + 1..]);
  }

  // ----- the pool

  /** The queue is the sorted arrivals, and every run enqueued either waits or has been started. */
  ghost predicate Filed(
      queue: seq<QueuedRun>, waiting: seq<QueuedRun>, enqueued: multiset<QueuedRun>, started: multiset<QueuedRun>)
  {
    && queue == StableSort(waiting, ByPriority) && multiset(queue) == multiset(waiting)
    && enqueued == started + multiset(waiting)
  }

  lemma FiledPush(
      queue: seq<QueuedRun>, waiting: seq<QueuedRun>, enqueued: multiset<QueuedRun>, started: multiset<QueuedRun>,
      item: QueuedRun)
    requires Filed(queue, waiting, enqueued, started)
    ensures Filed(StableSort(queue + [item], ByPriority), waiting + [item], enqueued + multiset{item}, started)
  {
    SortPush(waiting, item);
    Arrives(enqueued, started, waiting, item);
  }

  lemma FiledPop(
      queue: seq<QueuedRun>, waiting: seq<QueuedRun>, enqueued: multiset<QueuedRun>, started: multiset<QueuedRun>)
    returns (i: int)
    requires Filed(queue, waiting, enqueued, started) && waiting != []
    ensures queue != [] && IsBest(waiting, i) && waiting[i] == queue[0]
    ensures Filed(queue[1..], Without(waiting, i), enqueued, started + multiset{queue[0]})
  {
    i := HeadIsBest(waiting);
    SortPop(waiting, i);
    WithoutOne(waiting, i);
    StableSortPermutes(Without(waiting, i), ByPriority);
  }

  class WorkerPool {
    const concurrency: int
    var queue: seq<QueuedRun>
    var running: int

    /** The runs that wait, in order of arrival. */
    ghost var waiting: seq<QueuedRun>
    /** All runs ever enqueued, and all ever started. */
    ghost var enqueued: multiset<QueuedRun>
    ghost var started: multiset<QueuedRun>

    ghost predicate Valid()
      reads this
    {
      && Filed(queue, waiting, enqueued, started)
      && 0 <= running <= |started|
      && running <= if concurrency > 0 then concurrency else 0
    }

    constructor (concurrency: int)
      ensures Valid() && this.concurrency == concurrency && waiting == [] && running == 0
      ensures enqueued == multiset{} && started == multiset{}
    {
      this.concurrency, queue, running := concurrency, [], 0;
      waiting, enqueued, started := [], multiset{}, multiset{};
    }

    method Enqueue(item: QueuedRun)
      requires Valid()
      modifies this
      ensures Valid() && waiting == old(waiting) + [item] && enqueued == old(enqueued) + multiset{item}
      ensures started == old(started) && running == old(running)
    {
      FiledPush(queue, waiting, enqueued, started, item);
      queue := queue + [item];
      queue := StableSort(queue, ByPriority);
      waiting := waiting + [item];
      enqueued := enqueued + multiset{item};
    }

    predicate CanAccept()
      reads this
    {
      running < concurrency
    }

    /** Yields a run exactly if one waits and a slot is free, and then the earliest of highest priority. */
    method Start() returns (r: Option<QueuedRun>)
      requires Valid()
      modifies this
      ensures Valid() && enqueued == old(enqueued)
      ensures r.Some? <==> old(running) < concurrency && old(waiting) != []
      ensures r.None? ==> waiting == old(waiting) && running == old(running) && started == old(started)
      ensures r.Some? ==> running == old(running) + 1 && started == old(started) + multiset{r.value}
      ensures r.Some? ==>
        exists i :: IsBest(old(waiting), i) && r.value == old(waiting)[i] && waiting == Without(old(waiting), i)
    {
      if !CanAccept() || |queue| == 0 {
        assert waiting == [] || queue != [] by {
          if waiting != [] {
            HeadIsLeast(waiting);
          }
        }
        return None;
      }
      ghost var i := FiledPop(queue, waiting, enqueued, started);
      running := running + 1;
      r := Some(queue[0]);
      queue := queue[1..];
      started := started + multiset{r.value};
      waiting := Without(waiting, i);
    }

    method Complete()
      requires Valid()
      modifies this`running
      ensures Valid() && running == if old(running) > 0 then old(running) - 1 else 0
    {
      running := if running - 1 > 0 then running - 1 else 0;
    }

    function Depth(): (n: nat)
      requires Valid()
      reads this
      ensures n == |waiting|
    {
      assert |multiset(queue)| == |queue| && |multiset(waiting)| == |waiting|;
      |queue|
    }
  }
}
