/** The worker loop of cratelimiter, and how many jobs it can start in a window of time. */
module RateLimiter {

  const SECOND: nat := 1_000_000_000   // nanoseconds

  /** The constructor's interval: integer division, and a rate of 0 counts as 1. */
  function Interval(rps: nat): nat {
    SECOND / (if rps == 0 then 1 else rps)
  }

  /** A queued function, as far as the limiter can tell: it runs, or it asks to be skipped. */
  datatype Job = Job(skip: bool)

  /** One start of a job: the value of `now` when it was called, and whether it asked to be skipped. */
  datatype Start = Start(time: int, skip: bool)

  /** What one pass of the inner loop records and leaves as the next due time. */
  function Began(nextDue: int, clock: int): int {
    if clock < nextDue then nextDue else clock
  }

  function NextDue(nextDue: int, interval: nat, s: Start): int {
    if s.skip then s.time
    else if nextDue < s.time then s.time + interval
    else nextDue + interval
  }

  /** The loop over a list of jobs, given the clock reading before each job and its answer. */
  function Starts(nextDue: int, interval: nat, clocks: seq<int>, jobs: seq<Job>): (r: seq<Start>)
    requires |clocks| == |jobs|
    ensures |r| == |clocks|
    decreases |clocks|
  {
    if clocks == [] then []
    else
      var s := Start(Began(nextDue, clocks[0]), jobs[0].skip);
      [s] + Starts(NextDue(nextDue, interval, s), interval, clocks[1..], jobs[1..])
  }

  class Limiter {
    const interval: nat
    const maxQueue: nat
    var queue: seq<Job>
    var nextDue: int
    ghost var starts: seq<Start>

    /** All starts so far are spaced, and the next one is held back far enough. */
    ghost predicate Valid()
      reads this
    {
      && Spaced(starts, interval)
      && (forall i :: 0 <= i < |starts| ==> starts[i].time + (if starts[i].skip then 0 else interval) <= nextDue)
      && |queue| <= maxQueue + 1
    }

    constructor (rps: nat, maxQueue: nat, now: int)
      ensures Valid() && interval == Interval(rps) && this.maxQueue == maxQueue
      ensures interval == if rps == 0 then 1_000_000_000 else 1_000_000_000 / rps
      ensures queue == [] && nextDue == now && starts == []
    {
      interval := SECOND / (if rps == 0 then 1 else rps);
      this.maxQueue := maxQueue;
      queue, nextDue, starts := [], now, [];
    }

    /** The bound is tested with > before adding, so the queue can grow to max_queue + 1. */
    method Enqueue(job: Job) returns (ok: bool)
      requires Valid()
      modifies this
      ensures Valid() && nextDue == old(nextDue) && starts == old(starts)
      ensures ok <==> |old(queue)| <= maxQueue
      ensures queue == old(queue) + if ok then [job] else []
    {
      if |queue| > maxQueue {
        return false;
      }
      queue := queue + [job];
      ok := true;
    }

    /** One pass of Run's inner loop; clock is the reading of steady_clock::now. */
    method RunNext(clock: int)
      requires Valid() && queue != []
      modifies this
      ensures Valid() && queue == old(queue)[1..]
      ensures var s := Start(Began(old(nextDue), clock), old(queue)[0].skip);
              starts == old(starts) + [s] && nextDue == NextDue(old(nextDue), interval, s)
    {
      var job := queue[0];
      queue := queue[1..];
      var now := clock;
      if now < nextDue {
        now := nextDue;
      }
      starts := starts + [Start(now, job.skip)];
      if job.skip {
        nextDue := now;
      } else {
        nextDue := if nextDue < now then now + interval else nextDue + interval;
      }
    }

    /** The inner loop when nothing is added meanwhile. */
    method Drain(clocks: seq<int>)
      requires Valid() && |clocks| == |queue|
      modifies this
      ensures Valid() && queue == []
      ensures starts == old(starts) + Starts(old(nextDue), interval, clocks, old(queue))
    {
      var n := 0;
      while queue != []
        invariant Valid() && n <= |clocks| && queue == old(queue)[n..]
        invariant starts + Starts(nextDue, interval, clocks[n..], queue)
                  == old(starts) + Starts(old(nextDue), interval, clocks, old(queue))
        decreases |queue|
      {
        assert clocks[n..][1..] == clocks[n + 1..];
        RunNext(clocks[n]);
        n := n + 1;
      }
    }
  }

  // ---------- when each job starts ----------

  /** The first job starts when it is due or at the clock, whichever is later. */
  lemma FirstStart(nextDue: int, interval: nat, clocks: seq<int>, jobs: seq<Job>)
    requires |clocks| == |jobs| && clocks != []
    ensures Starts(nextDue, interval, clocks, jobs)[0].time == if nextDue <= clocks[0] then clocks[0] else nextDue
  {
  }

  /** Every other job starts an interval after the last one, or at a skipped one's time, unless the clock is past it. */
  lemma {:induction false} NextStart(nextDue: int, interval: nat, clocks: seq<int>, jobs: seq<Job>, j: nat)
    requires |clocks| == |jobs| && j + 1 < |clocks|
    ensures var r := Starts(nextDue, interval, clocks, jobs);
            var due := r[j].time + if jobs[j].skip then 0 else interval;
            r[j].skip == jobs[j].skip && r[j + 1].time == if due <= clocks[j + 1] then clocks[j + 1] else due
    decreases j
  {
    var s := Starts(nextDue, interval, clocks, jobs)[0];
    if j == 0 {
      FirstStart(NextDue(nextDue, interval, s), interval, clocks[1..], jobs[1..]);
    } else {
      NextStart(NextDue(nextDue, interval, s), interval, clocks[1..], jobs[1..], j - 1);
    }
  }

  /** While the clock is never past the due times, every job starts exactly on its own, one interval after the other. */
  lemma {:induction false} OnTime(nextDue: int, interval: nat, clocks: seq<int>, jobs: seq<Job>, j: nat)
    requires |clocks| == |jobs| && j < |clocks|
    requires forall i :: 0 <= i <= j ==> !jobs[i].skip && clocks[i] <= nextDue + i * interval
    ensures Starts(nextDue, interval, clocks, jobs)[j].time == nextDue + j * interval
    decreases j
  {
    if j == 0 {
      FirstStart(nextDue, interval, clocks, jobs);
    } else {
      OnTime(nextDue, interval, clocks, jobs, j - 1);
      NextStart(nextDue, interval, clocks, jobs, j - 1);
      assert j * interval == (j - 1) * interval + interval;
    }
  }

  // ---------- spacing ----------

  lemma {:induction false} NothingBeforeDue(nextDue: int, interval: nat, clocks: seq<int>, jobs: seq<Job>, j: nat)
    requires |clocks| == |jobs| && j < |clocks|
    ensures Starts(nextDue, interval, clocks, jobs)[j].time >= nextDue
    decreases j
  {
    if j > 0 {
      var s := Starts(nextDue, interval, clocks, jobs)[0];
      NothingBeforeDue(NextDue(nextDue, interval, s), interval, clocks[1..], jobs[1..], j - 1);
    }
  }

  /** Whatever the clock shows and whichever jobs are skipped, a started job pushes all later ones an interval away. */
  lemma {:induction false} StartsSpaced(nextDue: int, interval: nat, clocks: seq<int>, jobs: seq<Job>,
                                        i: nat, j: nat)
    requires |clocks| == |jobs| && i < j < |clocks|
    ensures var r := Starts(nextDue, interval, clocks, jobs);
            r[j].time >= r[i].time + if r[i].skip then 0 else interval
    decreases i
  {
    var s := Starts(nextDue, interval, clocks, jobs)[0];
    if i == 0 {
      NothingBeforeDue(NextDue(nextDue, interval, s), interval, clocks[1..], jobs[1..], j - 1);
    } else {
      StartsSpaced(NextDue(nextDue, interval, s), interval, clocks[1..], jobs[1..], i - 1, j - 1);
    }
  }

  // ---------- jobs in a window ----------

  predicate Inside(s: Start, from: int, length: nat) {
    !s.skip && from <= s.time < from + length
  }

  function CountIn(r: seq<Start>, from: int, length: nat): nat {
    if r == [] then 0
    else (if Inside(r[0], from, length) then 1 else 0) + CountIn(r[1..], from, length)
  }

  ghost predicate Spaced(r: seq<Start>, interval: nat) {
    forall i, j :: 0 <= i < j < |r| ==> r[j].time >= r[i].time + if r[i].skip then 0 else interval
  }

  function CeilDiv(a: nat, b: nat): nat
    requires b > 0
  {
    (a + b - 1) / b
  }

  lemma {:induction false} NoneInside(r: seq<Start>, from: int, length: nat)
    requires forall i :: 0 <= i < |r| ==> r[i].time >= from + length
    ensures CountIn(r, from, length) == 0
  {
    if r != [] {
      assert forall i :: 0 <= i < |r[1..]| ==> r[1..][i] == r[i + 1];
      NoneInside(r[1..], from, length);
    }
  }

  /** Moving the window's start up to a time before which nothing starts counts the same jobs. */
  lemma {:induction false} ShrinkWindow(r: seq<Start>, from: int, from': int, length: nat)
    requires from <= from' <= from + length
    requires forall i :: 0 <= i < |r| ==> r[i].time >= from'
    ensures CountIn(r, from, length) == CountIn(r, from', from + length - from')
  {
    if r != [] {
      assert forall i :: 0 <= i < |r[1..]| ==> r[1..][i] == r[i + 1];
      ShrinkWindow(r[1..], from, from', length);
    }
  }

  /** A half-open window of any length holds at most ceil(length / interval) started jobs. */
  lemma {:induction false} WindowBound(r: seq<Start>, interval: nat, from: int, length: nat)
    requires interval > 0 && Spaced(r, interval)
    ensures CountIn(r, from, length) <= CeilDiv(length, interval)
    decreases |r|
  {
    if r != [] {
      var rest := r[1..];
      assert forall i :: 0 <= i < |rest| ==> rest[i] == r[i + 1];
      if !Inside(r[0], from, length) {
        WindowBound(rest, interval, from, length);
      } else {
        var next := r[0].time + interval;
        CeilStep(length, interval);
        if next >= from + length {
          NoneInside(rest, from, length);
        } else {
          ShrinkWindow(rest, from, next, length);
          WindowBound(rest, interval, next, from + length - next);
          CeilMonotone(from + length - next, length - interval, interval);
        }
      }
    }
  }

  lemma CeilStep(a: nat, b: nat)
    requires b > 0
    ensures a > 0 ==> CeilDiv(a, b) >= 1
    ensures a >= b ==> CeilDiv(a, b) == CeilDiv(a - b, b) + 1
  {
    if a >= b {
      DivAdd(a - 1, b);
    } else if a > 0 {
      assert CeilDiv(a, b) == 1 by { DivAdd(a - 1, b); }
    }
  }

  lemma DivAdd(a: int, b: nat)
    requires b > 0
    ensures (a + b) / b == a / b + 1
  {
    var q, r := a / b, a % b;
    assert a + b == (q + 1) * b + r;
    DivUnique(a + b, b, q + 1, r);
  }

  lemma DivUnique(a: int, b: nat, q: int, r: int)
    requires b > 0 && a == q * b + r && 0 <= r < b
    ensures a / b == q
  {
    var d := a / b - q;
    assert d >= 1 ==> d * b >= b;
    assert d <= -1 ==> d * b <= 0 - b;
    assert a == (a / b) * b + a % b;
    assert d * b == r - a % b;
  }

  lemma CeilMonotone(a: nat, a': nat, b: nat)
    requires b > 0 && a <= a'
    ensures CeilDiv(a, b) <= CeilDiv(a', b)
  {
    var x, y := a + b - 1, a' + b - 1;
    var d := y / b - x / b;
    assert d <= -1 ==> d * b <= 0 - b;
    assert x == (x / b) * b + x % b && y == (y / b) * b + y % b;
    assert d * b == (y - y % b) - (x - x % b);
  }

  lemma RunSpaced(nextDue: int, interval: nat, clocks: seq<int>, jobs: seq<Job>)
    requires |clocks| == |jobs|
    ensures Spaced(Starts(nextDue, interval, clocks, jobs), interval)
  {
    var r := Starts(nextDue, interval, clocks, jobs);
    forall i, j | 0 <= i < j < |r| ensures r[j].time >= r[i].time + if r[i].skip then 0 else interval {
      StartsSpaced(nextDue, interval, clocks, jobs, i, j);
    }
  }

  /** In any run and any half-open window: at most ceil(length / interval) jobs that were not skipped. */
  lemma RunWindowBound(nextDue: int, interval: nat, clocks: seq<int>, jobs: seq<Job>, from: int, length: nat)
    requires |clocks| == |jobs| && interval > 0
    ensures CountIn(Starts(nextDue, interval, clocks, jobs), from, length) <= (length + interval - 1) / interval
  {
    RunSpaced(nextDue, interval, clocks, jobs);
    WindowBound(Starts(nextDue, interval, clocks, jobs), interval, from, length);
  }

  // ---------- when jobs really start ----------

  /** The worker wakes late by at most `late`, while it records the time it meant to wake at. */
  ghost predicate WakesWithin(r: seq<Start>, actual: seq<int>, late: nat) {
    && |actual| == |r|
    && forall i :: 0 <= i < |r| ==> r[i].time <= actual[i] <= r[i].time + late
  }

  /** The jobs that were not skipped and really started in the window. */
  function CountActual(r: seq<Start>, actual: seq<int>, from: int, length: nat): nat
    requires |r| == |actual|
  {
    if r == [] then 0
    else (if !r[0].skip && from <= actual[0] < from + length then 1 else 0)
         + CountActual(r[1..], actual[1..], from, length)
  }

  lemma {:induction false} ActualWithinRecorded(r: seq<Start>, actual: seq<int>, late: nat, from: int, length: nat)
    requires WakesWithin(r, actual, late)
    ensures CountActual(r, actual, from, length) <= CountIn(r, from - late, length + late)
    decreases |r|
  {
    if r != [] {
      assert forall i :: 0 <= i < |r[1..]| ==> r[1..][i] == r[i + 1] && actual[1..][i] == actual[i + 1];
      ActualWithinRecorded(r[1..], actual[1..], late, from, length);
    }
  }

  /** In any run, a window holds at most ceil((length + late) / interval) real starts. */
  lemma RunActualBound(nextDue: int, interval: nat, clocks: seq<int>, jobs: seq<Job>, actual: seq<int>, late: nat,
                       from: int, length: nat)
    requires |clocks| == |jobs| && interval > 0
    requires WakesWithin(Starts(nextDue, interval, clocks, jobs), actual, late)
    ensures CountActual(Starts(nextDue, interval, clocks, jobs), actual, from, length)
            <= (length + late + interval - 1) / interval
  {
    ActualWithinRecorded(Starts(nextDue, interval, clocks, jobs), actual, late, from, length);
    RunWindowBound(nextDue, interval, clocks, jobs, from - late, length + late);
  }

  /** The lateness matters: at one job per second, two can really start half a second apart. */
  lemma LateWakeBunches()
    ensures var r := Starts(SECOND, Interval(1), [0, SECOND + SECOND / 2], [Job(false), Job(false)]);
            var actual := [SECOND + SECOND / 2, 2 * SECOND];
            WakesWithin(r, actual, SECOND / 2) && CountActual(r, actual, SECOND + SECOND / 2, SECOND) == 2
  {
    var clocks, jobs := [0, SECOND + SECOND / 2], [Job(false), Job(false)];
    var first, second := Start(SECOND, false), Start(2 * SECOND, false);
    assert Interval(1) == SECOND;
    assert clocks[1..] == [SECOND + SECOND / 2] && jobs[1..] == [Job(false)];
    assert Starts(2 * SECOND, SECOND, clocks[1..], jobs[1..]) == [second];
    assert Starts(SECOND, SECOND, clocks, jobs) == [first] + [second];
    var r, actual := [first] + [second], [SECOND + SECOND / 2, 2 * SECOND];
    assert r[1..] == [second] && actual[1..] == [2 * SECOND];
    assert CountActual([second], [2 * SECOND], SECOND + SECOND / 2, SECOND) == 1;
  }

  // ---------- when the configured rate is kept ----------

  /** What a steady clock shows before each job: never less than the start of the job before. */
  ghost predicate Steady(clocks: seq<int>, r: seq<Start>)
    requires |clocks| == |r|
  {
    forall i :: 0 <= i < |r| - 1 ==> r[i].time <= clocks[i + 1]
  }

  /** In every steady run, no second holds more than `most` recorded starts. */
  ghost predicate AtMostASecond(interval: nat, most: nat) {
    forall nextDue: int, clocks: seq<int>, jobs: seq<Job>, from: int ::
      |clocks| == |jobs| && Steady(clocks, Starts(nextDue, interval, clocks, jobs)) ==>
        CountIn(Starts(nextDue, interval, clocks, jobs), from, 1_000_000_000) <= most
  }

  /** The readings of a worker that never falls behind its due times. */
  function Ticks(due: nat, interval: nat, n: nat): (s: seq<int>)
    ensures |s| == n && (n > 0 ==> s[0] == due)
    decreases n
  {
    if n == 0 then [] else [due] + Ticks(due + interval, interval, n - 1)
  }

  function Busy(n: nat): (s: seq<Job>)
    ensures |s| == n
  {
    if n == 0 then [] else [Job(false)] + Busy(n - 1)
  }

  lemma BacklogStep(due: nat, interval: nat, n: nat)
    requires n > 0
    ensures Starts(due, interval, Ticks(due, interval, n), Busy(n))
            == [Start(due, false)]
               + Starts(due + interval, interval, Ticks(due + interval, interval, n - 1), Busy(n - 1))
  {
    assert Ticks(due, interval, n)[1..] == Ticks(due + interval, interval, n - 1) && Busy(n)[1..] == Busy(n - 1);
  }

  lemma {:induction false} BacklogSteady(due: nat, interval: nat, n: nat)
    ensures Steady(Ticks(due, interval, n), Starts(due, interval, Ticks(due, interval, n), Busy(n)))
    decreases n
  {
    if n > 0 {
      BacklogStep(due, interval, n);
      BacklogSteady(due + interval, interval, n - 1);
    }
  }

  /** A backlog of n jobs starts back to back, one interval after the other. */
  lemma {:induction false} BacklogCount(due: nat, interval: nat, n: nat, length: nat)
    requires n > 0 ==> due + (n - 1) * interval < length
    ensures CountIn(Starts(due, interval, Ticks(due, interval, n), Busy(n)), 0, length) == n
    decreases n
  {
    if n > 0 {
      assert n > 1 ==> (n - 1) * interval == interval + (n - 2) * interval;
      assert due < length by { assert (n - 1) * interval >= 0; }
      BacklogStep(due, interval, n);
      BacklogCount(due + interval, interval, n - 1, length);
    }
  }

  /**
   * With the interval the constructor computes, no second ever holds more than rps recorded starts exactly when rps
   * divides a second's nanoseconds; a rate of 0 allows one.
   */
  lemma RateKeptIff(rps: nat)
    ensures rps > 0 ==> (AtMostASecond(1_000_000_000 / rps, rps) <==> 1_000_000_000 % rps == 0)
    ensures rps == 0 ==> AtMostASecond(Interval(rps), 1)
  {
    if rps == 0 {
      RateKept(1_000_000_000, 1);
    } else {
      var interval := 1_000_000_000 / rps;
      assert SECOND == interval * rps + SECOND % rps;
      if SECOND % rps == 0 {
        assert interval > 0;
        RateKept(interval, rps);
      } else {
        BacklogSteady(0, interval, rps + 1);
        BacklogCount(0, interval, rps + 1, SECOND);
      }
    }
  }

  lemma RateKept(interval: nat, most: nat)
    requires interval > 0 && interval * most == 1_000_000_000
    ensures AtMostASecond(interval, most)
  {
    CeilExact(interval, most);
    forall nextDue: int, clocks: seq<int>, jobs: seq<Job>, from: int
      | |clocks| == |jobs| && Steady(clocks, Starts(nextDue, interval, clocks, jobs))
      ensures CountIn(Starts(nextDue, interval, clocks, jobs), from, SECOND) <= most
    {
      RunWindowBound(nextDue, interval, clocks, jobs, from, SECOND);
    }
  }

  /** Nor is the limiter too slow: a backlog of rps jobs, or of one at a rate of 0, starts within one second. */
  lemma RateReached(rps: nat)
    ensures CountIn(Starts(0, Interval(rps), Ticks(0, Interval(rps), rps), Busy(rps)), 0, 1_000_000_000) == rps
    ensures Interval(rps) * rps <= 1_000_000_000
  {
    var interval := Interval(rps);
    if rps > 0 {
      assert SECOND == interval * rps + SECOND % rps;
      assert interval * rps == (rps - 1) * interval + interval;
      assert interval == 0 ==> (rps - 1) * interval == 0;
    }
    BacklogCount(0, interval, rps, SECOND);
  }

  lemma CeilExact(interval: nat, r: nat)
    requires interval > 0
    ensures CeilDiv(interval * r, interval) == r
  {
    DivUnique(interval * r + interval - 1, interval, r, interval - 1);
  }
}
