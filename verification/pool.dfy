/** `download_futures` as a state machine. Items are numbered by submission;
    each loop iteration submits the next item and, when exactly
    `download_max` futures are pending, awaits one of them. After the last
    submission the remaining futures are awaited. Which pending future
    completes is the scheduler's choice, so the model takes it as an
    oracle. Outputs are collected in completion order. */
module Pool {
  import opened Wrappers

  /** The item numbers `0 .. n-1`, in submission order. */
  function Range(n: nat): (r: seq<nat>)
    ensures |r| == n
    ensures forall i :: 0 <= i < n ==> r[i] == i
  {
    seq(n, i => i)
  }

  lemma RangeSnoc(n: nat)
    ensures Range(n + 1) == Range(n) + [n]
  {
  }

  /** Every item number below `n` occurs once in `Range(n)`, and no other
      number occurs. */
  lemma {:induction false} RangeOnce(n: nat, i: nat)
    ensures multiset(Range(n))[i] == (if i < n then 1 else 0)
  {
    if n > 0 {
      RangeOnce(n - 1, i);
      RangeSnoc(n - 1);
    }
  }

  /** `next` items submitted so far; `pending` the futures not yet awaited,
      oldest first; `order` the item of each output so far; `peak` the
      largest number of pending futures seen. */
  datatype PoolState = PoolState(next: nat, pending: seq<nat>, order: seq<nat>, peak: nat)

  /** At await number `k`, the future at position `choose(k) % |pending|`
      completes. */
  type Scheduler = nat -> nat

  /** Every submitted item is either pending or has produced its output,
      and never both. */
  predicate Accounted(s: PoolState)
  {
    && multiset(s.order) + multiset(s.pending) == multiset(Range(s.next))
    && |s.order| + |s.pending| == s.next
  }

  /** The bound the submission loop keeps: with `max >= 1` fewer than `max`
      futures are pending after each iteration and never more than `max`
      were; with `max == 0` nothing is awaited during submission. */
  predicate Bounded(s: PoolState, max: nat)
  {
    && (max >= 1 ==> |s.pending| < max && s.peak <= max)
    && (max == 0 ==> s.order == [] && |s.pending| == s.next && s.peak == s.next)
  }

  /** `futures.next().await`: one pending future, chosen by the scheduler,
      produces its output. */
  function Complete(s: PoolState, choose: Scheduler): (r: PoolState)
    requires |s.pending| > 0
    ensures |r.pending| == |s.pending| - 1 && |r.order| == |s.order| + 1
    ensures s.order <= r.order
    ensures multiset(r.order) + multiset(r.pending) == multiset(s.order) + multiset(s.pending)
    ensures r.next == s.next && r.peak == s.peak
  {
    var j := choose(|s.order|) % |s.pending|;
    assert s.pending == s.pending[..j] + [s.pending[j]] + s.pending[j + 1..];
    PoolState(s.next, s.pending[..j] + s.pending[j + 1..], s.order + [s.pending[j]], s.peak)
  }

  /** One iteration of the submission loop: push the next item, and await
      one future when `futures.len() == download_max`. */
  function Submit(s: PoolState, max: nat, choose: Scheduler): (r: PoolState)
    requires Accounted(s) && Bounded(s, max)
    ensures Accounted(r) && Bounded(r, max)
    ensures r.next == s.next + 1
    ensures s.order <= r.order
  {
    var pushed := PoolState(s.next + 1, s.pending + [s.next], s.order,
                            if s.peak < |s.pending| + 1 then |s.pending| + 1 else s.peak);
    PushAccounted(s, pushed);
    if |pushed.pending| == max then Complete(pushed, choose) else pushed
  }

  /** Submitting the next item keeps every item accounted for. */
  lemma PushAccounted(s: PoolState, pushed: PoolState)
    requires Accounted(s)
    requires pushed.next == s.next + 1 && pushed.pending == s.pending + [s.next] && pushed.order == s.order
    ensures Accounted(pushed)
  {
    RangeSnoc(s.next);
    assert multiset(pushed.pending) == multiset(s.pending) + multiset{s.next};
    assert multiset(Range(s.next + 1)) == multiset(Range(s.next)) + multiset{s.next};
  }

  /** The submission loop over the items `s.next .. n-1`. */
  function Fill(s: PoolState, n: nat, max: nat, choose: Scheduler): (r: PoolState)
    requires s.next <= n
    requires Accounted(s) && Bounded(s, max)
    ensures r.next == n
    ensures Accounted(r) && Bounded(r, max)
    ensures s.order <= r.order
    decreases n - s.next
  {
    if s.next == n then s else Fill(Submit(s, max, choose), n, max, choose)
  }

  /** `while let Some(f) = futures.next().await`: await everything left. */
  function Drain(s: PoolState, choose: Scheduler): (r: PoolState)
    ensures |r.pending| == 0
    ensures r.next == s.next && r.peak == s.peak
    ensures s.order <= r.order
    ensures multiset(r.order) == multiset(s.order) + multiset(s.pending)
    decreases |s.pending|
  {
    if |s.pending| == 0 then s else Drain(Complete(s, choose), choose)
  }

  /** `download_futures(items, download_max, ...)` on `n` items: the item of
      each output, in output order. Every item produces exactly one output;
      with `download_max >= 1` at most `download_max` futures are ever
      pending, and with `download_max == 0` the bound never triggers, so all
      `n` items are pending before the first is awaited. */
  function Schedule(n: nat, max: nat, choose: Scheduler): (r: PoolState)
    ensures |r.order| == n
    ensures multiset(r.order) == multiset(Range(n))
    ensures forall k :: 0 <= k < |r.order| ==> r.order[k] < n
    ensures max >= 1 ==> r.peak <= max
    ensures max == 0 ==> r.peak == n
  {
    var filled := Fill(PoolState(0, [], [], 0), n, max, choose);
    var r := Drain(filled, choose);
    assert forall k :: 0 <= k < |r.order| ==> r.order[k] in multiset(Range(n));
    r
  }

  /** Each item number below `n` occurs exactly once among the outputs, and
      nothing else does. */
  lemma ScheduleOnce(n: nat, max: nat, choose: Scheduler, i: nat)
    ensures multiset(Schedule(n, max, choose).order)[i] == (if i < n then 1 else 0)
    ensures i < n ==> i in Schedule(n, max, choose).order
  {
    RangeOnce(n, i);
  }

  /** Every item produces an output. */
  lemma ScheduleCovers(n: nat, max: nat, choose: Scheduler)
    ensures forall i :: 0 <= i < n ==> i in Schedule(n, max, choose).order
  {
    forall i | 0 <= i < n ensures i in Schedule(n, max, choose).order {
      ScheduleOnce(n, max, choose, i);
    }
  }

  /** With `download_max == 1` each future is awaited right after it is
      pushed, so outputs come in submission order whatever the scheduler
      does. */
  lemma {:induction false} FillSequential(s: PoolState, n: nat, choose: Scheduler)
    requires s.next <= n
    requires Accounted(s) && Bounded(s, 1)
    requires s.order == Range(s.next)
    ensures Fill(s, n, 1, choose).order == Range(n)
    decreases n - s.next
  {
    if s.next < n {
      var t := Submit(s, 1, choose);
      assert |s.pending| == 0;
      RangeSnoc(s.next);
      assert t.order == Range(t.next);
      FillSequential(t, n, choose);
    }
  }

  lemma ScheduleSequential(n: nat, choose: Scheduler)
    ensures Schedule(n, 1, choose).order == Range(n)
  {
    FillSequential(PoolState(0, [], [], 0), n, choose);
  }

  /** The loop over the collected outputs: the first error in output
      order, or success when every output is a success. */
  function FirstError<E(==)>(outs: seq<Result<(), E>>): (r: Result<(), E>)
    ensures r.Ok? <==> forall k :: 0 <= k < |outs| ==> outs[k].Ok?
    ensures r.Err? ==> exists k :: 0 <= k < |outs| && outs[k] == r && forall j :: 0 <= j < k ==> outs[j].Ok?
    decreases |outs|
  {
    if |outs| == 0 then Ok(())
    else if outs[0].Err? then outs[0]
    else
      var r := FirstError(outs[1..]);
      assert forall k :: 0 <= k < |outs[1..]| ==> outs[1..][k] == outs[k + 1];
      r
  }

  /** Outputs collected in two batches: an error of the first batch hides
      every output of the second. */
  lemma {:induction false} FirstErrorAppend<E>(a: seq<Result<(), E>>, b: seq<Result<(), E>>)
    ensures FirstError(a + b) == if FirstError(a).Err? then FirstError(a) else FirstError(b)
    decreases |a|
  {
    if |a| == 0 {
      assert a + b == b;
    } else {
      assert (a + b)[0] == a[0] && (a + b)[1..] == a[1..] + b;
      if a[0].Ok? {
        FirstErrorAppend(a[1..], b);
      }
    }
  }
}
