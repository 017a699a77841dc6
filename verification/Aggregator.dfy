/**
 Live progress: counters, sliding rate windows and sampled failures
 (crates/rowforge-studio-core/src/aggregator.rs). Every method runs under the
 aggregator's lock, so any interleaving of callers is a sequence of calls.
 */
module Aggregator {
  import opened Base
  import opened Protocol
  import opened TokenBucket

  function Sum(xs: seq<nat>): nat { if xs == [] then 0 else Sum(xs[..|xs| - 1]) + xs[|xs| - 1] }

  /** `processed` as the k-th tick read it; 0 before the first. */
  function AtTick(ticks: seq<nat>, k: int): nat { if 0 < k <= |ticks| then ticks[k - 1] else 0 }

  ghost predicate Growing(ticks: seq<nat>) {
    forall i, j :: 0 <= i <= j < |ticks| ==> ticks[i] <= ticks[j]
  }

  /** A buffer of w slots holds what each of the last w ticks added. */
  ghost predicate Window(buf: seq<nat>, ticks: seq<nat>) {
    forall i :: 0 <= i < |buf| ==>
      var k := |ticks| - |buf| + 1 + i;
      buf[i] == AtTick(ticks, k) - AtTick(ticks, k - 1)
  }

  lemma {:induction false} WindowSumUpTo(buf: seq<nat>, ticks: seq<nat>, m: nat)
    requires Window(buf, ticks) && m <= |buf|
    ensures Sum(buf[..m]) == AtTick(ticks, |ticks| - |buf| + m) - AtTick(ticks, |ticks| - |buf|)
  {
    if m > 0 {
      WindowSumUpTo(buf, ticks, m - 1);
      assert buf[..m][..m - 1] == buf[..m - 1];
    }
  }

  /** The slots always add up to the progress since as many ticks ago. */
  lemma WindowSum(buf: seq<nat>, ticks: seq<nat>)
    requires Window(buf, ticks)
    ensures Sum(buf) == AtTick(ticks, |ticks|) - AtTick(ticks, |ticks| - |buf|)
  {
    WindowSumUpTo(buf, ticks, |buf|);
    assert buf[..|buf|] == buf;
  }

  lemma WindowSlides(buf: seq<nat>, ticks: seq<nat>, processed: nat)
    requires |buf| > 0 && Window(buf, ticks) && AtTick(ticks, |ticks|) <= processed
    ensures Window(buf[1..] + [processed - AtTick(ticks, |ticks|)], ticks + [processed])
  {
    var slid, more := buf[1..] + [processed - AtTick(ticks, |ticks|)], ticks + [processed];
    forall i | 0 <= i < |slid|
      ensures slid[i] == AtTick(more, |more| - |slid| + 1 + i) - AtTick(more, |more| - |slid| + i)
    {
      if i < |slid| - 1 {
        assert slid[i] == buf[i + 1];
        var k := |ticks| - |buf| + 1 + (i + 1);
        assert AtTick(more, k) == AtTick(ticks, k) && AtTick(more, k - 1) == AtTick(ticks, k - 1);
      }
    }
  }

  lemma TicksSnoc(ticks: seq<nat>, processed: nat)
    requires Growing(ticks) && AtTick(ticks, |ticks|) <= processed
    ensures Growing(ticks + [processed])
    ensures AtTick(ticks + [processed], |ticks| + 1) == processed
  {
  }

  /** `rotate_left(1)` on a slice. */
  method RotateLeft(a: array<nat>)
    requires a.Length > 0
    modifies a
    ensures a[..] == old(a[1..]) + [old(a[0])]
  {
    var first := a[0];
    for i := 1 to a.Length
      invariant forall k :: 0 <= k < i - 1 ==> a[k] == old(a[k + 1])
      invariant forall k :: i - 1 <= k < a.Length ==> a[k] == old(a[k])
    {
      a[i - 1] := a[i];
    }
    a[a.Length - 1] := first;
  }

  method Total(a: array<nat>) returns (sum: nat)
    ensures sum == Sum(a[..])
  {
    sum := 0;
    for i := 0 to a.Length
      invariant sum == Sum(a[..i])
    {
      assert a[..i + 1][..i] == a[..i];
      sum := sum + a[i];
    }
    assert a[..a.Length] == a[..];
  }

  class ProgressAggregator {
    var processed: nat
    var success: nat
    var failed: nat
    var crashed: nat
    var tickSeq: nat
    const rate1sBuf: array<nat>
    const rate10sBuf: array<nat>
    var lastProcessedForRate: nat
    var errorTokens: real
    var lastTokenRefill: real
    /** The rows whose failures were broadcast as samples, oldest first. */
    var samples: seq<nat>

    ghost var succeeded: nat
    ghost var failures: seq<FailedAt>
    ghost var ticks: seq<nat>

    /** Every outcome is counted once, under its kind. */
    ghost predicate Counted() reads this {
      && success == succeeded && failed + crashed == |failures|
      && processed == success + failed + crashed
      && lastProcessedForRate <= processed
    }

    /** The bucket is where the failures so far put it, and exactly the shown ones were broadcast. */
    ghost predicate Sampled() reads this`errorTokens, this`lastTokenRefill, this`samples, this`failures {
      && Bucket(errorTokens, lastTokenRefill) == After(failures)
      && InOrder(failures)
      && samples == Rows(Shown(failures))
    }

    /** Both buffers hold the last ticks' increments. */
    ghost predicate Sliding()
      reads this`tickSeq, this`ticks, this`lastProcessedForRate, rate1sBuf, rate10sBuf
    {
      && rate1sBuf != rate10sBuf && rate1sBuf.Length == 4 && rate10sBuf.Length == 40
      && tickSeq == |ticks| && Growing(ticks)
      && lastProcessedForRate == AtTick(ticks, |ticks|)
      && Window(rate1sBuf[..], ticks) && Window(rate10sBuf[..], ticks)
    }

    ghost predicate Valid() reads this, rate1sBuf, rate10sBuf {
      Counted() && Sampled() && Sliding()
    }

    static function Rows(shown: seq<FailedAt>): (r: seq<nat>)
      ensures |r| == |shown|
    {
      seq(|shown|, i requires 0 <= i < |shown| => shown[i].row)
    }

    static lemma RowsSnoc(shown: seq<FailedAt>, f: FailedAt)
      ensures Rows(shown + [f]) == Rows(shown) + [f.row]
    {
    }

    static lemma Recorded(failures: seq<FailedAt>, f: FailedAt)
      requires InOrder(failures) && f.at >= After(failures).lastRefill
      ensures InOrder(failures + [f])
    {
      BucketBounds(failures);
      hide After;
      var more := failures + [f];
      forall i, j | 0 <= i < j < |more| ensures more[i].at <= more[j].at {
        assert failures != [] ==> failures[if i < |failures| then i else 0].at <= failures[|failures| - 1].at;
      }
    }

    constructor ()
      ensures Valid() && fresh(rate1sBuf) && fresh(rate10sBuf)
      ensures succeeded == 0 && failures == [] && ticks == []
    {
      processed, success, failed, crashed, tickSeq, lastProcessedForRate := 0, 0, 0, 0, 0, 0;
      rate1sBuf := new nat[4](_ => 0);
      rate10sBuf := new nat[40](_ => 0);
      errorTokens, lastTokenRefill := TOKENS_PER_SEC * ERROR_BUDGET_RATIO, 0.0;
      samples := [];
      succeeded, failures, ticks := 0, [], [];
    }

    method RefillTokens(now: real)
      modifies this`errorTokens, this`lastTokenRefill
      ensures Bucket(errorTokens, lastTokenRefill) == Refill(Bucket(old(errorTokens), old(lastTokenRefill)), now)
    {
      var elapsed := now - lastTokenRefill;
      if elapsed > 0.0 {
        var refill := elapsed * TOKENS_PER_SEC;
        var errCap := TOKENS_PER_SEC * ERROR_BUDGET_RATIO;
        var filled := errorTokens + refill * ERROR_BUDGET_RATIO;
        errorTokens := if filled < errCap then filled else errCap;
        lastTokenRefill := now;
      }
    }

    /** Refill, then take a token if there is a whole one. */
    method TakeToken(now: real) returns (emit: bool)
      modifies this`errorTokens, this`lastTokenRefill
      ensures emit == Affords(Bucket(old(errorTokens), old(lastTokenRefill)), now)
      ensures Bucket(errorTokens, lastTokenRefill) == Spend(Bucket(old(errorTokens), old(lastTokenRefill)), now)
    {
      RefillTokens(now);
      emit := errorTokens >= 1.0;
      if emit { errorTokens := errorTokens - 1.0; }
    }

    /** A failed row: always counted, shown only when the bucket affords it. */
    method OnOutcome(row: nat, kind: RowOutcomeKind, now: real)
      requires Valid() && now >= lastTokenRefill
      modifies this
      ensures Valid() && failures == old(failures) + [FailedAt(now, row)]
      ensures succeeded == old(succeeded) && ticks == old(ticks)
      ensures crashed == old(crashed) + if kind.KindCrash? then 1 else 0
    {
      hide After, Shown, Spend, Affords, Rows, InOrder, Sliding;
      ghost var f := FailedAt(now, row);
      Recorded(failures, f);
      Snoc(failures, f);
      processed := processed + 1;
      match kind {
        case KindError => failed := failed + 1;
        case KindCrash => crashed := crashed + 1;
        case KindTooLarge => failed := failed + 1;
      }
      var emit := TakeToken(now);
      if emit {
        RowsSnoc(Shown(failures), f);
        samples := samples + [row];
      } else {
        assert Shown(failures) + [] == Shown(failures);
      }
      failures := failures + [f];
    }

    /** A succeeded row: counted, never sampled. */
    method OnOutcomeSuccess()
      requires Valid()
      modifies this
      ensures Valid() && succeeded == old(succeeded) + 1
      ensures failures == old(failures) && ticks == old(ticks) && samples == old(samples)
    {
      processed := processed + 1;
      success := success + 1;
      succeeded := succeeded + 1;
    }

    method ComposeTick() returns (seqNo: nat, rate1s: real, rate10s: real)
      requires Valid()
      modifies this, rate1sBuf, rate10sBuf
      ensures Valid() && ticks == old(ticks) + [processed] && seqNo == |ticks|
      ensures processed == old(processed) && failures == old(failures) && succeeded == old(succeeded)
      ensures rate1s == (processed - AtTick(ticks, |ticks| - 4)) as real
      ensures rate10s == (processed - AtTick(ticks, |ticks| - 40)) as real / 10.0
    {
      hide Window, Growing, After, Shown, InOrder, Sum;
      TicksSnoc(ticks, processed);
      tickSeq := tickSeq + 1;
      seqNo := tickSeq;
      var delta := processed - Min(lastProcessedForRate, processed);
      lastProcessedForRate := processed;
      WindowSlides(rate1sBuf[..], ticks, processed);
      WindowSlides(rate10sBuf[..], ticks, processed);
      Push(rate1sBuf, delta);
      Push(rate10sBuf, delta);
      ticks := ticks + [processed];
      var sum1 := Total(rate1sBuf);
      var sum10 := Total(rate10sBuf);
      WindowSum(rate1sBuf[..], ticks);
      WindowSum(rate10sBuf[..], ticks);
      rate1s, rate10s := sum1 as real, sum10 as real / 10.0;
    }

    /** The rate `snapshot` reports between ticks is the last tick's. */
    method Snapshot() returns (rate10s: real)
      requires Valid()
      ensures rate10s == (AtTick(ticks, |ticks|) - AtTick(ticks, |ticks| - 40)) as real / 10.0
    {
      var sum := Total(rate10sBuf);
      WindowSum(rate10sBuf[..], ticks);
      rate10s := sum as real / 10.0;
    }
  }

  /** Slide a window by one slot. */
  method Push(buf: array<nat>, delta: nat)
    requires buf.Length > 0
    modifies buf
    ensures buf[..] == old(buf[1..]) + [delta]
  {
    RotateLeft(buf);
    buf[buf.Length - 1] := delta;
  }
}
