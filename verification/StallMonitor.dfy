/**
 The stall detector that watches outcomes.jsonl grow
 (`stall_monitor_task` in crates/rowforge-core/src/jsonl_writer.rs).
 Time is real and starts with the monitor; ticks come exactly one poll interval apart.
 */
module StallMonitor {
  import opened Base

  /** A line appended to the log: when, and how many bytes (a line has at least its newline). */
  datatype Append = Append(at: real, bytes: nat)

  ghost predicate ValidAppends(log: seq<Append>) {
    forall a :: a in log ==> a.at > 0.0 && a.bytes > 0
  }

  /** The byte counter at a time; appends from before the monitor started are in `start`. */
  function BytesAt(start: nat, log: seq<Append>, t: real): nat {
    if log == [] then start
    else BytesAt(start, log[..|log| - 1], t) + if log[|log| - 1].at <= t then log[|log| - 1].bytes else 0
  }

  /** No line was appended after `a` and up to `b`. */
  ghost predicate Quiet(log: seq<Append>, a: real, b: real) {
    forall x :: x in log ==> !(a < x.at <= b)
  }

  /** The counter grows between two readings exactly when a line was appended between them. */
  lemma {:induction false} GrowthIff(start: nat, log: seq<Append>, a: real, b: real)
    requires a <= b && ValidAppends(log)
    ensures BytesAt(start, log, a) <= BytesAt(start, log, b)
    ensures BytesAt(start, log, a) == BytesAt(start, log, b) <==> Quiet(log, a, b)
  {
    if log != [] {
      var front, last := log[..|log| - 1], log[|log| - 1];
      assert log == front + [last];
      GrowthIff(start, front, a, b);
    }
  }

  function TickTime(k: nat, p: real): real { k as real * p }

  lemma TickOrder(i: nat, j: nat, p: real)
    requires i <= j && p > 0.0
    ensures TickTime(i, p) <= TickTime(j, p)
    ensures TickTime(j, p) - TickTime(i, p) == TickTime(j - i, p)
  {
    var d := j - i;
    assert j as real == i as real + d as real;
    assert d as real * p >= 0.0;
  }

  lemma TickStep(k: nat, p: real)
    ensures TickTime(k + 1, p) == TickTime(k, p) + p
  {
    assert (k + 1) as real == k as real + 1.0;
  }

  lemma TickOrderIff(i: nat, j: nat, p: real)
    requires p > 0.0
    ensures TickTime(i, p) < TickTime(j, p) <==> i < j
  {
    if i < j {
      TickOrder(i + 1, j, p);
      TickStep(i, p);
    } else {
      TickOrder(j, i, p);
    }
  }

  /** From tick m to tick j no tick saw growth, and that is more than the timeout. */
  ghost predicate SilentFrom(log: seq<Append>, p: real, timeout: real, m: nat, j: nat) {
    1 <= m <= j && Quiet(log, TickTime(m - 1, p), TickTime(j, p)) && TickTime(j, p) - TickTime(m, p) > timeout
  }

  /** By tick j the log has been silent for too long. */
  ghost predicate LongSilence(log: seq<Append>, p: real, timeout: real, j: nat) {
    exists m: nat :: SilentFrom(log, p, timeout, m, j)
  }

  ghost predicate CancelledBy(cancel: Option<real>, t: real) { cancel.Some? && cancel.value <= t }

  datatype Verdict = Watching | Normal(tick: nat) | Stalled(tick: nat)

  /** What the monitor has concluded after `ticks` polls. */
  ghost predicate Concludes(log: seq<Append>, p: real, timeout: real, cancel: Option<real>, ticks: nat, v: Verdict) {
    match v
    case Watching =>
      && !CancelledBy(cancel, TickTime(ticks, p))
      && forall i :: 0 <= i <= ticks ==> !LongSilence(log, p, timeout, i)
    case Normal(j) =>
      && j <= ticks && CancelledBy(cancel, TickTime(j, p)) && (j > 0 ==> !CancelledBy(cancel, TickTime(j - 1, p)))
      && forall i :: 0 <= i < j ==> !LongSilence(log, p, timeout, i)
    case Stalled(j) =>
      && j <= ticks && !CancelledBy(cancel, TickTime(j, p)) && LongSilence(log, p, timeout, j)
      && forall i :: 0 <= i < j ==> !LongSilence(log, p, timeout, i)
  }

  /** The silence the monitor is timing after tick k: since which tick, and that it is as long as it can be. */
  ghost predicate Timing(log: seq<Append>, p: real, k: nat, stallSince: Option<real>, since: nat) {
    match stallSince
    case None => k > 0 ==> !Quiet(log, TickTime(k - 1, p), TickTime(k, p))
    case Some(t) =>
      && 1 <= since <= k && t == TickTime(since, p)
      && Quiet(log, TickTime(since - 1, p), TickTime(k, p))
      && (since > 1 ==> !Quiet(log, TickTime(since - 2, p), TickTime(since - 1, p)))
  }

  lemma QuietWider(log: seq<Append>, a: real, b: real, c: real, d: real)
    requires a <= b && c <= d && Quiet(log, a, d)
    ensures Quiet(log, b, c)
  {
  }

  /** The timed silence is the longest one, so it alone decides whether the timeout has passed. */
  lemma TimedSilenceDecides(log: seq<Append>, p: real, timeout: real, k: nat, since: nat, stallSince: Option<real>)
    requires p > 0.0 && timeout >= 0.0 && Timing(log, p, k, stallSince, since)
    ensures LongSilence(log, p, timeout, k) <==> stallSince.Some? && TickTime(k, p) - stallSince.value > timeout
  {
    if stallSince.Some? && TickTime(k, p) - stallSince.value > timeout {
      assert SilentFrom(log, p, timeout, since, k);
    }
    if m: nat :| SilentFrom(log, p, timeout, m, k) {
      if stallSince.None? {
        TickOrder(m - 1, k - 1, p);
        QuietWider(log, TickTime(m - 1, p), TickTime(k - 1, p), TickTime(k, p), TickTime(k, p));
      } else if m < since {
        TickOrder(m - 1, since - 2, p);
        TickOrder(since - 1, k, p);
        QuietWider(log, TickTime(m - 1, p), TickTime(since - 2, p), TickTime(since - 1, p), TickTime(k, p));
      } else {
        TickOrder(since, m, p);
      }
    }
  }

  /** `stall_monitor_task`, for as many polls as the caller lets it make. */
  method Watch(start: nat, log: seq<Append>, p: real, timeout: real, cancel: Option<real>, ticks: nat)
    returns (v: Verdict)
    requires p > 0.0 && timeout >= 0.0 && ValidAppends(log)
    ensures Concludes(log, p, timeout, cancel, ticks, v)
  {
    hide LongSilence, Quiet, TickTime;
    var lastBytes := BytesAt(start, log, 0.0);
    var stallSince: Option<real> := None;
    ghost var since := 0;
    NoSilenceAtStart(log, p, timeout);
    if cancel.Some? && cancel.value <= 0.0 { return Normal(0); }
    for k := 0 to ticks
      invariant lastBytes == BytesAt(start, log, TickTime(k, p))
      invariant Timing(log, p, k, stallSince, since)
      invariant Concludes(log, p, timeout, cancel, k, Watching)
    {
      var now := TickTime(k + 1, p);
      TickOrder(k, k + 1, p);
      GrowthIff(start, log, TickTime(k, p), now);
      if cancel.Some? && cancel.value <= now { return Normal(k + 1); }
      var nowBytes := BytesAt(start, log, now);
      if nowBytes > lastBytes {
        stallSince := None;
        lastBytes := nowBytes;
        TimedSilenceDecides(log, p, timeout, k + 1, since, stallSince);
        continue;
      }
      ghost var before := stallSince;
      StaysQuiet(log, p, k, stallSince, since);
      match stallSince {
        case None =>
          stallSince := Some(now);
          since := k + 1;
          TimedSilenceDecides(log, p, timeout, k + 1, since, stallSince);
        case Some(t) =>
          TimedSilenceDecides(log, p, timeout, k + 1, since, stallSince);
          if now - t > timeout { return Stalled(k + 1); }
      }
    }
    v := Watching;
  }

  lemma NoSilenceAtStart(log: seq<Append>, p: real, timeout: real)
    ensures TickTime(0, p) == 0.0 && !LongSilence(log, p, timeout, 0)
  {
  }

  lemma StaysQuiet(log: seq<Append>, p: real, k: nat, stallSince: Option<real>, since: nat)
    requires Timing(log, p, k, stallSince, since) && Quiet(log, TickTime(k, p), TickTime(k + 1, p))
    ensures stallSince.None? ==> Timing(log, p, k + 1, Some(TickTime(k + 1, p)), k + 1)
    ensures stallSince.Some? ==> Timing(log, p, k + 1, stallSince, since)
  {
    hide TickTime;
  }

  // ------------------------------------------------------------------
  // When it stops
  // ------------------------------------------------------------------

  /** It stops of itself at the first tick that finds the cancel, and never reports a stall from then on. */
  lemma CancelStopsIt(log: seq<Append>, p: real, timeout: real, cancel: Option<real>, ticks: nat, v: Verdict)
    requires p > 0.0 && timeout >= 0.0 && Concludes(log, p, timeout, cancel, ticks, v)
    ensures v.Watching? ==> cancel == None || TickTime(ticks, p) < cancel.value
    ensures v.Normal? ==>
      cancel.Some? && cancel.value <= TickTime(v.tick, p) && (v.tick > 0 ==> TickTime(v.tick - 1, p) < cancel.value)
    ensures v.Stalled? ==> cancel == None || TickTime(v.tick, p) < cancel.value
  {
  }

  /** It reports a stall only after a tick interval in which nothing came, and at the first such tick. */
  lemma StallIsFirst(log: seq<Append>, p: real, timeout: real, cancel: Option<real>, ticks: nat, v: Verdict, k: nat)
    requires p > 0.0 && timeout >= 0.0 && Concludes(log, p, timeout, cancel, ticks, v)
    requires 1 <= k && k <= (if v.Watching? then ticks else v.tick)
    requires exists m: nat ::
      && 1 <= m <= k && TickTime(k, p) - TickTime(m, p) > timeout
      && Quiet(log, TickTime(m - 1, p), TickTime(k, p))
    ensures v.Stalled? || (v.Normal? && k == v.tick)
    ensures v.Stalled? ==> k == v.tick
  {
    var m: nat :| 1 <= m <= k && TickTime(k, p) - TickTime(m, p) > timeout
      && Quiet(log, TickTime(m - 1, p), TickTime(k, p));
    assert SilentFrom(log, p, timeout, m, k);
    assert LongSilence(log, p, timeout, k);
    hide TickTime, Quiet, SilentFrom, LongSilence;
  }

  // ------------------------------------------------------------------
  // When it fires
  // ------------------------------------------------------------------

  /** A stall verdict means a real gap of more than the timeout plus one poll, up to the moment of firing. */
  lemma StallMeansGap(log: seq<Append>, p: real, timeout: real, j: nat)
    requires p > 0.0 && timeout >= 0.0 && LongSilence(log, p, timeout, j)
    ensures exists a :: a >= 0.0 && a + timeout + p < TickTime(j, p) && Quiet(log, a, TickTime(j, p))
  {
    var m: nat :| SilentFrom(log, p, timeout, m, j);
    TickStep(m - 1, p);
    TickOrder(0, m - 1, p);
    var a := TickTime(m - 1, p);
    assert a >= 0.0 && a + timeout + p < TickTime(j, p) && Quiet(log, a, TickTime(j, p));
  }

  /** While appends come at most a timeout and a poll apart, counting from the start, no verdict is a stall. */
  lemma NeverWhileGrowing(log: seq<Append>, p: real, timeout: real, cancel: Option<real>, ticks: nat, v: Verdict)
    requires p > 0.0 && timeout >= 0.0 && Concludes(log, p, timeout, cancel, ticks, v)
    requires forall a, b :: 0.0 <= a && a + timeout + p < b <= TickTime(ticks, p) ==> !Quiet(log, a, b)
    ensures !v.Stalled?
  {
    if v.Stalled? {
      StallMeansGap(log, p, timeout, v.tick);
      TickOrder(v.tick, ticks, p);
    }
  }

  /** The first tick at or after a time. */
  function TickAfter(t: real, p: real): (k: nat)
    requires t >= 0.0 && p > 0.0
    ensures t <= TickTime(k, p) < t + p
  {
    var q := (t / p).Floor;
    assert t / p >= 0.0 && t / p * p == t;
    assert q as real <= t / p < q as real + 1.0;
    if q as real == t / p then
      assert TickTime(q, p) == t;
      q
    else
      Scale(q as real, t / p, p);
      assert TickTime(q, p) < t;
      Scale(t / p, q as real + 1.0, p);
      assert (q as real + 1.0) * p == q as real * p + p;
      TickStep(q, p);
      q + 1
  }

  lemma Scale(a: real, b: real, p: real)
    requires a < b && p > 0.0
    ensures a * p < b * p
  {
  }

  /** The number of polls it takes to exceed a timeout. */
  function TicksBeyond(t: real, p: real): (k: nat)
    requires t >= 0.0 && p > 0.0
    ensures t < TickTime(k, p) <= t + p
    ensures k > 0 && TickTime(k - 1, p) <= t
  {
    var k := TickAfter(t, p);
    TickStep(k, p);
    if TickTime(k, p) == t then k + 1
    else
      assert TickTime(0, p) == 0.0;
      TickStep(k - 1, p);
      k
  }

  /** `last` is when the log grew for the last time, 0 if it never did. */
  ghost predicate LastGrowth(log: seq<Append>, last: real) {
    && last >= 0.0
    && (forall x :: x in log ==> x.at <= last)
    && (last > 0.0 ==> exists x :: x in log && x.at == last)
  }

  /** After the last growth the silence counts from the tick that follows the one that saw it. */
  lemma SilenceAfterLast(log: seq<Append>, p: real, timeout: real, last: real, j: nat)
    requires p > 0.0 && timeout >= 0.0 && LastGrowth(log, last) && j >= TickAfter(last, p)
    ensures LongSilence(log, p, timeout, j) <==>
      j > TickAfter(last, p) && TickTime(j, p) - TickTime(TickAfter(last, p) + 1, p) > timeout
  {
    var k0 := TickAfter(last, p);
    if j > k0 && TickTime(j, p) - TickTime(k0 + 1, p) > timeout {
      assert SilentFrom(log, p, timeout, k0 + 1, j);
    }
    if m: nat :| SilentFrom(log, p, timeout, m, j) {
      if m <= k0 {
        TickOrder(m, k0, p);
        TickStep(m - 1, p);
        TickOrder(k0, j, p);
        TickOrder(0, m - 1, p);
        if x :| x in log && x.at == last {}
      } else {
        TickOrder(k0 + 1, m, p);
      }
    }
  }

  /**
   The firing window: unless it fired at or before the tick that saw the last growth, the
   monitor's first stall verdict comes strictly between T + p and T + 3p after that growth.
   */
  lemma FiringWindow(log: seq<Append>, p: real, timeout: real, last: real)
    returns (j: nat)
    requires p > 0.0 && timeout >= 0.0 && LastGrowth(log, last)
    ensures LongSilence(log, p, timeout, j)
    ensures forall i :: TickAfter(last, p) <= i < j ==> !LongSilence(log, p, timeout, i)
    ensures last + timeout + p < TickTime(j, p) < last + timeout + 3.0 * p
  {
    var k0, q := TickAfter(last, p), TicksBeyond(timeout, p);
    j := k0 + 1 + q;
    TickOrder(k0 + 1, j, p);
    TickStep(k0, p);
    SilenceAfterLast(log, p, timeout, last, j);
    forall i | k0 <= i < j ensures !LongSilence(log, p, timeout, i) {
      SilenceAfterLast(log, p, timeout, last, i);
      if i > k0 {
        TickOrder(k0 + 1, i, p);
        TickOrder(i - k0 - 1, q - 1, p);
      }
    }
  }

  /** The verdict: a monitor that is given time and not cancelled reports the stall, inside the window. */
  lemma VerdictInWindow(
      log: seq<Append>, p: real, timeout: real, last: real, cancel: Option<real>, ticks: nat, v: Verdict)
    requires p > 0.0 && timeout >= 0.0 && LastGrowth(log, last) && Concludes(log, p, timeout, cancel, ticks, v)
    requires TickTime(ticks, p) >= last + timeout + 3.0 * p
    requires !CancelledBy(cancel, last + timeout + 3.0 * p)
    requires forall i :: 0 <= i <= TickAfter(last, p) ==> !LongSilence(log, p, timeout, i)
    ensures v.Stalled? && last + timeout + p < TickTime(v.tick, p) < last + timeout + 3.0 * p
  {
    var j := FiringWindow(log, p, timeout, last);
    TickOrderIff(ticks, j, p);
    var until := if v.Watching? then ticks else v.tick;
    TickOrderIff(until, j, p);
    TickOrderIff(j, until, p);
  }
}
