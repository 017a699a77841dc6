/**
 The budget that decides which failures are shown live
 (`refill_tokens` and `on_outcome` in crates/rowforge-studio-core/src/aggregator.rs).
 Arithmetic is over the reals; the source uses f32.
 */
module TokenBucket {

  const TOKENS_PER_SEC := 20.0
  const ERROR_BUDGET_RATIO := 0.9

  /** A failure as the sink reports it. */
  datatype FailedAt = FailedAt(at: real, row: nat)

  datatype Bucket = Bucket(tokens: real, lastRefill: real)

  /** The failures' share of the rate: 18 tokens, both the bucket's size and what flows in per second. */
  const FULL := Bucket(18.0, 0.0)

  function Refill(b: Bucket, now: real): Bucket {
    var elapsed := now - b.lastRefill;
    if elapsed > 0.0 then
      var filled := b.tokens + elapsed * 18.0;
      Bucket(if filled < 18.0 then filled else 18.0, now)
    else b
  }

  predicate Affords(b: Bucket, now: real) { Refill(b, now).tokens >= 1.0 }

  function Spend(b: Bucket, now: real): Bucket {
    var r := Refill(b, now);
    if r.tokens >= 1.0 then r.(tokens := r.tokens - 1.0) else r
  }

  /** The bucket after some failures, oldest first. */
  function After(failures: seq<FailedAt>): Bucket {
    if failures == [] then FULL
    else Spend(After(failures[..|failures| - 1]), failures[|failures| - 1].at)
  }

  /** The failures that were shown. */
  function Shown(failures: seq<FailedAt>): seq<FailedAt> {
    if failures == [] then []
    else
      var front, last := failures[..|failures| - 1], failures[|failures| - 1];
      Shown(front) + if Affords(After(front), last.at) then [last] else []
  }

  /** The clock is read under the lock, so the times never go back; it starts at 0. */
  ghost predicate InOrder(failures: seq<FailedAt>) {
    && (forall f :: f in failures ==> f.at >= 0.0)
    && forall i, j :: 0 <= i < j < |failures| ==> failures[i].at <= failures[j].at
  }

  /** How many of some failures fall into a closed interval of time. */
  function CountIn(shown: seq<FailedAt>, from: real, to: real): nat {
    if shown == [] then 0
    else CountIn(shown[..|shown| - 1], from, to) + if from <= shown[|shown| - 1].at <= to then 1 else 0
  }

  lemma CountSnoc(shown: seq<FailedAt>, f: FailedAt, from: real, to: real)
    ensures CountIn(shown + [f], from, to) == CountIn(shown, from, to) + if from <= f.at <= to then 1 else 0
  {
    assert (shown + [f])[..|shown|] == shown;
  }

  lemma {:induction false} BucketBounds(failures: seq<FailedAt>)
    requires InOrder(failures)
    ensures var b := After(failures);
      && 0.0 <= b.tokens <= 18.0 && (failures == [] ==> b == FULL)
      && b.lastRefill == if failures == [] then 0.0 else failures[|failures| - 1].at
  {
    if failures != [] {
      var front, last := failures[..|failures| - 1], failures[|failures| - 1];
      assert last in failures;
      if front != [] { assert front[|front| - 1] == failures[|failures| - 2]; }
      BucketBounds(front);
    }
  }

  /** The last failure comes no earlier than anything before it. */
  lemma LastComesLast(failures: seq<FailedAt>)
    requires failures != [] && InOrder(failures)
    ensures var front, last := failures[..|failures| - 1], failures[|failures| - 1];
      InOrder(front) && After(front).lastRefill <= last.at
  {
    var front, last := failures[..|failures| - 1], failures[|failures| - 1];
    assert last in failures;
    BucketBounds(front);
  }

  lemma Snoc(failures: seq<FailedAt>, f: FailedAt)
    ensures After(failures + [f]) == Spend(After(failures), f.at)
    ensures Shown(failures + [f]) == Shown(failures) + if Affords(After(failures), f.at) then [f] else []
  {
    assert (failures + [f])[..|failures|] == failures;
  }

  /** What was shown since `from`, and what is left in the bucket, has flowed into it since. */
  ghost predicate Paid(b: Bucket, shown: nat, from: real, to: real) {
    && shown as real <= 18.0 + 18.0 * (to - from)
    && (b.lastRefill >= from ==> shown as real + b.tokens <= 18.0 + 18.0 * (b.lastRefill - from))
    && (b.lastRefill < from ==> shown == 0)
  }

  lemma {:induction false} PaidFor(failures: seq<FailedAt>, from: real, to: real)
    requires InOrder(failures) && from <= to
    ensures Paid(After(failures), CountIn(Shown(failures), from, to), from, to)
  {
    if failures != [] {
      var front, last := failures[..|failures| - 1], failures[|failures| - 1];
      LastComesLast(failures);
      assert failures == front + [last];
      hide *;
      PaidFor(front, from, to);
      BucketBounds(front);
      Snoc(front, last);
      CountStep(Shown(front), last, Affords(After(front), last.at), from, to);
      Step(After(front), last.at, from, to, CountIn(Shown(front), from, to));
    }
  }

  lemma CountStep(shown: seq<FailedAt>, f: FailedAt, added: bool, from: real, to: real)
    ensures CountIn(shown + if added then [f] else [], from, to)
         == CountIn(shown, from, to) + if added && from <= f.at <= to then 1 else 0
  {
    if added {
      CountSnoc(shown, f, from, to);
    } else {
      assert shown + [] == shown;
    }
  }

  lemma Step(b: Bucket, now: real, from: real, to: real, before: nat)
    requires 0.0 <= b.tokens <= 18.0 && now >= b.lastRefill && from <= to && Paid(b, before, from, to)
    ensures Paid(Spend(b, now), before + if Affords(b, now) && from <= now <= to then 1 else 0, from, to)
  {
  }

  /** Over any stretch of t seconds at most 18 + 18 t failures are shown. */
  lemma SampleBound(failures: seq<FailedAt>, from: real, t: real)
    requires InOrder(failures) && t >= 0.0
    ensures CountIn(Shown(failures), from, from + t) as real <= 18.0 + 18.0 * t
  {
    PaidFor(failures, from, from + t);
  }

  /** When failures are at least an eighteenth of a second apart every one of them is shown. */
  lemma {:induction false} SparseAllShown(failures: seq<FailedAt>)
    requires InOrder(failures)
    requires forall i :: 0 < i < |failures| ==> failures[i].at - failures[i - 1].at >= 1.0 / 18.0
    ensures Shown(failures) == failures
  {
    if failures != [] {
      var front, last := failures[..|failures| - 1], failures[|failures| - 1];
      SparseAllShown(front);
      BucketBounds(front);
      LastComesLast(failures);
      Snoc(front, last);
      assert failures == front + [last];
      var b := After(front);
      assert front != [] ==> last.at - b.lastRefill >= 1.0 / 18.0 by {
        if front != [] { assert front[|front| - 1] == failures[|failures| - 2]; }
      }
      hide *;
      Recovered(b, last.at, front == []);
    }
  }

  lemma Recovered(b: Bucket, now: real, first: bool)
    requires 0.0 <= b.tokens <= 18.0 && now >= b.lastRefill
    requires if first then b.tokens == 18.0 else now - b.lastRefill >= 1.0 / 18.0
    ensures Affords(b, now)
  {
    if !first {
      assert (now - b.lastRefill) * 18.0 >= 1.0;
    }
  }

  // ------------------------------------------------------------------
  // Exactly which failures are shown
  // ------------------------------------------------------------------

  /** With `x` more at `now`, no stretch of time since one of those shown would hold more than 18 + 18 t of them. */
  ghost predicate Room(shown: seq<FailedAt>, now: real, x: real) {
    && x <= 18.0
    && forall j :: 0 <= j < |shown| ==> x + (|shown| - j) as real <= 18.0 + 18.0 * (now - shown[j].at)
  }

  lemma RoomLater(shown: seq<FailedAt>, last: real, now: real, x: real)
    requires last <= now
    ensures x <= 18.0 && Room(shown, last, x - 18.0 * (now - last)) <==> Room(shown, now, x)
  {
  }

  lemma RoomSnoc(shown: seq<FailedAt>, f: FailedAt, now: real, x: real)
    requires f.at <= now
    ensures x <= 18.0 && Room(shown, f.at, x + 1.0 - 18.0 * (now - f.at)) <==> Room(shown + [f], now, x)
  {
    var more, y := shown + [f], x + 1.0 - 18.0 * (now - f.at);
    if Room(more, now, x) {
      assert more[|shown|] == f;
      forall j | 0 <= j < |shown| ensures y + (|shown| - j) as real <= 18.0 + 18.0 * (f.at - shown[j].at) {
        assert more[j] == shown[j];
      }
    }
    if x <= 18.0 && Room(shown, f.at, y) {
      forall j | 0 <= j < |more| ensures x + (|more| - j) as real <= 18.0 + 18.0 * (now - more[j].at) {
        if j < |shown| { assert more[j] == shown[j]; }
      }
    }
  }

  lemma Refilled(b: Bucket, now: real, x: real)
    requires b.tokens <= 18.0 && b.lastRefill <= now
    ensures Refill(b, now).tokens >= x <==> x <= 18.0 && b.tokens >= x - 18.0 * (now - b.lastRefill)
  {
  }

  /** The bucket holds exactly what there is room for. */
  lemma {:induction false} LevelIff(failures: seq<FailedAt>, now: real, x: real)
    requires InOrder(failures) && now >= 0.0 && forall f :: f in failures ==> f.at <= now
    ensures Refill(After(failures), now).tokens >= x <==> Room(Shown(failures), now, x)
  {
    BucketBounds(failures);
    if failures != [] {
      var front, last := failures[..|failures| - 1], failures[|failures| - 1];
      assert last in failures && failures == front + [last];
      LastComesLast(failures);
      BucketBounds(front);
      forall f | f in front ensures f.at <= last.at { OneBefore(failures, f); }
      Snoc(front, last);
      var b, S := After(front), Shown(front);
      hide *;
      Refilled(Spend(b, last.at), now, x);
      Spent(b, last.at);
      LevelIff(front, last.at, 1.0);
      LevelIff(front, last.at, x - 18.0 * (now - last.at));
      LevelIff(front, last.at, x + 1.0 - 18.0 * (now - last.at));
      RoomLater(S, last.at, now, x);
      RoomSnoc(S, last, now, x);
      assert S + [] == S;
    } else {
      assert Shown(failures) == [];
    }
  }

  lemma OneBefore(failures: seq<FailedAt>, f: FailedAt)
    requires failures != [] && InOrder(failures) && f in failures[..|failures| - 1]
    ensures f.at <= failures[|failures| - 1].at
  {
    var i :| 0 <= i < |failures| - 1 && failures[i] == f;
  }

  lemma Spent(b: Bucket, now: real)
    requires b.lastRefill <= now
    ensures Spend(b, now).lastRefill == now
    ensures Affords(b, now) <==> Refill(b, now).tokens >= 1.0
    ensures Spend(b, now).tokens == Refill(b, now).tokens - if Affords(b, now) then 1.0 else 0.0
  {
  }

  /**
   A failure is shown exactly when it fits: when even with it no stretch of t seconds that ends now holds more
   than 18 + 18 t of those shown.
   */
  lemma SampledIff(failures: seq<FailedAt>, f: FailedAt)
    requires InOrder(failures + [f])
    ensures Shown(failures + [f]) == Shown(failures) +
      var shown := Shown(failures);
      if forall j :: 0 <= j < |shown| ==> (|shown| - j) as real + 1.0 <= 18.0 + 18.0 * (f.at - shown[j].at)
      then [f] else []
  {
    var more := failures + [f];
    assert more[|failures|] == f && f in more;
    forall x | x in failures ensures x in more && x.at <= f.at {
      assert more[..|more| - 1] == failures;
      OneBefore(more, x);
    }
    assert InOrder(failures) by { assert more[..|more| - 1] == failures; LastComesLast(more); }
    LevelIff(failures, f.at, 1.0);
    Snoc(failures, f);
    hide Shown, After, Refill;
  }
}
