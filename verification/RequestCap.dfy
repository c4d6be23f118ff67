/**
 * What the request-cap counter guarantees over all runs (internal/counter/counter.go): the cap, when it
 * is one, and that refills have one winner and are spaced.
 */
module RequestCap {
  import opened Prelude
  import opened RequestCounter

  /** The most a counter with this configuration may grant, net, while all clocks are at or below `horizon`. */
  function Cap(row: Row, initial: int, horizon: int): int
    requires row.Configured() ==> row.refillInterval.value.length > 0
  {
    Max0(initial) +
    if row.Configured() then (horizon - row.createdAt) / row.refillInterval.value.length * row.Quota() else 0
  }

  /** At most floor((horizon - created)/interval) refills, at most that many reseeds, and the cap. */
  lemma InvImpliesCap(a: Account, initial: int)
    requires Inv(a, initial) && Spaced(a)
    requires a.row.Configured() ==> a.row.refillInterval.value.length > 0
    ensures a.row.Configured() ==>
      a.reseeds <= |a.stamps| <= (a.horizon - a.row.createdAt) / a.row.refillInterval.value.length
    ensures a.grants - a.undos <= Cap(a.row, initial, a.horizon)
  {
    if a.row.Configured() {
      var d := a.row.refillInterval.value.length;
      var n := |a.stamps|;
      if n > 0 {
        assert a.stamps[n - 1] >= a.row.createdAt + n * d;
      }
      QuotientBound(n, d, a.horizon - a.row.createdAt);
      ProductMonotone(a.reseeds, (a.horizon - a.row.createdAt) / d, a.row.Quota());
    } else {
      assert a.reseeds == 0;
    }
  }

  /** Refills are spaced: the k-th stamp is at least k+1 intervals after creation, so their number is
      bounded by the intervals elapsed, and Redis is reseeded at most once per winning UPDATE. */
  lemma RefillsAreSpaced(a: Account, steps: seq<Step>, initial: int)
    requires Unused(a, initial) && Runs(a, steps)
    requires a.row.Configured() && a.row.refillInterval.value.length > 0
    ensures
      var b := After(a, steps);
      var d := a.row.refillInterval.value.length;
      && (forall k | 0 <= k < |b.stamps| :: b.stamps[k] >= a.row.createdAt + (k + 1) * d)
      && b.reseeds <= |b.stamps| <= (b.horizon - a.row.createdAt) / d
  {
    assert Winners(a.attempts) == {};
    RunKeepsInv(a, steps, initial);
    RunKeepsSpacing(a, steps, initial);
    InvImpliesCap(After(a, steps), initial);
  }

  /** Main theorem: net grants never exceed the initial seed plus one amount per elapsed interval,
      for any interleaving of instances, late or lost reseeds, evictions and skewed clocks. */
  lemma NetGrantsAreBounded(a: Account, steps: seq<Step>, initial: int)
    requires Unused(a, initial) && Runs(a, steps)
    requires a.row.Configured() ==> a.row.refillInterval.value.length > 0
    ensures After(a, steps).grants - After(a, steps).undos <= Cap(a.row, initial, After(a, steps).horizon)
  {
    assert Winners(a.attempts) == {};
    RunKeepsInv(a, steps, initial);
    RunKeepsSpacing(a, steps, initial);
    InvImpliesCap(After(a, steps), initial);
  }

  /** One winner: once an UPDATE succeeded, no attempt that saw the same effective refill time can ever
      succeed, whatever happens in between. */
  lemma SnapshotWinsOnce(
    a: Account, winner: nat, now: int, steps: seq<Step>, loser: nat, later: int, initial: int)
    requires Inv(a, initial) && Spaced(a)
    requires a.row.Configured() && a.row.refillInterval.value.length > 0
    requires Enabled(a, Swap(winner, now)) && Apply(a, Swap(winner, now)).stamps != a.stamps
    requires Runs(Apply(a, Swap(winner, now)), steps)
    requires
      var b := After(Apply(a, Swap(winner, now)), steps);
      && Enabled(b, Swap(loser, later))
      && b.attempts[loser].snapshot.EffectiveRefill() == a.attempts[winner].snapshot.EffectiveRefill()
    ensures
      var b := After(Apply(a, Swap(winner, now)), steps);
      Apply(b, Swap(loser, later)) == b.(attempts := b.attempts - {loser})
  {
    var c := Apply(a, Swap(winner, now));
    var b := After(c, steps);
    StepKeepsInv(a, Swap(winner, now), initial);
    StepKeepsSpacing(a, Swap(winner, now), initial);
    RunKeepsInv(c, steps, initial);
    EffectiveRefillNeverDecreases(c, steps, initial);
    assert b.row.lastRefillAt.Some?;
  }

  lemma {:induction false} EffectiveRefillNeverDecreases(a: Account, steps: seq<Step>, initial: int)
    requires Inv(a, initial) && Spaced(a) && Runs(a, steps)
    requires a.row.Configured() ==> a.row.refillInterval.value.length > 0
    ensures a.row.EffectiveRefill() <= After(a, steps).row.EffectiveRefill()
    ensures |a.stamps| <= |After(a, steps).stamps|
    decreases |steps|
  {
    if steps != [] {
      StepKeepsInv(a, steps[0], initial);
      StepKeepsSpacing(a, steps[0], initial);
      EffectiveRefillNeverDecreases(Apply(a, steps[0]), steps[1..], initial);
    }
  }

  // ---------------------------------------------------------------- Is the cap a cap at all?

  /** Every run that stays within `horizon` grants at most `bound` net requests. */
  ghost predicate CappedBy(a: Account, horizon: int, bound: int) {
    forall steps | Runs(a, steps) && After(a, steps).horizon <= horizon ::
      After(a, steps).grants - After(a, steps).undos <= bound
  }

  /**
   * time.ParseDuration accepts "0s" and "-1h", and nothing else rejects them. The cap is then no cap:
   * a configured counter has some finite bound within a fixed time exactly when its interval is
   * positive or its refill amount is not.
   */
  lemma CappedExactlyWhen(a: Account, initial: int)
    requires Unused(a, initial) && a.row.Configured()
    ensures (exists bound :: CappedBy(a, a.horizon, bound))
       <==> (a.row.refillInterval.value.length > 0 || a.row.refillAmount.value <= 0)
  {
    var d := a.row.refillInterval.value.length;
    if d > 0 || a.row.refillAmount.value <= 0 {
      var bound := Max0(initial) + (if d > 0 then (a.horizon - a.row.createdAt) / d * a.row.Quota() else 0);
      forall steps | Runs(a, steps) && After(a, steps).horizon <= a.horizon
        ensures After(a, steps).grants - After(a, steps).undos <= bound
      {
        HorizonNeverDecreases(a, steps);
        if d > 0 {
          NetGrantsAreBounded(a, steps, initial);
        } else {
          assert Winners(a.attempts) == {};
          RunKeepsInv(a, steps, initial);
          assert After(a, steps).reseeds * 0 == 0;
        }
      }
      assert CappedBy(a, a.horizon, bound);
    } else if exists bound :: CappedBy(a, a.horizon, bound) {
      var bound :| CappedBy(a, a.horizon, bound);
      var steps := GrantForever(a, Max0(bound) + 1);
      assert false;
    }
  }

  lemma {:induction false} HorizonNeverDecreases(a: Account, steps: seq<Step>)
    requires Runs(a, steps)
    ensures a.horizon <= After(a, steps).horizon
    decreases |steps|
  {
    if steps != [] {
      HorizonNeverDecreases(Apply(a, steps[0]), steps[1..]);
    }
  }

  /** With an interval of zero or less and a positive amount, one instance can refill and grant n times
      without its clock moving. */
  lemma {:induction false} GrantForever(a: Account, n: nat) returns (steps: seq<Step>)
    requires a.row.Configured() && a.row.refillInterval.value.length <= 0 && a.row.refillAmount.value > 0
    requires a.attempts == map[] && a.row.EffectiveRefill() <= a.horizon
    ensures Runs(a, steps)
    ensures After(a, steps).horizon == a.horizon
    ensures After(a, steps).undos == a.undos && After(a, steps).grants == a.grants + n
    decreases n
  {
    if n == 0 {
      steps := [];
    } else {
      var s1 := Load(0);
      var a1 := Apply(a, s1);
      var s2 := Swap(0, a.horizon);
      var a2 := Apply(a1, s2);
      assert a2.attempts[0] == Won(a.row.refillAmount.value);
      var s3 := Reseed(0, a.horizon);
      var a3 := Apply(a2, s3);
      assert a3.key.value.LiveAt(a3.redisNow);
      var a4 := Apply(a3, Decrement);
      assert a4.grants == a.grants + 1;
      assert a4.attempts == map[];
      var rest := GrantForever(a4, n - 1);
      RunPrepend(a3, Decrement, rest);
      RunPrepend(a2, s3, [Decrement] + rest);
      RunPrepend(a1, s2, [s3] + ([Decrement] + rest));
      RunPrepend(a, s1, [s2] + ([s3] + ([Decrement] + rest)));
      steps := [s1] + ([s2] + ([s3] + ([Decrement] + rest)));
    }
  }
}
