/**
 * What the request-cap counter owes its callers (internal/counter/counter.go): no unit is lost, and with
 * a refill at every interval the cap is reached.
 */
module RequestGrants {
  import opened Prelude
  import opened RequestCounter
  import RequestCap

  predicate LiveKey(a: Account) { a.key.Some? && a.key.value.LiveAt(a.redisNow) }

  /** On a live key a decrement takes from the value exactly what it grants. */
  lemma DecrementLosesNothing(a: Account)
    requires LiveKey(a)
    ensures Potential(Apply(a, Decrement)) == Potential(a)
    ensures Apply(a, Decrement).grants == a.grants + (if a.key.value.value > 0 then 1 else 0)
    ensures Apply(a, Decrement).key.Some? && Apply(a, Decrement).key.value.deadline == a.key.value.deadline
  {
  }

  /** On a live key whose value is not negative an undo gives back exactly one unit. */
  lemma UndoLosesNothing(a: Account)
    requires LiveKey(a) && a.key.value.value >= 0
    ensures Potential(Apply(a, Undo)) == Potential(a)
    ensures Apply(a, Undo).key == Some(Entry(a.key.value.value + 1, a.key.value.deadline))
  {
  }

  // ---------------------------------------------------------------- Draining a counter

  function Decrements(steps: seq<Step>): nat {
    if steps == [] then 0 else (if steps[0] == Decrement then 1 else 0) + Decrements(steps[1..])
  }

  /** Nothing but decrements touches the key: it is not evicted, reseeded or given a unit back. */
  predicate OnlyDrains(steps: seq<Step>) {
    forall step | step in steps :: step != Evict && step != Undo && !step.Reseed?
  }

  function Min(m: nat, n: nat): nat { if m < n then m else n }

  lemma {:induction false} KeyNeverRevives(a: Account, steps: seq<Step>)
    requires Runs(a, steps) && OnlyDrains(steps) && LiveKey(After(a, steps))
    ensures LiveKey(a) && After(a, steps).key.value.deadline == a.key.value.deadline
    decreases |steps|
  {
    if steps != [] {
      assert steps[0] in steps;
      KeyNeverRevives(Apply(a, steps[0]), steps[1..]);
    }
  }

  /**
   * Main theorem: whatever the instances do in between, k decrements of a counter that holds n grant
   * exactly min(n, k) requests, as long as its key is neither evicted, expired, reseeded nor given
   * units back; the rest of n stays in the key.
   */
  lemma {:induction false} DecrementsGrantTheRest(a: Account, steps: seq<Step>)
    requires Runs(a, steps) && OnlyDrains(steps) && LiveKey(After(a, steps))
    ensures LiveKey(a)
    ensures
      var b := After(a, steps);
      var granted := Min(Max0(a.key.value.value), Decrements(steps));
      && b.grants == a.grants + granted && b.undos == a.undos
      && b.key.value.value == a.key.value.value - granted
    decreases |steps|
  {
    KeyNeverRevives(a, steps);
    if steps != [] {
      assert steps[0] in steps;
      DecrementsGrantTheRest(Apply(a, steps[0]), steps[1..]);
    }
  }

  // ---------------------------------------------------------------- The cap is reached

  /** A counter between two refills: seeded for good, everything used up, no attempt in progress. */
  predicate UsedUp(a: Account, amount: nat, length: int) {
    && a.key == Some(Entry(0, None)) && a.attempts == map[] && a.undos == 0
    && a.row.owner == Credential && a.row.refillAmount == Some(amount) && a.row.refillInterval == Some(Every(length))
    && a.horizon == (if a.row.lastRefillAt.Some? then a.row.lastRefillAt.value else a.row.createdAt)
  }

  function Repeat(n: nat): seq<Step> {
    if n == 0 then [] else [Decrement] + Repeat(n - 1)
  }

  lemma {:induction false} Drain(a: Account, n: nat)
    requires a.key == Some(Entry(n, None))
    ensures Runs(a, Repeat(n))
    ensures After(a, Repeat(n)) == a.(key := Some(Entry(0, None)), grants := a.grants + n)
    decreases n
  {
    if n > 0 {
      Drain(Apply(a, Decrement), n - 1);
      RunPrepend(a, Decrement, Repeat(n - 1));
    }
  }

  /** One interval later one instance refills the counter. */
  lemma RefillOnTime(a: Account, amount: nat, length: int) returns (steps: seq<Step>)
    requires UsedUp(a, amount, length) && length > 0
    ensures Runs(a, steps)
    ensures
      var b := After(a, steps);
      && b.key == Some(Entry(amount, None)) && b.grants == a.grants && b.horizon == a.horizon + length
      && b == a.(key := b.key, horizon := b.horizon, reseeds := b.reseeds, stamps := b.stamps,
                 row := a.row.(remaining := Some(amount), lastRefillAt := Some(b.horizon)))
  {
    var now := a.horizon + length;
    var a1 := Apply(a, Advance(now, a.redisNow));
    var a2 := Apply(a1, Load(0));
    var a3 := Apply(a2, Swap(0, now));
    assert a3.attempts == map[0 := Won(amount)];
    var a4 := Apply(a3, Reseed(0, now));
    assert a4.attempts == map[];
    RunPrepend(a3, Reseed(0, now), []);
    RunPrepend(a2, Swap(0, now), [Reseed(0, now)]);
    RunPrepend(a1, Load(0), [Swap(0, now)] + [Reseed(0, now)]);
    RunPrepend(a, Advance(now, a.redisNow), [Load(0)] + ([Swap(0, now)] + [Reseed(0, now)]));
    steps := [Advance(now, a.redisNow)] + ([Load(0)] + ([Swap(0, now)] + [Reseed(0, now)]));
  }

  lemma {:induction false} RunsJoin(a: Account, steps: seq<Step>, more: seq<Step>)
    requires Runs(a, steps) && Runs(After(a, steps), more)
    ensures Runs(a, steps + more) && After(a, steps + more) == After(After(a, steps), more)
    decreases |steps|
  {
    if steps == [] {
      assert [] + more == more;
    } else {
      RunsJoin(Apply(a, steps[0]), steps[1..], more);
      assert (steps + more)[1..] == steps[1..] + more;
    }
  }

  lemma {:induction false} RefillAndDrain(a: Account, amount: nat, length: int, n: nat) returns (steps: seq<Step>)
    requires UsedUp(a, amount, length) && length > 0
    ensures Runs(a, steps)
    ensures
      var b := After(a, steps);
      && UsedUp(b, amount, length) && b.row.SameConfiguration(a.row)
      && b.horizon == a.horizon + n * length && b.grants == a.grants + n * amount
    decreases n
  {
    if n == 0 {
      steps := [];
    } else {
      var refill := RefillOnTime(a, amount, length);
      var b := After(a, refill);
      Drain(b, amount);
      RunsJoin(a, refill, Repeat(amount));
      var c := After(b, Repeat(amount));
      var more := RefillAndDrain(c, amount, length, n - 1);
      RunsJoin(a, refill + Repeat(amount), more);
      steps := (refill + Repeat(amount)) + more;
      assert n * length == length + (n - 1) * length && n * amount == amount + (n - 1) * amount;
    }
  }

  /**
   * Main theorem: the cap is reached. A credential's counter seeded with its initial value and refilled
   * at every interval grants, n intervals after creation, exactly what `Cap` allows.
   */
  lemma CapIsReached(a: Account, initial: nat, amount: nat, length: int, n: nat) returns (steps: seq<Step>)
    requires Unused(a, initial) && a.key == Some(Entry(initial, None)) && a.horizon == a.row.createdAt
    requires a.row.owner == Credential && length > 0
    requires a.row.refillAmount == Some(amount) && a.row.refillInterval == Some(Every(length))
    ensures Runs(a, steps)
    ensures
      var b := After(a, steps);
      && b.horizon == a.row.createdAt + n * length && b.undos == 0
      && b.grants == initial + n * amount == RequestCap.Cap(a.row, initial, b.horizon)
  {
    Drain(a, initial);
    var b := After(a, Repeat(initial));
    var more := RefillAndDrain(b, amount, length, n);
    RunsJoin(a, Repeat(initial), more);
    steps := Repeat(initial) + more;
    WholeIntervals(n, length);
  }

  lemma WholeIntervals(n: nat, length: int)
    requires length > 0
    ensures n * length / length == n
  {
    var q := n * length / length;
    QuotientBound(n, length, n * length);
    assert q * length <= n * length;
    if q > n {
      ProductMonotone(n + 1, q, length);
      assert (n + 1) * length == n * length + length;
    }
  }
}
