/**
 * Request-cap counters (internal/counter/counter.go): a Redis counter per credential or token,
 * refilled lazily by whichever instance wins a compare-and-swap on the Postgres row.
 *
 * The first half gives the atomic Redis and Postgres operations and the states of one counter under
 * any interleaving of instances; the second half is what every step keeps.
 */
module RequestCounter {
  import opened Prelude

  // One tick is one microsecond, the resolution of a Postgres timestamp.
  const MINUTE: int := 60_000_000

  // ---------------------------------------------------------------- Redis

  /** A counter key in Redis. `deadline` is the key's expiry time; None means it never expires. */
  datatype Entry = Entry(value: int, deadline: Option<int>) {
    predicate LiveAt(now: int) {
      deadline.None? || now <= deadline.value
    }
  }

  datatype DecrementResult = DecrOK | DecrExhausted | DecrNoCap

  function Current(key: Option<Entry>, now: int): Option<Entry> {
    if key.Some? && key.value.LiveAt(now) then key else None
  }

  /** SET with a TTL: a positive TTL gives the key a deadline, any other TTL leaves it without one. */
  function Seeded(value: int, ttl: int, now: int): Entry {
    Entry(value, if ttl > 0 then Some(now + ttl) else None)
  }

  /** The Lua script: missing key, exhausted key, or one unit taken, in one atomic step. */
  function Decremented(key: Option<Entry>, now: int): (DecrementResult, Option<Entry>) {
    match Current(key, now)
    case None => (DecrNoCap, None)
    case Some(e) =>
      if e.value <= 0 then (DecrExhausted, Some(e)) else (DecrOK, Some(e.(value := e.value - 1)))
  }

  /** INCR: a missing key counts from zero and gets no deadline; an existing one keeps its own. */
  function Incremented(key: Option<Entry>, now: int): Option<Entry> {
    match Current(key, now)
    case None => Some(Entry(1, None))
    case Some(e) => Some(e.(value := e.value + 1))
  }

  // ---------------------------------------------------------------- Postgres

  /** The stored duration text after time.ParseDuration: unreadable, or a length of either sign. */
  datatype Interval = Malformed | Every(length: int)

  datatype Owner = Credential | Token(expiresAt: int)

  datatype Row = Row(
    owner: Owner,
    createdAt: int,
    lastRefillAt: Option<int>,
    remaining: Option<int>,
    refillAmount: Option<int>,
    refillInterval: Option<Interval>)
  {
    /** coalesce(last_refill_at, created_at) */
    function EffectiveRefill(): int {
      if lastRefillAt.Some? then lastRefillAt.value else createdAt
    }

    predicate Configured() {
      refillAmount.Some? && refillInterval.Some? && refillInterval.value.Every?
    }

    /** A refill computed from this snapshot of the row is due at `now`. */
    predicate Due(now: int)
      requires Configured()
    {
      now - EffectiveRefill() >= refillInterval.value.length
    }

    /** What one refill may add to the counter: the amount, or nothing when it is absent or negative. */
    function Quota(): nat {
      if refillAmount.Some? then Max0(refillAmount.value) else 0
    }

    predicate SameConfiguration(other: Row) {
      this.(lastRefillAt := None, remaining := None) == other.(lastRefillAt := None, remaining := None)
    }
  }

  /** The WHERE clause of the refill UPDATE, evaluated on the stored row. */
  predicate UpdateMatches(stored: Row, snapshot: Row) {
    var lastRefill := snapshot.EffectiveRefill();
    || stored.lastRefillAt == Some(lastRefill)
    || (stored.lastRefillAt.None? && lastRefill == snapshot.createdAt)
  }

  function Refilled(row: Row, amount: int, now: int): Row {
    row.(remaining := Some(amount), lastRefillAt := Some(now))
  }

  /** The TTL a winning refill gives the Redis key: none for a credential; for a token the time left
      plus a minute (never less than a minute), to which SeedToken adds one more minute. */
  function ReseedTTL(owner: Owner, now: int): int {
    match owner
    case Credential => 0
    case Token(expiresAt) =>
      var left := expiresAt - now + MINUTE;
      (if left < 0 then MINUTE else left) + MINUTE
  }

  /** The UPDATE is a compare-and-swap on the effective last-refill time. */
  lemma UpdateIsCompareAndSwap(stored: Row, snapshot: Row)
    requires stored.createdAt == snapshot.createdAt
    ensures UpdateMatches(stored, snapshot) <==> stored.EffectiveRefill() == snapshot.EffectiveRefill()
  {
  }

  // ---------------------------------------------------------------- One counter, many instances

  /** A refill in progress on some instance: the row was read, or the UPDATE affected it. */
  datatype Attempt = Loaded(snapshot: Row) | Won(amount: int)

  /**
   * The shared state of one counter, and the history the theorems talk about: successful decrements,
   * undos, the refill stamps written to Postgres (oldest first) and the reseeds done in Redis.
   * `horizon` bounds every instance clock; `redisNow` is the Redis clock.
   */
  datatype Account = Account(
    row: Row,
    key: Option<Entry>,
    attempts: map<nat, Attempt>,
    horizon: int,
    redisNow: int,
    grants: nat,
    undos: nat,
    stamps: seq<int>,
    reseeds: nat)
  {
    function Stored(): nat {
      if key.Some? then Max0(key.value.value) else 0
    }

  }

  /** The attempts whose UPDATE succeeded and that have not reseeded Redis yet. */
  function Winners(attempts: map<nat, Attempt>): set<nat> {
    set who | who in attempts && attempts[who].Won?
  }

  datatype Step =
    | Decrement
    | Undo
    | Load(who: nat)
    | Swap(who: nat, now: int)
    | Reseed(who: nat, now: int)
    | Abandon(who: nat)
    | Evict
    | Advance(horizon: int, redisNow: int)

  predicate Enabled(a: Account, step: Step) {
    match step
    case Decrement => true
    case Undo => true
    case Load(who) => who !in a.attempts
    case Swap(who, now) => who in a.attempts && a.attempts[who].Loaded? && now <= a.horizon
    case Reseed(who, now) => who in a.attempts && a.attempts[who].Won? && now <= a.horizon
    case Abandon(who) => true
    case Evict => true
    case Advance(horizon, redisNow) => a.horizon <= horizon && a.redisNow <= redisNow
  }

  /** Everything between the row being read and the UPDATE's row count: give up, lose, or win. */
  function Swapped(a: Account, who: nat, now: int): Account
    requires who in a.attempts && a.attempts[who].Loaded?
  {
    var snapshot := a.attempts[who].snapshot;
    if snapshot.Configured() && snapshot.Due(now) && UpdateMatches(a.row, snapshot) then
      var amount := snapshot.refillAmount.value;
      a.(row := Refilled(a.row, amount, now), attempts := a.attempts[who := Won(amount)], stamps := a.stamps + [now])
    else
      a.(attempts := a.attempts - {who})
  }

  function Apply(a: Account, step: Step): Account
    requires Enabled(a, step)
  {
    match step
    case Decrement =>
      var (r, key) := Decremented(a.key, a.redisNow);
      a.(key := key, grants := if r == DecrOK then a.grants + 1 else a.grants)
    case Undo => a.(key := Incremented(a.key, a.redisNow), undos := a.undos + 1)
    case Load(who) => a.(attempts := a.attempts[who := Loaded(a.row)])
    case Swap(who, now) => Swapped(a, who, now)
    case Reseed(who, now) =>
      var entry := Seeded(a.attempts[who].amount, ReseedTTL(a.row.owner, now), a.redisNow);
      a.(key := Some(entry), attempts := a.attempts - {who}, reseeds := a.reseeds + 1)
    case Abandon(who) => a.(attempts := a.attempts - {who})
    case Evict => a.(key := None)
    case Advance(horizon, redisNow) => a.(horizon := horizon, redisNow := redisNow)
  }

  predicate Runs(a: Account, steps: seq<Step>)
    decreases |steps|
  {
    steps == [] || (Enabled(a, steps[0]) && Runs(Apply(a, steps[0]), steps[1..]))
  }

  function After(a: Account, steps: seq<Step>): Account
    requires Runs(a, steps)
    decreases |steps|
  {
    if steps == [] then a else After(Apply(a, steps[0]), steps[1..])
  }

  /** A counter nobody has used yet: seeded with `initial`, or not seeded at all when that SET failed. */
  predicate Unused(a: Account, initial: int) {
    && a.row.lastRefillAt.None?
    && (a.key.None? || a.key.value.value == initial)
    && a.attempts == map[] && a.grants == 0 && a.undos == 0 && a.stamps == [] && a.reseeds == 0
    && a.row.createdAt <= a.horizon
  }

  /** What every interleaving keeps, for any amount and any interval. */
  ghost predicate Inv(a: Account, initial: int) {
    RefillInv(a) && PotentialInv(a, initial)
  }

  ghost predicate RefillInv(a: Account) {
    && a.row.createdAt <= a.horizon
    && (forall who | who in a.attempts && a.attempts[who].Loaded? ::
          a.attempts[who].snapshot.SameConfiguration(a.row))
    && (forall who | who in a.attempts && a.attempts[who].Won? ::
          a.row.refillAmount == Some(a.attempts[who].amount))
    && |Winners(a.attempts)| + a.reseeds <= |a.stamps|
    && a.row.lastRefillAt == (if a.stamps == [] then None else Some(a.stamps[|a.stamps| - 1]))
    && (a.stamps != [] ==> a.row.Configured())
    && (forall k | 0 <= k < |a.stamps| :: a.stamps[k] <= a.horizon)
  }

  ghost predicate PotentialInv(a: Account, initial: int) {
    Potential(a) <= Max0(initial) + a.reseeds * a.row.Quota()
  }

  /** Counter value plus net grants. Only a reseed can raise it, and by at most the refill amount. */
  function Potential(a: Account): int {
    a.Stored() + a.grants - a.undos
  }

  /** Consecutive stamps are an interval apart, the first one an interval after creation. */
  ghost predicate Spaced(a: Account) {
    a.row.Configured() ==>
      forall k | 0 <= k < |a.stamps| :: a.stamps[k] >= a.row.createdAt + (k + 1) * a.row.refillInterval.value.length
  }

  lemma WinnersWithout(attempts: map<nat, Attempt>, who: nat)
    ensures |Winners(attempts)| ==
      |Winners(attempts - {who})| + (if who in Winners(attempts) then 1 else 0)
  {
    if who in Winners(attempts) {
      CardinalityPlusOne(Winners(attempts - {who}), Winners(attempts), who);
    } else {
      assert Winners(attempts) == Winners(attempts - {who});
    }
  }

  lemma WinnersWith(attempts: map<nat, Attempt>, who: nat, attempt: Attempt)
    requires who !in Winners(attempts)
    ensures |Winners(attempts[who := attempt])| == |Winners(attempts)| + (if attempt.Won? then 1 else 0)
  {
    if attempt.Won? {
      CardinalityPlusOne(Winners(attempts), Winners(attempts[who := attempt]), who);
    } else {
      assert Winners(attempts) == Winners(attempts[who := attempt]);
    }
  }

  /** Winning UPDATEs without a reseed yet, plus reseeds, never outnumber the stamps. */
  lemma WinnersAfter(a: Account, step: Step)
    requires Enabled(a, step)
    ensures
      var b := Apply(a, step);
      |Winners(b.attempts)| + b.reseeds - |b.stamps| <= |Winners(a.attempts)| + a.reseeds - |a.stamps|
  {
    match step
    case Load(who) => WinnersWith(a.attempts, who, Loaded(a.row));
    case Swap(who, now) =>
      WinnersWithout(a.attempts, who);
      var snapshot := a.attempts[who].snapshot;
      if snapshot.refillAmount.Some? {
        WinnersWith(a.attempts, who, Won(snapshot.refillAmount.value));
      }
    case Reseed(who, now) => WinnersWithout(a.attempts, who);
    case Abandon(who) => WinnersWithout(a.attempts, who);
    case _ =>
  }

  lemma StepKeepsRefillInv(a: Account, step: Step)
    requires RefillInv(a) && Enabled(a, step)
    ensures RefillInv(Apply(a, step)) && Apply(a, step).row.SameConfiguration(a.row)
  {
    WinnersAfter(a, step);
  }

  lemma StepKeepsPotential(a: Account, step: Step, initial: int)
    requires Inv(a, initial) && Enabled(a, step)
    ensures PotentialInv(Apply(a, step), initial)
  {
    var b := Apply(a, step);
    if step.Reseed? {
      assert b.reseeds * b.row.Quota() == a.reseeds * a.row.Quota() + a.row.Quota();
    } else {
      assert b.reseeds == a.reseeds && b.row.Quota() == a.row.Quota();
      assert Potential(b) <= Potential(a);
    }
  }

  lemma StepKeepsInv(a: Account, step: Step, initial: int)
    requires Inv(a, initial) && Enabled(a, step)
    ensures Inv(Apply(a, step), initial) && Apply(a, step).row.SameConfiguration(a.row)
  {
    StepKeepsRefillInv(a, step);
    StepKeepsPotential(a, step, initial);
  }

  lemma StepKeepsSpacing(a: Account, step: Step, initial: int)
    requires Inv(a, initial) && Spaced(a) && Enabled(a, step)
    requires a.row.Configured() ==> a.row.refillInterval.value.length > 0
    ensures Spaced(Apply(a, step))
  {
    if step.Swap? && a.row.Configured() {
      var b := Apply(a, step);
      var snapshot := a.attempts[step.who].snapshot;
      var d := a.row.refillInterval.value.length;
      if b.stamps != a.stamps {
        var n := |a.stamps|;
        if n > 0 {
          assert a.stamps[n - 1] >= a.row.createdAt + n * d;
          assert n * d >= d by { assert (n - 1) * d >= 0; }
        }
        UpdateIsCompareAndSwap(a.row, snapshot);
        assert step.now >= a.row.EffectiveRefill() + d;
        assert (n + 1) * d == n * d + d;
      }
    }
  }

  lemma {:induction false} RunKeepsInv(a: Account, steps: seq<Step>, initial: int)
    requires Inv(a, initial) && Runs(a, steps)
    ensures Inv(After(a, steps), initial)
    ensures After(a, steps).row.SameConfiguration(a.row)
    decreases |steps|
  {
    if steps != [] {
      StepKeepsInv(a, steps[0], initial);
      RunKeepsInv(Apply(a, steps[0]), steps[1..], initial);
    }
  }

  lemma {:induction false} RunKeepsSpacing(a: Account, steps: seq<Step>, initial: int)
    requires Inv(a, initial) && Spaced(a) && Runs(a, steps)
    requires a.row.Configured() ==> a.row.refillInterval.value.length > 0
    ensures Spaced(After(a, steps))
    decreases |steps|
  {
    if steps != [] {
      StepKeepsInv(a, steps[0], initial);
      StepKeepsSpacing(a, steps[0], initial);
      RunKeepsSpacing(Apply(a, steps[0]), steps[1..], initial);
    }
  }

  lemma RunPrepend(a: Account, step: Step, rest: seq<Step>)
    requires Enabled(a, step) && Runs(Apply(a, step), rest)
    ensures Runs(a, [step] + rest)
    ensures After(a, [step] + rest) == After(Apply(a, step), rest)
  {
    assert ([step] + rest)[1..] == rest;
  }
}
