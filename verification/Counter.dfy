/**
 * The Counter object of internal/counter/counter.go over the shared Redis keys and Postgres rows.
 * Each method is specified by the steps of RequestCounter, so the theorems there speak about it.
 */
module CounterObject {
  import opened Prelude
  import opened RequestCounter

  function CredKey(credentialID: string): string {
    "pbreq:cred:" + credentialID
  }

  function TokKey(jti: string): string {
    "pbreq:tok:" + jti
  }

  /** A credential and a token never share a counter, whatever their identifiers. */
  lemma KeysNeverCollide(credentialID: string, jti: string)
    ensures CredKey(credentialID) != TokKey(jti)
  {
    assert CredKey(credentialID)[6] == 'c' && TokKey(jti)[6] == 't';
  }

  datatype RefillError = LoadFailed | BadInterval | UpdateFailed | ReseedFailed

  datatype RefillOutcome = RefillOutcome(refilled: bool, error: Option<RefillError>)

  /** Which of the calls to Postgres and Redis fail during one CheckAndRefill. */
  datatype Faults = Faults(load: bool, update: bool, redis: bool)

  function With<V>(m: map<string, V>, key: string, v: Option<V>): map<string, V> {
    if v.Some? then m[key := v.value] else m - {key}
  }

  function Lookup<V>(m: map<string, V>, key: string): Option<V> {
    if key in m then Some(m[key]) else None
  }

  /** The later of the two clock readings in a race. */
  function Latest(now: int, raced: Option<int>): int {
    if raced.Some? && raced.value > now then raced.value else now
  }

  /** One counter as the transition system sees it, with an empty history. */
  function View(row: Row, key: Option<Entry>, horizon: int, redisNow: int): Account {
    Account(row, key, map[], horizon, redisNow, 0, 0, [], 0)
  }

  /** The other instance's refill that may land between this instance's read and its UPDATE. */
  function RacingSteps(raced: Option<int>): seq<Step> {
    if raced.Some? then [Load(1), Swap(1, raced.value)] else []
  }

  /** One CheckAndRefill as steps: read the row, lose or run the race, update, reseed. */
  function CheckSteps(raced: Option<int>, now: int, wins: bool, faults: Faults): seq<Step> {
    [Load(0)] + RacingSteps(raced)
    + (if faults.update then [] else [Swap(0, now)] + (if wins && !faults.redis then [Reseed(0, now)] else []))
  }

  /** This instance's UPDATE affects the row: due on its own snapshot, and nobody refilled in between. */
  predicate Wins(row: Row, raced: Option<int>, now: int, faults: Faults) {
    && !faults.update
    && row.Configured() && row.Due(now)
    && UpdateMatches(if raced.Some? && row.Due(raced.value) then row.(lastRefillAt := raced) else row, row)
  }

  /** What a check that refills nothing reports: only unreadable intervals and a failing UPDATE are errors. */
  function NoRefillError(row: Row, now: int, faults: Faults): Option<RefillError> {
    if row.refillAmount.None? || row.refillInterval.None? then None
    else if row.refillInterval.value.Malformed? then Some(BadInterval)
    else if faults.update && row.Due(now) then Some(UpdateFailed)
    else None
  }

  // A check in the row's own terms.

  predicate ReadableRefill(row: Row) {
    row.refillAmount.Some? && row.refillInterval.Some? && row.refillInterval.value.Every?
  }

  predicate UnreadableInterval(row: Row) {
    row.refillAmount.Some? && row.refillInterval == Some(Malformed)
  }

  /** The last refill, or else the creation. */
  function LastRefill(row: Row): int {
    match row.lastRefillAt
    case Some(at) => at
    case None => row.createdAt
  }

  /** A refilled credential's key stays for good, a token's until two minutes after the token's expiry,
      or for two minutes when that was more than a minute ago. */
  function RefillDeadline(owner: Owner, now: int, redisNow: int): Option<int> {
    match owner
    case Credential => None
    case Token(expiresAt) =>
      Some(redisNow + if expiresAt + MINUTE >= now then expiresAt - now + 2 * MINUTE else 2 * MINUTE)
  }

  class Counter {
    // The Redis keys, and the Postgres rows under the name of their counter key.
    var redis: map<string, Entry>
    var rows: map<string, Row>

    constructor (rows: map<string, Row>)
      ensures redis == map[] && this.rows == rows
    {
      this.redis := map[];
      this.rows := rows;
    }

    method Seed(key: string, value: int, ttl: int, redisNow: int, redisUp: bool) returns (failed: bool)
      modifies this`redis
      ensures failed == !redisUp
      ensures redis == if redisUp then old(redis)[key := Seeded(value, ttl, redisNow)] else old(redis)
      ensures redisUp ==>
        redis == old(redis)[key := Entry(value, if ttl > 0 then Some(redisNow + ttl) else None)]
    {
      if !redisUp {
        return true;
      }
      redis := redis[key := Entry(value, if ttl > 0 then Some(redisNow + ttl) else None)];
      failed := false;
    }

    method Decrement(key: string, redisNow: int, redisUp: bool) returns (r: DecrementResult, failed: bool)
      modifies this`redis
      ensures failed == !redisUp
      ensures !redisUp ==> r == DecrNoCap && redis == old(redis)
      ensures redisUp ==>
        var (result, entry) := Decremented(Lookup(old(redis), key), redisNow);
        r == result && redis == With(old(redis), key, entry)
      ensures redisUp ==>
        var live := key in old(redis) && (old(redis)[key].deadline.None? || redisNow <= old(redis)[key].deadline.value);
        if !live then r == DecrNoCap && redis == old(redis) - {key}
        else if old(redis)[key].value <= 0 then r == DecrExhausted && redis == old(redis)
        else r == DecrOK && redis == old(redis)[key := Entry(old(redis)[key].value - 1, old(redis)[key].deadline)]
    {
      if !redisUp {
        return DecrNoCap, true;
      }
      failed := false;
      if key !in redis || !redis[key].LiveAt(redisNow) {
        redis := redis - {key};
        return DecrNoCap, false;
      }
      var n := redis[key].value;
      if n <= 0 {
        return DecrExhausted, false;
      }
      redis := redis[key := redis[key].(value := n - 1)];
      r := DecrOK;
    }

    method Undo(key: string, redisNow: int, redisUp: bool) returns (failed: bool)
      modifies this`redis
      ensures failed == !redisUp
      ensures redis == if redisUp
                       then With(old(redis), key, Incremented(Lookup(old(redis), key), redisNow))
                       else old(redis)
      ensures redisUp ==>
        var live := key in old(redis) && (old(redis)[key].deadline.None? || redisNow <= old(redis)[key].deadline.value);
        redis == old(redis)[key :=
          if live then Entry(old(redis)[key].value + 1, old(redis)[key].deadline) else Entry(1, None)]
    {
      if !redisUp {
        return true;
      }
      if key in redis && redis[key].LiveAt(redisNow) {
        redis := redis[key := redis[key].(value := redis[key].value + 1)];
      } else {
        redis := redis[key := Entry(1, None)];
      }
      failed := false;
    }

    /**
     * CheckAndRefillCredential and CheckAndRefillToken, which differ only in the table and in the TTL
     * of the reseed. `raced` is the clock reading of another instance that refills between this
     * instance's read and its UPDATE, if one does.
     */
    method CheckAndRefill(key: string, now: int, redisNow: int, raced: Option<int>, faults: Faults)
      returns (outcome: RefillOutcome)
      modifies this
      ensures faults.load || key !in old(rows) ==>
        outcome == RefillOutcome(false, Some(LoadFailed)) && redis == old(redis) && rows == old(rows)
      ensures !faults.load && key in old(rows) ==>
        var row := old(rows[key]);
        var wins := Wins(row, raced, now, faults);
        var a := View(row, Lookup(old(redis), key), Latest(now, raced), redisNow);
        var steps := CheckSteps(raced, now, wins, faults);
        && Runs(a, steps)
        && rows == old(rows)[key := After(a, steps).row]
        && redis == With(old(redis), key, After(a, steps).key)
        && outcome.refilled == wins
        && outcome.error ==
             (if wins then (if faults.redis then Some(ReseedFailed) else None) else NoRefillError(row, now, faults))
      ensures !faults.load && key in old(rows) && raced.None? ==>
        var row := old(rows[key]);
        if !ReadableRefill(row) || now - LastRefill(row) < row.refillInterval.value.length then
          && redis == old(redis) && rows == old(rows)
          && !outcome.refilled && (outcome.error.Some? <==> UnreadableInterval(row))
        else if faults.update then
          redis == old(redis) && rows == old(rows) && outcome == RefillOutcome(false, Some(UpdateFailed))
        else
          && rows == old(rows)[key := row.(remaining := row.refillAmount, lastRefillAt := Some(now))]
          && (if faults.redis then redis == old(redis) && outcome == RefillOutcome(true, Some(ReseedFailed))
              else outcome == RefillOutcome(true, None) && redis == old(redis)[key :=
                     Entry(row.refillAmount.value, RefillDeadline(row.owner, now, redisNow))])
    {
      if faults.load || key !in rows {
        return RefillOutcome(false, Some(LoadFailed));
      }
      var snapshot := rows[key];
      ghost var wins := Wins(snapshot, raced, now, faults);
      ghost var a := View(snapshot, Lookup(redis, key), Latest(now, raced), redisNow);
      CheckRuns(snapshot, Lookup(redis, key), now, redisNow, raced, faults);

      // Another instance runs its whole check here.
      if raced.Some? && snapshot.Configured() && snapshot.Due(raced.value) {
        rows := rows[key := Refilled(snapshot, snapshot.refillAmount.value, raced.value)];
      }

      if snapshot.refillAmount.None? || snapshot.refillInterval.None? {
        return RefillOutcome(false, None);
      }
      if snapshot.refillInterval.value.Malformed? {
        return RefillOutcome(false, Some(BadInterval));
      }
      var lastRefill := snapshot.createdAt;
      if snapshot.lastRefillAt.Some? {
        lastRefill := snapshot.lastRefillAt.value;
      }
      if now - lastRefill < snapshot.refillInterval.value.length {
        return RefillOutcome(false, None);
      }
      if faults.update {
        return RefillOutcome(false, Some(UpdateFailed));
      }
      var stored := rows[key];
      if stored.lastRefillAt != Some(lastRefill)
         && !(stored.lastRefillAt.None? && lastRefill == snapshot.createdAt) {
        return RefillOutcome(false, None);
      }
      rows := rows[key := stored.(remaining := snapshot.refillAmount, lastRefillAt := Some(now))];

      var ttl := 0;
      if snapshot.owner.Token? {
        ttl := snapshot.owner.expiresAt - now + MINUTE;
        if ttl < 0 {
          ttl := MINUTE;
        }
        ttl := ttl + MINUTE;
      }
      var failed := Seed(key, snapshot.refillAmount.value, ttl, redisNow, !faults.redis);
      outcome := RefillOutcome(true, if failed then Some(ReseedFailed) else None);
    }
  }

  /** The steps of one CheckAndRefill are a run, and where that run ends. */
  lemma CheckRuns(row: Row, key: Option<Entry>, now: int, redisNow: int, raced: Option<int>, faults: Faults)
    ensures
      var wins := Wins(row, raced, now, faults);
      var a := View(row, key, Latest(now, raced), redisNow);
      var steps := CheckSteps(raced, now, wins, faults);
      var racedRow := if raced.Some? && row.Configured() && row.Due(raced.value)
                      then Refilled(row, row.refillAmount.value, raced.value) else row;
      && Runs(a, steps)
      && After(a, steps).row == (if wins then Refilled(racedRow, row.refillAmount.value, now) else racedRow)
      && After(a, steps).key == (if wins && !faults.redis
                                 then Some(Seeded(row.refillAmount.value, ReseedTTL(row.owner, now), redisNow))
                                 else key)
  {
    var wins := Wins(row, raced, now, faults);
    var a := View(row, key, Latest(now, raced), redisNow);
    var a1 := Apply(a, Load(0));
    var rest := if faults.update then [] else [Swap(0, now)] + (if wins && !faults.redis then [Reseed(0, now)] else []);
    var a2 := a1;
    if raced.Some? {
      var b := Apply(a1, Load(1));
      a2 := Apply(b, Swap(1, raced.value));
    }
    assert a2.attempts[0] == Loaded(row) && a2.horizon == Latest(now, raced);
    if !faults.update {
      var a3 := Apply(a2, Swap(0, now));
      assert wins ==> a3.attempts[0] == Won(row.refillAmount.value);
      if wins && !faults.redis {
        RunPrepend(a3, Reseed(0, now), []);
      }
      RunPrepend(a2, Swap(0, now), if wins && !faults.redis then [Reseed(0, now)] else []);
    }
    if raced.Some? {
      RunPrepend(Apply(a1, Load(1)), Swap(1, raced.value), rest);
      RunPrepend(a1, Load(1), [Swap(1, raced.value)] + rest);
      assert RacingSteps(raced) + rest == [Load(1)] + ([Swap(1, raced.value)] + rest);
      RunPrepend(a, Load(0), [Load(1)] + ([Swap(1, raced.value)] + rest));
      assert CheckSteps(raced, now, wins, faults) == [Load(0)] + ([Load(1)] + ([Swap(1, raced.value)] + rest));
    } else {
      RunPrepend(a, Load(0), rest);
      assert CheckSteps(raced, now, wins, faults) == [Load(0)] + rest;
    }
  }
}
