/**
 * How long a revoked credential can still be served (internal/cache): the worst case when every
 * invalidation is lost, and that the bound is reached.
 */
module CacheStaleness {
  import opened Prelude
  import opened CredentialCache

  /** The last moment the row was seen unrevoked: now, or the time of its revocation. */
  function LastValid(s: State, id: string): int
    requires id in s.db
  {
    if s.db[id].revokedAt.Some? then s.db[id].revokedAt.value else s.clock
  }

  ghost predicate RowTimely(s: State, id: string) {
    id in s.db ==> RevokedBy(s.db[id], s.clock)
  }

  ghost predicate RedisTimely(l: Limits, s: State, id: string) {
    id in s.redis ==> id in s.db && s.redis[id].deadline <= LastValid(s, id) + l.delay + l.redisTTL
  }

  ghost predicate MemoryTimely(l: Limits, s: State, slot: Slot) {
    slot in s.memory ==>
      && slot.id in s.db
      && s.memory[slot].hardExpiry <= LastValid(s, slot.id) + 2 * l.delay + l.redisTTL + l.hardExpiry
      && s.memory[slot].ttlExpiry <= LastValid(s, slot.id) + 2 * l.delay + l.redisTTL + l.memoryTTL
  }

  ghost predicate FlightTimely(l: Limits, s: State, slot: Slot) {
    slot in s.flights && s.flights[slot].phase.Carries() ==>
      var phase := s.flights[slot].phase;
      && slot.id in s.db
      && s.clock <= phase.readAt + l.delay
      && phase.readAt <= LastValid(s, slot.id) +
           (if phase.ReadRow? || phase.Decrypted? then 0 else l.delay + l.redisTTL)
  }

  /** A result is read at most `delay` after its data was, however long it is still held after that. */
  ghost predicate SharedTimely(l: Limits, s: State, result: nat) {
    result < |s.shared| && s.shared[result].waiting != {} ==>
      var r := s.shared[result];
      && r.slot.id in s.db
      && s.clock <= r.readAt + l.delay
      && r.readAt <= LastValid(s, r.slot.id) + l.delay + l.redisTTL
  }

  ghost predicate Timely(l: Limits, s: State) {
    && (forall id :: RowTimely(s, id))
    && (forall id :: RedisTimely(l, s, id))
    && (forall slot :: MemoryTimely(l, s, slot))
    && (forall slot :: FlightTimely(l, s, slot))
    && (forall result :: SharedTimely(l, s, result))
  }

  lemma LastValidNeverDecreases(c: Crypto, l: Limits, s: State, step: Step, id: string)
    requires Enabled(c, l, s, step) && id in s.db && RowTimely(s, id)
    ensures
      var t := Apply(c, l, s, step);
      && id in t.db && LastValid(s, id) <= LastValid(t, id) && s.clock <= t.clock
      && RowTimely(t, id)
  {
  }

  lemma RedisStaysTimely(c: Crypto, l: Limits, s: State, step: Step, id: string)
    requires Enabled(c, l, s, step) && RedisTimely(l, s, id) && RowTimely(s, id)
    requires step.WriteRedis? ==> FlightTimely(l, s, step.slot)
    ensures RedisTimely(l, Apply(c, l, s, step), id)
  {
    if id in s.db {
      LastValidNeverDecreases(c, l, s, step, id);
    }
  }

  lemma MemoryStaysTimely(c: Crypto, l: Limits, s: State, step: Step, slot: Slot)
    requires Enabled(c, l, s, step) && MemoryTimely(l, s, slot) && RowTimely(s, slot.id)
    requires step.Promote? ==> FlightTimely(l, s, step.slot)
    ensures MemoryTimely(l, Apply(c, l, s, step), slot)
  {
    if slot.id in s.db {
      LastValidNeverDecreases(c, l, s, step, slot.id);
    }
  }

  lemma SameFlightStaysTimely(c: Crypto, l: Limits, s: State, step: Step, slot: Slot)
    requires Enabled(c, l, s, step) && FlightTimely(l, s, slot) && RowTimely(s, slot.id)
    requires slot in s.flights && slot in Apply(c, l, s, step).flights
    requires s.flights[slot].phase == Apply(c, l, s, step).flights[slot].phase
    ensures FlightTimely(l, Apply(c, l, s, step), slot)
  {
    if slot.id in s.db {
      LastValidNeverDecreases(c, l, s, step, slot.id);
    }
  }

  /** A flight that has just read something carries data of this very moment. */
  lemma ReadingFlightIsTimely(c: Crypto, l: Limits, s: State, step: Step, slot: Slot)
    requires Enabled(c, l, s, step) && (step.Start? || step.ReadRedis? || step.QueryRow?) && step.slot == slot
    requires RedisTimely(l, s, slot.id) && RowTimely(s, slot.id)
    ensures FlightTimely(l, Apply(c, l, s, step), slot)
  {
    var t := Apply(c, l, s, step);
    assert t.clock == s.clock && t.db == s.db;
  }

  lemma WorkingFlightIsTimely(c: Crypto, l: Limits, s: State, step: Step, slot: Slot)
    requires Enabled(c, l, s, step) && FlightTimely(l, s, slot)
    requires (step.DecryptHit? || step.DecryptRow? || step.WriteRedis? || step.Promote?) && step.slot == slot
    ensures FlightTimely(l, Apply(c, l, s, step), slot)
  {
    var t := Apply(c, l, s, step);
    assert t.clock == s.clock && t.db == s.db;
  }

  lemma FlightStaysTimely(c: Crypto, l: Limits, s: State, step: Step, slot: Slot)
    requires Enabled(c, l, s, step) && FlightTimely(l, s, slot)
    requires RedisTimely(l, s, slot.id) && RowTimely(s, slot.id)
    ensures FlightTimely(l, Apply(c, l, s, step), slot)
  {
    var t := Apply(c, l, s, step);
    if slot in t.flights {
      if slot in s.flights && s.flights[slot].phase == t.flights[slot].phase {
        SameFlightStaysTimely(c, l, s, step, slot);
      } else if step.Start? || step.ReadRedis? || step.QueryRow? {
        ReadingFlightIsTimely(c, l, s, step, slot);
      } else {
        WorkingFlightIsTimely(c, l, s, step, slot);
      }
    }
  }

  lemma SharedStaysTimely(c: Crypto, l: Limits, s: State, step: Step, result: nat)
    requires Enabled(c, l, s, step) && SharedTimely(l, s, result)
    requires forall id :: RowTimely(s, id)
    requires step.Finish? ==> FlightTimely(l, s, step.slot)
    ensures SharedTimely(l, Apply(c, l, s, step), result)
  {
    var t := Apply(c, l, s, step);
    if result < |t.shared| && t.shared[result].waiting != {} {
      var id := t.shared[result].slot.id;
      assert RowTimely(s, id);
      if id in s.db {
        LastValidNeverDecreases(c, l, s, step, id);
      }
    }
  }

  lemma StepKeepsTimely(c: Crypto, l: Limits, s: State, step: Step)
    requires Timely(l, s) && Enabled(c, l, s, step)
    ensures Timely(l, Apply(c, l, s, step))
  {
    var t := Apply(c, l, s, step);
    forall id ensures RowTimely(t, id) {
      assert RowTimely(s, id);
      if id in s.db {
        LastValidNeverDecreases(c, l, s, step, id);
      }
    }
    forall id ensures RedisTimely(l, t, id) {
      assert RowTimely(s, id) && RedisTimely(l, s, id);
      RedisStaysTimely(c, l, s, step, id);
    }
    forall slot ensures MemoryTimely(l, t, slot) {
      assert RowTimely(s, slot.id) && MemoryTimely(l, s, slot);
      MemoryStaysTimely(c, l, s, step, slot);
    }
    forall slot ensures FlightTimely(l, t, slot) {
      assert RowTimely(s, slot.id) && RedisTimely(l, s, slot.id) && FlightTimely(l, s, slot);
      FlightStaysTimely(c, l, s, step, slot);
    }
    forall result ensures SharedTimely(l, t, result) {
      SharedStaysTimely(c, l, s, step, result);
    }
  }

  lemma {:induction false} RunKeepsTimely(c: Crypto, l: Limits, s: State, steps: seq<Step>)
    requires Timely(l, s) && Runs(c, l, s, steps)
    ensures Timely(l, After(c, l, s, steps))
    decreases |steps|
  {
    if steps != [] {
      StepKeepsTimely(c, l, s, steps[0]);
      RunKeepsTimely(c, l, Apply(c, l, s, steps[0]), steps[1..]);
    }
  }

  /** Main theorem: even if every invalidation is lost, nothing revoked at t is served after
      t + RedisTTL + min(MemTTL, HardExpiry) + 2 * delay. */
  lemma RevokedServedOnlyWithin(
    c: Crypto, l: Limits, s: State, steps: seq<Step>, slot: Slot, caller: Caller, plain: Plain)
    requires Initial(c, s) && Runs(c, l, s, steps)
    requires Serves(After(c, l, s, steps), slot, caller, plain)
    ensures slot.id in After(c, l, s, steps).db
    ensures
      var t := After(c, l, s, steps);
      t.db[slot.id].revokedAt.Some? ==>
        t.clock <= t.db[slot.id].revokedAt.value + l.redisTTL + l.MemoryLife() + 2 * l.delay
  {
    RunKeepsTimely(c, l, s, steps);
    var t := After(c, l, s, steps);
    assert MemoryTimely(l, t, slot);
    if !ServesFromMemory(t, slot, caller, plain) {
      var result :| ServesShared(t, result, slot, caller, plain);
      assert SharedTimely(l, t, result);
    }
  }

  // ---------------------------------------------------------------- The bound is reached

  /** A flight that only its first caller waits for. */
  function Own(org: string, phase: Phase): Flight {
    Flight(org, {Caller(0, org)}, phase)
  }

  /** A state whose only resolution is `flight`. */
  function Alone(clock: int, row: Row, id: string, redis: map<string, RedisEntry>, memory: map<Slot, MemoryEntry>,
    dek: map<Slot, Sealed>, slot: Slot, flight: Flight): State
  {
    State(clock, map[id := row], redis, memory, dek, map[slot := flight], [])
  }

  /** Revocation right after instance 0 read the row; it writes Redis as late as it may. */
  lemma SlowWriter(c: Crypto, l: Limits, id: string, record: Record) returns (s: State, t: State)
    requires Resolve(c, record).Some?
    ensures Initial(c, s) && Reaches(c, l, s, t)
    ensures t == State(l.delay, map[id := Row(record, Some(0))],
                       map[id := RedisEntry(record, l.delay + l.redisTTL)], map[], t.dek, map[], [])
  {
    s := State(0, map[id := Row(record, None)], map[], map[], map[], map[], []);
    var t1 := ColdRead(c, l, s, id, record);
    t := LateWrite(c, l, t1, id, record);
    ReachesTransitive(c, l, s, t1, t);
  }

  lemma ColdRead(c: Crypto, l: Limits, s: State, id: string, record: Record) returns (t: State)
    requires s == State(0, map[id := Row(record, None)], map[], map[], map[], map[], [])
    ensures Reaches(c, l, s, t)
    ensures t == Alone(0, Row(record, Some(0)), id, map[], map[], map[],
                       Slot(0, id), Own(record.org, ReadRow(record, 0)))
  {
    var slot := Slot(0, id);
    var s1 := StartAlone(c, l, s, slot, record.org);
    var s2 := ReadCold(c, l, s1, slot, record);
    t := RevokeNow(c, l, s2, id, record);
    ReachesTransitive(c, l, s, s1, s2);
    ReachesTransitive(c, l, s, s2, t);
  }

  lemma StartAlone(c: Crypto, l: Limits, s: State, slot: Slot, org: string) returns (t: State)
    requires s.flights == map[]
    ensures Reaches(c, l, s, t) && t == s.(flights := map[slot := Own(org, Begun)])
  {
    MoveStart(c, l, s, slot, Caller(0, org));
    t := s.(flights := s.flights[slot := Own(org, Begun)]);
  }

  lemma ReadCold(c: Crypto, l: Limits, s: State, slot: Slot, record: Record) returns (t: State)
    requires s.flights == map[slot := Own(record.org, Begun)]
    requires s.redis == map[] && s.db == map[slot.id := Row(record, None)]
    ensures Reaches(c, l, s, t) && t == s.(flights := map[slot := Own(record.org, ReadRow(record, s.clock))])
  {
    MoveReadRedis(c, l, s, slot);
    var s1 := ToPhase(s, slot, Missed);
    MoveQueryRow(c, l, s1, slot);
    t := ToPhase(s1, slot, ReadRow(record, s.clock));
    ReachesTransitive(c, l, s, s1, t);
  }

  lemma RevokeNow(c: Crypto, l: Limits, s: State, id: string, record: Record) returns (t: State)
    requires s.db == map[id := Row(record, None)]
    ensures Reaches(c, l, s, t) && t == s.(db := map[id := Row(record, Some(s.clock))])
  {
    t := s.(db := map[id := Row(record, Some(s.clock))]);
    MoveRevoke(c, l, s, id);
    assert s.db[id := Row(record, Some(s.clock))] == t.db;
  }

  lemma LateWrite(c: Crypto, l: Limits, s: State, id: string, record: Record) returns (t: State)
    requires Resolve(c, record).Some?
    requires s == Alone(0, Row(record, Some(0)), id, map[], map[], map[],
                        Slot(0, id), Own(record.org, ReadRow(record, 0)))
    ensures Reaches(c, l, s, t)
    ensures t == State(l.delay, map[id := Row(record, Some(0))],
                       map[id := RedisEntry(record, l.delay + l.redisTTL)], map[], t.dek, map[], [])
  {
    var slot := Slot(0, id);
    var row := Row(record, Some(0));
    var dek := map[slot := Intact(c.unwrap(record.wrappedDEK).value)];
    var s1 := s.(clock := l.delay);
    var s2 := Alone(l.delay, row, id, map[], map[], dek, slot,
                    Own(record.org, Decrypted(record, Resolve(c, record).value, 0)));
    MoveTick(c, l, s, l.delay);
    Move(c, l, s1, DecryptRow(slot, true), s2);
    ReachesTransitive(c, l, s, s1, s2);
    t := LateStore(c, l, s2, id, record);
    ReachesTransitive(c, l, s, s2, t);
  }

  lemma LateStore(c: Crypto, l: Limits, s: State, id: string, record: Record) returns (t: State)
    requires Resolve(c, record).Some?
    requires s == Alone(l.delay, Row(record, Some(0)), id, map[], map[], s.dek,
                        Slot(0, id), Own(record.org, Decrypted(record, Resolve(c, record).value, 0)))
    ensures Reaches(c, l, s, t)
    ensures t == State(l.delay, map[id := Row(record, Some(0))],
                       map[id := RedisEntry(record, l.delay + l.redisTTL)], map[], t.dek, map[], [])
  {
    var slot := Slot(0, id);
    var row := Row(record, Some(0));
    var redis := map[id := RedisEntry(record, l.delay + l.redisTTL)];
    var s1 := Alone(l.delay, row, id, redis, map[], s.dek, slot,
                    Own(record.org, Promoting(Resolve(c, record).value, 0)));
    t := State(l.delay, map[id := row], redis, map[], s.dek, map[], []);
    Move(c, l, s, WriteRedis(slot, true), s1);
    MoveAbandon(c, l, s1, slot);
    assert s1.flights - {slot} == map[];
    ReachesTransitive(c, l, s, s1, t);
  }

  /** Instance 1 reads the entry at its last moment, promotes it as late as it may, and serves it to the end. */
  lemma SlowReader(c: Crypto, l: Limits, s: State, slot: Slot, record: Record) returns (t: State)
    requires Authenticated(c) && Resolve(c, record).Some?
    requires s.flights == map[] && s.shared == []
    requires slot.id in s.redis && s.redis[slot.id] == RedisEntry(record, s.clock + l.redisTTL)
    ensures Reaches(c, l, s, t)
    ensures t.db == s.db && t.clock == s.clock + l.redisTTL + l.delay + l.MemoryLife()
    ensures ServesFromMemory(t, slot, Caller(0, record.org), Resolve(c, record).value)
  {
    var s1 := s.(clock := s.clock + l.redisTTL);
    MoveTick(c, l, s, s.clock + l.redisTTL);
    var s2 := HitAtLast(c, l, s1, slot, record);
    t := LatePromotion(c, l, s2, slot, record);
    ReachesTransitive(c, l, s, s1, s2);
    ReachesTransitive(c, l, s, s2, t);
  }

  lemma HitAtLast(c: Crypto, l: Limits, s: State, slot: Slot, record: Record) returns (t: State)
    requires s.flights == map[] && slot.id in s.redis && s.redis[slot.id] == RedisEntry(record, s.clock)
    ensures Reaches(c, l, s, t) && t == s.(flights := map[slot := Own(record.org, HitRedis(record, s.clock))])
  {
    var s1 := StartAlone(c, l, s, slot, record.org);
    MoveReadRedis(c, l, s1, slot);
    t := ToPhase(s1, slot, HitRedis(record, s.clock));
    ReachesTransitive(c, l, s, s1, t);
  }

  lemma LatePromotion(c: Crypto, l: Limits, s: State, slot: Slot, record: Record) returns (t: State)
    requires Authenticated(c) && Resolve(c, record).Some?
    requires s.flights == map[slot := Own(record.org, HitRedis(record, s.clock))] && s.shared == []
    ensures Reaches(c, l, s, t)
    ensures t.db == s.db && t.clock == s.clock + l.delay + l.MemoryLife()
    ensures ServesFromMemory(t, slot, Caller(0, record.org), Resolve(c, record).value)
  {
    var s1 := s.(clock := s.clock + l.delay);
    MoveTick(c, l, s, s.clock + l.delay);
    var s2 := DecryptLate(c, l, s1, slot, record, s.clock);
    t := LastAnswer(c, l, s2, slot, record.org, Resolve(c, record).value, s.clock);
    ReachesTransitive(c, l, s, s1, s2);
    ReachesTransitive(c, l, s, s2, t);
  }

  lemma DecryptLate(c: Crypto, l: Limits, s: State, slot: Slot, record: Record, read: int) returns (t: State)
    requires Authenticated(c) && Resolve(c, record).Some?
    requires s.flights == map[slot := Own(record.org, HitRedis(record, read))]
    ensures Reaches(c, l, s, t) && t.db == s.db && t.clock == s.clock && t.shared == s.shared
    ensures t.flights == map[slot := Own(record.org, Promoting(Resolve(c, record).value, read))]
  {
    DEKCacheIsTransparent(c, CachedDEK(s, slot), record.encryptedKey, record.wrappedDEK, true);
    t := Apply(c, l, s, DecryptHit(slot, true, true));
    Move(c, l, s, DecryptHit(slot, true, true), t);
  }

  lemma PromoteLate(c: Crypto, l: Limits, s: State, slot: Slot, org: string, plain: Plain, read: int) returns (t: State)
    requires s.flights == map[slot := Own(org, Promoting(plain, read))]
    ensures Reaches(c, l, s, t)
    ensures t.db == s.db && t.clock == s.clock && t.shared == s.shared
    ensures t.flights == map[slot := Own(org, Resolved(plain, read))]
    ensures slot in t.memory && t.memory[slot] == EntryFor(plain, org, s.clock, l)
  {
    MovePromote(c, l, s, slot);
    t := ToPhase(s, slot, Resolved(plain, read)).(memory := s.memory[slot := EntryFor(plain, org, s.clock, l)]);
  }

  /** The flight ends, and its only caller reads the answer. */
  lemma EndFlight(c: Crypto, l: Limits, s: State, slot: Slot, org: string, plain: Plain, read: int) returns (t: State)
    requires s.flights == map[slot := Own(org, Resolved(plain, read))] && s.shared == []
    ensures Reaches(c, l, s, t) && t == s.(flights := map[], shared := t.shared)
    ensures |t.shared| == 1 && t.shared[0].waiting == {}
  {
    var caller := Caller(0, org);
    var result := HandOut(slot, s.flights[slot]);
    var s1 := s.(flights := map[], shared := [result]);
    t := s1.(shared := [result.(waiting := {})]);
    MoveFinish(c, l, s, slot);
    assert s.flights - {slot} == map[] && s.shared + [result] == [result];
    MoveLeave(c, l, s1, 0, caller);
    assert result.waiting - {caller} == {};
    ReachesTransitive(c, l, s, s1, t);
  }

  lemma LastTick(c: Crypto, l: Limits, s: State, now: int)
    requires s.flights == map[] && |s.shared| == 1 && s.shared[0].waiting == {} && s.clock <= now
    ensures Reaches(c, l, s, s.(clock := now))
  {
    MoveTick(c, l, s, now);
  }

  lemma LastAnswer(c: Crypto, l: Limits, s: State, slot: Slot, org: string, plain: Plain, read: int) returns (t: State)
    requires s.flights == map[slot := Own(org, Promoting(plain, read))] && s.shared == []
    ensures Reaches(c, l, s, t)
    ensures t.db == s.db && t.clock == s.clock + l.MemoryLife()
    ensures ServesFromMemory(t, slot, Caller(0, org), plain)
  {
    var s1 := PromoteLate(c, l, s, slot, org, plain, read);
    var s2 := EndFlight(c, l, s1, slot, org, plain, read);
    t := s2.(clock := s.clock + l.MemoryLife());
    LastTick(c, l, s2, t.clock);
    ReachesTransitive(c, l, s, s1, s2);
    ReachesTransitive(c, l, s, s2, t);
  }

  /** No smaller bound holds: for all limits some run serves the credential at the last allowed tick. */
  lemma StalenessBoundIsReached(c: Crypto, l: Limits, id: string, record: Record)
    returns (s: State, t: State)
    requires Authenticated(c) && Resolve(c, record).Some?
    ensures Initial(c, s) && Reaches(c, l, s, t)
    ensures t.db == map[id := Row(record, Some(0))]
    ensures t.clock == l.redisTTL + l.MemoryLife() + 2 * l.delay
    ensures ServesFromMemory(t, Slot(1, id), Caller(0, record.org), Resolve(c, record).value)
  {
    var middle;
    s, middle := SlowWriter(c, l, id, record);
    t := SlowReader(c, l, middle, Slot(1, id), record);
    ReachesTransitive(c, l, s, middle, t);
  }
}
