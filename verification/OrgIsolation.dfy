/**
 * Which organisation gets which answer (internal/cache/cache.go): the singleflight group is keyed by
 * the credential alone, so the callers of one flight share its result whatever their organisation.
 */
module OrgIsolation {
  import opened Prelude
  import opened CredentialCache
  import opened CacheFinality

  // ---------------------------------------------------------------- Foreign callers

  /** A result of the row's own organisation that `caller` has yet to read. */
  predicate SharesResult(s: State, result: nat, slot: Slot, caller: Caller) {
    && Waits(s, result, caller) && s.shared[result].slot == slot
    && slot.id in s.db && s.shared[result].org == s.db[slot.id].record.org
  }

  /**
   * Main theorem: in every reachable state a caller of another organisation is answered exactly when it
   * has yet to read the result of a flight that was started for the row's own organisation, and it reads
   * the key exactly when nobody has zeroed that result before. The memory cache never answers it.
   */
  lemma ForeignCallerIsAnsweredExactlyWhen(
    c: Crypto, l: Limits, s: State, steps: seq<Step>, slot: Slot, caller: Caller)
    requires Authenticated(c) && Initial(c, s) && Runs(c, l, s, steps)
    requires
      var t := After(c, l, s, steps);
      slot.id in t.db && caller.org != t.db[slot.id].record.org
    ensures
      var t := After(c, l, s, steps);
      && ((exists plain :: Serves(t, slot, caller, plain)) <==> exists result :: SharesResult(t, result, slot, caller))
      && (ServesKey(c, t, slot, caller) <==>
            exists result :: SharesResult(t, result, slot, caller) && HoldsKey(c, t, result))
  {
    RunKeepsFaithful(c, l, s, steps);
    var t := After(c, l, s, steps);
    ForeignCallerReadsShared(c, t, slot, caller);
    if result: nat :| SharesResult(t, result, slot, caller) {
      assert ServesShared(t, result, slot, caller, t.shared[result].plain);
      assert Serves(t, slot, caller, t.shared[result].plain);
    }
    if result: nat :| SharesResult(t, result, slot, caller) && HoldsKey(c, t, result) {
      SharedResultServes(c, t, slot, result, caller);
    }
  }

  lemma ForeignCallerReadsShared(c: Crypto, t: State, slot: Slot, caller: Caller)
    requires Faithful(c, t) && slot.id in t.db && caller.org != t.db[slot.id].record.org
    ensures (exists plain :: Serves(t, slot, caller, plain)) ==> exists result :: SharesResult(t, result, slot, caller)
    ensures ServesKey(c, t, slot, caller) ==>
      exists result :: SharesResult(t, result, slot, caller) && HoldsKey(c, t, result)
  {
    assert MemoryFaithful(c, t, slot);
    if plain :| Serves(t, slot, caller, plain) {
      var result: nat :| ServesShared(t, result, slot, caller, plain);
      assert SharedFaithful(c, t, result);
      assert SharesResult(t, result, slot, caller);
    }
    if ServesKey(c, t, slot, caller) {
      var plain :| Serves(t, slot, caller, plain) && Resolve(c, t.db[slot.id].record) == Some(plain);
      var result: nat :| ServesShared(t, result, slot, caller, plain);
      assert SharedFaithful(c, t, result);
      assert SharesResult(t, result, slot, caller) && HoldsKey(c, t, result);
    }
  }

  /** Redis or a resolution still holds the key, so that a flight on the slot can come by it. */
  ghost predicate Shareable(s: State, slot: Slot) {
    RedisLive(s, slot.id) || exists writer :: FlightLive(s, writer, slot)
  }

  /** The caller has yet to read a result that still holds the key. */
  ghost predicate HasKeyWaiting(c: Crypto, s: State, slot: Slot, caller: Caller) {
    exists result :: SharesResult(s, result, slot, caller) && HoldsKey(c, s, result)
  }

  lemma UnshareableStays(c: Crypto, l: Limits, s: State, step: Step, slot: Slot)
    requires Revoked(s, slot.id) && !Shareable(s, slot) && Enabled(c, l, s, step)
    ensures Revoked(Apply(c, l, s, step), slot.id) && !Shareable(Apply(c, l, s, step), slot)
  {
    assert forall writer :: !FlightLive(s, writer, slot);
    forall writer ensures !FlightLive(Apply(c, l, s, step), writer, slot) {
      NoFlightRevives(c, l, s, step, slot, writer);
    }
    RedisStaysDead(c, l, s, step, slot);
    RowStaysRevoked(c, l, s, step, slot.id);
  }

  lemma NoKeyStartsWaiting(c: Crypto, l: Limits, s: State, step: Step, slot: Slot, caller: Caller)
    requires Revoked(s, slot.id) && !Shareable(s, slot) && Enabled(c, l, s, step)
    requires !HasKeyWaiting(c, s, slot, caller)
    ensures !HasKeyWaiting(c, Apply(c, l, s, step), slot, caller)
  {
    var t := Apply(c, l, s, step);
    RowsAreImmutable(c, l, s, step, slot.id);
    assert !FlightLive(s, slot, slot);
    forall result: nat ensures !(SharesResult(t, result, slot, caller) && HoldsKey(c, t, result)) {
      if SharesResult(t, result, slot, caller) && HoldsKey(c, t, result) {
        assert result < |s.shared|;
        assert SharesResult(s, result, slot, caller) && HoldsKey(c, s, result);
      }
    }
  }

  lemma {:induction false} NeverAnswered(
    c: Crypto, l: Limits, s: State, steps: seq<Step>, slot: Slot, caller: Caller)
    requires Revoked(s, slot.id) && !Shareable(s, slot) && !HasKeyWaiting(c, s, slot, caller) && Runs(c, l, s, steps)
    ensures !HasKeyWaiting(c, After(c, l, s, steps), slot, caller)
    decreases |steps|
  {
    if steps != [] {
      UnshareableStays(c, l, s, steps[0], slot);
      NoKeyStartsWaiting(c, l, s, steps[0], slot, caller);
      NeverAnswered(c, l, Apply(c, l, s, steps[0]), steps[1..], slot, caller);
    }
  }

  /** A flight of the row's own organisation that goes to Postgres. */
  lemma MissedFlightCanServe(c: Crypto, l: Limits, s: State, slot: Slot, caller: Caller)
    requires Authenticated(c) && Faithful(c, s) && slot in s.flights && s.flights[slot].phase.Missed?
    requires RowVisible(s, slot.id, s.flights[slot].org)
    ensures CanServeTo(c, l, s, slot, caller)
  {
    StepKeepsFaithful(c, l, s, QueryRow(slot, true));
    CarryingFlightCanServe(c, l, Apply(c, l, s, QueryRow(slot, true)), slot, caller);
    CanServeBefore(c, l, s, QueryRow(slot, true), slot, caller);
  }

  lemma NewFlightCanServe(c: Crypto, l: Limits, s: State, slot: Slot, caller: Caller)
    requires Authenticated(c) && Faithful(c, s) && slot !in s.flights && slot.id in s.db && !Revoked(s, slot.id)
    ensures CanServeTo(c, l, s, slot, caller)
  {
    var start := Start(slot, Caller(caller.call, s.db[slot.id].record.org));
    var s1 := Apply(c, l, s, start);
    StepKeepsFaithful(c, l, s, start);
    StepKeepsFaithful(c, l, s1, ReadRedis(slot, false));
    MissedFlightCanServe(c, l, Apply(c, l, s1, ReadRedis(slot, false)), slot, caller);
    CanServeBefore(c, l, s1, ReadRedis(slot, false), slot, caller);
    CanServeBefore(c, l, s, start, slot, caller);
  }

  /** While the row is not revoked, its organisation can start a flight and anybody can join it. */
  lemma UnrevokedRowCanServe(c: Crypto, l: Limits, s: State, slot: Slot, caller: Caller)
    requires Authenticated(c) && Faithful(c, s) && slot.id in s.db && !Revoked(s, slot.id)
    ensures CanServeTo(c, l, s, slot, caller)
  {
    StepKeepsFaithful(c, l, s, Finish(slot));
    NewFlightCanServe(c, l, Apply(c, l, s, Finish(slot)), slot, caller);
    CanServeBefore(c, l, s, Finish(slot), slot, caller);
  }

  /**
   * Main theorem: a caller of another organisation can ever read the key on this slot exactly when the
   * row is not revoked, Redis still holds the entry, a resolution holds the key, or the caller has yet
   * to read a result that holds it. Isolation between organisations is thus never a matter of the
   * caller's own organisation.
   */
  lemma ForeignCallerServableExactlyWhen(c: Crypto, l: Limits, s: State, slot: Slot, caller: Caller)
    requires Authenticated(c) && Faithful(c, s)
    requires slot.id in s.db && caller.org != s.db[slot.id].record.org
    ensures CanServeTo(c, l, s, slot, caller) <==>
      (!Revoked(s, slot.id) || Shareable(s, slot) || HasKeyWaiting(c, s, slot, caller))
  {
    if !Revoked(s, slot.id) {
      UnrevokedRowCanServe(c, l, s, slot, caller);
    } else if Shareable(s, slot) {
      ShareableCanServe(c, l, s, slot, caller);
    } else if HasKeyWaiting(c, s, slot, caller) {
      var result: nat :| SharesResult(s, result, slot, caller) && HoldsKey(c, s, result);
      SharedResultServes(c, s, slot, result, caller);
      ServesNow(c, l, s, slot, caller);
    } else if CanServeTo(c, l, s, slot, caller) {
      var steps :| Runs(c, l, s, steps) && ServesKey(c, After(c, l, s, steps), slot, caller);
      NeverAnswered(c, l, s, steps, slot, caller);
      RunKeepsFaithful(c, l, s, steps);
      RowKeepsOrg(c, l, s, steps, slot.id);
      ForeignCallerReadsShared(c, After(c, l, s, steps), slot, caller);
    }
  }

  lemma ShareableCanServe(c: Crypto, l: Limits, s: State, slot: Slot, caller: Caller)
    requires Authenticated(c) && Faithful(c, s) && Shareable(s, slot)
    ensures CanServeTo(c, l, s, slot, caller)
  {
    if RedisLive(s, slot.id) {
      RedisEntryCanServe(c, l, s, slot, caller);
    } else {
      var writer :| FlightLive(s, writer, slot);
      WriterCanServe(c, l, s, writer, slot, caller);
    }
  }

  lemma {:induction false} RowKeepsOrg(c: Crypto, l: Limits, s: State, steps: seq<Step>, id: string)
    requires Runs(c, l, s, steps) && id in s.db
    ensures id in After(c, l, s, steps).db && After(c, l, s, steps).db[id].record == s.db[id].record
    decreases |steps|
  {
    if steps != [] {
      RowsAreImmutable(c, l, s, steps[0], id);
      RowKeepsOrg(c, l, Apply(c, l, s, steps[0]), steps[1..], id);
    }
  }

  /** The difference itself: from an empty cache, a caller of any other organisation can come to read the key. */
  lemma ForeignCallerWitness(c: Crypto, l: Limits, id: string, record: Record, other: Caller)
    returns (s: State, t: State, slot: Slot)
    requires Authenticated(c) && Resolve(c, record).Some? && other.org != record.org
    ensures Initial(c, s) && s.db == map[id := Row(record, None)] && slot.id == id
    ensures Reaches(c, l, s, t) && id in t.db && t.db[id].record == record
    ensures ServesKey(c, t, slot, other)
  {
    s := State(0, map[id := Row(record, None)], map[], map[], map[], map[], []);
    slot := Slot(0, id);
    UnrevokedRowCanServe(c, l, s, slot, other);
    var steps :| Runs(c, l, s, steps) && ServesKey(c, After(c, l, s, steps), slot, other);
    t := After(c, l, s, steps);
    RowKeepsOrg(c, l, s, steps, id);
  }

  // ---------------------------------------------------------------- The owner on a foreign flight

  /** The verdicts of a flight on a row that has been there, unrevoked, since before it began. */
  ghost predicate RightVerdict(s: State, slot: Slot) {
    RowThere(s, slot.id) && slot in s.flights ==>
      && (s.flights[slot].phase == Failed(NotFoundOrRevoked) ==> s.flights[slot].org != s.db[slot.id].record.org)
      && (s.flights[slot].phase == Failed(UnwrapOrDecryptError) ==> s.flights[slot].org == s.db[slot.id].record.org)
  }

  predicate RowThere(s: State, id: string) { id in s.db && s.db[id].revokedAt.None? }

  lemma StepKeepsVerdict(c: Crypto, l: Limits, s: State, step: Step, slot: Slot)
    requires FlightFaithful(c, s, slot) && slot.id in s.db && RightVerdict(s, slot) && Enabled(c, l, s, step)
    ensures slot.id in Apply(c, l, s, step).db && RightVerdict(Apply(c, l, s, step), slot)
  {
    RowsAreImmutable(c, l, s, step, slot.id);
  }

  lemma {:induction false} RunKeepsVerdict(c: Crypto, l: Limits, s: State, steps: seq<Step>, slot: Slot)
    requires Authenticated(c) && Faithful(c, s) && slot.id in s.db && RightVerdict(s, slot) && Runs(c, l, s, steps)
    ensures RightVerdict(After(c, l, s, steps), slot)
    decreases |steps|
  {
    if steps != [] {
      assert FlightFaithful(c, s, slot);
      StepKeepsVerdict(c, l, s, steps[0], slot);
      StepKeepsFaithful(c, l, s, steps[0]);
      RunKeepsVerdict(c, l, Apply(c, l, s, steps[0]), steps[1..], slot);
    }
  }

  /** The flight has ended, and not because Postgres was down. */
  predicate Settled(f: Flight) {
    f.phase.Resolved? || (f.phase.Failed? && f.phase.error != DatabaseError)
  }

  /**
   * The dual, over every run: while the row is visible to a caller that waits for a settled flight begun
   * since the row was there, that caller is told "not found or revoked" exactly when the flight was
   * started for another organisation.
   */
  lemma WaitingOwnerIsRefusedExactlyWhen(
    c: Crypto, l: Limits, s: State, steps: seq<Step>, slot: Slot, caller: Caller)
    requires Authenticated(c) && Faithful(c, s) && slot.id in s.db && slot !in s.flights && Runs(c, l, s, steps)
    requires
      var t := After(c, l, s, steps);
      && RowVisible(t, slot.id, caller.org)
      && slot in t.flights && caller in t.flights[slot].callers && Settled(t.flights[slot])
    ensures
      var t := After(c, l, s, steps);
      Refuses(t, slot, caller, NotFoundOrRevoked) <==> t.flights[slot].org != caller.org
  {
    RunKeepsVerdict(c, l, s, steps, slot);
    RunKeepsFaithful(c, l, s, steps);
    assert FlightFaithful(c, After(c, l, s, steps), slot);
  }

  /** The owner is refused although its row is there: from an empty cache, on a flight of any other organisation. */
  lemma RefusedOwnerWitness(c: Crypto, l: Limits, id: string, record: Record, owner: Caller, other: Caller)
    returns (s: State, t: State, slot: Slot)
    requires Resolve(c, record).Some? && owner.org == record.org && other.org != record.org
    ensures Initial(c, s) && Reaches(c, l, s, t) && slot.id == id
    ensures RowVisible(t, id, owner.org) && Refuses(t, slot, owner, NotFoundOrRevoked)
  {
    s := State(0, map[id := Row(record, None)], map[], map[], map[], map[], []);
    slot := Slot(0, id);
    var s1 := s.(flights := s.flights[slot := Flight(other.org, {other}, Begun)]);
    MoveStart(c, l, s, slot, other);
    var s2 := Apply(c, l, s1, Join(slot, owner));
    Move(c, l, s1, Join(slot, owner), s2);
    ReachesTransitive(c, l, s, s1, s2);
    t := ForeignFlightFails(c, l, s2, slot, record);
    ReachesTransitive(c, l, s, s2, t);
  }

  lemma ForeignFlightFails(c: Crypto, l: Limits, s: State, slot: Slot, record: Record) returns (t: State)
    requires s.redis == map[] && s.db == map[slot.id := Row(record, None)]
    requires slot in s.flights && s.flights[slot].phase.Begun? && s.flights[slot].org != record.org
    ensures Reaches(c, l, s, t)
    ensures t == ToPhase(s, slot, Failed(NotFoundOrRevoked))
  {
    var s1 := ToPhase(s, slot, Missed);
    t := ToPhase(s, slot, Failed(NotFoundOrRevoked));
    MoveReadRedis(c, l, s, slot);
    MoveQueryRow(c, l, s1, slot);
    ReachesTransitive(c, l, s, s1, t);
  }
}
