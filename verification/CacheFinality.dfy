/**
 * When an invalidation is final (internal/cache): exactly when a revoked credential can be served
 * again on an instance.
 */
module CacheFinality {
  import opened Prelude
  import opened CredentialCache

  ghost predicate Revoked(s: State, id: string) {
    id in s.db && s.db[id].revokedAt.Some?
  }

  /** Some run from here ends with this caller reading the key on the slot. */
  ghost predicate CanServeTo(c: Crypto, l: Limits, s: State, slot: Slot, caller: Caller) {
    exists steps :: Runs(c, l, s, steps) && ServesKey(c, After(c, l, s, steps), slot, caller)
  }

  /** Some run from here ends with somebody reading the key on the slot. */
  ghost predicate CanServe(c: Crypto, l: Limits, s: State, slot: Slot) {
    exists caller :: CanServeTo(c, l, s, slot, caller)
  }

  predicate MemoryLive(s: State, slot: Slot) {
    slot in s.memory && s.memory[slot].enclave.Intact? && s.memory[slot].LiveAt(s.clock)
  }

  predicate RedisLive(s: State, id: string) {
    id in s.redis && s.clock <= s.redis[id].deadline
  }

  /** A resolution that will still write the secret where `slot` can find it: into Redis from any
      instance, or into this slot's own memory. */
  predicate FlightLive(s: State, writer: Slot, slot: Slot) {
    && writer in s.flights && writer.id == slot.id
    && (s.flights[writer].phase.ReadRow? || s.flights[writer].phase.Decrypted?
        || (writer == slot && s.flights[writer].phase.Carries()))
  }

  /** A result of the slot that still holds the key, and somebody who has yet to read it. */
  ghost predicate SharedLive(c: Crypto, s: State, result: nat, slot: Slot) {
    && result < |s.shared| && s.shared[result].slot == slot && s.shared[result].waiting != {}
    && HoldsKey(c, s, result)
  }

  /** Nobody has zeroed the slice, or that made no difference. */
  ghost predicate HoldsKey(c: Crypto, s: State, result: nat)
    requires result < |s.shared|
  {
    s.shared[result].zeroedBy == {} || KeyIsZeros(c, s, s.shared[result].slot.id)
  }

  /** What keeps a revoked credential alive for one instance. */
  ghost predicate Live(c: Crypto, s: State, slot: Slot) {
    || MemoryLive(s, slot) || RedisLive(s, slot.id)
    || (exists writer :: FlightLive(s, writer, slot))
    || (exists result :: SharedLive(c, s, result, slot))
  }

  lemma NoFlightRevives(c: Crypto, l: Limits, s: State, step: Step, slot: Slot, writer: Slot)
    requires Revoked(s, slot.id) && !RedisLive(s, slot.id) && !FlightLive(s, writer, slot) && Enabled(c, l, s, step)
    ensures !FlightLive(Apply(c, l, s, step), writer, slot)
  {
  }

  lemma RedisStaysDead(c: Crypto, l: Limits, s: State, step: Step, slot: Slot)
    requires !RedisLive(s, slot.id) && Enabled(c, l, s, step)
    requires step.WriteRedis? ==> !FlightLive(s, step.slot, slot)
    ensures !RedisLive(Apply(c, l, s, step), slot.id)
  {
  }

  lemma MemoryStaysDead(c: Crypto, l: Limits, s: State, step: Step, slot: Slot)
    requires !MemoryLive(s, slot) && Enabled(c, l, s, step)
    requires step.Promote? ==> !FlightLive(s, step.slot, slot)
    ensures !MemoryLive(Apply(c, l, s, step), slot)
  {
  }

  lemma SharedStaysDead(c: Crypto, l: Limits, s: State, step: Step, slot: Slot, result: nat)
    requires Revoked(s, slot.id) && !SharedLive(c, s, result, slot) && Enabled(c, l, s, step)
    requires step.Finish? ==> !FlightLive(s, step.slot, slot)
    ensures !SharedLive(c, Apply(c, l, s, step), result, slot)
  {
    RowsAreImmutable(c, l, s, step, slot.id);
  }

  lemma DeadStaysDead(c: Crypto, l: Limits, s: State, step: Step, slot: Slot)
    requires Revoked(s, slot.id) && !Live(c, s, slot) && Enabled(c, l, s, step)
    ensures Revoked(Apply(c, l, s, step), slot.id) && !Live(c, Apply(c, l, s, step), slot)
  {
    forall result ensures !SharedLive(c, Apply(c, l, s, step), result, slot) {
      assert !SharedLive(c, s, result, slot);
      SharedStaysDead(c, l, s, step, slot, result);
    }
    assert forall writer :: !FlightLive(s, writer, slot);
    forall writer ensures !FlightLive(Apply(c, l, s, step), writer, slot) {
      NoFlightRevives(c, l, s, step, slot, writer);
    }
    RedisStaysDead(c, l, s, step, slot);
    MemoryStaysDead(c, l, s, step, slot);
    RowStaysRevoked(c, l, s, step, slot.id);
  }

  lemma RowStaysRevoked(c: Crypto, l: Limits, s: State, step: Step, id: string)
    requires Revoked(s, id) && Enabled(c, l, s, step)
    ensures Revoked(Apply(c, l, s, step), id)
  {
  }

  lemma {:induction false} DeadForever(c: Crypto, l: Limits, s: State, steps: seq<Step>, slot: Slot)
    requires Revoked(s, slot.id) && !Live(c, s, slot) && Runs(c, l, s, steps)
    ensures Revoked(After(c, l, s, steps), slot.id) && !Live(c, After(c, l, s, steps), slot)
    decreases |steps|
  {
    if steps != [] {
      DeadStaysDead(c, l, s, steps[0], slot);
      DeadForever(c, l, Apply(c, l, s, steps[0]), steps[1..], slot);
    }
  }

  lemma CanServeBefore(c: Crypto, l: Limits, s: State, step: Step, slot: Slot, caller: Caller)
    requires Enabled(c, l, s, step) && CanServeTo(c, l, Apply(c, l, s, step), slot, caller)
    ensures CanServeTo(c, l, s, slot, caller)
  {
    var t := Apply(c, l, s, step);
    var steps :| Runs(c, l, t, steps) && ServesKey(c, After(c, l, t, steps), slot, caller);
    RunPrepend(c, l, s, step, steps);
    CanServeBy(c, l, s, [step] + steps, slot, caller);
  }

  lemma CanServeBy(c: Crypto, l: Limits, s: State, steps: seq<Step>, slot: Slot, caller: Caller)
    requires Runs(c, l, s, steps) && ServesKey(c, After(c, l, s, steps), slot, caller)
    ensures CanServeTo(c, l, s, slot, caller)
  {
  }

  lemma ServesNow(c: Crypto, l: Limits, s: State, slot: Slot, caller: Caller)
    requires ServesKey(c, s, slot, caller)
    ensures CanServeTo(c, l, s, slot, caller)
  {
    assert Runs(c, l, s, []) && After(c, l, s, []) == s;
  }

  /** A result that still holds the key serves each of those waiting for it. */
  lemma SharedResultServes(c: Crypto, s: State, slot: Slot, result: nat, caller: Caller)
    requires Faithful(c, s) && Waits(s, result, caller) && s.shared[result].slot == slot && HoldsKey(c, s, result)
    ensures ServesKey(c, s, slot, caller)
  {
    assert SharedFaithful(c, s, result);
    assert ServesShared(s, result, slot, caller, s.shared[result].plain);
    assert Serves(s, slot, caller, s.shared[result].plain);
  }

  lemma EndedFlightServes(c: Crypto, l: Limits, s: State, slot: Slot, caller: Caller)
    requires Authenticated(c) && Faithful(c, s) && slot in s.flights && s.flights[slot].phase.Resolved?
    requires caller in s.flights[slot].callers
    ensures ServesKey(c, Apply(c, l, s, Finish(slot)), slot, caller)
  {
    StepKeepsFaithful(c, l, s, Finish(slot));
    SharedResultServes(c, Apply(c, l, s, Finish(slot)), slot, |s.shared|, caller);
  }

  /** A finished resolution answers whoever joins it. */
  lemma ResolvedFlightCanServe(c: Crypto, l: Limits, s: State, slot: Slot, caller: Caller)
    requires Authenticated(c) && Faithful(c, s) && slot in s.flights && s.flights[slot].phase.Resolved?
    ensures CanServeTo(c, l, s, slot, caller)
  {
    var joined := Apply(c, l, s, Join(slot, caller));
    StepKeepsFaithful(c, l, s, Join(slot, caller));
    EndedFlightServes(c, l, joined, slot, caller);
    ServesNow(c, l, Apply(c, l, joined, Finish(slot)), slot, caller);
    CanServeBefore(c, l, joined, Finish(slot), slot, caller);
    CanServeBefore(c, l, s, Join(slot, caller), slot, caller);
  }

  /** The next step of a resolution that carries the secret, with every service up. */
  function NextStep(phase: Phase, slot: Slot): Step
    requires phase.Carries() && !phase.Resolved?
  {
    if phase.ReadRow? then DecryptRow(slot, true)
    else if phase.Decrypted? then WriteRedis(slot, true)
    else if phase.Promoting? then Promote(slot)
    else DecryptHit(slot, true, true)
  }

  function StepsLeft(phase: Phase): nat {
    match phase
    case ReadRow(_, _) => 4
    case Decrypted(_, _, _) => 3
    case HitRedis(_, _) => 3
    case Promoting(_, _) => 2
    case _ => 1
  }

  lemma NextStepCarriesOn(c: Crypto, l: Limits, s: State, slot: Slot)
    requires Authenticated(c) && Faithful(c, s)
    requires slot in s.flights && s.flights[slot].phase.Carries() && !s.flights[slot].phase.Resolved?
    ensures
      var step := NextStep(s.flights[slot].phase, slot);
      && Enabled(c, l, s, step)
      && var t := Apply(c, l, s, step);
         slot in t.flights && t.flights[slot].phase.Carries()
         && StepsLeft(t.flights[slot].phase) < StepsLeft(s.flights[slot].phase)
  {
    assert FlightFaithful(c, s, slot);
    if s.flights[slot].phase.HitRedis? {
      var record := s.flights[slot].phase.record;
      DEKCacheIsTransparent(c, CachedDEK(s, slot), record.encryptedKey, record.wrappedDEK, true);
    }
  }

  /** A resolution on this slot that carries the secret can be driven to its answer, for any caller. */
  lemma CarryingFlightCanServe(c: Crypto, l: Limits, s: State, slot: Slot, caller: Caller)
    requires Authenticated(c) && Faithful(c, s)
    requires slot in s.flights && s.flights[slot].phase.Carries()
    ensures CanServeTo(c, l, s, slot, caller)
    decreases StepsLeft(s.flights[slot].phase)
  {
    if s.flights[slot].phase.Resolved? {
      ResolvedFlightCanServe(c, l, s, slot, caller);
    } else {
      var step := NextStep(s.flights[slot].phase, slot);
      NextStepCarriesOn(c, l, s, slot);
      StepKeepsFaithful(c, l, s, step);
      CarryingFlightCanServe(c, l, Apply(c, l, s, step), slot, caller);
      CanServeBefore(c, l, s, step, slot, caller);
    }
  }

  /** A live Redis entry can be read back by a fresh resolution on any instance. */
  lemma RedisEntryCanServe(c: Crypto, l: Limits, s: State, slot: Slot, caller: Caller)
    requires Authenticated(c) && Faithful(c, s) && RedisLive(s, slot.id)
    ensures CanServeTo(c, l, s, slot, caller)
  {
    var s1 := Apply(c, l, s, Finish(slot));
    StepKeepsFaithful(c, l, s, Finish(slot));
    var start := Start(slot, Caller(caller.call, s.redis[slot.id].record.org));
    var s2 := Apply(c, l, s1, start);
    StepKeepsFaithful(c, l, s1, start);
    var s3 := Apply(c, l, s2, ReadRedis(slot, true));
    StepKeepsFaithful(c, l, s2, ReadRedis(slot, true));
    CarryingFlightCanServe(c, l, s3, slot, caller);
    CanServeBefore(c, l, s2, ReadRedis(slot, true), slot, caller);
    CanServeBefore(c, l, s1, start, slot, caller);
    CanServeBefore(c, l, s, Finish(slot), slot, caller);
  }

  /** A resolution on any instance that read the row before revocation can still refill Redis. */
  lemma WriterCanServe(c: Crypto, l: Limits, s: State, writer: Slot, slot: Slot, caller: Caller)
    requires Authenticated(c) && Faithful(c, s) && FlightLive(s, writer, slot)
    ensures CanServeTo(c, l, s, slot, caller)
    decreases if s.flights[writer].phase.ReadRow? then 1 else 0
  {
    assert FlightFaithful(c, s, writer);
    if writer == slot {
      CarryingFlightCanServe(c, l, s, slot, caller);
    } else {
      var step := if s.flights[writer].phase.ReadRow? then DecryptRow(writer, true) else WriteRedis(writer, true);
      StepKeepsFaithful(c, l, s, step);
      if s.flights[writer].phase.ReadRow? {
        WriterCanServe(c, l, Apply(c, l, s, step), writer, slot, caller);
      } else {
        RedisEntryCanServe(c, l, Apply(c, l, s, step), slot, caller);
      }
      CanServeBefore(c, l, s, step, slot, caller);
    }
  }

  lemma MemoryServesKey(c: Crypto, s: State, slot: Slot, call: nat)
    requires Faithful(c, s) && MemoryLive(s, slot)
    ensures ServesKey(c, s, slot, Caller(call, s.memory[slot].org))
  {
    var entry := s.memory[slot];
    assert MemoryFaithful(c, s, slot);
    assert Serves(s, slot, Caller(call, entry.org), Plain(entry.enclave.contents, entry.baseURL, entry.authScheme));
  }

  lemma LiveCanServe(c: Crypto, l: Limits, s: State, slot: Slot) returns (caller: Caller)
    requires Authenticated(c) && Faithful(c, s) && Live(c, s, slot)
    ensures CanServeTo(c, l, s, slot, caller)
  {
    caller := Caller(0, "");
    if MemoryLive(s, slot) {
      caller := Caller(0, s.memory[slot].org);
      MemoryServesKey(c, s, slot, 0);
      ServesNow(c, l, s, slot, caller);
    } else if RedisLive(s, slot.id) {
      RedisEntryCanServe(c, l, s, slot, caller);
    } else if writer :| FlightLive(s, writer, slot) {
      WriterCanServe(c, l, s, writer, slot, caller);
    } else {
      var result: nat :| SharedLive(c, s, result, slot);
      caller :| caller in s.shared[result].waiting;
      SharedResultServes(c, s, slot, result, caller);
      ServesNow(c, l, s, slot, caller);
    }
  }

  /**
   * Main theorem: once the row is revoked, an instance can ever serve the key again exactly when its
   * memory still holds it, Redis still holds it, a resolution that read the row before the revocation
   * has yet to write, or somebody has yet to read a result that still holds it. Invalidation is final
   * exactly when all four are gone.
   */
  lemma ServableExactlyWhenLive(c: Crypto, l: Limits, s: State, slot: Slot)
    requires Authenticated(c) && Faithful(c, s) && Revoked(s, slot.id)
    ensures CanServe(c, l, s, slot) <==> Live(c, s, slot)
  {
    if Live(c, s, slot) {
      var caller := LiveCanServe(c, l, s, slot);
    } else if CanServe(c, l, s, slot) {
      var caller :| CanServeTo(c, l, s, slot, caller);
      var steps :| Runs(c, l, s, steps) && ServesKey(c, After(c, l, s, steps), slot, caller);
      DeadForever(c, l, s, steps, slot);
      RunKeepsFaithful(c, l, s, steps);
      ServingIsLive(c, After(c, l, s, steps), slot, caller);
    }
  }

  lemma ServingIsLive(c: Crypto, s: State, slot: Slot, caller: Caller)
    requires Faithful(c, s) && ServesKey(c, s, slot, caller)
    ensures Live(c, s, slot)
  {
    var plain :| Serves(s, slot, caller, plain) && Resolve(c, s.db[slot.id].record) == Some(plain);
    if ServesFromMemory(s, slot, caller, plain) {
      assert MemoryLive(s, slot);
    } else {
      var result: nat :| ServesShared(s, result, slot, caller, plain);
      assert SharedFaithful(c, s, result);
      assert SharedLive(c, s, result, slot);
    }
  }

  /** Nobody on this slot has yet to read a result. */
  predicate NobodyWaits(s: State, slot: Slot) {
    forall i | 0 <= i < |s.shared| && s.shared[i].slot == slot :: s.shared[i].waiting == {}
  }

  lemma NobodyWaitsStays(c: Crypto, l: Limits, s: State, step: Step, slot: Slot)
    requires NobodyWaits(s, slot) && !FlightLive(s, slot, slot) && Enabled(c, l, s, step)
    ensures NobodyWaits(Apply(c, l, s, step), slot)
  {
    var t := Apply(c, l, s, step);
    forall i | 0 <= i < |t.shared| && t.shared[i].slot == slot ensures t.shared[i].waiting == {} {
      assert i < |s.shared|;
    }
  }

  lemma {:induction false} NobodyWaitsForever(c: Crypto, l: Limits, s: State, steps: seq<Step>, slot: Slot)
    requires Revoked(s, slot.id) && !Live(c, s, slot) && NobodyWaits(s, slot) && Runs(c, l, s, steps)
    ensures NobodyWaits(After(c, l, s, steps), slot)
    decreases |steps|
  {
    if steps != [] {
      DeadStaysDead(c, l, s, steps[0], slot);
      NobodyWaitsStays(c, l, s, steps[0], slot);
      NobodyWaitsForever(c, l, Apply(c, l, s, steps[0]), steps[1..], slot);
    }
  }

  lemma QuietIsDead(c: Crypto, s: State, slot: Slot)
    requires slot !in s.memory && slot.id !in s.redis && NobodyWaits(s, slot)
    requires forall writer | writer in s.flights && writer.id == slot.id :: !s.flights[writer].phase.Carries()
    ensures !Live(c, s, slot)
  {
    assert forall writer :: !FlightLive(s, writer, slot);
    assert forall result :: !SharedLive(c, s, result, slot);
  }

  /** InvalidateCredential in a quiet system, then the message on instance `slot`: final for good, and not
      even a zeroed result is left to read. */
  lemma InvalidationIsFinal(c: Crypto, l: Limits, s: State, steps: seq<Step>, slot: Slot)
    requires Revoked(s, slot.id) && slot.id !in s.redis && NobodyWaits(s, slot)
    requires forall writer | writer in s.flights && writer.id == slot.id :: !s.flights[writer].phase.Carries()
    requires Runs(c, l, Apply(c, l, s, ForgetMemory(slot)), steps)
    ensures
      var t := After(c, l, Apply(c, l, s, ForgetMemory(slot)), steps);
      forall caller, plain :: !Serves(t, slot, caller, plain)
  {
    var s1 := Apply(c, l, s, ForgetMemory(slot));
    QuietIsDead(c, s1, slot);
    DeadForever(c, l, s1, steps, slot);
    NobodyWaitsForever(c, l, s1, steps, slot);
    var t := After(c, l, s1, steps);
    assert !MemoryLive(t, slot);
  }

  /** Clearing the local caches first does not suffice: until Redis is cleared too, the entry comes back. */
  lemma LocalClearDoesNotSuffice(c: Crypto, l: Limits, s: State, slot: Slot)
    requires Authenticated(c) && Faithful(c, s) && Revoked(s, slot.id) && RedisLive(s, slot.id)
    ensures CanServe(c, l, Apply(c, l, s, ForgetMemory(slot)), slot)
    ensures Revoked(Apply(c, l, s, ForgetMemory(slot)), slot.id)
  {
    StepKeepsFaithful(c, l, s, ForgetMemory(slot));
    RedisEntryCanServe(c, l, Apply(c, l, s, ForgetMemory(slot)), slot, Caller(0, ""));
  }
}
