/**
 * The three-tier credential cache (internal/cache): per-instance memory and DEK caches, a shared Redis,
 * and Postgres. Resolutions are split into their reads and writes and interleave freely with revocation,
 * invalidation (delivered or lost), eviction, corruption and failing services, under one clock.
 */
module CredentialCache {
  import opened Prelude

  type Bytes = seq<bv8>

  /** Credential decryption and KMS unwrapping, as the cache sees them. */
  datatype Crypto = Crypto(decrypt: (Bytes, Bytes) -> Option<Bytes>, unwrap: Bytes -> Option<Bytes>)

  /** Authenticated decryption: keys that open a ciphertext agree on the plaintext. */
  ghost predicate Authenticated(c: Crypto) {
    forall text, k1, k2 ::
      c.decrypt(text, k1).Some? && c.decrypt(text, k2).Some? ==> c.decrypt(text, k1) == c.decrypt(text, k2)
  }

  /** `memoryTTL` is the TTL of the in-memory LRU itself, `hardExpiry` the manager's own limit on its
      entries; `delay` bounds the time from a resolution's read to its last write or answer. */
  datatype Limits = Limits(redisTTL: nat, memoryTTL: nat, hardExpiry: nat, delay: nat)
  {
    /** How long an entry of the in-memory cache can be served. */
    function MemoryLife(): nat {
      if memoryTTL < hardExpiry then memoryTTL else hardExpiry
    }
  }

  /** The fields the Postgres row and the Redis entry share, both still encrypted. */
  datatype Record = Record(org: string, encryptedKey: Bytes, wrappedDEK: Bytes, baseURL: string, authScheme: string)

  datatype Row = Row(record: Record, revokedAt: Option<int>)

  datatype RedisEntry = RedisEntry(record: Record, deadline: int)

  /** A memguard enclave: opens to its contents, or fails to open. */
  datatype Sealed = Intact(contents: Bytes) | Broken

  /** `ttlExpiry` is the LRU's deadline; a hit extends neither deadline. */
  datatype MemoryEntry = MemoryEntry(
    enclave: Sealed, baseURL: string, authScheme: string, org: string, hardExpiry: int, ttlExpiry: int)
  {
    predicate LiveAt(now: int) {
      now <= ttlExpiry && now <= hardExpiry
    }
  }

  datatype Plain = Plain(apiKey: Bytes, baseURL: string, authScheme: string)

  /** One credential on one instance: the key of the local caches and of the singleflight group. */
  datatype Slot = Slot(instance: nat, id: string)

  datatype CacheError = NotFoundOrRevoked | DatabaseError | UnwrapOrDecryptError

  /** A resolution between its atomic steps; `readAt` is when the data it carries was read. */
  datatype Phase =
    | Begun
    | HitRedis(record: Record, readAt: int)
    | Missed
    | ReadRow(record: Record, readAt: int)
    | Decrypted(record: Record, plain: Plain, readAt: int)
    | Promoting(plain: Plain, readAt: int)
    | Resolved(plain: Plain, readAt: int)
    | Failed(error: CacheError)
  {
    predicate Carries() {
      !Begun? && !Missed? && !Failed?
    }
  }

  /** One call of GetDecryptedCredential, made for an organisation. */
  datatype Caller = Caller(call: nat, org: string)

  /** The shared call of a singleflight group: it runs for the organisation of its first caller, and
      everybody in `callers` waits for its result. */
  datatype Flight = Flight(org: string, callers: set<Caller>, phase: Phase)

  /** The result of a finished flight, which all its callers hold by one pointer. `plain.apiKey` is what
      their one slice holds now; `waiting` have yet to read it, `zeroedBy` have zeroed it. */
  datatype Shared = Shared(
    slot: Slot,
    org: string,
    callers: set<Caller>,
    waiting: set<Caller>,
    zeroedBy: set<Caller>,
    plain: Plain,
    readAt: int)

  datatype State = State(
    clock: int,
    db: map<string, Row>,
    redis: map<string, RedisEntry>,
    memory: map<Slot, MemoryEntry>,
    dek: map<Slot, Sealed>,
    flights: map<Slot, Flight>,
    shared: seq<Shared>)

  // ---------------------------------------------------------------- What one instance computes

  /** resolveFromDB on a row: unwrap, then decrypt. */
  function Resolve(c: Crypto, r: Record): Option<Plain> {
    match c.unwrap(r.wrappedDEK)
    case None => None
    case Some(dek) =>
      match c.decrypt(r.encryptedKey, dek)
      case None => None
      case Some(apiKey) => Some(Plain(apiKey, r.baseURL, r.authScheme))
  }

  /** decryptWithDEKCache: the key, if any, and the DEK cache entry it leaves. */
  function DecryptWithDEKCache(
    c: Crypto, cached: Option<Sealed>, encryptedKey: Bytes, wrappedDEK: Bytes, kmsUp: bool)
    : (Option<Bytes>, Option<Sealed>)
  {
    var direct := if cached.Some? && cached.value.Intact? then c.decrypt(encryptedKey, cached.value.contents) else None;
    if direct.Some? then (direct, cached)
    else if !kmsUp || c.unwrap(wrappedDEK).None? then (None, None)
    else
      var dek := c.unwrap(wrappedDEK).value;
      var apiKey := c.decrypt(encryptedKey, dek);
      (apiKey, if apiKey.Some? then Some(Intact(dek)) else None)
  }

  /** A cached DEK that opens the key makes KMS unnecessary, and stays cached. */
  lemma CachedDEKSuffices(
    c: Crypto, dek: Bytes, encryptedKey: Bytes, wrappedDEK: Bytes, kmsUp: bool)
    requires c.decrypt(encryptedKey, dek).Some?
    ensures DecryptWithDEKCache(c, Some(Intact(dek)), encryptedKey, wrappedDEK, kmsUp)
         == (c.decrypt(encryptedKey, dek), Some(Intact(dek)))
  {
  }

  /** Whatever the DEK cache holds, a key that comes out is the one KMS and the row determine; and with
      KMS up one comes out whenever the row has one. */
  lemma DEKCacheIsTransparent(
    c: Crypto, cached: Option<Sealed>, encryptedKey: Bytes, wrappedDEK: Bytes, kmsUp: bool)
    requires Authenticated(c)
    requires c.unwrap(wrappedDEK).Some? && c.decrypt(encryptedKey, c.unwrap(wrappedDEK).value).Some?
    ensures
      var (apiKey, _) := DecryptWithDEKCache(c, cached, encryptedKey, wrappedDEK, kmsUp);
      && (apiKey.Some? ==> apiKey == c.decrypt(encryptedKey, c.unwrap(wrappedDEK).value))
      && (kmsUp ==> apiKey.Some?)
  {
  }

  // ---------------------------------------------------------------- Steps

  datatype Step =
    | Create(id: string, row: Row)
    | Revoke(id: string)
    | Tick(now: int)
    | Start(slot: Slot, caller: Caller)
    | Join(slot: Slot, caller: Caller)
    | ReadRedis(slot: Slot, redisUp: bool)
    | DecryptHit(slot: Slot, kmsUp: bool, redisUp: bool)
    | QueryRow(slot: Slot, dbUp: bool)
    | DecryptRow(slot: Slot, kmsUp: bool)
    | WriteRedis(slot: Slot, redisUp: bool)
    | Promote(slot: Slot)
    | Finish(slot: Slot)
    | Zero(result: nat, caller: Caller)
    | Leave(result: nat, caller: Caller)
    | ForgetMemory(slot: Slot)
    | ForgetDEK(slot: Slot)
    | DeleteRedis(id: string)
    | BreakMemory(slot: Slot)
    | BreakDEK(slot: Slot, sealed: Sealed)

  predicate InPhase(s: State, slot: Slot, p: Phase -> bool) {
    slot in s.flights && p(s.flights[slot].phase)
  }

  /** The call has been handed the result and has yet to read it. */
  predicate Waits(s: State, result: nat, caller: Caller) {
    result < |s.shared| && caller in s.shared[result].waiting
  }

  ghost predicate Enabled(c: Crypto, l: Limits, s: State, step: Step) {
    match step
    case Create(id, row) => id !in s.db && row.revokedAt.None? && Resolve(c, row.record).Some?
    case Revoke(id) => id in s.db && s.db[id].revokedAt.None?
    case Tick(now) =>
      && s.clock <= now
      && (forall slot | slot in s.flights && s.flights[slot].phase.Carries() ::
            now <= s.flights[slot].phase.readAt + l.delay)
      && (forall i | 0 <= i < |s.shared| && s.shared[i].waiting != {} :: now <= s.shared[i].readAt + l.delay)
    case Start(slot, _) => slot !in s.flights
    case Join(slot, _) => slot in s.flights
    case ReadRedis(slot, _) => InPhase(s, slot, (p: Phase) => p.Begun?)
    case DecryptHit(slot, _, _) => InPhase(s, slot, (p: Phase) => p.HitRedis?)
    case QueryRow(slot, _) => InPhase(s, slot, (p: Phase) => p.Missed?)
    case DecryptRow(slot, _) => InPhase(s, slot, (p: Phase) => p.ReadRow?)
    case WriteRedis(slot, _) => InPhase(s, slot, (p: Phase) => p.Decrypted?)
    case Promote(slot) => InPhase(s, slot, (p: Phase) => p.Promoting?)
    case BreakMemory(slot) => slot in s.memory
    case Finish(_) => true
    case Zero(result, caller) => Waits(s, result, caller)
    case Leave(result, caller) => Waits(s, result, caller)
    case ForgetMemory(_) => true
    case ForgetDEK(_) => true
    case DeleteRedis(_) => true
    case BreakDEK(_, _) => true
  }

  function WithDEK(dek: map<Slot, Sealed>, slot: Slot, sealed: Option<Sealed>): map<Slot, Sealed> {
    if sealed.Some? then dek[slot := sealed.value] else dek - {slot}
  }

  function CachedDEK(s: State, slot: Slot): Option<Sealed> {
    if slot in s.dek then Some(s.dek[slot]) else None
  }

  /** redisCache.Get plus the organisation check: an unreadable, missing, expired or foreign entry is a miss. */
  predicate RedisHit(s: State, id: string, org: string) {
    id in s.redis && s.clock <= s.redis[id].deadline && s.redis[id].record.org == org
  }

  /** What promoteToL1 stores. */
  function EntryFor(plain: Plain, org: string, now: int, l: Limits): MemoryEntry {
    MemoryEntry(Intact(plain.apiKey), plain.baseURL, plain.authScheme, org, now + l.hardExpiry, now + l.memoryTTL)
  }

  /** The row resolveFromDB's WHERE clause selects. */
  predicate RowVisible(s: State, id: string, org: string) {
    id in s.db && s.db[id].record.org == org && s.db[id].revokedAt.None?
  }

  // A step as its effect on each tier.

  ghost function RowsAfter(s: State, step: Step): map<string, Row> {
    if step.Create? then s.db[step.id := step.row]
    else if step.Revoke? && step.id in s.db then s.db[step.id := s.db[step.id].(revokedAt := Some(s.clock))]
    else s.db
  }

  /** What DecryptHit leaves: the key, if any, and the DEK cache entry. */
  ghost function HitDecrypted(c: Crypto, s: State, step: Step): (Option<Bytes>, Option<Sealed>)
    requires step.DecryptHit? && step.slot in s.flights && s.flights[step.slot].phase.HitRedis?
  {
    var record := s.flights[step.slot].phase.record;
    DecryptWithDEKCache(c, CachedDEK(s, step.slot), record.encryptedKey, record.wrappedDEK, step.kmsUp)
  }

  ghost function RedisAfter(c: Crypto, l: Limits, s: State, step: Step): map<string, RedisEntry>
    requires Enabled(c, l, s, step)
  {
    if step.DeleteRedis? then s.redis - {step.id}
    else if step.DecryptHit? && step.redisUp && HitDecrypted(c, s, step).0.None? then s.redis - {step.slot.id}
    else if step.WriteRedis? && step.redisUp then
      var flight := s.flights[step.slot];
      s.redis[step.slot.id := RedisEntry(flight.phase.record.(org := flight.org), s.clock + l.redisTTL)]
    else s.redis
  }

  ghost function MemoryAfter(c: Crypto, l: Limits, s: State, step: Step): map<Slot, MemoryEntry>
    requires Enabled(c, l, s, step)
  {
    if step.Promote? then
      var flight := s.flights[step.slot];
      s.memory[step.slot := EntryFor(flight.phase.plain, flight.org, s.clock, l)]
    else if step.ForgetMemory? then s.memory - {step.slot}
    else if step.BreakMemory? then s.memory[step.slot := s.memory[step.slot].(enclave := Broken)]
    else s.memory
  }

  ghost function DEKAfter(c: Crypto, l: Limits, s: State, step: Step): map<Slot, Sealed>
    requires Enabled(c, l, s, step)
  {
    if step.DecryptHit? then WithDEK(s.dek, step.slot, HitDecrypted(c, s, step).1)
    else if step.DecryptRow? && step.kmsUp && Resolve(c, s.flights[step.slot].phase.record).Some? then
      s.dek[step.slot := Intact(c.unwrap(s.flights[step.slot].phase.record.wrappedDEK).value)]
    else if step.ForgetDEK? then s.dek - {step.slot}
    else if step.BreakDEK? then s.dek[step.slot := step.sealed]
    else s.dek
  }

  /** The phase that a step of a resolution leads to. */
  ghost function PhaseAfter(c: Crypto, l: Limits, s: State, step: Step): Phase
    requires Enabled(c, l, s, step) && Resolves(step)
  {
    var slot, phase := step.slot, s.flights[step.slot].phase;
    if step.ReadRedis? then
      if step.redisUp && RedisHit(s, slot.id, s.flights[slot].org) then HitRedis(s.redis[slot.id].record, s.clock)
      else Missed
    else if step.DecryptHit? then
      var apiKey := HitDecrypted(c, s, step).0;
      if apiKey.Some? then Promoting(Plain(apiKey.value, phase.record.baseURL, phase.record.authScheme), phase.readAt)
      else Missed
    else if step.QueryRow? then
      if step.dbUp && RowVisible(s, slot.id, s.flights[slot].org) then ReadRow(s.db[slot.id].record, s.clock)
      else Failed(if step.dbUp then NotFoundOrRevoked else DatabaseError)
    else if step.DecryptRow? then
      if step.kmsUp && Resolve(c, phase.record).Some? then
        Decrypted(phase.record, Resolve(c, phase.record).value, phase.readAt)
      else Failed(UnwrapOrDecryptError)
    else if step.WriteRedis? then Promoting(phase.plain, phase.readAt)
    else Resolved(phase.plain, phase.readAt)
  }

  /** The steps of a resolution in progress. */
  predicate Resolves(step: Step) {
    step.ReadRedis? || step.DecryptHit? || step.QueryRow? || step.DecryptRow? || step.WriteRedis? || step.Promote?
  }

  ghost function FlightsAfter(c: Crypto, l: Limits, s: State, step: Step): map<Slot, Flight>
    requires Enabled(c, l, s, step)
  {
    if Resolves(step) then s.flights[step.slot := s.flights[step.slot].(phase := PhaseAfter(c, l, s, step))]
    else if step.Start? then s.flights[step.slot := Flight(step.caller.org, {step.caller}, Begun)]
    else if step.Join? then
      s.flights[step.slot := s.flights[step.slot].(callers := s.flights[step.slot].callers + {step.caller})]
    else if step.Finish? then s.flights - {step.slot}
    else s.flights
  }

  function Zeros(n: nat): (r: Bytes)
    ensures |r| == n
  {
    if n == 0 then [] else Zeros(n - 1) + [0]
  }

  /** What a slice holds once it has been zeroed in place. */
  function Zeroed(plain: Plain): Plain { plain.(apiKey := Zeros(|plain.apiKey|)) }

  /** What the callers of a flight are handed when it ends well. */
  function HandOut(slot: Slot, f: Flight): Shared
    requires f.phase.Resolved?
  {
    Shared(slot, f.org, f.callers, f.callers, {}, f.phase.plain, f.phase.readAt)
  }

  /** A caller reads the slice; the proxy then zeroes it, other callers leave it as it is. */
  ghost function SharedAfter(c: Crypto, l: Limits, s: State, step: Step): seq<Shared>
    requires Enabled(c, l, s, step)
  {
    if step.Finish? then
      if step.slot in s.flights && s.flights[step.slot].phase.Resolved? then
        s.shared + [HandOut(step.slot, s.flights[step.slot])]
      else s.shared
    else if step.Zero? then
      var r := s.shared[step.result];
      s.shared[step.result := r.(waiting := r.waiting - {step.caller}, zeroedBy := r.zeroedBy + {step.caller},
                                 plain := Zeroed(r.plain))]
    else if step.Leave? then
      var r := s.shared[step.result];
      s.shared[step.result := r.(waiting := r.waiting - {step.caller})]
    else s.shared
  }

  ghost function Apply(c: Crypto, l: Limits, s: State, step: Step): State
    requires Enabled(c, l, s, step)
  {
    State(
      if step.Tick? then step.now else s.clock,
      RowsAfter(s, step),
      RedisAfter(c, l, s, step),
      MemoryAfter(c, l, s, step),
      DEKAfter(c, l, s, step),
      FlightsAfter(c, l, s, step),
      SharedAfter(c, l, s, step))
  }

  ghost predicate Runs(c: Crypto, l: Limits, s: State, steps: seq<Step>)
    decreases |steps|
  {
    steps == [] || (Enabled(c, l, s, steps[0]) && Runs(c, l, Apply(c, l, s, steps[0]), steps[1..]))
  }

  ghost function After(c: Crypto, l: Limits, s: State, steps: seq<Step>): State
    requires Runs(c, l, s, steps)
    decreases |steps|
  {
    if steps == [] then s else After(c, l, Apply(c, l, s, steps[0]), steps[1..])
  }

  lemma RunPrepend(c: Crypto, l: Limits, s: State, step: Step, rest: seq<Step>)
    requires Enabled(c, l, s, step) && Runs(c, l, Apply(c, l, s, step), rest)
    ensures Runs(c, l, s, [step] + rest)
    ensures After(c, l, s, [step] + rest) == After(c, l, Apply(c, l, s, step), rest)
  {
    assert ([step] + rest)[1..] == rest;
  }

  lemma {:induction false} RunAppend(c: Crypto, l: Limits, s: State, steps: seq<Step>, step: Step)
    requires Runs(c, l, s, steps) && Enabled(c, l, After(c, l, s, steps), step)
    ensures Runs(c, l, s, steps + [step])
    ensures After(c, l, s, steps + [step]) == Apply(c, l, After(c, l, s, steps), step)
    decreases |steps|
  {
    if steps == [] {
      assert steps + [step] == [step] && [step][1..] == [];
    } else {
      RunAppend(c, l, Apply(c, l, s, steps[0]), steps[1..], step);
      assert (steps + [step])[1..] == steps[1..] + [step];
    }
  }

  ghost predicate Reaches(c: Crypto, l: Limits, s: State, t: State) {
    exists steps :: Runs(c, l, s, steps) && After(c, l, s, steps) == t
  }

  lemma Move(c: Crypto, l: Limits, s: State, step: Step, t: State)
    requires Enabled(c, l, s, step) && Apply(c, l, s, step) == t
    ensures Reaches(c, l, s, t)
  {
    assert Runs(c, l, t, []) && After(c, l, t, []) == t;
    RunPrepend(c, l, s, step, []);
  }

  function ToPhase(s: State, slot: Slot, phase: Phase): State
    requires slot in s.flights
  {
    s.(flights := s.flights[slot := s.flights[slot].(phase := phase)])
  }

  lemma MoveStart(c: Crypto, l: Limits, s: State, slot: Slot, caller: Caller)
    requires slot !in s.flights
    ensures Reaches(c, l, s, s.(flights := s.flights[slot := Flight(caller.org, {caller}, Begun)]))
  {
    Move(c, l, s, Start(slot, caller), s.(flights := s.flights[slot := Flight(caller.org, {caller}, Begun)]));
  }

  lemma MoveReadRedis(c: Crypto, l: Limits, s: State, slot: Slot)
    requires slot in s.flights && s.flights[slot].phase.Begun?
    ensures Reaches(c, l, s, ToPhase(s, slot,
      if RedisHit(s, slot.id, s.flights[slot].org) then HitRedis(s.redis[slot.id].record, s.clock) else Missed))
  {
    Move(c, l, s, ReadRedis(slot, true), ToPhase(s, slot,
      if RedisHit(s, slot.id, s.flights[slot].org) then HitRedis(s.redis[slot.id].record, s.clock) else Missed));
  }

  lemma MoveQueryRow(c: Crypto, l: Limits, s: State, slot: Slot)
    requires slot in s.flights && s.flights[slot].phase.Missed?
    ensures Reaches(c, l, s, ToPhase(s, slot,
      if RowVisible(s, slot.id, s.flights[slot].org) then ReadRow(s.db[slot.id].record, s.clock)
      else Failed(NotFoundOrRevoked)))
  {
    Move(c, l, s, QueryRow(slot, true), ToPhase(s, slot,
      if RowVisible(s, slot.id, s.flights[slot].org) then ReadRow(s.db[slot.id].record, s.clock)
      else Failed(NotFoundOrRevoked)));
  }

  lemma MoveRevoke(c: Crypto, l: Limits, s: State, id: string)
    requires id in s.db && s.db[id].revokedAt.None?
    ensures Reaches(c, l, s, s.(db := s.db[id := s.db[id].(revokedAt := Some(s.clock))]))
  {
    Move(c, l, s, Revoke(id), s.(db := s.db[id := s.db[id].(revokedAt := Some(s.clock))]));
  }

  lemma MoveTick(c: Crypto, l: Limits, s: State, now: int)
    requires Enabled(c, l, s, Tick(now))
    ensures Reaches(c, l, s, s.(clock := now))
  {
    Move(c, l, s, Tick(now), s.(clock := now));
  }

  lemma MovePromote(c: Crypto, l: Limits, s: State, slot: Slot)
    requires Enabled(c, l, s, Promote(slot))
    ensures
      var f := s.flights[slot];
      Reaches(c, l, s, ToPhase(s, slot, Resolved(f.phase.plain, f.phase.readAt)).(
        memory := s.memory[slot := EntryFor(f.phase.plain, f.org, s.clock, l)]))
  {
    var f := s.flights[slot];
    Move(c, l, s, Promote(slot), ToPhase(s, slot, Resolved(f.phase.plain, f.phase.readAt)).(
           memory := s.memory[slot := EntryFor(f.phase.plain, f.org, s.clock, l)]));
  }

  /** A flight that ends without an answer. */
  lemma MoveAbandon(c: Crypto, l: Limits, s: State, slot: Slot)
    requires slot in s.flights ==> !s.flights[slot].phase.Resolved?
    ensures Reaches(c, l, s, s.(flights := s.flights - {slot}))
  {
    Move(c, l, s, Finish(slot), s.(flights := s.flights - {slot}));
  }

  lemma MoveFinish(c: Crypto, l: Limits, s: State, slot: Slot)
    requires slot in s.flights && s.flights[slot].phase.Resolved?
    ensures Reaches(c, l, s, s.(flights := s.flights - {slot}, shared := s.shared + [HandOut(slot, s.flights[slot])]))
  {
    Move(c, l, s, Finish(slot),
         s.(flights := s.flights - {slot}, shared := s.shared + [HandOut(slot, s.flights[slot])]));
  }

  lemma MoveLeave(c: Crypto, l: Limits, s: State, result: nat, caller: Caller)
    requires Waits(s, result, caller)
    ensures
      var r := s.shared[result];
      Reaches(c, l, s, s.(shared := s.shared[result := r.(waiting := r.waiting - {caller})]))
  {
    var r := s.shared[result];
    Move(c, l, s, Leave(result, caller), s.(shared := s.shared[result := r.(waiting := r.waiting - {caller})]));
  }

  lemma ReachesTransitive(c: Crypto, l: Limits, s: State, t: State, u: State)
    requires Reaches(c, l, s, t) && Reaches(c, l, t, u)
    ensures Reaches(c, l, s, u)
  {
    var steps :| Runs(c, l, s, steps) && After(c, l, s, steps) == t;
    ReachesThrough(c, l, s, steps, u);
  }

  lemma {:induction false} ReachesThrough(c: Crypto, l: Limits, s: State, steps: seq<Step>, u: State)
    requires Runs(c, l, s, steps) && Reaches(c, l, After(c, l, s, steps), u)
    ensures Reaches(c, l, s, u)
    decreases |steps|
  {
    if steps != [] {
      var s1 := Apply(c, l, s, steps[0]);
      ReachesThrough(c, l, s1, steps[1..], u);
      var rest :| Runs(c, l, s1, rest) && After(c, l, s1, rest) == u;
      RunPrepend(c, l, s, steps[0], rest);
    }
  }

  predicate MemoryHit(s: State, slot: Slot, org: string) {
    && slot in s.memory && s.memory[slot].enclave.Intact?
    && s.memory[slot].LiveAt(s.clock) && s.memory[slot].org == org
  }

  /** The answer from memory: a fresh copy for each call. */
  predicate ServesFromMemory(s: State, slot: Slot, caller: Caller, plain: Plain) {
    && MemoryHit(s, slot, caller.org)
    && plain == Plain(s.memory[slot].enclave.contents, s.memory[slot].baseURL, s.memory[slot].authScheme)
  }

  /** The answer of a finished flight: what its callers' one slice holds at this moment. */
  predicate ServesShared(s: State, result: nat, slot: Slot, caller: Caller, plain: Plain) {
    Waits(s, result, caller) && s.shared[result].slot == slot && s.shared[result].plain == plain
  }

  /** This call of GetDecryptedCredential can read `plain` in this state. */
  ghost predicate Serves(s: State, slot: Slot, caller: Caller, plain: Plain) {
    ServesFromMemory(s, slot, caller, plain) || exists result :: ServesShared(s, result, slot, caller, plain)
  }

  /** What this call reads is the row's own key. */
  ghost predicate ServesKey(c: Crypto, s: State, slot: Slot, caller: Caller) {
    slot.id in s.db && exists plain :: Serves(s, slot, caller, plain) && Resolve(c, s.db[slot.id].record) == Some(plain)
  }

  /** This call of GetDecryptedCredential fails with the error of its flight. */
  predicate Refuses(s: State, slot: Slot, caller: Caller, error: CacheError) {
    slot in s.flights && caller in s.flights[slot].callers && s.flights[slot].phase == Failed(error)
  }

  /** Nothing cached, nothing in progress, every stored row readable by KMS. */
  ghost predicate Initial(c: Crypto, s: State) {
    && s.redis == map[] && s.memory == map[] && s.flights == map[] && s.shared == []
    && (forall id | id in s.db :: Resolve(c, s.db[id].record).Some? && RevokedBy(s.db[id], s.clock))
  }

  predicate RevokedBy(row: Row, clock: int) {
    row.revokedAt.Some? ==> row.revokedAt.value <= clock
  }

  // ---------------------------------------------------------------- Transparency

  ghost predicate RedisFaithful(s: State, id: string) {
    id in s.redis ==> id in s.db && s.redis[id].record == s.db[id].record
  }

  ghost predicate MemoryFaithful(c: Crypto, s: State, slot: Slot) {
    slot in s.memory ==>
      && slot.id in s.db
      && s.memory[slot].org == s.db[slot.id].record.org
      && (s.memory[slot].enclave.Intact? ==>
            Resolve(c, s.db[slot.id].record)
            == Some(Plain(s.memory[slot].enclave.contents, s.memory[slot].baseURL, s.memory[slot].authScheme)))
  }

  ghost predicate FlightFaithful(c: Crypto, s: State, slot: Slot) {
    slot in s.flights && s.flights[slot].phase.Carries() ==>
      && slot.id in s.db
      && s.flights[slot].org == s.db[slot.id].record.org
      && PhaseFaithful(c, s.flights[slot].phase, s.db[slot.id].record)
  }

  /** The shared slice holds the row's own key until one of its callers zeroes it. */
  ghost predicate SharedFaithful(c: Crypto, s: State, result: nat) {
    result < |s.shared| ==>
      var r := s.shared[result];
      && r.slot.id in s.db && r.org == s.db[r.slot.id].record.org
      && r.waiting <= r.callers && r.zeroedBy <= r.callers - r.waiting
      && Resolve(c, s.db[r.slot.id].record).Some?
      && var plain := Resolve(c, s.db[r.slot.id].record).value;
         r.plain == if r.zeroedBy == {} then plain else Zeroed(plain)
  }

  predicate PhaseFaithful(c: Crypto, phase: Phase, record: Record) {
    match phase
    case HitRedis(r, _) => r == record
    case ReadRow(r, _) => r == record
    case Decrypted(r, plain, _) => r == record && Resolve(c, record) == Some(plain)
    case Promoting(plain, _) => Resolve(c, record) == Some(plain)
    case Resolved(plain, _) => Resolve(c, record) == Some(plain)
    case _ => true
  }

  ghost predicate Faithful(c: Crypto, s: State) {
    && (forall id | id in s.db :: Resolve(c, s.db[id].record).Some?)
    && (forall id :: RedisFaithful(s, id))
    && (forall slot :: MemoryFaithful(c, s, slot))
    && (forall slot :: FlightFaithful(c, s, slot))
    && (forall result :: SharedFaithful(c, s, result))
  }

  /** Stored rows are never edited, only marked revoked. */
  lemma RowsAreImmutable(c: Crypto, l: Limits, s: State, step: Step, id: string)
    requires Enabled(c, l, s, step)
    ensures
      var t := Apply(c, l, s, step);
      && (id in s.db ==> id in t.db && t.db[id].record == s.db[id].record)
      && (id in t.db && id !in s.db ==> Resolve(c, t.db[id].record).Some?)
  {
  }

  lemma RedisStaysFaithful(c: Crypto, l: Limits, s: State, step: Step, id: string)
    requires Enabled(c, l, s, step) && RedisFaithful(s, id)
    requires step.WriteRedis? ==> FlightFaithful(c, s, step.slot)
    ensures RedisFaithful(Apply(c, l, s, step), id)
  {
    RowsAreImmutable(c, l, s, step, id);
  }

  lemma MemoryStaysFaithful(c: Crypto, l: Limits, s: State, step: Step, slot: Slot)
    requires Enabled(c, l, s, step) && MemoryFaithful(c, s, slot)
    requires step.Promote? ==> FlightFaithful(c, s, step.slot)
    ensures MemoryFaithful(c, Apply(c, l, s, step), slot)
  {
    RowsAreImmutable(c, l, s, step, slot.id);
  }

  lemma SamePhaseStaysFaithful(c: Crypto, l: Limits, s: State, step: Step, slot: Slot)
    requires Enabled(c, l, s, step) && FlightFaithful(c, s, slot)
    requires slot in s.flights && slot in Apply(c, l, s, step).flights
    requires s.flights[slot].phase == Apply(c, l, s, step).flights[slot].phase
    ensures FlightFaithful(c, Apply(c, l, s, step), slot)
  {
    RowsAreImmutable(c, l, s, step, slot.id);
  }

  /** A flight that has just read something carries the record of its row. */
  lemma ReadingFlightIsFaithful(c: Crypto, l: Limits, s: State, step: Step, slot: Slot)
    requires Enabled(c, l, s, step) && (step.Start? || step.ReadRedis? || step.QueryRow?) && step.slot == slot
    requires RedisFaithful(s, slot.id)
    ensures FlightFaithful(c, Apply(c, l, s, step), slot)
  {
    assert Apply(c, l, s, step).db == s.db;
  }

  lemma WorkingFlightIsFaithful(c: Crypto, l: Limits, s: State, step: Step, slot: Slot)
    requires Authenticated(c) && Enabled(c, l, s, step) && FlightFaithful(c, s, slot)
    requires (step.DecryptHit? || step.DecryptRow? || step.WriteRedis? || step.Promote?) && step.slot == slot
    requires slot.id in s.db ==> Resolve(c, s.db[slot.id].record).Some?
    ensures FlightFaithful(c, Apply(c, l, s, step), slot)
  {
    assert Apply(c, l, s, step).db == s.db;
    if step.DecryptHit? {
      var record := s.flights[slot].phase.record;
      DEKCacheIsTransparent(c, CachedDEK(s, slot), record.encryptedKey, record.wrappedDEK, step.kmsUp);
    }
  }

  lemma FlightStaysFaithful(c: Crypto, l: Limits, s: State, step: Step, slot: Slot)
    requires Authenticated(c) && Enabled(c, l, s, step) && FlightFaithful(c, s, slot) && RedisFaithful(s, slot.id)
    requires slot.id in s.db ==> Resolve(c, s.db[slot.id].record).Some?
    ensures FlightFaithful(c, Apply(c, l, s, step), slot)
  {
    var t := Apply(c, l, s, step);
    if slot in t.flights {
      if slot in s.flights && s.flights[slot].phase == t.flights[slot].phase {
        SamePhaseStaysFaithful(c, l, s, step, slot);
      } else if step.Start? || step.ReadRedis? || step.QueryRow? {
        ReadingFlightIsFaithful(c, l, s, step, slot);
      } else {
        WorkingFlightIsFaithful(c, l, s, step, slot);
      }
    }
  }

  lemma SharedStaysFaithful(c: Crypto, l: Limits, s: State, step: Step, result: nat)
    requires Enabled(c, l, s, step) && SharedFaithful(c, s, result)
    requires step.Finish? ==> FlightFaithful(c, s, step.slot)
    ensures SharedFaithful(c, Apply(c, l, s, step), result)
  {
    if result < |s.shared| {
      RowsAreImmutable(c, l, s, step, s.shared[result].slot.id);
    } else if step.Finish? {
      RowsAreImmutable(c, l, s, step, step.slot.id);
    }
  }

  lemma StepKeepsFaithful(c: Crypto, l: Limits, s: State, step: Step)
    requires Authenticated(c) && Faithful(c, s) && Enabled(c, l, s, step)
    ensures Faithful(c, Apply(c, l, s, step))
  {
    var t := Apply(c, l, s, step);
    forall id | id in t.db ensures Resolve(c, t.db[id].record).Some? {
      RowsAreImmutable(c, l, s, step, id);
    }
    forall id ensures RedisFaithful(t, id) {
      RedisStaysFaithful(c, l, s, step, id);
    }
    forall slot ensures MemoryFaithful(c, t, slot) {
      MemoryStaysFaithful(c, l, s, step, slot);
    }
    forall slot ensures FlightFaithful(c, t, slot) {
      assert RedisFaithful(s, slot.id);
      FlightStaysFaithful(c, l, s, step, slot);
    }
    forall result ensures SharedFaithful(c, t, result) {
      SharedStaysFaithful(c, l, s, step, result);
    }
  }

  lemma {:induction false} RunKeepsFaithful(c: Crypto, l: Limits, s: State, steps: seq<Step>)
    requires Authenticated(c) && Faithful(c, s) && Runs(c, l, s, steps)
    ensures Faithful(c, After(c, l, s, steps))
    decreases |steps|
  {
    if steps != [] {
      StepKeepsFaithful(c, l, s, steps[0]);
      RunKeepsFaithful(c, l, Apply(c, l, s, steps[0]), steps[1..]);
    }
  }

  /** The bytes of the credential's key are all zero, so that zeroing changes nothing. */
  ghost predicate KeyIsZeros(c: Crypto, s: State, id: string) {
    id in s.db && Resolve(c, s.db[id].record).Some?
    && var plain := Resolve(c, s.db[id].record).value; Zeroed(plain) == plain
  }

  /**
   * Main theorem: in every reachable state, whatever is cached, corrupted, lost or failing, an answer from
   * memory is exactly what resolveFromDB computes from the row, for a caller of the row's organisation;
   * the answer of a flight is that too, or zeros in place of its key once another caller has zeroed the
   * slice that they share, and the flight is one of the row's organisation.
   */
  lemma AnswersAreTransparent(
    c: Crypto, l: Limits, s: State, steps: seq<Step>, slot: Slot, caller: Caller, plain: Plain)
    requires Authenticated(c) && Initial(c, s) && Runs(c, l, s, steps)
    requires Serves(After(c, l, s, steps), slot, caller, plain)
    ensures
      var t := After(c, l, s, steps);
      && slot.id in t.db && Resolve(c, t.db[slot.id].record).Some?
      && var row := Resolve(c, t.db[slot.id].record).value;
         || (plain == row && ServesFromMemory(t, slot, caller, plain) && caller.org == t.db[slot.id].record.org)
         || exists result: nat :: ServesShared(t, result, slot, caller, plain)
              && t.shared[result].org == t.db[slot.id].record.org
              && plain == if t.shared[result].zeroedBy == {} then row else Zeroed(row)
  {
    RunKeepsFaithful(c, l, s, steps);
    var t := After(c, l, s, steps);
    assert MemoryFaithful(c, t, slot);
    if !ServesFromMemory(t, slot, caller, plain) {
      var result :| ServesShared(t, result, slot, caller, plain);
      assert SharedFaithful(c, t, result);
    }
  }
}
