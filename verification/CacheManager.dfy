/**
 * The cache managers of all instances (internal/cache/cache.go, memory.go, redis.go) as one object over
 * the tiers they own and share. A slot names the instance handling a call and the credential. Every
 * method is a run of the steps of CredentialCache, so the theorems there hold of what it returns.
 */
module CacheManager {
  import opened Prelude
  import opened CredentialCache

  /** Which services answer during one call. */
  datatype Services = Services(redisUp: bool, kmsUp: bool, dbUp: bool)

  ghost predicate Wiped(buf: array<bv8>)
    reads buf
  {
    forall i | 0 <= i < buf.Length :: buf[i] == 0
  }

  method Wipe(buf: array<bv8>)
    modifies buf
    ensures Wiped(buf)
  {
    for i := 0 to buf.Length
      invariant forall k | 0 <= k < i :: buf[k] == 0
    {
      buf[i] := 0;
    }
  }

  method CopyOf(contents: Bytes) returns (buf: array<bv8>)
    ensures fresh(buf) && buf[..] == contents
  {
    buf := new bv8[|contents|];
    for i := 0 to |contents|
      invariant buf[..i] == contents[..i]
    {
      buf[i] := contents[i];
    }
  }

  /** memguard.NewEnclave seals the bytes and wipes the slice it was given. */
  method NewEnclave(buf: array<bv8>) returns (sealed: Sealed)
    modifies buf
    ensures sealed == Intact(old(buf[..])) && Wiped(buf)
  {
    sealed := Intact(buf[..]);
    Wipe(buf);
  }

  // ---------------------------------------------------------------- What each tier answers

  /** Two stages of one shared call. */
  predicate SameCallers(f: Flight, g: Flight) {
    f.org == g.org && f.callers == g.callers
  }

  ghost predicate Moved(c: Crypto, l: Limits, s: State, step: Step, t: State) {
    Enabled(c, l, s, step) && t == Apply(c, l, s, step)
  }

  /** An entry that the L1 lookup drops: one that the LRU still returns, but past its hard expiry, or the
      caller's own but unreadable. */
  predicate Stale(s: State, slot: Slot, org: string) {
    && slot in s.memory && s.clock <= s.memory[slot].ttlExpiry
    && (s.clock > s.memory[slot].hardExpiry || (s.memory[slot].org == org && s.memory[slot].enclave.Broken?))
  }

  function MemoryAnswer(s: State, slot: Slot, org: string): Option<Plain> {
    if MemoryHit(s, slot, org)
    then Some(Plain(s.memory[slot].enclave.contents, s.memory[slot].baseURL, s.memory[slot].authScheme))
    else None
  }

  /** How many plaintext DEKs decryptWithDEKCache gets hold of. */
  function BuffersUsed(c: Crypto, s: State, slot: Slot, record: Record, kmsUp: bool): nat {
    var opens := slot in s.dek && s.dek[slot].Intact?;
    var answers := opens && c.decrypt(record.encryptedKey, s.dek[slot].contents).Some?;
    (if opens then 1 else 0) + (if !answers && kmsUp && c.unwrap(record.wrappedDEK).Some? then 1 else 0)
  }

  lemma AddedInTwo<T>(a: set<T>, b: set<T>, c: set<T>)
    requires a <= b <= c
    ensures |c - a| == |c - b| + |b - a|
    ensures forall x :: x in c - a <==> x in c - b || x in b - a
  {
    assert c - a == (c - b) + (b - a);
  }

  /** A record opened with the DEK cache and KMS. */
  function Opened(c: Crypto, s: State, slot: Slot, record: Record, kmsUp: bool): Option<Plain> {
    match DecryptWithDEKCache(c, CachedDEK(s, slot), record.encryptedKey, record.wrappedDEK, kmsUp).0
    case None => None
    case Some(apiKey) => Some(Plain(apiKey, record.baseURL, record.authScheme))
  }

  function RedisAnswer(c: Crypto, s: State, slot: Slot, org: string, up: Services): Option<Plain> {
    if up.redisUp && RedisHit(s, slot.id, org) then Opened(c, s, slot, s.redis[slot.id].record, up.kmsUp) else None
  }

  function DatabaseAnswer(c: Crypto, s: State, slot: Slot, org: string, up: Services): Result<Plain, CacheError> {
    if !up.dbUp then Err(DatabaseError)
    else if !RowVisible(s, slot.id, org) then Err(NotFoundOrRevoked)
    else if !up.kmsUp || Resolve(c, s.db[slot.id].record).None? then Err(UnwrapOrDecryptError)
    else Ok(Resolve(c, s.db[slot.id].record).value)
  }

  function LowerAnswer(c: Crypto, s: State, slot: Slot, org: string, up: Services): Result<Plain, CacheError> {
    var cached := RedisAnswer(c, s, slot, org, up);
    if cached.Some? then Ok(cached.value) else DatabaseAnswer(c, s, slot, org, up)
  }

  /** In a faithful state every tier that answers gives the row's own answer. */
  lemma AnswerIsTheRows(c: Crypto, s: State, slot: Slot, org: string, up: Services)
    requires Authenticated(c) && Faithful(c, s)
    ensures MemoryAnswer(s, slot, org).Some? ==>
      slot.id in s.db && s.db[slot.id].record.org == org
      && MemoryAnswer(s, slot, org) == Resolve(c, s.db[slot.id].record)
    ensures LowerAnswer(c, s, slot, org, up).Ok? ==>
      && slot.id in s.db && s.db[slot.id].record.org == org
      && Some(LowerAnswer(c, s, slot, org, up).value) == Resolve(c, s.db[slot.id].record)
  {
    assert MemoryFaithful(c, s, slot) && RedisFaithful(s, slot.id);
    if RedisAnswer(c, s, slot, org, up).Some? {
      var record := s.redis[slot.id].record;
      DEKCacheIsTransparent(c, CachedDEK(s, slot), record.encryptedKey, record.wrappedDEK, up.kmsUp);
    }
  }

  /** A step that only reads something on behalf of a flight. */
  lemma ReadMoves(c: Crypto, l: Limits, s: State, step: Step, t: State)
    requires (step.ReadRedis? || step.QueryRow?) && Enabled(c, l, s, step)
    requires t.clock == s.clock && t.db == s.db && t.redis == s.redis && t.memory == s.memory
    requires t.dek == s.dek && t.shared == s.shared
    requires t.flights == s.flights[step.slot := s.flights[step.slot].(phase := PhaseAfter(c, l, s, step))]
    ensures Moved(c, l, s, step, t)
  {
  }

  lemma FinishMoves(c: Crypto, l: Limits, s: State, slot: Slot, t: State)
    requires slot in s.flights && t.flights == s.flights - {slot}
    requires t.clock == s.clock && t.db == s.db && t.redis == s.redis && t.memory == s.memory && t.dek == s.dek
    requires t.shared ==
      if s.flights[slot].phase.Resolved? then s.shared + [HandOut(slot, s.flights[slot])] else s.shared
    ensures Moved(c, l, s, Finish(slot), t)
  {
  }

  lemma HitMoves(c: Crypto, l: Limits, s: State, slot: Slot, kmsUp: bool, redisUp: bool, t: State)
    requires slot in s.flights && s.flights[slot].phase.HitRedis?
    requires t.clock == s.clock && t.db == s.db && t.shared == s.shared && t.memory == s.memory
    requires
      var hit := s.flights[slot].phase;
      var plain := Opened(c, s, slot, hit.record, kmsUp);
      var sealed := DecryptWithDEKCache(c, CachedDEK(s, slot), hit.record.encryptedKey, hit.record.wrappedDEK, kmsUp).1;
      && t.dek == WithDEK(s.dek, slot, sealed)
      && t.redis == (if plain.None? && redisUp then s.redis - {slot.id} else s.redis)
      && t.flights == s.flights[slot := s.flights[slot].(phase :=
           if plain.Some? then Promoting(plain.value, hit.readAt) else Missed)]
    ensures Moved(c, l, s, DecryptHit(slot, kmsUp, redisUp), t)
  {
  }

  lemma RowMoves(c: Crypto, l: Limits, s: State, slot: Slot, kmsUp: bool, t: State)
    requires slot in s.flights && s.flights[slot].phase.ReadRow?
    requires t.clock == s.clock && t.db == s.db && t.shared == s.shared && t.memory == s.memory && t.redis == s.redis
    requires
      var read := s.flights[slot].phase;
      var plain := if kmsUp then Resolve(c, read.record) else None;
      && t.dek == (if plain.Some? then s.dek[slot := Intact(c.unwrap(read.record.wrappedDEK).value)] else s.dek)
      && t.flights == s.flights[slot := s.flights[slot].(phase :=
           if plain.Some? then Decrypted(read.record, plain.value, read.readAt) else Failed(UnwrapOrDecryptError))]
    ensures Moved(c, l, s, DecryptRow(slot, kmsUp), t)
  {
  }

  /** The state after the Redis write of a decrypted row. */
  function Stored(l: Limits, s: State, slot: Slot, redisUp: bool): State
    requires slot in s.flights && s.flights[slot].phase.Decrypted?
  {
    var f := s.flights[slot];
    s.(flights := s.flights[slot := f.(phase := Promoting(f.phase.plain, f.phase.readAt))],
       redis := if !redisUp then s.redis
                else s.redis[slot.id := RedisEntry(f.phase.record.(org := f.org), s.clock + l.redisTTL)])
  }

  lemma WriteMoves(c: Crypto, l: Limits, s: State, slot: Slot, redisUp: bool)
    requires slot in s.flights && s.flights[slot].phase.Decrypted?
    ensures Moved(c, l, s, WriteRedis(slot, redisUp), Stored(l, s, slot, redisUp))
  {
  }

  /** Neither this instance's memory nor its flights matter to the lower tiers. */
  lemma LowerTiersAnswerAlike(c: Crypto, s: State, t: State, slot: Slot, org: string, up: Services)
    requires t.clock == s.clock && t.db == s.db && t.redis == s.redis && t.dek == s.dek
    ensures LowerAnswer(c, t, slot, org, up) == LowerAnswer(c, s, slot, org, up)
  {
  }

  /** One more result than before, for this caller alone. */
  ghost predicate HandedTo(before: seq<Shared>, after: seq<Shared>, slot: Slot, caller: Caller, plain: Plain) {
    && |after| == |before| + 1 && after[..|before|] == before
    && var r := after[|before|];
       r == Shared(slot, caller.org, {caller}, {caller}, {}, plain, r.readAt)
  }

  lemma Overwritten<K, V>(m: map<K, V>, k: K, v: V, w: V)
    ensures m[k := v][k := w] == m[k := w]
  {
  }

  class Managers {
    var clock: int
    var db: map<string, Row>
    var redis: map<string, RedisEntry>
    var memory: map<Slot, MemoryEntry>
    var dek: map<Slot, Sealed>
    var flights: map<Slot, Flight>
    var shared: seq<Shared>
    // The invalidation messages published so far, oldest first.
    var published: seq<string>
    // Every buffer that has held a plaintext DEK.
    ghost var dekBuffers: set<array<bv8>>
    // The steps of the current call, from the state in which it began.
    ghost var origin: State
    ghost var log: seq<Step>

    constructor (clock: int, db: map<string, Row>)
      ensures View() == State(clock, db, map[], map[], map[], map[], [])
      ensures published == [] && dekBuffers == {}
    {
      this.clock := clock;
      this.db := db;
      redis, memory, dek, flights, shared := map[], map[], map[], map[], [];
      published, dekBuffers := [], {};
      origin, log := State(clock, db, map[], map[], map[], map[], []), [];
    }

    ghost function View(): State
      reads this
    {
      State(clock, db, redis, memory, dek, flights, shared)
    }

    /** What happened since `origin` is a run of the modelled steps. */
    ghost predicate Traced(c: Crypto, l: Limits)
      reads this
    {
      Runs(c, l, origin, log) && After(c, l, origin, log) == View()
    }

    /** The change since `before` is one more step. */
    ghost method Note(c: Crypto, l: Limits, step: Step, before: State)
      requires Runs(c, l, origin, log) && After(c, l, origin, log) == before && Moved(c, l, before, step, View())
      modifies this`log
      ensures Traced(c, l) && log == old(log) + [step]
    {
      RunAppend(c, l, origin, log, step);
      log := log + [step];
    }

    /** Seals a copy of the key: the caller's slice is returned to the proxy and must survive. */
    method PromoteToL1(slot: Slot, org: string, apiKey: array<bv8>, baseURL: string, authScheme: string, l: Limits)
      modifies this`memory
      ensures apiKey[..] == old(apiKey[..])
      ensures memory == old(memory)[slot := EntryFor(Plain(old(apiKey[..]), baseURL, authScheme), org, clock, l)]
    {
      var keyCopy := CopyOf(apiKey[..]);
      var enclave := NewEnclave(keyCopy);
      memory := memory[slot := MemoryEntry(
                  enclave, baseURL, authScheme, org, clock + l.hardExpiry, clock + l.memoryTTL)];
    }

    /** A slice with a plaintext DEK, from an opened enclave or from KMS. */
    method NewDEKBuffer(key: Bytes) returns (buf: array<bv8>)
      modifies this`dekBuffers
      ensures fresh(buf) && buf[..] == key && dekBuffers == old(dekBuffers) + {buf}
    {
      buf := CopyOf(key);
      dekBuffers := dekBuffers + {buf};
    }

    /** The DEK cache's half of decryptWithDEKCache: one buffer for each enclave that opens, wiped at once. */
    method TryCachedDEK(c: Crypto, slot: Slot, encryptedKey: Bytes) returns (apiKey: Option<Bytes>)
      modifies this`dek, this`dekBuffers
      ensures
        var opens := slot in old(dek) && old(dek)[slot].Intact?;
        && apiKey == (if opens then c.decrypt(encryptedKey, old(dek)[slot].contents) else None)
        && dek == (if apiKey.Some? then old(dek) else old(dek) - {slot})
        && |dekBuffers - old(dekBuffers)| == (if opens then 1 else 0)
      ensures old(dekBuffers) <= dekBuffers
      ensures forall buf | buf in dekBuffers - old(dekBuffers) :: fresh(buf) && Wiped(buf)
    {
      apiKey := None;
      if slot in dek {
        if dek[slot].Intact? {
          var key := NewDEKBuffer(dek[slot].contents);
          assert dekBuffers - old(dekBuffers) == {key};
          apiKey := c.decrypt(encryptedKey, key[..]);
          Wipe(key);
          if apiKey.Some? {
            return;
          }
        }
        dek := dek - {slot};
      }
    }

    /** Its KMS half: the DEK that opened the key is cached sealed; its buffer is wiped either way. */
    method TryUnwrappedDEK(c: Crypto, slot: Slot, record: Record, kmsUp: bool) returns (apiKey: Option<Bytes>)
      requires slot !in dek
      modifies this`dek, this`dekBuffers
      ensures
        var unwraps := kmsUp && c.unwrap(record.wrappedDEK).Some?;
        && apiKey == (if unwraps then c.decrypt(record.encryptedKey, c.unwrap(record.wrappedDEK).value) else None)
        && dek == (if apiKey.Some? then old(dek)[slot := Intact(c.unwrap(record.wrappedDEK).value)] else old(dek))
        && |dekBuffers - old(dekBuffers)| == (if unwraps then 1 else 0)
      ensures old(dekBuffers) <= dekBuffers
      ensures forall buf | buf in dekBuffers - old(dekBuffers) :: fresh(buf) && Wiped(buf)
    {
      var unwrapped := c.unwrap(record.wrappedDEK);
      if !kmsUp || unwrapped.None? {
        return None;
      }
      var key := NewDEKBuffer(unwrapped.value);
      assert dekBuffers - old(dekBuffers) == {key};
      apiKey := c.decrypt(record.encryptedKey, key[..]);
      if apiKey.None? {
        Wipe(key);
        return;
      }
      var enclave := NewEnclave(key);
      dek := dek[slot := enclave];
      Wipe(key);
    }

    /** decryptWithDEKCache. One buffer holds the DEK for each enclave that opens and each key that KMS
        unwraps, and every one of them is zeroed on return, on all paths. */
    method TryDecrypt(c: Crypto, slot: Slot, record: Record, kmsUp: bool) returns (apiKey: Option<Bytes>)
      modifies this`dek, this`dekBuffers
      ensures
        var cached := if slot in old(dek) then Some(old(dek)[slot]) else None;
        var (key, sealed) := DecryptWithDEKCache(c, cached, record.encryptedKey, record.wrappedDEK, kmsUp);
        apiKey == key && dek == WithDEK(old(dek), slot, sealed)
      ensures |dekBuffers - old(dekBuffers)| == BuffersUsed(c, old(View()), slot, record, kmsUp)
      ensures forall buf | buf in dekBuffers - old(dekBuffers) :: fresh(buf) && Wiped(buf)
    {
      apiKey := TryCachedDEK(c, slot, record.encryptedKey);
      ghost var before := dekBuffers;
      if apiKey.None? {
        apiKey := TryUnwrappedDEK(c, slot, record, kmsUp);
        AddedInTwo(old(dekBuffers), before, dekBuffers);
      } else {
        assert dek == WithDEK(old(dek), slot, Some(old(dek)[slot]));
      }
    }

    /** One more phase of the slot's flight; what the other fields become is up to the caller. */
    method SetPhase(slot: Slot, phase: Phase)
      requires slot in flights
      modifies this`flights
      ensures flights == old(flights)[slot := old(flights[slot]).(phase := phase)]
    {
      flights := flights[slot := flights[slot].(phase := phase)];
    }

    method ReadL2(c: Crypto, l: Limits, slot: Slot, redisUp: bool)
      requires slot in flights && flights[slot].phase.Begun?
      requires Traced(c, l)
      modifies this`flights, this`log
      ensures Traced(c, l) && origin == old(origin) && log == old(log) + [ReadRedis(slot, redisUp)]
      ensures flights == old(flights)[slot := old(flights[slot]).(phase :=
        if redisUp && RedisHit(old(View()), slot.id, old(flights[slot].org))
        then HitRedis(redis[slot.id].record, clock) else Missed)]
    {
      ghost var before := View();
      if redisUp && slot.id in redis && clock <= redis[slot.id].deadline
         && redis[slot.id].record.org == flights[slot].org {
        SetPhase(slot, HitRedis(redis[slot.id].record, clock));
      } else {
        SetPhase(slot, Missed);
      }
      ReadMoves(c, l, before, ReadRedis(slot, redisUp), View());
      Note(c, l, ReadRedis(slot, redisUp), before);
    }

    /** A record from Redis is opened, or dropped as undecryptable. */
    method OpenHit(c: Crypto, slot: Slot, kmsUp: bool, redisUp: bool)
      requires slot in flights && flights[slot].phase.HitRedis?
      modifies this`redis, this`dek, this`flights, this`dekBuffers
      ensures
        var hit := old(flights[slot].phase);
        var plain := Opened(c, old(View()), slot, hit.record, kmsUp);
        var sealed := DecryptWithDEKCache(
          c, CachedDEK(old(View()), slot), hit.record.encryptedKey, hit.record.wrappedDEK, kmsUp).1;
        && dek == WithDEK(old(dek), slot, sealed)
        && flights == old(flights)[slot := old(flights[slot]).(phase :=
             if plain.Some? then Promoting(plain.value, hit.readAt) else Missed)]
        && redis == if plain.None? && redisUp then old(redis) - {slot.id} else old(redis)
    {
      var record, readAt := flights[slot].phase.record, flights[slot].phase.readAt;
      var apiKey := TryDecrypt(c, slot, record, kmsUp);
      if apiKey.Some? {
        SetPhase(slot, Promoting(Plain(apiKey.value, record.baseURL, record.authScheme), readAt));
      } else {
        if redisUp {
          redis := redis - {slot.id};
        }
        SetPhase(slot, Missed);
      }
    }

    method DecryptL2(c: Crypto, l: Limits, slot: Slot, kmsUp: bool, redisUp: bool)
      requires slot in flights && flights[slot].phase.HitRedis?
      requires Traced(c, l)
      modifies this`redis, this`dek, this`flights, this`dekBuffers, this`log
      ensures Traced(c, l) && log == old(log) + [DecryptHit(slot, kmsUp, redisUp)]
      ensures
        var hit := old(flights[slot].phase);
        var plain := Opened(c, old(View()), slot, hit.record, kmsUp);
        && flights == old(flights)[slot := old(flights[slot]).(phase :=
             if plain.Some? then Promoting(plain.value, hit.readAt) else Missed)]
        && redis == if plain.None? && redisUp then old(redis) - {slot.id} else old(redis)
    {
      ghost var before := View();
      OpenHit(c, slot, kmsUp, redisUp);
      HitMoves(c, l, before, slot, kmsUp, redisUp, View());
      Note(c, l, DecryptHit(slot, kmsUp, redisUp), before);
    }

    method ReadL3(c: Crypto, l: Limits, slot: Slot, dbUp: bool)
      requires slot in flights && flights[slot].phase.Missed?
      requires Traced(c, l)
      modifies this`flights, this`log
      ensures Traced(c, l) && origin == old(origin) && log == old(log) + [QueryRow(slot, dbUp)]
      ensures flights == old(flights)[slot := old(flights[slot]).(phase :=
        if dbUp && RowVisible(old(View()), slot.id, old(flights[slot].org))
        then ReadRow(db[slot.id].record, clock) else Failed(if dbUp then NotFoundOrRevoked else DatabaseError))]
    {
      ghost var before := View();
      if dbUp && slot.id in db && db[slot.id].record.org == flights[slot].org && db[slot.id].revokedAt.None? {
        SetPhase(slot, ReadRow(db[slot.id].record, clock));
      } else {
        SetPhase(slot, Failed(if dbUp then NotFoundOrRevoked else DatabaseError));
      }
      ReadMoves(c, l, before, QueryRow(slot, dbUp), View());
      Note(c, l, QueryRow(slot, dbUp), before);
    }

    /** The KMS half of resolveFromDB. Its DEK buffer is zeroed only when the key decrypts: on a
        decryption error the plaintext DEK stays behind in it. */
    method DecryptRecord(c: Crypto, slot: Slot, record: Record, kmsUp: bool) returns (plain: Option<Plain>)
      modifies this`dek, this`dekBuffers
      ensures plain == (if kmsUp then Resolve(c, record) else None)
      ensures dek == (if plain.Some? then old(dek)[slot := Intact(c.unwrap(record.wrappedDEK).value)] else old(dek))
      ensures
        var unwraps := kmsUp && c.unwrap(record.wrappedDEK).Some?;
        && |dekBuffers - old(dekBuffers)| == (if unwraps then 1 else 0)
        && forall buf | buf in dekBuffers - old(dekBuffers) ::
             if Resolve(c, record).Some? then Wiped(buf) else unwraps && buf[..] == c.unwrap(record.wrappedDEK).value
    {
      var unwrapped := c.unwrap(record.wrappedDEK);
      if !kmsUp || unwrapped.None? {
        return None;
      }
      var key := NewDEKBuffer(unwrapped.value);
      assert dekBuffers - old(dekBuffers) == {key};
      var plaintext := c.decrypt(record.encryptedKey, key[..]);
      if plaintext.None? {
        return None;
      }
      var enclave := NewEnclave(key);
      dek := dek[slot := enclave];
      Wipe(key);
      plain := Some(Plain(plaintext.value, record.baseURL, record.authScheme));
    }

    method DecryptL3(c: Crypto, l: Limits, slot: Slot, kmsUp: bool)
      requires slot in flights && flights[slot].phase.ReadRow?
      requires Traced(c, l)
      modifies this`dek, this`flights, this`dekBuffers, this`log
      ensures Traced(c, l) && log == old(log) + [DecryptRow(slot, kmsUp)]
      ensures
        var read := old(flights[slot].phase);
        flights == old(flights)[slot := old(flights[slot]).(phase :=
          if kmsUp && Resolve(c, read.record).Some?
          then Decrypted(read.record, Resolve(c, read.record).value, read.readAt) else Failed(UnwrapOrDecryptError))]
    {
      ghost var before := View();
      var record, readAt := flights[slot].phase.record, flights[slot].phase.readAt;
      var plain := DecryptRecord(c, slot, record, kmsUp);
      SetPhase(slot, if plain.Some? then Decrypted(record, plain.value, readAt) else Failed(UnwrapOrDecryptError));
      RowMoves(c, l, before, slot, kmsUp, View());
      Note(c, l, DecryptRow(slot, kmsUp), before);
    }

    /** The encrypted record is stored under a fresh TTL, for the organisation that asked. */
    method StoreRecord(l: Limits, slot: Slot, redisUp: bool)
      requires slot in flights && flights[slot].phase.Decrypted?
      modifies this`redis, this`flights
      ensures View() == Stored(l, old(View()), slot, redisUp)
    {
      var phase := flights[slot].phase;
      if redisUp {
        redis := redis[slot.id := RedisEntry(phase.record.(org := flights[slot].org), clock + l.redisTTL)];
      }
      SetPhase(slot, Promoting(phase.plain, phase.readAt));
    }

    method WriteL2(c: Crypto, l: Limits, slot: Slot, redisUp: bool)
      requires slot in flights && flights[slot].phase.Decrypted?
      requires Traced(c, l)
      modifies this`redis, this`flights, this`log
      ensures Traced(c, l) && origin == old(origin) && log == old(log) + [WriteRedis(slot, redisUp)]
      ensures View() == Stored(l, old(View()), slot, redisUp)
    {
      ghost var before := View();
      StoreRecord(l, slot, redisUp);
      WriteMoves(c, l, before, slot, redisUp);
      Note(c, l, WriteRedis(slot, redisUp), before);
    }

    method WriteL1(c: Crypto, l: Limits, slot: Slot) returns (plain: Plain)
      requires slot in flights && flights[slot].phase.Promoting?
      requires Traced(c, l)
      modifies this`memory, this`flights, this`log
      ensures Traced(c, l) && origin == old(origin) && log == old(log) + [Promote(slot)]
      ensures
        var done := old(flights[slot].phase);
        && plain == done.plain
        && flights == old(flights)[slot := old(flights[slot]).(phase := Resolved(done.plain, done.readAt))]
        && memory == old(memory)[slot := EntryFor(plain, old(flights[slot].org), clock, l)]
    {
      ghost var before := View();
      plain := flights[slot].phase.plain;
      var apiKey := CopyOf(plain.apiKey);
      PromoteToL1(slot, flights[slot].org, apiKey, plain.baseURL, plain.authScheme, l);
      SetPhase(slot, Resolved(plain, flights[slot].phase.readAt));
      Note(c, l, Promote(slot), before);
    }

    /** A decrypted row goes to L2, then L1, then to the caller. */
    method StoreAndAnswer(c: Crypto, l: Limits, slot: Slot, redisUp: bool) returns (plain: Plain)
      requires slot in flights && flights[slot].phase.Decrypted?
      requires Traced(c, l)
      modifies this`redis, this`memory, this`flights, this`log
      ensures Traced(c, l) && origin == old(origin)
      ensures
        var done, org := old(flights[slot].phase), old(flights[slot].org);
        && plain == done.plain
        && flights == old(flights)[slot := old(flights[slot]).(phase := Resolved(plain, done.readAt))]
        && memory == old(memory)[slot := EntryFor(plain, org, clock, l)]
        && redis == (if !redisUp then old(redis)
             else old(redis)[slot.id := RedisEntry(done.record.(org := org), clock + l.redisTTL)])
    {
      WriteL2(c, l, slot, redisUp);
      plain := WriteL1(c, l, slot);
    }

    /** A row that was read: unwrapped, decrypted and stored in both caches, or not answered at all. */
    method DecryptAndStore(c: Crypto, l: Limits, slot: Slot, up: Services) returns (plain: Option<Plain>)
      requires slot in flights && flights[slot].phase.ReadRow?
      requires Traced(c, l)
      modifies this`redis, this`memory, this`dek, this`flights, this`dekBuffers, this`log
      ensures Traced(c, l) && origin == old(origin)
      ensures
        var read, org := old(flights[slot].phase), old(flights[slot].org);
        && plain == (if up.kmsUp then Resolve(c, read.record) else None)
        && slot in flights && flights == old(flights)[slot := flights[slot]]
        && SameCallers(flights[slot], old(flights[slot]))
        && flights[slot].phase ==
             (if plain.Some? then Resolved(plain.value, read.readAt) else Failed(UnwrapOrDecryptError))
        && memory == (if plain.Some? then old(memory)[slot := EntryFor(plain.value, org, clock, l)] else old(memory))
        && redis == (if plain.None? || !up.redisUp then old(redis)
             else old(redis)[slot.id := RedisEntry(read.record.(org := org), clock + l.redisTTL)])
    {
      DecryptL3(c, l, slot, up.kmsUp);
      if flights[slot].phase.Failed? {
        return None;
      }
      var answer := StoreAndAnswer(c, l, slot, up.redisUp);
      plain := Some(answer);
    }

    /** resolveFromDB: the WHERE clause hides revoked and foreign rows; the row found goes to L2 and L1. */
    method ResolveFromDB(c: Crypto, l: Limits, slot: Slot, up: Services) returns (r: Result<Plain, CacheError>)
      requires slot in flights && flights[slot].phase.Missed?
      requires Traced(c, l)
      modifies this`redis, this`memory, this`dek, this`flights, this`dekBuffers, this`log
      ensures Traced(c, l) && origin == old(origin)
      ensures slot in flights && flights == old(flights)[slot := flights[slot]]
      ensures SameCallers(flights[slot], old(flights[slot]))
      ensures r == DatabaseAnswer(c, old(View()), slot, old(flights[slot].org), up)
      ensures if r.Ok? then flights[slot].phase.Resolved? && flights[slot].phase.plain == r.value
              else flights[slot].phase == Failed(r.error)
      ensures memory ==
        (if r.Ok? then old(memory)[slot := EntryFor(r.value, flights[slot].org, clock, l)] else old(memory))
      ensures redis == (if r.Err? || !up.redisUp then old(redis)
           else old(redis)[slot.id := RedisEntry(db[slot.id].record, clock + l.redisTTL)])
    {
      ReadL3(c, l, slot, up.dbUp);
      if flights[slot].phase.Failed? {
        return Err(flights[slot].phase.error);
      }
      var plain := DecryptAndStore(c, l, slot, up);
      r := if plain.Some? then Ok(plain.value) else Err(UnwrapOrDecryptError);
    }

    /** A Redis hit: decrypted and promoted, or dropped as undecryptable. */
    method ResolveFromRedis(c: Crypto, l: Limits, slot: Slot, up: Services) returns (plain: Option<Plain>)
      requires slot in flights && flights[slot].phase.HitRedis?
      requires Traced(c, l)
      modifies this`redis, this`memory, this`dek, this`flights, this`dekBuffers, this`log
      ensures Traced(c, l) && origin == old(origin)
      ensures db == old(db) && clock == old(clock)
      ensures plain == Opened(c, old(View()), slot, old(flights[slot].phase.record), up.kmsUp)
      ensures
        var org := old(flights[slot].org);
        && slot in flights && flights == old(flights)[slot := flights[slot]]
        && SameCallers(flights[slot], old(flights[slot]))
        && (if plain.Some? then flights[slot].phase.Resolved? && flights[slot].phase.plain == plain.value
            else flights[slot].phase.Missed?)
        && memory == (if plain.Some? then old(memory)[slot := EntryFor(plain.value, org, clock, l)] else old(memory))
        && redis == (if plain.None? && up.redisUp then old(redis) - {slot.id} else old(redis))
    {
      DecryptL2(c, l, slot, up.kmsUp, up.redisUp);
      if flights[slot].phase.Missed? {
        return None;
      }
      var answer := WriteL1(c, l, slot);
      plain := Some(answer);
    }

    /** The L2 half of a resolution: an answer, or a miss that leaves Postgres to be asked. */
    method AskRedis(c: Crypto, l: Limits, slot: Slot, up: Services) returns (plain: Option<Plain>)
      requires slot in flights && flights[slot].phase.Begun?
      requires Traced(c, l)
      modifies this`redis, this`memory, this`dek, this`flights, this`dekBuffers, this`log
      ensures Traced(c, l) && origin == old(origin)
      ensures db == old(db) && clock == old(clock)
      ensures plain == RedisAnswer(c, old(View()), slot, old(flights[slot].org), up)
      ensures
        var org := old(flights[slot].org);
        && slot in flights && flights == old(flights)[slot := flights[slot]]
        && SameCallers(flights[slot], old(flights[slot]))
        && (if plain.Some? then flights[slot].phase.Resolved? && flights[slot].phase.plain == plain.value
            else flights[slot].phase.Missed?)
        && memory == (if plain.Some? then old(memory)[slot := EntryFor(plain.value, org, clock, l)] else old(memory))
    {
      ReadL2(c, l, slot, up.redisUp);
      if flights[slot].phase.Missed? {
        return None;
      }
      plain := ResolveFromRedis(c, l, slot, up);
    }

    /** resolveFromLowerTiers: a usable Redis entry answers; anything else falls through to Postgres. */
    method ResolveFromLowerTiers(c: Crypto, l: Limits, slot: Slot, up: Services) returns (r: Result<Plain, CacheError>)
      requires slot in flights && flights[slot].phase.Begun?
      requires Traced(c, l)
      modifies this`redis, this`memory, this`dek, this`flights, this`dekBuffers, this`log
      ensures Traced(c, l) && origin == old(origin)
      ensures db == old(db) && clock == old(clock)
      ensures slot in flights && flights == old(flights)[slot := flights[slot]]
      ensures SameCallers(flights[slot], old(flights[slot]))
      ensures r == LowerAnswer(c, old(View()), slot, old(flights[slot].org), up)
      ensures if r.Ok? then flights[slot].phase.Resolved? && flights[slot].phase.plain == r.value
              else flights[slot].phase == Failed(r.error)
      ensures memory ==
        (if r.Ok? then old(memory)[slot := EntryFor(r.value, flights[slot].org, clock, l)] else old(memory))
    {
      var cached := AskRedis(c, l, slot, up);
      if cached.Some? {
        return Ok(cached.value);
      }
      r := ResolveFromDB(c, l, slot, up);
    }

    /** The L1 lookup: entries past their hard expiry and unreadable ones are dropped on the way. */
    method ReadL1(c: Crypto, l: Limits, slot: Slot, org: string) returns (plain: Option<Plain>)
      requires Traced(c, l)
      modifies this`memory, this`log
      ensures Traced(c, l) && origin == old(origin)
      ensures plain == MemoryAnswer(old(View()), slot, org)
      ensures memory == (if Stale(old(View()), slot, org) then old(memory) - {slot} else old(memory))
    {
      ghost var before := View();
      plain := None;
      if slot in memory && clock <= memory[slot].ttlExpiry {
        if clock > memory[slot].hardExpiry {
          memory := memory - {slot};
          Note(c, l, ForgetMemory(slot), before);
        } else if memory[slot].org == org {
          if memory[slot].enclave.Intact? {
            var apiKey := CopyOf(memory[slot].enclave.contents);
            return Some(Plain(apiKey[..], memory[slot].baseURL, memory[slot].authScheme));
          }
          memory := memory - {slot};
          Note(c, l, ForgetMemory(slot), before);
        }
      }
    }

    method StartFlight(c: Crypto, l: Limits, slot: Slot, caller: Caller)
      requires Traced(c, l) && slot !in flights
      modifies this`flights, this`log
      ensures Traced(c, l) && flights == old(flights)[slot := Flight(caller.org, {caller}, Begun)]
    {
      ghost var before := View();
      flights := flights[slot := Flight(caller.org, {caller}, Begun)];
      Note(c, l, Start(slot, caller), before);
    }

    /** The call leaves the group, and its result, if any, is handed to all its callers. */
    method FinishFlight(c: Crypto, l: Limits, slot: Slot)
      requires Traced(c, l) && slot in flights
      modifies this`flights, this`shared, this`log
      ensures Traced(c, l) && flights == old(flights) - {slot}
      ensures shared == old(shared) +
        (if old(flights[slot]).phase.Resolved? then [HandOut(slot, old(flights[slot]))] else [])
    {
      ghost var before := View();
      var f := flights[slot];
      flights := flights - {slot};
      if f.phase.Resolved? {
        shared := shared + [HandOut(slot, f)];
      }
      FinishMoves(c, l, before, slot, View());
      Note(c, l, Finish(slot), before);
    }

    /** The first caller of a slot nobody else is resolving. */
    method Lead(c: Crypto, l: Limits, slot: Slot, caller: Caller, up: Services) returns (r: Result<Plain, CacheError>)
      requires Traced(c, l) && slot !in flights
      modifies this`redis, this`memory, this`dek, this`flights, this`dekBuffers, this`log
      ensures Traced(c, l) && slot in flights && flights == old(flights)[slot := flights[slot]]
      ensures flights[slot].org == caller.org && flights[slot].callers == {caller}
      ensures if r.Ok? then flights[slot].phase.Resolved? && flights[slot].phase.plain == r.value
              else flights[slot].phase == Failed(r.error)
      ensures r == LowerAnswer(c, old(View()), slot, caller.org, up)
      ensures memory == (if r.Ok? then old(memory)[slot := EntryFor(r.value, caller.org, clock, l)] else old(memory))
    {
      ghost var before := View();
      StartFlight(c, l, slot, caller);
      ghost var started := View();
      r := ResolveFromLowerTiers(c, l, slot, up);
      LowerTiersAnswerAlike(c, before, started, slot, caller.org, up);
      Overwritten(before.flights, slot, started.flights[slot], flights[slot]);
    }

    /** The singleflight call: a success is shared with nobody else. */
    method RunFlight(c: Crypto, l: Limits, slot: Slot, caller: Caller, up: Services)
      returns (r: Result<Plain, CacheError>)
      requires Traced(c, l) && slot !in flights
      modifies this`redis, this`memory, this`dek, this`flights, this`shared, this`dekBuffers, this`log
      ensures Traced(c, l) && flights == old(flights)
      ensures r == LowerAnswer(c, old(View()), slot, caller.org, up)
      ensures memory == (if r.Ok? then old(memory)[slot := EntryFor(r.value, caller.org, clock, l)] else old(memory))
      ensures r.Ok? ==> HandedTo(old(shared), shared, slot, caller, r.value)
      ensures r.Err? ==> shared == old(shared)
    {
      r := Lead(c, l, slot, caller, up);
      FinishFlight(c, l, slot);
      assert flights == old(flights);
      assert old(shared) + [] == old(shared);
    }

    /** The tiers, one after the other. */
    method AskTiers(c: Crypto, l: Limits, slot: Slot, caller: Caller, up: Services)
      returns (r: Result<Plain, CacheError>)
      requires Traced(c, l) && slot !in flights
      modifies this`redis, this`memory, this`dek, this`flights, this`shared, this`dekBuffers, this`log
      ensures Traced(c, l) && flights == old(flights)
      ensures
        var cached := MemoryAnswer(old(View()), slot, caller.org);
        && r == (if cached.Some? then Ok(cached.value) else LowerAnswer(c, old(View()), slot, caller.org, up))
        && (if cached.None? && r.Ok? then HandedTo(old(shared), shared, slot, caller, r.value)
            else shared == old(shared))
      ensures r.Ok? ==> MemoryAnswer(View(), slot, caller.org) == Some(r.value)
    {
      ghost var before := View();
      var cached := ReadL1(c, l, slot, caller.org);
      if cached.Some? {
        return Ok(cached.value);
      }
      LowerTiersAnswerAlike(c, before, View(), slot, caller.org, up);
      r := RunFlight(c, l, slot, caller, up);
    }

    /** The whole lookup, as a run that starts here. */
    method Lookup(c: Crypto, l: Limits, slot: Slot, caller: Caller, up: Services)
      returns (r: Result<Plain, CacheError>)
      requires slot !in flights
      modifies this`redis, this`memory, this`dek, this`flights, this`shared, this`dekBuffers, this`origin, this`log
      ensures Reaches(c, l, old(View()), View()) && flights == old(flights)
      ensures
        var cached := MemoryAnswer(old(View()), slot, caller.org);
        && r == (if cached.Some? then Ok(cached.value) else LowerAnswer(c, old(View()), slot, caller.org, up))
        && (if cached.None? && r.Ok? then HandedTo(old(shared), shared, slot, caller, r.value)
            else shared == old(shared))
      ensures r.Ok? ==> MemoryAnswer(View(), slot, caller.org) == Some(r.value)
    {
      origin, log := View(), [];
      r := AskTiers(c, l, slot, caller, up);
    }

    /**
     * GetDecryptedCredential, the only caller of its slot's flight. It succeeds exactly when some tier
     * can answer; success is always the row's own answer, a copy of its own or a result shared with
     * nobody, and leaves it in this instance's memory.
     */
    method GetDecryptedCredential(c: Crypto, l: Limits, slot: Slot, caller: Caller, up: Services)
      returns (r: Result<Plain, CacheError>)
      requires Authenticated(c) && Faithful(c, View()) && slot !in flights
      modifies this`redis, this`memory, this`dek, this`flights, this`shared, this`dekBuffers, this`origin, this`log
      ensures Reaches(c, l, old(View()), View())
      ensures Faithful(c, View()) && flights == old(flights)
      ensures r.Ok? ==>
        slot.id in db && db[slot.id].record.org == caller.org && Some(r.value) == Resolve(c, db[slot.id].record)
      ensures r.Ok? <==>
        || MemoryHit(old(View()), slot, caller.org)
        || RedisAnswer(c, old(View()), slot, caller.org, up).Some?
        || (up.dbUp && up.kmsUp && RowVisible(old(View()), slot.id, caller.org))
      ensures r.Err? ==> r == DatabaseAnswer(c, old(View()), slot, caller.org, up)
      ensures r.Ok? ==> MemoryAnswer(View(), slot, caller.org) == Some(r.value)
      ensures if r.Ok? && !MemoryHit(old(View()), slot, caller.org)
              then HandedTo(old(shared), shared, slot, caller, r.value) else shared == old(shared)
    {
      ghost var s := View();
      r := Lookup(c, l, slot, caller, up);
      ReachesFaithful(c, l, s, View());
      AnswerIsTheRows(c, s, slot, caller.org, up);
      AnswersExactlyWhen(c, s, slot, caller.org, up);
    }

    /** The end of the proxy's director: it sends the key that the result holds, then zeroes the slice. */
    method AttachAndZero(c: Crypto, l: Limits, result: nat, caller: Caller) returns (sent: Bytes)
      requires Waits(View(), result, caller)
      modifies this`shared
      ensures sent == old(shared[result].plain.apiKey)
      ensures Moved(c, l, old(View()), Zero(result, caller), View())
    {
      var r := shared[result];
      sent := r.plain.apiKey;
      shared := shared[result := r.(waiting := r.waiting - {caller}, zeroedBy := r.zeroedBy + {caller},
                                    plain := Zeroed(r.plain))];
    }

    method ForgetLocalCredential(c: Crypto, l: Limits, slot: Slot)
      requires Traced(c, l)
      modifies this`memory, this`log
      ensures Traced(c, l) && memory == old(memory) - {slot}
    {
      ghost var before := View();
      memory := memory - {slot};
      Note(c, l, ForgetMemory(slot), before);
    }

    method ForgetLocalDEK(c: Crypto, l: Limits, slot: Slot)
      requires Traced(c, l)
      modifies this`dek, this`log
      ensures Traced(c, l) && dek == old(dek) - {slot}
    {
      ghost var before := View();
      dek := dek - {slot};
      Note(c, l, ForgetDEK(slot), before);
    }

    method ForgetRedis(c: Crypto, l: Limits, id: string)
      requires Traced(c, l)
      modifies this`redis, this`log
      ensures Traced(c, l) && redis == old(redis) - {id}
    {
      ghost var before := View();
      redis := redis - {id};
      Note(c, l, DeleteRedis(id), before);
    }

    /** The tiers in the order in which they are cleared. */
    method ForgetTiers(c: Crypto, l: Limits, slot: Slot, redisUp: bool)
      requires Traced(c, l)
      modifies this`memory, this`dek, this`redis, this`log
      ensures Traced(c, l) && memory == old(memory) - {slot} && dek == old(dek) - {slot}
      ensures redis == if redisUp then old(redis) - {slot.id} else old(redis)
    {
      ForgetLocalCredential(c, l, slot);
      ForgetLocalDEK(c, l, slot);
      if redisUp {
        ForgetRedis(c, l, slot.id);
      }
    }

    /** InvalidateCredential: the local caches, then Redis, then the message to the other instances, which
        clears their slots when it arrives. A failing Redis keeps the message from being published. */
    method InvalidateCredential(c: Crypto, l: Limits, slot: Slot, redisUp: bool, publishes: bool) returns (failed: bool)
      modifies this`memory, this`dek, this`redis, this`published, this`origin, this`log
      ensures Reaches(c, l, old(View()), View())
      ensures View() == old(View()).(memory := old(memory) - {slot}, dek := old(dek) - {slot},
                                     redis := if redisUp then old(redis) - {slot.id} else old(redis))
      ensures published == if redisUp && publishes then old(published) + [slot.id] else old(published)
      ensures failed == !(redisUp && publishes)
    {
      origin, log := View(), [];
      ForgetTiers(c, l, slot, redisUp);
      if !redisUp {
        return true;
      }
      if publishes {
        published := published + [slot.id];
      }
      failed := !publishes;
    }
  }

  lemma AnswersExactlyWhen(c: Crypto, s: State, slot: Slot, org: string, up: Services)
    requires Faithful(c, s)
    ensures LowerAnswer(c, s, slot, org, up).Ok? <==>
      RedisAnswer(c, s, slot, org, up).Some? || (up.dbUp && up.kmsUp && RowVisible(s, slot.id, org))
  {
  }

  lemma ReachesFaithful(c: Crypto, l: Limits, s: State, t: State)
    requires Authenticated(c) && Faithful(c, s) && Reaches(c, l, s, t)
    ensures Faithful(c, t)
  {
    var steps :| Runs(c, l, s, steps) && After(c, l, s, steps) == t;
    RunKeepsFaithful(c, l, s, steps);
  }
}
