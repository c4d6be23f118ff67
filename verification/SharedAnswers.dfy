/**
 * What the callers that share one flight are handed (internal/cache/cache.go and internal/proxy/director.go):
 * singleflight gives all of them one pointer, and the proxy zeroes the key behind it after use.
 */
module SharedAnswers {
  import opened Prelude
  import opened CredentialCache

  /** Main theorem: a waiting caller is handed the row's own key exactly when no other caller of its flight
      has zeroed the slice yet, or the key is all zeros anyway. */
  lemma SharedKeyExactlyWhen(c: Crypto, l: Limits, s: State, steps: seq<Step>, result: nat, caller: Caller)
    requires Authenticated(c) && Initial(c, s) && Runs(c, l, s, steps)
    requires Waits(After(c, l, s, steps), result, caller)
    ensures
      var t := After(c, l, s, steps);
      var r := t.shared[result];
      && r.slot.id in t.db && caller !in r.zeroedBy
      && (Resolve(c, t.db[r.slot.id].record) == Some(r.plain) <==> r.zeroedBy == {} || KeyIsZeros(c, t, r.slot.id))
  {
    RunKeepsFaithful(c, l, s, steps);
    assert SharedFaithful(c, After(c, l, s, steps), result);
  }

  /** The only caller of a flight is always handed the row's own key. */
  lemma SoleCallerGetsKey(c: Crypto, l: Limits, s: State, steps: seq<Step>, result: nat, caller: Caller)
    requires Authenticated(c) && Initial(c, s) && Runs(c, l, s, steps)
    requires Waits(After(c, l, s, steps), result, caller) && After(c, l, s, steps).shared[result].callers == {caller}
    ensures
      var t := After(c, l, s, steps);
      var r := t.shared[result];
      r.slot.id in t.db && Resolve(c, t.db[r.slot.id].record) == Some(r.plain)
  {
    RunKeepsFaithful(c, l, s, steps);
    assert SharedFaithful(c, After(c, l, s, steps), result);
  }

  /** `zeroedBy` is the history of the run: exactly the callers that have zeroed this result in it. */
  lemma {:induction false} ZeroedByTheRun(
    c: Crypto, l: Limits, s: State, steps: seq<Step>, result: nat, caller: Caller)
    requires Runs(c, l, s, steps) && result < |After(c, l, s, steps).shared|
    ensures caller in After(c, l, s, steps).shared[result].zeroedBy <==>
      Zero(result, caller) in steps || (result < |s.shared| && caller in s.shared[result].zeroedBy)
    decreases |steps|
  {
    if steps != [] {
      ZeroedByTheRun(c, l, Apply(c, l, s, steps[0]), steps[1..], result, caller);
      assert steps == [steps[0]] + steps[1..];
    }
  }

  /** One use by the proxy spoils the answer of every caller that has yet to read it. */
  lemma ZeroingSpoilsTheRest(
    c: Crypto, l: Limits, s: State, steps: seq<Step>, result: nat, first: Caller, second: Caller)
    requires Authenticated(c) && Initial(c, s) && Runs(c, l, s, steps)
    requires Waits(After(c, l, s, steps), result, first) && Waits(After(c, l, s, steps), result, second)
    requires first != second
    ensures
      var t := Apply(c, l, After(c, l, s, steps), Zero(result, first));
      && Waits(t, result, second) && t.shared[result].slot.id in t.db
      && var id := t.shared[result].slot.id;
         && Resolve(c, t.db[id].record).Some?
         && t.shared[result].plain == Zeroed(Resolve(c, t.db[id].record).value)
         && (Resolve(c, t.db[id].record) == Some(t.shared[result].plain) <==> KeyIsZeros(c, t, id))
  {
    RunKeepsFaithful(c, l, s, steps);
    var u := After(c, l, s, steps);
    StepKeepsFaithful(c, l, u, Zero(result, first));
    assert SharedFaithful(c, Apply(c, l, u, Zero(result, first)), result);
  }

  /** The state in which two calls wait for the finished cold resolution of a visible row. */
  lemma TwoWait(c: Crypto, l: Limits, id: string, record: Record, first: Caller, second: Caller)
    returns (s: State, t: State)
    requires Resolve(c, record).Some? && first.org == record.org
    ensures Initial(c, s) && s.db == map[id := Row(record, None)] && Reaches(c, l, s, t)
    ensures t.db == s.db && |t.shared| == 1
    ensures t.shared[0] == Shared(
      Slot(0, id), record.org, {first, second}, {first, second}, {}, Resolve(c, record).value, 0)
  {
    var slot := Slot(0, id);
    s := State(0, map[id := Row(record, None)], map[], map[], map[], map[], []);
    var joined := s.(flights := map[slot := Flight(record.org, {first, second}, Begun)]);
    BothJoin(c, l, s, slot, first, second);
    var read := ReadAndResolve(c, l, joined, slot, record);
    t := FirstResult(c, l, read, slot);
    ReachesTransitive(c, l, s, joined, read);
    ReachesTransitive(c, l, s, read, t);
  }

  lemma FirstResult(c: Crypto, l: Limits, s: State, slot: Slot) returns (t: State)
    requires slot in s.flights && s.flights[slot].phase.Resolved? && s.shared == []
    ensures Reaches(c, l, s, t) && t.db == s.db && t.shared == [HandOut(slot, s.flights[slot])]
  {
    var results := [HandOut(slot, s.flights[slot])];
    t := s.(flights := s.flights - {slot}, shared := results);
    MoveFinish(c, l, s, slot);
    assert s.shared + results == results;
  }

  lemma BothJoin(c: Crypto, l: Limits, s: State, slot: Slot, first: Caller, second: Caller)
    requires s.flights == map[]
    ensures Reaches(c, l, s, s.(flights := map[slot := Flight(first.org, {first, second}, Begun)]))
  {
    var s1 := s.(flights := s.flights[slot := Flight(first.org, {first}, Begun)]);
    var s2 := s.(flights := map[slot := Flight(first.org, {first, second}, Begun)]);
    MoveStart(c, l, s, slot, first);
    assert {first} + {second} == {first, second};
    Move(c, l, s1, Join(slot, second), s2);
    ReachesTransitive(c, l, s, s1, s2);
  }

  lemma ReadAndResolve(c: Crypto, l: Limits, s: State, slot: Slot, record: Record) returns (t: State)
    requires s.db == map[slot.id := Row(record, None)] && s.redis == map[] && s.shared == []
    requires slot in s.flights && s.flights[slot].phase.Begun? && s.flights[slot].org == record.org
    requires Resolve(c, record).Some?
    ensures Reaches(c, l, s, t) && t.db == s.db && t.shared == []
    ensures slot in t.flights && t.flights[slot].phase == Resolved(Resolve(c, record).value, s.clock)
    ensures t.flights[slot].callers == s.flights[slot].callers && t.flights[slot].org == record.org
  {
    var s1 := ToPhase(s, slot, Missed);
    var s2 := ToPhase(s, slot, ReadRow(record, s.clock));
    MoveReadRedis(c, l, s, slot);
    MoveQueryRow(c, l, s1, slot);
    ReachesTransitive(c, l, s, s1, s2);
    t := ResolveRow(c, l, s2, slot, record, s.clock);
    ReachesTransitive(c, l, s, s2, t);
  }

  lemma ResolveRow(c: Crypto, l: Limits, s: State, slot: Slot, record: Record, read: int) returns (t: State)
    requires slot in s.flights && s.flights[slot].phase == ReadRow(record, read) && Resolve(c, record).Some?
    ensures Reaches(c, l, s, t) && t.db == s.db && t.shared == s.shared
    ensures slot in t.flights && t.flights[slot] == s.flights[slot].(phase := Resolved(Resolve(c, record).value, read))
  {
    var s1 := Apply(c, l, s, DecryptRow(slot, true));
    var s2 := Apply(c, l, s1, WriteRedis(slot, true));
    t := Apply(c, l, s2, Promote(slot));
    Move(c, l, s, DecryptRow(slot, true), s1);
    Move(c, l, s1, WriteRedis(slot, true), s2);
    Move(c, l, s2, Promote(slot), t);
    ReachesTransitive(c, l, s, s1, s2);
    ReachesTransitive(c, l, s, s2, t);
  }

  /** The difference itself: two calls of the row's own organisation meet on a cold miss, every service is
      up and the row is not revoked, and the second one reads zeros where the first one read the key. */
  lemma ZeroedAnswerWitness(c: Crypto, l: Limits, id: string, record: Record, first: Caller, second: Caller)
    returns (s: State, t: State, u: State, plain: Plain)
    requires Authenticated(c) && Resolve(c, record).Some? && first != second
    requires first.org == record.org && second.org == record.org
    ensures Initial(c, s) && Reaches(c, l, s, t) && Reaches(c, l, t, u)
    ensures RowVisible(t, id, record.org) && RowVisible(u, id, record.org) && Resolve(c, record) == Some(plain)
    ensures ServesShared(t, 0, Slot(0, id), first, plain) && ServesShared(u, 0, Slot(0, id), second, Zeroed(plain))
  {
    s, t := TwoWait(c, l, id, record, first, second);
    u := Apply(c, l, t, Zero(0, first));
    plain := Resolve(c, record).value;
    Move(c, l, t, Zero(0, first), u);
  }

  // ---------------------------------------------------------------- The fields of an answer

  lemma {:induction false} ZerosAreZero(n: nat)
    ensures forall i | 0 <= i < n :: Zeros(n)[i] == 0
  {
    if n > 0 {
      ZerosAreZero(n - 1);
    }
  }

  /** The key of the record, as KMS and decryption give it. */
  ghost predicate IsKeyOf(c: Crypto, r: Record, key: Bytes) {
    c.unwrap(r.wrappedDEK).Some? && c.decrypt(r.encryptedKey, c.unwrap(r.wrappedDEK).value) == Some(key)
  }

  /** In every reachable state an answer carries the base URL and the authentication scheme of the row, and
      the row's key, or as many zero bytes as that key has. */
  lemma AnswersHaveTheRowsFields(
    c: Crypto, l: Limits, s: State, steps: seq<Step>, slot: Slot, caller: Caller, plain: Plain)
    requires Authenticated(c) && Initial(c, s) && Runs(c, l, s, steps)
    requires Serves(After(c, l, s, steps), slot, caller, plain)
    ensures slot.id in After(c, l, s, steps).db
    ensures
      var r := After(c, l, s, steps).db[slot.id].record;
      && plain.baseURL == r.baseURL && plain.authScheme == r.authScheme
      && exists key :: IsKeyOf(c, r, key) && |plain.apiKey| == |key|
           && (plain.apiKey == key || forall i | 0 <= i < |key| :: plain.apiKey[i] == 0)
  {
    AnswersAreTransparent(c, l, s, steps, slot, caller, plain);
    var r := After(c, l, s, steps).db[slot.id].record;
    var key := Resolve(c, r).value.apiKey;
    ZerosAreZero(|key|);
    assert IsKeyOf(c, r, key);
  }
}
