/**
 * Token revocation across instances (internal/cache: IsTokenRevoked, InvalidateToken, the Subscribe
 * loop and the Redis marks). Postgres decides; the in-memory sets and the Redis marks only ever speed
 * up the answer "revoked".
 */
module TokenRevocation {
  import opened Prelude

  // The Redis mark left after Postgres answered.
  const DAY: int := 86_400_000_000

  /** A lookup between its reads. The last two fields record what was true when it was asked. */
  datatype Phase = Asked | SetMissed | RedisMissed | Answered(revoked: bool) | Failed

  datatype Query = Query(instance: nat, jti: string, phase: Phase, rowRevoked: bool, knownHere: bool)

  /** `rows` maps each token to whether revoked_at is set; `marks` to the Redis key's expiry time. */
  datatype State = State(
    clock: int,
    rows: map<string, bool>,
    marks: map<string, int>,
    sets: map<nat, set<string>>,
    published: set<string>,
    queries: map<nat, Query>)
  {
    predicate Revoked(jti: string) {
      jti in rows && rows[jti]
    }

    function Known(instance: nat): set<string> {
      if instance in sets then sets[instance] else {}
    }

    predicate Marked(jti: string) {
      jti in marks && clock <= marks[jti]
    }

    function Learn(instance: nat, jti: string): State {
      this.(sets := sets[instance := Known(instance) + {jti}])
    }
  }

  datatype Step =
    | Mint(jti: string)
    | Revoke(jti: string)
    | Remember(instance: nat, jti: string)
    | Mark(jti: string, ttl: int)
    | Publish(jti: string)
    | Deliver(instance: nat, jti: string)
    | Unmark(jti: string)
    | Tick(now: int)
    | Ask(query: nat, instance: nat, jti: string)
    | CheckSet(query: nat)
    | CheckRedis(query: nat, redisUp: bool)
    | CheckRow(query: nat, dbUp: bool, redisUp: bool)

  predicate AtPhase(s: State, query: nat, phase: Phase) {
    query in s.queries && s.queries[query].phase == phase
  }

  /** The revoke handler updates the row before InvalidateToken touches the other tiers. */
  predicate Enabled(s: State, step: Step) {
    match step
    case Mint(jti) => jti !in s.rows
    case Revoke(jti) => jti in s.rows
    case Remember(_, jti) => s.Revoked(jti)
    case Mark(jti, _) => s.Revoked(jti)
    case Publish(jti) => s.Revoked(jti)
    case Deliver(_, jti) => jti in s.published
    case Unmark(_) => true
    case Tick(now) => s.clock <= now
    case Ask(query, _, _) => query !in s.queries
    case CheckSet(query) => AtPhase(s, query, Asked)
    case CheckRedis(query, _) => AtPhase(s, query, SetMissed)
    case CheckRow(query, _, _) => AtPhase(s, query, RedisMissed)
  }

  function ToPhase(s: State, query: nat, phase: Phase): State
    requires query in s.queries
  {
    s.(queries := s.queries[query := s.queries[query].(phase := phase)])
  }

  function Apply(s: State, step: Step): State
    requires Enabled(s, step)
  {
    match step
    case Mint(jti) => s.(rows := s.rows[jti := false])
    case Revoke(jti) => s.(rows := s.rows[jti := true])
    case Remember(instance, jti) => s.Learn(instance, jti)
    case Mark(jti, ttl) => s.(marks := s.marks[jti := s.clock + ttl])
    case Publish(jti) => s.(published := s.published + {jti})
    case Deliver(instance, jti) => s.Learn(instance, jti)
    case Unmark(jti) => s.(marks := s.marks - {jti})
    case Tick(now) => s.(clock := now)
    case Ask(query, instance, jti) =>
      s.(queries := s.queries[query := Query(instance, jti, Asked, s.Revoked(jti), jti in s.Known(instance))])
    case CheckSet(query) =>
      var q := s.queries[query];
      ToPhase(s, query, if q.jti in s.Known(q.instance) then Answered(true) else SetMissed)
    case CheckRedis(query, redisUp) =>
      var q := s.queries[query];
      if redisUp && s.Marked(q.jti) then ToPhase(s.Learn(q.instance, q.jti), query, Answered(true))
      else ToPhase(s, query, RedisMissed)
    case CheckRow(query, dbUp, redisUp) =>
      var q := s.queries[query];
      if !dbUp then ToPhase(s, query, Failed)
      else if s.Revoked(q.jti) then
        var s1 := s.Learn(q.instance, q.jti);
        ToPhase(s1.(marks := if redisUp then s1.marks[q.jti := s.clock + DAY] else s1.marks), query, Answered(true))
      else ToPhase(s, query, Answered(false))
  }

  predicate Runs(s: State, steps: seq<Step>)
    decreases |steps|
  {
    steps == [] || (Enabled(s, steps[0]) && Runs(Apply(s, steps[0]), steps[1..]))
  }

  function After(s: State, steps: seq<Step>): State
    requires Runs(s, steps)
    decreases |steps|
  {
    if steps == [] then s else After(Apply(s, steps[0]), steps[1..])
  }

  /** No tier claims more than Postgres. */
  ghost predicate Sound(s: State) {
    && (forall jti | jti in s.marks :: s.Revoked(jti))
    && (forall jti | jti in s.published :: s.Revoked(jti))
    && (forall instance, jti | jti in s.Known(instance) :: s.Revoked(jti))
  }

  /** What an answer tells, relative to when it was asked and to what its instance knows now. */
  ghost predicate Honest(s: State, q: Query) {
    && (q.rowRevoked ==> s.Revoked(q.jti))
    && (q.knownHere ==> q.jti in s.Known(q.instance) && (q.phase == Asked || q.phase == Answered(true)))
    && (q.phase == Answered(true) ==> s.Revoked(q.jti) && q.jti in s.Known(q.instance))
    && (q.phase == Answered(false) ==> !q.rowRevoked)
  }

  ghost predicate Inv(s: State) {
    Sound(s) && forall query | query in s.queries :: Honest(s, s.queries[query])
  }

  lemma StepOnlyAdds(s: State, step: Step)
    requires Enabled(s, step)
    ensures forall jti | s.Revoked(jti) :: Apply(s, step).Revoked(jti)
    ensures forall instance :: s.Known(instance) <= Apply(s, step).Known(instance)
  {
  }

  lemma StepKeepsSound(s: State, step: Step)
    requires Inv(s) && Enabled(s, step)
    ensures Sound(Apply(s, step))
  {
    StepOnlyAdds(s, step);
    var t := Apply(s, step);
    forall instance, jti | jti in t.Known(instance) ensures t.Revoked(jti) {
      if jti in s.Known(instance) {
        assert s.Revoked(jti);
      }
    }
  }

  lemma StepKeepsInv(s: State, step: Step)
    requires Inv(s) && Enabled(s, step)
    ensures Inv(Apply(s, step))
  {
    StepKeepsSound(s, step);
    forall query | query in Apply(s, step).queries ensures Honest(Apply(s, step), Apply(s, step).queries[query]) {
      if query in s.queries {
        StepKeepsHonest(s, step, query);
      }
    }
  }

  lemma StepKeepsHonest(s: State, step: Step, query: nat)
    requires Sound(s) && query in s.queries && Honest(s, s.queries[query]) && Enabled(s, step)
    ensures query in Apply(s, step).queries && Honest(Apply(s, step), Apply(s, step).queries[query])
  {
    StepOnlyAdds(s, step);
  }

  lemma {:induction false} RunKeepsInv(s: State, steps: seq<Step>)
    requires Inv(s) && Runs(s, steps)
    ensures Inv(After(s, steps))
    ensures forall jti | s.Revoked(jti) :: After(s, steps).Revoked(jti)
    ensures forall instance :: s.Known(instance) <= After(s, steps).Known(instance)
    decreases |steps|
  {
    if steps != [] {
      StepOnlyAdds(s, steps[0]);
      StepKeepsInv(s, steps[0]);
      RunKeepsInv(Apply(s, steps[0]), steps[1..]);
    }
  }

  predicate Initial(s: State) {
    s.marks == map[] && s.sets == map[] && s.published == {} && s.queries == map[]
  }

  /**
   * Main theorem: over every run, with messages lost, Redis down or its marks expired, a lookup asked
   * after the row was revoked never answers "not revoked", and no lookup answers "revoked" for a token
   * whose row is not.
   */
  lemma AnswersRefineTheDatabase(s: State, steps: seq<Step>, query: nat)
    requires Initial(s) && Runs(s, steps) && query in After(s, steps).queries
    ensures
      var t := After(s, steps);
      var q := t.queries[query];
      && (q.rowRevoked && q.phase.Answered? ==> q.phase.revoked)
      && (q.phase == Answered(true) ==> t.Revoked(q.jti))
  {
    RunKeepsInv(s, steps);
  }

  /** An instance that answered "revoked" once answers it from memory ever after: no later lookup
      there can answer otherwise, or even fail, whatever happens to Redis and Postgres. */
  lemma RevokedAnswersStay(s: State, steps: seq<Step>, first: nat, more: seq<Step>, query: nat)
    requires Initial(s) && Runs(s, steps) && Runs(After(s, steps), more)
    requires first in After(s, steps).queries && After(s, steps).queries[first].phase == Answered(true)
    requires query !in After(s, steps).queries && query in After(After(s, steps), more).queries
    requires
      var q, f := After(After(s, steps), more).queries[query], After(s, steps).queries[first];
      q.jti == f.jti && q.instance == f.instance
    ensures
      var q := After(After(s, steps), more).queries[query];
      q.phase == Asked || q.phase == Answered(true)
  {
    RunKeepsInv(s, steps);
    var t := After(s, steps);
    var f := t.queries[first];
    assert Honest(t, f);
    LaterQueriesKnow(t, more, query, f.instance, f.jti);
    RunKeepsInv(t, more);
    assert Honest(After(t, more), After(t, more).queries[query]);
  }

  /** A lookup of this token on this instance, if it was asked yet, was asked of a set that held the token. */
  ghost predicate AsksKnown(s: State, query: nat, instance: nat, jti: string) {
    query in s.queries && s.queries[query].jti == jti && s.queries[query].instance == instance ==>
      s.queries[query].knownHere
  }

  lemma StepKeepsAsksKnown(s: State, step: Step, query: nat, instance: nat, jti: string)
    requires Enabled(s, step) && jti in s.Known(instance) && AsksKnown(s, query, instance, jti)
    ensures jti in Apply(s, step).Known(instance) && AsksKnown(Apply(s, step), query, instance, jti)
  {
  }

  lemma {:induction false} LaterQueriesKnow(s: State, steps: seq<Step>, query: nat, instance: nat, jti: string)
    requires Runs(s, steps) && jti in s.Known(instance) && AsksKnown(s, query, instance, jti)
    requires query in After(s, steps).queries
    requires After(s, steps).queries[query].jti == jti && After(s, steps).queries[query].instance == instance
    ensures After(s, steps).queries[query].knownHere
    decreases |steps|
  {
    if steps != [] {
      StepKeepsAsksKnown(s, steps[0], query, instance, jti);
      LaterQueriesKnow(Apply(s, steps[0]), steps[1..], query, instance, jti);
    }
  }

  /** Some run of this lookup alone, with Postgres up, ends with this answer. */
  ghost predicate CanAnswer(s: State, query: nat, redisUp: bool, revoked: bool) {
    exists steps ::
      && Runs(s, steps) && AtPhase(After(s, steps), query, Answered(revoked))
      && forall step | step in steps :: OwnStep(step, query, redisUp)
  }

  predicate OwnStep(step: Step, query: nat, redisUp: bool) {
    step == CheckSet(query) || step == CheckRedis(query, redisUp) || step == CheckRow(query, true, redisUp)
  }

  lemma AnswersNow(s: State, query: nat, redisUp: bool, revoked: bool)
    requires AtPhase(s, query, Answered(revoked))
    ensures CanAnswer(s, query, redisUp, revoked)
  {
    assert Runs(s, []) && After(s, []) == s;
  }

  lemma AnswersAfter(s: State, step: Step, query: nat, redisUp: bool, revoked: bool)
    requires OwnStep(step, query, redisUp) && Enabled(s, step) && CanAnswer(Apply(s, step), query, redisUp, revoked)
    ensures CanAnswer(s, query, redisUp, revoked)
  {
    var rest :|
      && Runs(Apply(s, step), rest) && AtPhase(After(Apply(s, step), rest), query, Answered(revoked))
      && forall x | x in rest :: OwnStep(x, query, redisUp);
    var steps := [step] + rest;
    assert steps[1..] == rest;
    assert Runs(s, steps) && After(s, steps) == After(Apply(s, step), rest);
  }

  /** With Postgres up a lookup that nothing comes in between of answers what the row says, whatever Redis does. */
  lemma LookupAnswersTheRow(s: State, query: nat, redisUp: bool)
    requires Inv(s) && AtPhase(s, query, Asked)
    ensures CanAnswer(s, query, redisUp, s.Revoked(s.queries[query].jti))
  {
    var q := s.queries[query];
    var s1 := Apply(s, CheckSet(query));
    StepKeepsInv(s, CheckSet(query));
    if q.jti in s.Known(q.instance) {
      AnswersNow(s1, query, redisUp, true);
    } else {
      RedisAndRowAnswer(s1, query, redisUp);
    }
    AnswersAfter(s, CheckSet(query), query, redisUp, s.Revoked(q.jti));
  }

  lemma RedisAndRowAnswer(s: State, query: nat, redisUp: bool)
    requires Inv(s) && AtPhase(s, query, SetMissed)
    ensures CanAnswer(s, query, redisUp, s.Revoked(s.queries[query].jti))
  {
    var q := s.queries[query];
    var s1 := Apply(s, CheckRedis(query, redisUp));
    if redisUp && s.Marked(q.jti) {
      AnswersNow(s1, query, redisUp, true);
    } else {
      AnswersNow(Apply(s1, CheckRow(query, true, redisUp)), query, redisUp, s.Revoked(q.jti));
      AnswersAfter(s1, CheckRow(query, true, redisUp), query, redisUp, s.Revoked(q.jti));
    }
    AnswersAfter(s, CheckRedis(query, redisUp), query, redisUp, s.Revoked(q.jti));
  }

  /** A live mark answers without Postgres, and teaches the instance. */
  lemma MarkAnswersAlone(s: State, query: nat)
    requires AtPhase(s, query, SetMissed)
    requires s.queries[query].jti in s.marks && s.clock <= s.marks[s.queries[query].jti]
    ensures
      var q, t := s.queries[query], Apply(s, CheckRedis(query, true));
      AtPhase(t, query, Answered(true)) && q.instance in t.sets && q.jti in t.sets[q.instance]
  {
  }

  // ---------------------------------------------------------------- The methods

  datatype LookupError = DatabaseError

  /** One instance's revocation tiers: its own set, and the Redis marks and rows it shares. */
  class Revocations {
    var rows: map<string, bool>
    var marks: map<string, int>
    var revokedSet: set<string>
    // The revocation messages published so far, oldest first.
    var published: seq<string>

    constructor (rows: map<string, bool>, marks: map<string, int>)
      ensures this.rows == rows && this.marks == marks && revokedSet == {} && published == []
    {
      this.rows, this.marks, revokedSet, published := rows, marks, {}, [];
    }

    ghost predicate Valid()
      reads this
    {
      && (forall jti | jti in marks :: jti in rows && rows[jti])
      && (forall jti | jti in revokedSet :: jti in rows && rows[jti])
      && (forall jti | jti in published :: jti in rows && rows[jti])
    }

    /** InvalidateToken: the local set even when Redis fails; the mark, and then the message to the other
        instances, only when it does not. */
    method InvalidateToken(jti: string, ttl: int, now: int, redisUp: bool, publishes: bool) returns (failed: bool)
      requires Valid() && jti in rows && rows[jti]
      modifies this
      ensures Valid() && rows == old(rows) && failed == !(redisUp && publishes)
      ensures revokedSet == old(revokedSet) + {jti}
      ensures marks == if redisUp then old(marks)[jti := now + ttl] else old(marks)
      ensures published == if redisUp && publishes then old(published) + [jti] else old(published)
    {
      revokedSet := revokedSet + {jti};
      if !redisUp {
        return true;
      }
      marks := marks[jti := now + ttl];
      if publishes {
        published := published + [jti];
      }
      failed := !publishes;
    }

    /** IsTokenRevoked: an error-free answer is Postgres's answer, from whichever tier it comes; only
        a token missing from both fast tiers needs Postgres at all. */
    method IsTokenRevoked(jti: string, now: int, redisUp: bool, dbUp: bool) returns (r: Result<bool, LookupError>)
      requires Valid()
      modifies this
      ensures Valid() && rows == old(rows) && published == old(published)
      ensures r.Ok? ==> r.value == (jti in rows && rows[jti])
      ensures r.Err? <==>
        !dbUp && jti !in old(revokedSet) && !(redisUp && jti in old(marks) && now <= old(marks)[jti])
      ensures revokedSet == if r == Ok(true) then old(revokedSet) + {jti} else old(revokedSet)
      ensures
        var fast := jti in old(revokedSet) || (redisUp && jti in old(marks) && now <= old(marks)[jti]);
        marks == if r == Ok(true) && redisUp && !fast then old(marks)[jti := now + DAY] else old(marks)
    {
      if jti in revokedSet {
        return Ok(true);
      }
      if redisUp && jti in marks && now <= marks[jti] {
        revokedSet := revokedSet + {jti};
        return Ok(true);
      }
      if !dbUp {
        return Err(DatabaseError);
      }
      if jti in rows && rows[jti] {
        if redisUp {
          marks := marks[jti := now + DAY];
        }
        revokedSet := revokedSet + {jti};
        return Ok(true);
      }
      r := Ok(false);
    }
  }
}
