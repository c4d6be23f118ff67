/** Counter keys of tokens outlive their tokens (internal/counter/counter.go, CheckAndRefillToken). */
module TokenKeys {
  import opened Prelude
  import opened RequestCounter

  /** The instance clock used for a reseed is at most `skew` ahead of the Redis clock when the SET arrives. */
  predicate ClocksWithin(a: Account, step: Step, skew: int) {
    step.Reseed? ==> step.now - skew <= a.redisNow
  }

  predicate TimelyRun(a: Account, steps: seq<Step>, skew: int)
    decreases |steps|
  {
    || steps == []
    || (&& Enabled(a, steps[0]) && ClocksWithin(a, steps[0], skew) && steps[0] != Evict
        && TimelyRun(Apply(a, steps[0]), steps[1..], skew))
  }

  /** Until the token expires its key is there, and will be until then. */
  predicate KeyOutlivesToken(a: Account) {
    && a.row.owner.Token?
    && (a.redisNow <= a.row.owner.expiresAt ==>
          a.key.Some? && (a.key.value.deadline.None? || a.row.owner.expiresAt <= a.key.value.deadline.value))
  }

  /** Minting computes ExpiresAt = now + ttl on the instance and seeds with ttl plus a minute. */
  lemma MintedKeyOutlivesToken(a: Account, remaining: int, now: int, ttl: int)
    requires a.row.owner == Token(now + ttl) && ttl > 0
    requires now - MINUTE <= a.redisNow
    requires a.key == Some(Seeded(remaining, ttl + MINUTE, a.redisNow))
    ensures KeyOutlivesToken(a)
  {
  }

  /** With clocks within a minute and no eviction, a capped token never slips past its cap as "no cap"
      before it expires: reseeds always extend the key beyond ExpiresAt. */
  lemma {:induction false} TokenNeverUncappedBeforeExpiry(a: Account, steps: seq<Step>)
    requires KeyOutlivesToken(a) && TimelyRun(a, steps, MINUTE)
    ensures Runs(a, steps)
    ensures
      var b := After(a, steps);
      && b.row.owner == a.row.owner
      && KeyOutlivesToken(b)
      && (b.redisNow <= b.row.owner.expiresAt ==> Decremented(b.key, b.redisNow).0 != DecrNoCap)
    decreases |steps|
  {
    if steps != [] {
      assert KeyOutlivesToken(Apply(a, steps[0]));
      TokenNeverUncappedBeforeExpiry(Apply(a, steps[0]), steps[1..]);
    }
  }
}
