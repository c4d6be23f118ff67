/**
 * What becomes of one request in the request-cap middleware (internal/middleware/remaining.go), in terms
 * of the two counters: who is let through, who is refused, and what is left in the counters.
 */
module RemainingOutcomes {
  import opened Prelude
  import opened RemainingCheck
  import RC = RequestCounter

  /** The key is there and has not expired. */
  predicate Capped(a: RC.Account) {
    a.key.Some? && (a.key.value.deadline.None? || a.redisNow <= a.key.value.deadline.value)
  }

  /** The counter lets a request through: it is no cap, or has a unit left. */
  predicate Lets(a: RC.Account) { !Capped(a) || a.key.value.value > 0 }

  /** The counter after one request: one unit less where it is a cap and has one, else nothing counts. */
  predicate Charged(a: RC.Account, b: RC.Account) {
    if !Capped(a) then b == a.(key := None)
    else if a.key.value.value > 0 then
      b == a.(key := Some(a.key.value.(value := a.key.value.value - 1)), grants := a.grants + 1)
    else b == a
  }

  lemma DecrementCharges(a: RC.Account)
    ensures Charged(a, RC.Apply(a, RC.Decrement))
    ensures RC.Decremented(a.key, a.redisNow).0 ==
      if !Capped(a) then RC.DecrNoCap else if a.key.value.value > 0 then RC.DecrOK else RC.DecrExhausted
  {
  }

  predicate Pending(w: World, id: nat) {
    && id in w.requests && !w.requests[id].phase.Done?
    && w.requests[id].token in w.counters && w.requests[id].credential in w.counters
  }

  const YES := Answer(Replied, false)

  /** Where the token's counter sends the request. */
  lemma TokenDecides(w: World, id: nat, call: Call, refilled: bool)
    requires Pending(w, id) && w.requests[id].phase.AtToken?
    ensures
      var r, a := w.requests[id], w.counters[w.requests[id].token];
      var v := Apply(w, Proceed(id, Answer(call, refilled)));
      && v.requests == w.requests[id := v.requests[id]]
      && v.requests[id] ==
           (if call != Replied then r.(phase := Done(FailedOpen))
            else if Lets(a) then r.(phase := AtCredential(false), holdsToken := Capped(a) || r.holdsToken)
            else if r.phase.retry then r.(phase := Done(Rejected))
            else r.(phase := TokenRefill))
      && r.token in v.counters && v.counters == w.counters[r.token := v.counters[r.token]]
      && (if call == Unreached then v.counters[r.token] == a else Charged(a, v.counters[r.token]))
  {
    DecrementCharges(w.counters[w.requests[id].token]);
  }

  /** Where the credential's counter sends it: when it is refused, the token's unit goes back first. */
  lemma CredentialDecides(w: World, id: nat, call: Call, refilled: bool)
    requires Pending(w, id) && w.requests[id].phase.AtCredential?
    ensures
      var r, a := w.requests[id], w.counters[w.requests[id].credential];
      var v := Apply(w, Proceed(id, Answer(call, refilled)));
      && v.requests == w.requests[id := v.requests[id]]
      && v.requests[id] ==
           (if call != Replied then r.(phase := if r.holdsToken then RollingBack(FailedOpen) else Done(FailedOpen))
            else if Lets(a) then r.(phase := Done(Admitted), holdsCredential := Capped(a) || r.holdsCredential)
            else if r.phase.retry then r.(phase := if r.holdsToken then RollingBack(Rejected) else Done(Rejected))
            else r.(phase := CredentialRefill))
      && r.credential in v.counters && v.counters == w.counters[r.credential := v.counters[r.credential]]
      && (if call == Unreached then v.counters[r.credential] == a else Charged(a, v.counters[r.credential]))
  {
    DecrementCharges(w.counters[w.requests[id].credential]);
  }

  /** A successful refill is followed by one retry, a failed one by the refusal; neither touches a counter. */
  lemma RefillDecides(w: World, id: nat, call: Call, refilled: bool)
    requires Pending(w, id) && (w.requests[id].phase.TokenRefill? || w.requests[id].phase.CredentialRefill?)
    ensures
      var r := w.requests[id];
      var v := Apply(w, Proceed(id, Answer(call, refilled)));
      && v.counters == w.counters && v.requests == w.requests[id := v.requests[id]]
      && v.requests[id] == r.(phase :=
           if r.phase.TokenRefill? then (if refilled then AtToken(true) else Done(Rejected))
           else if refilled then AtCredential(true)
           else if r.holdsToken then RollingBack(Rejected)
           else Done(Rejected))
  {
  }

  /** The rollback gives the unit back, and the verdict stands whatever becomes of it. */
  lemma RollbackEnds(w: World, id: nat, call: Call, refilled: bool)
    requires Pending(w, id) && w.requests[id].phase.RollingBack?
    ensures
      var r, a := w.requests[id], w.counters[w.requests[id].token];
      var v := Apply(w, Proceed(id, Answer(call, refilled)));
      && v.requests == w.requests[id := v.requests[id]] && v.requests[id].phase == Done(r.phase.verdict)
      && r.token in v.counters && v.counters == w.counters[r.token := v.counters[r.token]]
      && v.counters[r.token] ==
           if call == Unreached then a
           else a.(key := Some(if Capped(a) then a.key.value.(value := a.key.value.value + 1) else RC.Entry(1, None)),
                   undos := a.undos + 1)
  {
  }

  // ---------------------------------------------------------------- One request from start to end

  ghost predicate Leads(w: World, id: nat, v: World) {
    exists steps :: Runs(w, steps) && After(w, steps) == v && forall step | step in steps :: step == Proceed(id, YES)
  }

  lemma StaysPut(w: World, id: nat)
    ensures Leads(w, id, w)
  {
    assert Runs(w, []) && After(w, []) == w;
  }

  lemma LeadsOn(w: World, id: nat, v: World)
    requires Pending(w, id) && Leads(Apply(w, Proceed(id, YES)), id, v)
    ensures Leads(w, id, v)
  {
    var step := Proceed(id, YES);
    var rest :| Runs(Apply(w, step), rest) && After(Apply(w, step), rest) == v && forall s | s in rest :: s == step;
    var steps := [step] + rest;
    assert steps[1..] == rest;
    assert Runs(w, steps) && After(w, steps) == v;
  }

  /** A request that just arrived. */
  predicate Fresh(w: World, id: nat) {
    && Pending(w, id) && w.requests[id].token != w.requests[id].credential
    && w.requests[id] == Request(w.requests[id].token, w.requests[id].credential, AtToken(false), false, false, false)
  }

  /**
   * Main theorem: with Redis answering and no refill due, a request that nothing comes in between of is
   * let through exactly when both counters let it, and then each takes its unit; otherwise it is refused.
   */
  lemma RequestIsDecided(w: World, id: nat) returns (v: World)
    requires Fresh(w, id)
    ensures Leads(w, id, v) && id in v.requests
    ensures
      var r := w.requests[id];
      var token, credential := w.counters[r.token], w.counters[r.credential];
      && v.requests[id].phase == Done(if Lets(token) && Lets(credential) then Admitted else Rejected)
      && r.token in v.counters && r.credential in v.counters
      && (if Lets(token) && Lets(credential) then
            Charged(token, v.counters[r.token]) && Charged(credential, v.counters[r.credential])
          else
            v.counters[r.credential] == credential
            && (Capped(token) ==> v.counters[r.token].key == token.key))
  {
    var token, credential := w.counters[w.requests[id].token], w.counters[w.requests[id].credential];
    TokenDecides(w, id, Replied, false);
    var w1 := Apply(w, Proceed(id, YES));
    if !Lets(token) {
      RefillDecides(w1, id, Replied, false);
      v := Apply(w1, Proceed(id, YES));
      StaysPut(v, id);
      LeadsOn(w1, id, v);
    } else if Lets(credential) {
      CredentialDecides(w1, id, Replied, false);
      v := Apply(w1, Proceed(id, YES));
      StaysPut(v, id);
      LeadsOn(w1, id, v);
    } else {
      v := CredentialRefuses(w1, id);
    }
    LeadsOn(w, id, v);
  }

  lemma CredentialRefuses(w: World, id: nat) returns (v: World)
    requires Pending(w, id) && w.requests[id].phase == AtCredential(false)
    requires w.requests[id].token != w.requests[id].credential && !Lets(w.counters[w.requests[id].credential])
    ensures Leads(w, id, v) && id in v.requests && v.requests[id].phase == Done(Rejected)
    ensures
      var r := w.requests[id];
      var token := w.counters[r.token];
      && r.token in v.counters && r.credential in v.counters
      && v.counters[r.credential] == w.counters[r.credential]
      && (if r.holdsToken && Capped(token) then
            v.counters[r.token].key == Some(token.key.value.(value := token.key.value.value + 1))
          else r.holdsToken || v.counters[r.token] == token)
  {
    CredentialDecides(w, id, Replied, false);
    var w1 := Apply(w, Proceed(id, YES));
    RefillDecides(w1, id, Replied, false);
    var w2 := Apply(w1, Proceed(id, YES));
    v := w2;
    if w.requests[id].holdsToken {
      RollbackEnds(w2, id, Replied, false);
      v := Apply(w2, Proceed(id, YES));
      StaysPut(v, id);
      LeadsOn(w2, id, v);
    } else {
      StaysPut(v, id);
    }
    LeadsOn(w1, id, v);
    LeadsOn(w, id, v);
  }
}
