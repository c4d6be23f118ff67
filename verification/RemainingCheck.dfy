/**
 * The request-cap middleware (internal/middleware/remaining.go): every request takes one unit from its
 * token's counter and one from its credential's, with one refill attempt each, and gives the token's
 * unit back when the credential refuses. Many requests run at once over many shared counters, on which
 * the tool calls of internal/mcpserver/builder.go draw as well.
 */
module RemainingCheck {
  import opened Prelude
  import RC = RequestCounter
  import RequestCap

  datatype Outcome = Admitted | FailedOpen | Rejected

  datatype Phase =
    | AtToken(retry: bool)
    | TokenRefill
    | AtCredential(retry: bool)
    | CredentialRefill
    | RollingBack(verdict: Outcome)
    | Done(outcome: Outcome)

  /** `holdsToken` is the handler's tokResult == DecrOK, until the unit is given back. */
  datatype Request = Request(
    token: string,
    credential: string,
    phase: Phase,
    holdsToken: bool,
    holdsCredential: bool,
    undoFailed: bool)

  /** A call to Redis is answered, never reaches it, or is executed and its reply lost. */
  datatype Call = Replied | Unreached | Lost

  /** What the shared services answer a request: its call to Redis, and whether its refill succeeded. */
  datatype Answer = Answer(call: Call, refilled: bool)

  /** `tools` holds one element for each unit of a counter that a tool call took, `leaked` one for each
      unit taken for a request that never learned of it. */
  datatype World = World(
    counters: map<string, RC.Account>,
    requests: map<nat, Request>,
    tools: multiset<string>,
    leaked: multiset<string>)

  datatype Step =
    | Arrive(id: nat, token: string, credential: string)
    | Proceed(id: nat, answer: Answer)
    | Elsewhere(key: string, step: RC.Step)

  /** Reject or fail open after the token step: roll the token's unit back first, if one was taken. */
  function Refuse(r: Request, outcome: Outcome): Request {
    r.(phase := if r.holdsToken then RollingBack(outcome) else Done(outcome))
  }

  /** The handler after a token decrement. */
  function AfterToken(r: Request, replied: bool, result: RC.DecrementResult): Request
    requires r.phase.AtToken?
  {
    if !replied then r.(phase := Done(FailedOpen))
    else match result
      case DecrOK => r.(phase := AtCredential(false), holdsToken := true)
      case DecrNoCap => r.(phase := AtCredential(false))
      case DecrExhausted => r.(phase := if r.phase.retry then Done(Rejected) else TokenRefill)
  }

  /** The handler after a credential decrement. */
  function AfterCredential(r: Request, replied: bool, result: RC.DecrementResult): Request
    requires r.phase.AtCredential?
  {
    if !replied then Refuse(r, FailedOpen)
    else match result
      case DecrOK => r.(phase := Done(Admitted), holdsCredential := true)
      case DecrNoCap => r.(phase := Done(Admitted))
      case DecrExhausted => if r.phase.retry then Refuse(r, Rejected) else r.(phase := CredentialRefill)
  }

  predicate Enabled(w: World, step: Step) {
    match step
    case Arrive(id, token, credential) =>
      id !in w.requests && token in w.counters && credential in w.counters && token != credential
    case Proceed(id, answer) =>
      && id in w.requests && !w.requests[id].phase.Done?
      && w.requests[id].token in w.counters && w.requests[id].credential in w.counters
    case Elsewhere(key, s) => key in w.counters && !s.Undo? && RC.Enabled(w.counters[key], s)
  }

  /** The unit that a step takes from its counter; nothing gives back the unit of a tool call. */
  function UnitTaken(key: string, a: RC.Account, s: RC.Step): multiset<string> {
    if s.Decrement? && RC.Decremented(a.key, a.redisNow).0 == RC.DecrOK then multiset{key} else multiset{}
  }

  /** One atomic step of the request: at most one Redis call on one counter. */
  function Proceeded(w: World, r: Request, answer: Answer): (map<string, RC.Account>, Request)
    requires !r.phase.Done? && r.token in w.counters && r.credential in w.counters
  {
    match r.phase
    case AtToken(_) =>
      var a := w.counters[r.token];
      var result := RC.Decremented(a.key, a.redisNow).0;
      (if answer.call != Unreached then w.counters[r.token := RC.Apply(a, RC.Decrement)] else w.counters,
       AfterToken(r, answer.call.Replied?, result))
    case TokenRefill =>
      (w.counters, r.(phase := if answer.refilled then AtToken(true) else Done(Rejected)))
    case AtCredential(_) =>
      var a := w.counters[r.credential];
      var result := RC.Decremented(a.key, a.redisNow).0;
      (if answer.call != Unreached then w.counters[r.credential := RC.Apply(a, RC.Decrement)] else w.counters,
       AfterCredential(r, answer.call.Replied?, result))
    case CredentialRefill =>
      (w.counters, if answer.refilled then r.(phase := AtCredential(true)) else Refuse(r, Rejected))
    case RollingBack(outcome) =>
      if answer.call != Unreached then
        (w.counters[r.token := RC.Apply(w.counters[r.token], RC.Undo)], r.(phase := Done(outcome), holdsToken := false))
      else
        (w.counters, r.(phase := Done(outcome), undoFailed := true))
  }

  /** The unit of `key` that a lost reply leaves unaccounted for. */
  function LeakedBy(w: World, r: Request, answer: Answer): multiset<string>
    requires r.token in w.counters && r.credential in w.counters
  {
    if !answer.call.Lost? then multiset{}
    else if r.phase.AtToken? then UnitTaken(r.token, w.counters[r.token], RC.Decrement)
    else if r.phase.AtCredential? then UnitTaken(r.credential, w.counters[r.credential], RC.Decrement)
    else multiset{}
  }

  function Apply(w: World, step: Step): World
    requires Enabled(w, step)
  {
    match step
    case Arrive(id, token, credential) =>
      w.(requests := w.requests[id := Request(token, credential, AtToken(false), false, false, false)])
    case Proceed(id, answer) =>
      var (counters, r) := Proceeded(w, w.requests[id], answer);
      World(counters, w.requests[id := r], w.tools, w.leaked + LeakedBy(w, w.requests[id], answer))
    case Elsewhere(key, s) =>
      w.(counters := w.counters[key := RC.Apply(w.counters[key], s)],
         tools := w.tools + UnitTaken(key, w.counters[key], s))
  }

  predicate Runs(w: World, steps: seq<Step>)
    decreases |steps|
  {
    steps == [] || (Enabled(w, steps[0]) && Runs(Apply(w, steps[0]), steps[1..]))
  }

  function After(w: World, steps: seq<Step>): World
    requires Runs(w, steps)
    decreases |steps|
  {
    if steps == [] then w else After(Apply(w, steps[0]), steps[1..])
  }

  // ---------------------------------------------------------------- Conservation

  predicate Holds(r: Request, key: string, asToken: bool) {
    if asToken then r.holdsToken && r.token == key else r.holdsCredential && r.credential == key
  }

  /** The units of counter `key` that requests hold, each named by its request and its role. */
  function Charges(requests: map<nat, Request>, key: string): set<(nat, bool)> {
    set id, asToken | id in requests && asToken in {true, false} && Holds(requests[id], key, asToken) :: (id, asToken)
  }

  /** The charges of requests that were let through to the upstream service. */
  function AdmittedCharges(requests: map<nat, Request>, key: string): set<(nat, bool)> {
    set c | c in Charges(requests, key) && requests[c.0].phase == Done(Admitted)
  }

  /** What each request may hold at each point of the handler. */
  predicate Tidy(r: Request) {
    && r.token != r.credential
    && (r.phase.AtToken? || r.phase.TokenRefill? ==> !r.holdsToken)
    && (r.phase.RollingBack? ==> r.holdsToken && r.phase.verdict != Admitted)
    && (r.holdsCredential ==> r.phase == Done(Admitted))
    && (r.undoFailed ==> r.phase.Done? && r.holdsToken)
    && (r.phase.Done? && r.phase.outcome != Admitted && r.holdsToken ==> r.undoFailed)
  }

  /** Every unit a counter gave out and did not get back is held by exactly one request or tool call. */
  ghost predicate Balanced(w: World, key: string)
    requires key in w.counters
  {
    w.counters[key].grants - w.counters[key].undos == |Charges(w.requests, key)| + w.tools[key] + w.leaked[key]
  }

  ghost predicate Conserved(w: World) {
    && (forall id | id in w.requests :: Tidy(w.requests[id]))
    && (forall key | key in w.counters :: Balanced(w, key))
  }

  lemma ChargesAfter(requests: map<nat, Request>, id: nat, r: Request, key: string)
    requires r.token != r.credential
    requires id in requests ==> requests[id].token == r.token && requests[id].credential == r.credential
    ensures
      var before := if id in requests then Held(requests[id], key) else 0;
      |Charges(requests[id := r], key)| == |Charges(requests, key)| - before + Held(r, key)
  {
    var rest := Charges(requests - {id}, key);
    ChargesSplit(requests[id := r], id, key);
    assert requests[id := r] - {id} == requests - {id};
    if id in requests {
      ChargesSplit(requests, id, key);
    } else {
      assert requests - {id} == requests;
    }
  }

  /** How many units of one counter a request holds: at most one, as its two counters differ. */
  function Held(r: Request, key: string): nat {
    if Holds(r, key, true) || Holds(r, key, false) then 1 else 0
  }

  lemma ChargesSplit(requests: map<nat, Request>, id: nat, key: string)
    requires id in requests && requests[id].token != requests[id].credential
    ensures |Charges(requests, key)| == |Charges(requests - {id}, key)| + Held(requests[id], key)
  {
    var rest := Charges(requests - {id}, key);
    if Held(requests[id], key) == 1 {
      CardinalityPlusOne(rest, Charges(requests, key), (id, Holds(requests[id], key, true)));
    } else {
      assert rest == Charges(requests, key);
    }
  }

  lemma StepConserves(w: World, step: Step)
    requires Conserved(w) && Enabled(w, step)
    ensures Conserved(Apply(w, step))
  {
    var v := Apply(w, step);
    forall id | id in v.requests ensures Tidy(v.requests[id]) {
      if step.Proceed? && id == step.id {
        ProceedBalances(w, id, step.answer, w.requests[id].token);
      }
    }
    forall key | key in v.counters ensures Balanced(v, key) {
      StepBalances(w, step, key);
    }
  }

  lemma StepBalances(w: World, step: Step, key: string)
    requires Conserved(w) && Enabled(w, step) && key in w.counters
    ensures key in Apply(w, step).counters && Balanced(Apply(w, step), key)
  {
    match step
    case Elsewhere(k, s) => ElsewhereBalances(w, k, s, key);
    case Arrive(id, token, credential) => ArriveBalances(w, id, token, credential, key);
    case Proceed(id, answer) => RequestBalances(w, id, answer, key);
  }

  lemma RequestBalances(w: World, id: nat, answer: Answer, key: string)
    requires Enabled(w, Proceed(id, answer)) && Tidy(w.requests[id]) && key in w.counters && Balanced(w, key)
    ensures key in Apply(w, Proceed(id, answer)).counters && Balanced(Apply(w, Proceed(id, answer)), key)
  {
    ProceedBalances(w, id, answer, key);
    ChargesAfter(w.requests, id, Proceeded(w, w.requests[id], answer).1, key);
  }

  lemma ElsewhereBalances(w: World, k: string, s: RC.Step, key: string)
    requires Enabled(w, Elsewhere(k, s)) && key in w.counters && Balanced(w, key)
    ensures Balanced(Apply(w, Elsewhere(k, s)), key)
  {
  }

  lemma ArriveBalances(w: World, id: nat, token: string, credential: string, key: string)
    requires Enabled(w, Arrive(id, token, credential)) && key in w.counters && Balanced(w, key)
    ensures Balanced(Apply(w, Arrive(id, token, credential)), key)
  {
    ChargesAfter(w.requests, id, Request(token, credential, AtToken(false), false, false, false), key);
  }

  lemma ProceedBalances(w: World, id: nat, answer: Answer, key: string)
    requires Enabled(w, Proceed(id, answer)) && Tidy(w.requests[id]) && key in w.counters
    ensures
      var (counters, r) := Proceeded(w, w.requests[id], answer);
      && key in counters && Tidy(r)
      && counters[key].grants - counters[key].undos
         == w.counters[key].grants - w.counters[key].undos - Held(w.requests[id], key) + Held(r, key)
            + LeakedBy(w, w.requests[id], answer)[key]
  {
  }

  lemma {:induction false} RunConserves(w: World, steps: seq<Step>)
    requires Conserved(w) && Runs(w, steps)
    ensures Conserved(After(w, steps))
    decreases |steps|
  {
    if steps != [] {
      StepConserves(w, steps[0]);
      RunConserves(Apply(w, steps[0]), steps[1..]);
    }
  }

  /** A world before any request: every counter unused, seeded with its initial value. */
  ghost predicate Opening(w: World, initial: map<string, int>) {
    && w.requests == map[] && w.tools == w.leaked == multiset{} && w.counters.Keys <= initial.Keys
    && (forall key | key in w.counters :: RC.Unused(w.counters[key], initial[key]))
  }

  /** When no handler is running and no rollback failed, every counter has given out, net, exactly one
      unit per tool call, per admitted request it capped and per lost reply: refused requests cost nothing. */
  lemma QuietCountersMatchAdmissions(w: World, steps: seq<Step>, initial: map<string, int>, key: string)
    requires Opening(w, initial) && Runs(w, steps)
    requires
      var v := After(w, steps);
      && key in v.counters
      && forall id | id in v.requests :: v.requests[id].phase.Done? && !v.requests[id].undoFailed
    ensures
      var v := After(w, steps);
      v.counters[key].grants - v.counters[key].undos
        == |AdmittedCharges(v.requests, key)| + v.tools[key] + v.leaked[key]
  {
    OpeningIsConserved(w, initial);
    RunConserves(w, steps);
    var v := After(w, steps);
    assert Balanced(v, key);
    assert AdmittedCharges(v.requests, key) == Charges(v.requests, key);
  }

  lemma OpeningIsConserved(w: World, initial: map<string, int>)
    requires Opening(w, initial)
    ensures Conserved(w)
  {
    forall key | key in w.counters ensures Balanced(w, key) {
      assert Charges(w.requests, key) == {};
    }
  }

  // ---------------------------------------------------------------- The cap, end to end

  /** One counter keeps the invariants of RequestCounter, and its interval is a positive one. */
  ghost predicate Sound(a: RC.Account, initial: int) {
    && RC.Inv(a, initial) && RC.Spaced(a)
    && (a.row.Configured() ==> a.row.refillInterval.value.length > 0)
  }

  /** A step of the world is at most one atomic step of each counter. */
  lemma StepOfOneCounter(w: World, step: Step, key: string) returns (s: Option<RC.Step>)
    requires Enabled(w, step) && key in w.counters
    ensures key in Apply(w, step).counters
    ensures s.Some? ==> RC.Enabled(w.counters[key], s.value)
    ensures Apply(w, step).counters[key]
         == if s.Some? then RC.Apply(w.counters[key], s.value) else w.counters[key]
  {
    s := None;
    if Apply(w, step).counters[key] != w.counters[key] {
      match step
      case Elsewhere(k, other) => s := Some(other);
      case Proceed(id, answer) =>
        s := Some(if w.requests[id].phase.RollingBack? then RC.Undo else RC.Decrement);
    }
  }

  lemma StepKeepsSound(w: World, step: Step, key: string, initial: int)
    requires Enabled(w, step) && key in w.counters && Sound(w.counters[key], initial)
    ensures key in Apply(w, step).counters && Sound(Apply(w, step).counters[key], initial)
    ensures Apply(w, step).counters[key].row.SameConfiguration(w.counters[key].row)
  {
    var s := StepOfOneCounter(w, step, key);
    if s.Some? {
      RC.StepKeepsInv(w.counters[key], s.value, initial);
      RC.StepKeepsSpacing(w.counters[key], s.value, initial);
    }
  }

  lemma {:induction false} RunKeepsSound(w: World, steps: seq<Step>, key: string, initial: int)
    requires Runs(w, steps) && key in w.counters && Sound(w.counters[key], initial)
    ensures key in After(w, steps).counters && Sound(After(w, steps).counters[key], initial)
    ensures After(w, steps).counters[key].row.SameConfiguration(w.counters[key].row)
    decreases |steps|
  {
    if steps != [] {
      StepKeepsSound(w, steps[0], key, initial);
      RunKeepsSound(Apply(w, steps[0]), steps[1..], key, initial);
    }
  }

  lemma SoundStaysWithinCap(a: RC.Account, row: RC.Row, initial: int)
    requires Sound(a, initial) && a.row.SameConfiguration(row)
    requires row.Configured() ==> row.refillInterval.value.length > 0
    ensures a.grants - a.undos <= RequestCap.Cap(row, initial, a.horizon)
  {
    RequestCap.InvImpliesCap(a, initial);
  }

  lemma RunStaysWithinCap(w: World, steps: seq<Step>, initial: map<string, int>, key: string)
    requires Opening(w, initial) && Runs(w, steps) && key in w.counters
    requires w.counters[key].row.Configured() ==> w.counters[key].row.refillInterval.value.length > 0
    ensures key in After(w, steps).counters
    ensures
      var a := After(w, steps).counters[key];
      a.grants - a.undos <= RequestCap.Cap(w.counters[key].row, initial[key], a.horizon)
  {
    var a := w.counters[key];
    OpeningCounter(w, initial, key);
    UnusedIsSound(a, initial[key]);
    RunKeepsSound(w, steps, key, initial[key]);
    SoundStaysWithinCap(After(w, steps).counters[key], a.row, initial[key]);
  }

  lemma OpeningCounter(w: World, initial: map<string, int>, key: string)
    requires Opening(w, initial) && key in w.counters
    ensures key in initial && RC.Unused(w.counters[key], initial[key])
  {
  }

  /** End to end: the requests and tool calls let through on a unit of counter `key`, and the units lost
      with a reply, over every interleaving of requests, refills and failures, never outnumber its cap. */
  lemma AdmittedRequestsWithinCap(w: World, steps: seq<Step>, initial: map<string, int>, key: string)
    requires Opening(w, initial) && Runs(w, steps) && key in w.counters
    requires w.counters[key].row.Configured() ==> w.counters[key].row.refillInterval.value.length > 0
    ensures key in After(w, steps).counters
    ensures
      var v := After(w, steps);
      |AdmittedCharges(v.requests, key)| + v.tools[key] + v.leaked[key]
        <= RequestCap.Cap(w.counters[key].row, initial[key], v.counters[key].horizon)
  {
    RunStaysWithinCap(w, steps, initial, key);
    OpeningIsConserved(w, initial);
    RunConserves(w, steps);
    var v := After(w, steps);
    assert Balanced(v, key);
    SubsetCardinality(AdmittedCharges(v.requests, key), Charges(v.requests, key));
  }

  lemma UnusedIsSound(a: RC.Account, initial: int)
    requires RC.Unused(a, initial)
    requires a.row.Configured() ==> a.row.refillInterval.value.length > 0
    ensures Sound(a, initial)
  {
    assert RC.Winners(a.attempts) == {};
  }
}
