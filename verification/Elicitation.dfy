/** Asking a human and waiting across retries: who is asked once, and what lets a request through. */
module Elicitation {
  import opened Prelude
  import opened Attributes
  import opened Policy
  import opened Host
  import opened Evaluator
  import opened EffectInvariants
  import opened Purity
  import opened ParallelBlocks
  import opened Route
  import Parser
  import Predicates

  // ---- The handler's reply.

  datatype StatusKind = PendingStatus | ResolvedStatus | ExpiredStatus
  datatype OutcomeKind = ApprovedOutcome | DeniedOutcome

  /** What a channel plugin fills in; every slot may be left empty. */
  datatype HandlerReply = HandlerReply(
    status: Option<StatusKind>, outcome: Option<OutcomeKind>, valid: Option<bool>,
    approver: Option<string>, intentId: Option<string>)

  /** `check`: an empty status is still pending, a resolution without an outcome is a no. */
  function CheckStatus(reply: HandlerReply): (status: ElicitationStatus)
    ensures status == Resolved(true) <==> reply.status == Some(ResolvedStatus) && reply.outcome == Some(ApprovedOutcome)
    ensures status == StillPending <==> reply.status.None? || reply.status == Some(PendingStatus)
    ensures status == Expired <==> reply.status == Some(ExpiredStatus)
  {
    match reply.status
    case Some(PendingStatus) => StillPending
    case None => StillPending
    case Some(ExpiredStatus) => Expired
    case Some(ResolvedStatus) =>
      (match reply.outcome
       case Some(ApprovedOutcome) => Resolved(true)
       case Some(DeniedOutcome) => Resolved(false)
       case None => Resolved(false))
  }

  /** `validate`: an empty verdict is not valid. */
  function Verdict(reply: HandlerReply): (validation: ElicitationValidation)
    ensures validation.valid <==> reply.valid == Some(true)
  {
    ElicitationValidation(reply.valid.GetOr(false), reply.approver, reply.intentId)
  }

  /** Channel plugins behind the invoker, as functions of all that happened. */
  datatype Handlers = Handlers(
    check: (History, ElicitStep, string) -> Result<HandlerReply, HostError>,
    validate: (History, ElicitStep, string) -> Result<HandlerReply, HostError>)

  ghost predicate BackedBy(env: Env, handlers: Handlers) {
    && (forall h, step, id :: env.check(h, step, id) ==
          match handlers.check(h, step, id) case Ok(reply) => Ok(CheckStatus(reply)) case Err(e) => Err(e))
    && (forall h, step, id :: env.validate(h, step, id) ==
          match handlers.validate(h, step, id) case Ok(reply) => Ok(Verdict(reply)) case Err(e) => Err(e))
  }

  // ---- Getting past one step.

  predicate ScopeHolds(env: Env, step: ElicitStep, bag: Bag) {
    step.scope.None? || (var parsed := Parser.ParsePredicate(step.scope.value); parsed.Ok? && Predicates.Eval(env.f64, parsed.value, bag))
  }

  /** The id a step works with, and the state once it has one: carried in, or freshly dispatched. */
  function Identified(env: Env, step: ElicitStep, s: State): Option<(string, State)> {
    var from := GetString(s.bag, step.from);
    var id := GetString(s.bag, ID);
    if from.None? && LooksLikeAttributeRef(step.from) then None
    else if id.Some? then Some((id.value, s))
    else
      var reply := env.dispatch(s.history, step, from.GetOr(step.from));
      if reply.Err? then None
      else
        Some((reply.value.id,
              s.(history := s.history + [ElicitDispatched(step, from.GetOr(step.from), reply)],
                 bag := Dispatched(s.bag, step, reply.value))))
  }

  /** The handler replied resolved, approved and valid, and the scope held on the bag of this pass. */
  predicate Satisfied(env: Env, handlers: Handlers, step: ElicitStep, id: string, s: State) {
    var checked := handlers.check(s.history, step, id);
    var h := s.history + [ElicitChecked(step, id, env.check(s.history, step, id))];
    var validated := handlers.validate(h, step, id);
    && checked.Ok? && checked.value.status == Some(ResolvedStatus) && checked.value.outcome == Some(ApprovedOutcome)
    && validated.Ok? && validated.value.valid == Some(true)
    && ScopeHolds(env, step, s.bag)
  }

  lemma CheckPassesExactly(env: Env, handlers: Handlers, step: ElicitStep, id: string, s: State)
    requires BackedBy(env, handlers) && !ContinuesOnError(step.onError)
    ensures CheckElicitation(env, step, id, s).outcome.Continue? <==> Satisfied(env, handlers, step, id, s)
  {
    var checked := handlers.check(s.history, step, id);
    var h := s.history + [ElicitChecked(step, id, env.check(s.history, step, id))];
    var validated := handlers.validate(h, step, id);
    assert env.validate(h, step, id).Ok? <==> validated.Ok?;
    assert ScopeFailure(env, step, s.bag).None? <==> ScopeHolds(env, step, s.bag);
  }

  /** A step that does not continue on error is passed exactly when it has an id and its approval is satisfied. */
  lemma StrictStepPassesExactly(env: Env, handlers: Handlers, step: ElicitStep, s: State)
    requires BackedBy(env, handlers) && !ContinuesOnError(step.onError)
    ensures var known := Identified(env, step, s);
            RunElicit(env, step, s).outcome.Continue? <==>
              known.Some? && Satisfied(env, handlers, step, known.value.0, known.value.1)
  {
    var known := Identified(env, step, s);
    if known.Some? {
      CheckPassesExactly(env, handlers, step, known.value.0, known.value.1);
    }
  }

  /** A human's no stops the request even where failures continue. */
  lemma DenialAlwaysHalts(env: Env, step: ElicitStep, s: State)
    ensures var known := Identified(env, step, s);
            known.Some? && env.check(known.value.1.history, step, known.value.0) == Ok(Resolved(false))
            ==> RunElicit(env, step, s).outcome == Halt(Denied(Some(Described(ElicitationDenied)), step.source))
  {
  }

  /** The word that makes a step continue on error, in any case of its letters. */
  lemma ContinueWord(onError: Option<string>)
    ensures ContinuesOnError(onError) <==>
              && onError.Some? && |onError.value| == 8
              && forall i :: 0 <= i < 8 ==> onError.value[i] == "continue"[i] || onError.value[i] == "CONTINUE"[i]
  {
    assert forall i :: 0 <= i < 8 ==> "continue"[i] as int - 'a' as int == "CONTINUE"[i] as int - 'A' as int;
  }

  /** A step that continues on error stops the request exactly on a human's no, and suspends it exactly while waiting. */
  lemma LenientStepExactly(env: Env, step: ElicitStep, s: State)
    ensures var known, w := Identified(env, step, s), RunElicit(env, step, s);
            && (w.outcome.Pending? <==>
                  known.Some? && env.check(known.value.1.history, step, known.value.0) == Ok(StillPending))
            && (ContinuesOnError(step.onError) ==>
                  (w.outcome.Halt? <==>
                     known.Some? && env.check(known.value.1.history, step, known.value.0) == Ok(Resolved(false))))
  {
  }

  // ---- What later rules and the caller are told.

  /** A text fact after an update: the new one when there is one, else the one before. */
  function Updated(bag: Bag, key: string, text: Option<string>): Option<string> {
    if text.Some? then text else GetString(bag, key)
  }

  lemma FactKeysApart()
    ensures STATUS != OUTCOME && STATUS != APPROVER && STATUS != INTENT_ID && STATUS != EXPIRES_AT && STATUS != CHANNEL && STATUS != ID
    ensures OUTCOME != APPROVER && OUTCOME != INTENT_ID && APPROVER != INTENT_ID
    ensures APPROVER != EXPIRES_AT && INTENT_ID != EXPIRES_AT && CHANNEL != APPROVER && CHANNEL != INTENT_ID && CHANNEL != EXPIRES_AT
    ensures ID != APPROVER && ID != INTENT_ID && ID != EXPIRES_AT && ID != CHANNEL
  {
    assert ID[12] == 'i' && STATUS[12] == 's' && APPROVER[12] == 'a' && OUTCOME[12] == 'o' && INTENT_ID[12] == 'i' && CHANNEL[12] == 'c'
           && EXPIRES_AT[12] == 'e' && |ID| == 14;
  }

  /** What a validated approval writes, on any four keys. */
  lemma FourReads(
    bag: Bag, a: string, x: string, b: string, y: string, c: string, z: Option<string>, d: string, w: Option<string>, key: string)
    requires a != b && a != c && a != d && b != c && b != d && c != d
    ensures var t := SetText(SetText(bag[a := AString(x)][b := AString(y)], c, z), d, w);
            && GetString(t, a) == Some(x) && GetString(t, b) == Some(y)
            && GetString(t, c) == Updated(bag, c, z) && GetString(t, d) == Updated(bag, d, w)
            && (key != a && key != b && key != c && key != d ==> Get(t, key) == Get(bag, key))
  {
  }

  /** What a dispatch writes, on any six keys. */
  lemma SixReads(
    bag: Bag, a: string, x: string, b: string, y: string, c: string, z: Option<string>, d: string, w: Option<string>,
    e: string, u: Option<string>, f: string, v: Option<string>)
    requires a != d && a != e && a != f && b != d && b != e && b != f && c != d && c != e && c != f && d != e && d != f && e != f
    requires a != b && a != c
    ensures var t := SetText(SetText(SetText(SetText(bag[a := AString(x)][b := AString(y)], c, z), d, w), e, u), f, v);
            && GetString(t, a) == Some(x)
            && GetString(t, d) == Updated(bag, d, w) && GetString(t, e) == Updated(bag, e, u) && GetString(t, f) == Updated(bag, f, v)
  {
  }

  /** The facts of a check that does not resolve in an approval. */
  predicate UnapprovedFacts(before: Bag, after: Bag, status: string, outcome: Option<string>, key: string) {
    && GetString(after, STATUS) == Some(status) && GetString(after, OUTCOME) == Updated(before, OUTCOME, outcome)
    && (key != STATUS && key != OUTCOME ==> Get(after, key) == Get(before, key))
  }

  /** The status and outcome a rule behind the step reads, by the reply; no other fact changes. */
  lemma UnapprovedExactly(env: Env, step: ElicitStep, id: string, s: State, key: string)
    ensures var after := CheckElicitation(env, step, id, s).state.bag;
            match env.check(s.history, step, id)
            case Err(_) => after == s.bag
            case Ok(StillPending) => UnapprovedFacts(s.bag, after, "pending", None, key)
            case Ok(Expired) => UnapprovedFacts(s.bag, after, "expired", None, key)
            case Ok(Resolved(false)) => UnapprovedFacts(s.bag, after, "resolved", Some("denied"), key)
            case Ok(Resolved(true)) => true
  {
    FactKeysApart();
  }

  /** An approval that is genuine and within scope is told with who gave it; one that is not leaves no trace. */
  lemma ApprovedExactly(env: Env, step: ElicitStep, id: string, s: State, key: string)
    requires env.check(s.history, step, id) == Ok(Resolved(true))
    ensures var verdict := env.validate(s.history + [ElicitChecked(step, id, Ok(Resolved(true)))], step, id);
            var after := CheckElicitation(env, step, id, s).state.bag;
            if verdict.Ok? && verdict.value.valid && ScopeHolds(env, step, s.bag) then
              && GetString(after, STATUS) == Some("resolved") && GetString(after, OUTCOME) == Some("approved")
              && GetString(after, APPROVER) == Updated(s.bag, APPROVER, verdict.value.approver)
              && GetString(after, INTENT_ID) == Updated(s.bag, INTENT_ID, verdict.value.intentId)
              && (key != STATUS && key != OUTCOME && key != APPROVER && key != INTENT_ID ==> Get(after, key) == Get(s.bag, key))
            else after == s.bag
  {
    FactKeysApart();
    var verdict := env.validate(s.history + [ElicitChecked(step, id, Ok(Resolved(true)))], step, id);
    assert ScopeFailure(env, step, s.bag).None? <==> ScopeHolds(env, step, s.bag);
    if verdict.Ok? {
      FourReads(s.bag, STATUS, "resolved", OUTCOME, "approved", APPROVER, verdict.value.approver, INTENT_ID, verdict.value.intentId, key);
    }
  }

  /** The condition a policy writes as `path == "text"`, on a path without groups. */
  predicate PolicyReads(env: Env, bag: Bag, path: string, text: string) {
    Predicates.Eval(env.f64, Cond(Comparison(path, CompareOp.Eq, LString(text))), bag)
  }

  lemma ReadsText(env: Env, bag: Bag, path: string, text: string)
    requires '[' !in path
    ensures PolicyReads(env, bag, path, text) <==> GetString(bag, path) == Some(text)
  {
    assert Expand(bag, path) == Some(path);
  }

  lemma OutcomeExactly(env: Env, step: ElicitStep, id: string, s: State)
    requires GetString(s.bag, OUTCOME).None? && !ContinuesOnError(step.onError)
    ensures var w := CheckElicitation(env, step, id, s);
            && (GetString(w.state.bag, OUTCOME) == Some("approved") <==> w.outcome.Continue?)
            && (w.outcome.Continue? ==> GetString(w.state.bag, STATUS) == Some("resolved"))
  {
    var checked := env.check(s.history, step, id);
    assert "approved"[0] == 'a' && "denied"[0] == 'd';
    if checked == Ok(Resolved(true)) {
      ApprovedExactly(env, step, id, s, "");
      assert ScopeFailure(env, step, s.bag).None? <==> ScopeHolds(env, step, s.bag);
    } else {
      UnapprovedExactly(env, step, id, s, "");
    }
  }

  /** A rule that tests the outcome by its name sees an approval exactly where a strict step was passed on one. */
  lemma PolicyReadsApproval(env: Env, step: ElicitStep, id: string, s: State)
    requires GetString(s.bag, "elicitation.outcome").None? && !ContinuesOnError(step.onError)
    ensures var w := CheckElicitation(env, step, id, s);
            && (PolicyReads(env, w.state.bag, "elicitation.outcome", "approved") <==> w.outcome.Continue?)
            && (w.outcome.Continue? ==> PolicyReads(env, w.state.bag, "elicitation.status", "resolved"))
  {
    var bag := CheckElicitation(env, step, id, s).state.bag;
    ReadsText(env, bag, "elicitation.outcome", "approved");
    ReadsText(env, bag, "elicitation.status", "resolved");
    OutcomeExactly(env, step, id, s);
  }

  /** A suspended check hands out the facts as the bag holds them. */
  lemma BundleReadsBag(env: Env, step: ElicitStep, id: string, s: State)
    requires CheckElicitation(env, step, id, s).outcome.Pending?
    ensures CheckElicitation(env, step, id, s).outcome.pending == PendingElicitation(
              id, step.pluginName, GetString(s.bag, APPROVER), GetString(s.bag, INTENT_ID),
              step.channel, GetString(s.bag, EXPIRES_AT), step.source)
    ensures CheckElicitation(env, step, id, s).state.bag == s.bag[STATUS := AString("pending")]
  {
    FactKeysApart();
  }

  /** What a dispatch tells is what the step works with from then on. */
  lemma DispatchReads(bag: Bag, step: ElicitStep, d: ElicitationDispatch)
    ensures var after := Dispatched(bag, step, d);
            && GetString(after, ID) == Some(d.id) && GetString(after, APPROVER) == Updated(bag, APPROVER, d.approver)
            && GetString(after, INTENT_ID) == Updated(bag, INTENT_ID, d.intentId)
            && GetString(after, EXPIRES_AT) == Updated(bag, EXPIRES_AT, d.expiresAt)
  {
    FactKeysApart();
    SixReads(bag, ID, d.id, STATUS, "pending", CHANNEL, step.channel, APPROVER, d.approver, INTENT_ID, d.intentId, EXPIRES_AT, d.expiresAt);
  }

  /** The bundle a first suspension hands the caller: what the dispatch returned, else what the bag already held. */
  lemma BundleTellsDispatch(env: Env, step: ElicitStep, s: State)
    requires GetString(s.bag, ID).None? && RunElicit(env, step, s).outcome.Pending?
    ensures var to := GetString(s.bag, step.from).GetOr(step.from);
            var reply := env.dispatch(s.history, step, to);
            && reply.Ok?
            && RunElicit(env, step, s).outcome.pending == PendingElicitation(
                 reply.value.id, step.pluginName,
                 Updated(s.bag, APPROVER, reply.value.approver), Updated(s.bag, INTENT_ID, reply.value.intentId),
                 step.channel, Updated(s.bag, EXPIRES_AT, reply.value.expiresAt), step.source)
  {
    var known := Identified(env, step, s);
    var to := GetString(s.bag, step.from).GetOr(step.from);
    DispatchReads(s.bag, step, env.dispatch(s.history, step, to).value);
    BundleReadsBag(env, step, known.value.0, known.value.1);
  }

  /** A step that suspends does so at the check of an id the bag holds. */
  lemma SuspendsAtCheck(env: Env, step: ElicitStep, s: State) returns (id: string, u: State)
    requires RunElicit(env, step, s).outcome.Pending?
    ensures RunElicit(env, step, s) == CheckElicitation(env, step, id, u)
    ensures GetString(u.bag, ID) == Some(id)
    ensures GetString(s.bag, ID).Some? ==> u == s
  {
    var known := Identified(env, step, s);
    id, u := known.value.0, known.value.1;
    if GetString(s.bag, ID).None? {
      DispatchReads(s.bag, step, env.dispatch(s.history, step, GetString(s.bag, step.from).GetOr(step.from)).value);
    }
  }

  lemma StatusWriteReads(bag: Bag)
    ensures var after := bag[STATUS := AString("pending")];
            && GetString(after, ID) == GetString(bag, ID) && GetString(after, APPROVER) == GetString(bag, APPROVER)
            && GetString(after, INTENT_ID) == GetString(bag, INTENT_ID) && GetString(after, EXPIRES_AT) == GetString(bag, EXPIRES_AT)
            && after[STATUS := AString("pending")] == after
  {
    FactKeysApart();
  }

  /** A retry that still waits hands out the same bundle again and changes no fact. */
  lemma BundleRepeats(env: Env, later: Env, step: ElicitStep, s: State, t: State)
    requires RunElicit(env, step, s).outcome.Pending? && t.bag == RunElicit(env, step, s).state.bag
    requires RunElicit(later, step, t).outcome.Pending?
    ensures RunElicit(later, step, t).outcome == RunElicit(env, step, s).outcome
    ensures RunElicit(later, step, t).state.bag == t.bag
  {
    var id, u := SuspendsAtCheck(env, step, s);
    var again, v := SuspendsAtCheck(later, step, t);
    BundleReadsBag(env, step, id, u);
    BundleReadsBag(later, step, again, v);
    StatusWriteReads(u.bag);
  }

  // ---- The id through a walk.

  predicate DispatchSucceeded(event: Event) { event.ElicitDispatched? && event.dispatchReply.Ok? }

  /** How many dispatches succeeded. */
  function Successes(h: History): nat {
    if h == [] then 0 else Successes(h[..|h| - 1]) + if DispatchSucceeded(h[|h| - 1]) then 1 else 0
  }

  predicate NoDispatchSince(earlier: History, later: History) {
    earlier <= later && forall k :: |earlier| <= k < |later| ==> !later[k].ElicitDispatched?
  }

  lemma {:induction false} NoDispatchNoSuccess(earlier: History, later: History)
    requires NoDispatchSince(earlier, later)
    ensures Successes(later) == Successes(earlier)
    decreases |later|
  {
    if |later| > |earlier| {
      NoDispatchNoSuccess(earlier, later[..|later| - 1]);
    } else {
      assert later == earlier;
    }
  }

  lemma CountOne(h: History, event: Event)
    ensures Successes(h + [event]) == Successes(h) + if DispatchSucceeded(event) then 1 else 0
  {
    assert (h + [event])[..|h|] == h;
  }

  /** A known id stays and nothing is dispatched; without one, it appears with the one successful dispatch. */
  predicate KeepsId(s: State, t: State) {
    var before, after := GetString(s.bag, ID), GetString(t.bag, ID);
    && s.history <= t.history
    && if before.Some? then after == before && NoDispatchSince(s.history, t.history)
       else Successes(t.history) == Successes(s.history) + if after.Some? then 1 else 0
  }

  lemma KeepsIdTransitive(s: State, t: State, u: State)
    requires KeepsId(s, t) && KeepsId(t, u)
    ensures KeepsId(s, u)
  {
    if GetString(s.bag, ID).None? && GetString(t.bag, ID).Some? {
      NoDispatchNoSuccess(t.history, u.history);
    }
  }

  lemma QuietKeepsId(s: State, t: State)
    requires QuietSince(s.history, t.history) && GetString(t.bag, ID) == GetString(s.bag, ID)
    ensures KeepsId(s, t)
  {
    NoDispatchNoSuccess(s.history, t.history);
  }

  /** A suspended walk carries the id its bag holds, and the status check was the last exchange. */
  predicate Suspended(w: Walked) {
    w.outcome.Pending? ==>
      var h := w.state.history;
      && GetString(w.state.bag, ID) == Some(w.outcome.pending.id)
      && h != [] && h[|h| - 1].ElicitChecked? && h[|h| - 1].id == w.outcome.pending.id
      && h[|h| - 1].checkReply == Ok(StillPending)
  }

  lemma DelegateKeepsId(env: Env, step: DelegateStep, s: State)
    ensures KeepsId(s, RunDelegate(env, step, s).state)
  {
    QuietKeepsId(s, RunDelegate(env, step, s).state);
  }

  lemma ValidateKeepsId(env: Env, step: ElicitStep, id: string, s: State)
    ensures var t := ValidateElicitation(env, step, id, s).state;
            && NoDispatchSince(s.history, t.history) && GetString(t.bag, ID) == GetString(s.bag, ID)
  {
  }

  lemma CheckKeepsId(env: Env, step: ElicitStep, id: string, s: State)
    requires GetString(s.bag, ID) == Some(id)
    ensures KeepsId(s, CheckElicitation(env, step, id, s).state)
    ensures Suspended(CheckElicitation(env, step, id, s))
  {
    var reply := env.check(s.history, step, id);
    ValidateKeepsId(env, step, id, s.(history := s.history + [ElicitChecked(step, id, reply)]));
  }

  lemma ElicitKeepsId(env: Env, step: ElicitStep, s: State)
    ensures KeepsId(s, RunElicit(env, step, s).state)
    ensures Suspended(RunElicit(env, step, s))
  {
    var id := GetString(s.bag, ID);
    var from := GetString(s.bag, step.from).GetOr(step.from);
    var reply := env.dispatch(s.history, step, from);
    var event := ElicitDispatched(step, from, reply);
    var seen := s.(history := s.history + [event]);
    CountOne(s.history, event);
    if id.Some? {
      CheckKeepsId(env, step, id.value, s);
    } else if reply.Ok? {
      var dispatched := seen.(bag := Dispatched(seen.bag, step, reply.value));
      DispatchReads(seen.bag, step, reply.value);
      CheckKeepsId(env, step, reply.value.id, dispatched);
      KeepsIdTransitive(s, dispatched, CheckElicitation(env, step, reply.value.id, dispatched).state);
    }
  }

  /** Every status check of a strict step, from position `from` on, came back approved and was followed by a valid verdict. */
  predicate Answered(from: nat, h: History) {
    forall k :: from <= k < |h| && h[k].ElicitChecked? && !ContinuesOnError(h[k].elicitation.onError) ==>
      && h[k].checkReply == Ok(Resolved(true))
      && k + 1 < |h| && VerdictFor(h[k + 1], h[k].elicitation, h[k].id)
  }

  predicate VerdictFor(event: Event, step: ElicitStep, id: string) {
    event.ElicitValidated? && event.elicitation == step && event.id == id && event.validateReply.Ok? && event.validateReply.value.valid
  }

  /** The two exchanges of a check that lets a strict step pass. */
  lemma CheckExchanges(env: Env, step: ElicitStep, id: string, s: State)
    requires CheckElicitation(env, step, id, s).outcome.Continue? && !ContinuesOnError(step.onError)
    ensures var checked := ElicitChecked(step, id, Ok(Resolved(true)));
            var verdict := env.validate(s.history + [checked], step, id);
            && verdict.Ok? && verdict.value.valid
            && CheckElicitation(env, step, id, s).state.history == s.history + [checked, ElicitValidated(step, id, verdict)]
  {
    assert env.check(s.history, step, id) == Ok(Resolved(true));
    var h := s.history + [ElicitChecked(step, id, Ok(Resolved(true)))];
    var verdict := ElicitValidated(step, id, env.validate(h, step, id));
    assert h + [verdict] == s.history + [ElicitChecked(step, id, Ok(Resolved(true))), verdict];
  }

  lemma AnsweredByTwo(from: nat, before: History, step: ElicitStep, id: string, verdict: Result<ElicitationValidation, HostError>)
    requires from <= |before| <= from + 1 && (|before| == from + 1 ==> before[from].ElicitDispatched?)
    requires verdict.Ok? && verdict.value.valid
    ensures Answered(from, before + [ElicitChecked(step, id, Ok(Resolved(true))), ElicitValidated(step, id, verdict)])
  {
  }

  lemma StepAnswered(env: Env, step: ElicitStep, s: State)
    requires RunElicit(env, step, s).outcome.Continue?
    ensures Answered(|s.history|, RunElicit(env, step, s).state.history)
  {
    if ContinuesOnError(step.onError) {
      LenientAnswered(env, step, s);
    } else {
      var known := Identified(env, step, s).value;
      CheckExchanges(env, step, known.0, known.1);
      var h := known.1.history + [ElicitChecked(step, known.0, Ok(Resolved(true)))];
      AnsweredByTwo(|s.history|, known.1.history, step, known.0, env.validate(h, step, known.0));
    }
  }

  /** A step that continues on error makes no claim about its own checks, and no others appear. */
  predicate OnlyOf(step: ElicitStep, from: nat, h: History) {
    forall k :: from <= k < |h| && h[k].ElicitChecked? ==> h[k].elicitation == step
  }

  lemma CheckOnlyOf(env: Env, step: ElicitStep, id: string, s: State)
    ensures OnlyOf(step, |s.history|, CheckElicitation(env, step, id, s).state.history)
  {
    ValidateKeepsId(env, step, id, s.(history := s.history + [ElicitChecked(step, id, env.check(s.history, step, id))]));
  }

  lemma LenientAnswered(env: Env, step: ElicitStep, s: State)
    requires ContinuesOnError(step.onError)
    ensures Answered(|s.history|, RunElicit(env, step, s).state.history)
  {
    var known := Identified(env, step, s);
    if known.Some? {
      CheckOnlyOf(env, step, known.value.0, known.value.1);
      assert OnlyOf(step, |s.history|, RunElicit(env, step, s).state.history);
    }
  }

  /** What a walk keeps of all this. */
  predicate Disciplined(s: State, w: Walked) {
    KeepsId(s, w.state) && Suspended(w) && (w.outcome.Continue? ==> Answered(|s.history|, w.state.history))
  }

  lemma DisciplinedTwice(s: State, first: Walked, second: Walked)
    requires Disciplined(s, first) && first.outcome.Continue? && Disciplined(first.state, second)
    ensures Disciplined(s, second)
  {
    KeepsIdTransitive(s, first.state, second.state);
    var h, h' := first.state.history, second.state.history;
    if second.outcome.Continue? {
      forall k | |s.history| <= k < |h'| && h'[k].ElicitChecked? && !ContinuesOnError(h'[k].elicitation.onError)
        ensures h'[k].checkReply == Ok(Resolved(true)) && k + 1 < |h'| && VerdictFor(h'[k + 1], h'[k].elicitation, h'[k].id)
      {
        if k < |h| {
          assert h'[k] == h[k];
          assert h'[k + 1] == h[k + 1];
        }
      }
    }
  }

  lemma QuietIsDisciplined(s: State, w: Walked)
    requires QuietSince(s.history, w.state.history) && GetString(w.state.bag, ID) == GetString(s.bag, ID) && !w.outcome.Pending?
    ensures Disciplined(s, w)
  {
    QuietKeepsId(s, w.state);
  }

  lemma AfterQuiet(s: State, quiet: State, w: Walked)
    requires QuietSince(s.history, quiet.history) && quiet.bag == s.bag && Disciplined(quiet, w)
    ensures Disciplined(s, w)
  {
    QuietIsDisciplined(s, Walked(Continue, quiet));
    DisciplinedTwice(s, Walked(Continue, quiet), w);
  }

  // ---- Effects that mutate nothing make no elicitation exchange.

  lemma {:induction false} QuietWithoutMutation(env: Env, e: Effect, source: string, phase: DispatchPhase, s: State)
    requires !ContainsMutation(e)
    ensures QuietSince(s.history, Dispatch(env, e, source, phase, s).state.history)
    decreases e, 1
  {
    match e
    case Sequential(es) => AllQuiet(env, es, source, phase, s);
    case Parallel(es) => BlockQuiet(env, es, source, phase, s);
    case When(_, body, ruleSource) => AllQuiet(env, body, ruleSource, phase, s);
    case Pdp(call, onAllow, onDeny) =>
      var seen := s.(history := s.history + [PdpCalled(call, env.pdp(s.history, call, s.bag))]);
      AllQuiet(env, onAllow, source, phase, seen);
      AllQuiet(env, onDeny, source, phase, seen);
    case Plugin(_) =>
    case Restrict(_) =>
    case Taint(_) =>
    case Allow =>
    case Deny(_, _) =>
  }

  lemma {:induction false} AllQuiet(env: Env, es: seq<Effect>, source: string, phase: DispatchPhase, s: State)
    requires !SomeContains(es)
    ensures QuietSince(s.history, DispatchAll(env, es, source, phase, s).state.history)
    decreases es, 0
  {
    if es != [] {
      QuietWithoutMutation(env, es[0], source, phase, s);
      var first := Dispatch(env, es[0], source, phase, s);
      if first.outcome.Continue? {
        RestWithout(es);
        AllQuiet(env, es[1..], source, phase, first.state);
      }
    }
  }

  predicate Quiet(log: History) { forall k :: 0 <= k < |log| ==> !IsElicitEvent(log[k]) }

  lemma {:induction false} BlockQuiet(env: Env, es: seq<Effect>, source: string, phase: DispatchPhase, s: State)
    requires !SomeContains(es)
    ensures QuietSince(s.history, Dispatch(env, Parallel(es), source, phase, s).state.history)
    decreases es, 0
  {
    var branches := Branches(env, es, source, phase, s);
    forall i | 0 <= i < |es| ensures Quiet(Log(s, branches[i])) {
      QuietWithoutMutation(env, es[i], source, phase, BranchStart(s, i));
    }
    GatheredQuiet(env, s, branches, |branches|);
  }

  lemma {:induction false} GatheredQuiet(env: Env, s: State, branches: seq<Walked>, upTo: nat)
    requires upTo <= |branches| && forall i :: 0 <= i < |branches| ==> Quiet(Log(s, branches[i]))
    ensures Quiet(AllHappened(env, s, branches, upTo))
  {
    if upTo > 0 {
      GatheredQuiet(env, s, branches, upTo - 1);
      assert Quiet(Log(s, branches[upTo - 1]));
      assert Quiet(Happened(env, s, branches, upTo - 1));
    }
  }

  // ---- Checked trees.

  lemma ElicitIsDisciplined(env: Env, step: ElicitStep, s: State)
    ensures Disciplined(s, RunElicit(env, step, s))
  {
    ElicitKeepsId(env, step, s);
    if RunElicit(env, step, s).outcome.Continue? {
      StepAnswered(env, step, s);
    }
  }

  lemma {:induction false} BlockIsDisciplined(env: Env, es: seq<Effect>, source: string, phase: DispatchPhase, s: State)
    requires Pure(Parallel(es))
    ensures Disciplined(s, Dispatch(env, Parallel(es), source, phase, s))
  {
    BlockHasNoMutation(es);
    BlockQuiet(env, es, source, phase, s);
    BlockDeniesExactly(env, es, source, phase, s);
    QuietIsDisciplined(s, Dispatch(env, Parallel(es), source, phase, s));
  }

  lemma {:induction false} EffectIsDisciplined(env: Env, e: Effect, source: string, phase: DispatchPhase, s: State)
    requires Pure(e)
    ensures Disciplined(s, Dispatch(env, e, source, phase, s))
    decreases e, 1
  {
    PureByChildren(e);
    match e
    case Delegate(step) => DelegateKeepsId(env, step, s);
    case Elicit(step) => ElicitIsDisciplined(env, step, s);
    case FieldOp(path, stages) =>
      FieldOpFollows(env, path, stages, source, phase, s);
      QuietIsDisciplined(s, RunFieldOp(env, path, stages, source, phase, s));
    case Sequential(es) => ListIsDisciplined(env, es, source, phase, s);
    case Parallel(es) => BlockIsDisciplined(env, es, source, phase, s);
    case When(condition, body, ruleSource) =>
      QuietIsDisciplined(s, Walked(Continue, s));
      ListIsDisciplined(env, body, ruleSource, phase, s);
    case Pdp(call, onAllow, onDeny) => PdpIsDisciplined(env, e, source, phase, s);
    case _ =>
      QuietWithoutMutation(env, e, source, phase, s);
      WithoutMutation(env, e, source, phase, s);
      QuietIsDisciplined(s, Dispatch(env, e, source, phase, s));
  }

  lemma {:induction false} PdpIsDisciplined(env: Env, e: Effect, source: string, phase: DispatchPhase, s: State)
    requires e.Pdp? && Pure(e)
    ensures Disciplined(s, Dispatch(env, e, source, phase, s))
    decreases e, 0
  {
    EachPure(e.onAllow);
    EachPure(e.onDeny);
    var reply := env.pdp(s.history, e.call, s.bag);
    var seen := s.(history := s.history + [PdpCalled(e.call, reply)]);
    ListIsDisciplined(env, e.onAllow, source, phase, seen);
    ListIsDisciplined(env, e.onDeny, source, phase, seen);
    AfterQuiet(s, seen, DispatchAll(env, e.onAllow, source, phase, seen));
    AfterQuiet(s, seen, DispatchAll(env, e.onDeny, source, phase, seen));
    if reply.Err? {
      QuietIsDisciplined(s, Dispatch(env, e, source, phase, s));
    }
  }

  /**
   * Over any checked effects: a known id is kept and never dispatched again, at most one dispatch
   * succeeds, a suspension carries the id and nothing follows it, and going on means every strict
   * elicitation on the way was answered yes and found valid.
   */
  lemma {:induction false} ListIsDisciplined(env: Env, es: seq<Effect>, source: string, phase: DispatchPhase, s: State)
    requires AllPure(es)
    ensures Disciplined(s, DispatchAll(env, es, source, phase, s))
    decreases es, 0
  {
    if es == [] {
      QuietIsDisciplined(s, Walked(Continue, s));
    } else {
      assert AllPure(es[1..]) by {
        assert forall i :: 0 <= i < |es| - 1 ==> es[1..][i] == es[i + 1];
      }
      EffectIsDisciplined(env, es[0], source, phase, s);
      var first := Dispatch(env, es[0], source, phase, s);
      if first.outcome.Continue? {
        ListIsDisciplined(env, es[1..], source, phase, first.state);
        DisciplinedTwice(s, first, DispatchAll(env, es[1..], source, phase, first.state));
      }
    }
  }

  predicate CheckedRoute(route: CompiledRoute) { AllPure(route.policy) && AllPure(route.postPolicy) }

  /** The same over a whole route. */
  lemma RouteIsDisciplined(env: Env, route: CompiledRoute, s: State)
    requires CheckedRoute(route)
    ensures Disciplined(s, RouteWalk(env, route, s))
  {
    RulesFollow(env, route.args, Pre, ArgsSide, s);
    var ruled := RunRules(env, route.args, Pre, ArgsSide, s);
    QuietIsDisciplined(s, ruled);
    if ruled.outcome.Continue? {
      ListIsDisciplined(env, route.policy, "", Pre, ruled.state);
      DisciplinedTwice(s, ruled, PreWalk(env, route, s));
    }
    var pre := PreWalk(env, route, s);
    if pre.outcome.Continue? {
      PostIsDisciplined(env, route, pre.state);
      DisciplinedTwice(s, pre, PostWalk(env, route, pre.state));
    }
  }

  lemma PostIsDisciplined(env: Env, route: CompiledRoute, s: State)
    requires CheckedRoute(route)
    ensures Disciplined(s, PostWalk(env, route, s))
  {
    var ruled := Walked(Continue, s);
    if s.payload.result.Some? {
      RulesFollow(env, route.result, Post, ResultSide, s);
      ruled := RunRules(env, route.result, Post, ResultSide, s);
    }
    QuietIsDisciplined(s, ruled);
    if ruled.outcome.Continue? {
      ListIsDisciplined(env, route.postPolicy, "", Post, ruled.state);
      DisciplinedTwice(s, ruled, PostWalk(env, route, s));
    }
  }

  // ---- Retries.

  /** One arrival of a request: the host as it is then, and what the request carries. */
  datatype Pass = Pass(env: Env, route: CompiledRoute, bag: Bag, payload: Payload)

  function Walk(pass: Pass): Walked {
    RouteWalk(pass.env, pass.route, Fresh(pass.bag, pass.payload, []))
  }

  /** Each pass but the last suspended, and the next one carries the id it was given. */
  predicate Retries(passes: seq<Pass>) {
    && (forall k :: 0 <= k < |passes| ==> CheckedRoute(passes[k].route))
    && forall k :: 0 <= k < |passes| - 1 ==>
         Walk(passes[k]).outcome.Pending? && GetString(passes[k + 1].bag, ID) == Some(Walk(passes[k]).outcome.pending.id)
  }

  function TotalSuccesses(passes: seq<Pass>): nat {
    if passes == [] then 0
    else TotalSuccesses(passes[..|passes| - 1]) + Successes(Walk(passes[|passes| - 1]).state.history)
  }

  /** A pass that arrives with an id dispatches nothing, and if it suspends it is for the same id. */
  lemma ArrivingWithId(pass: Pass, id: string)
    requires CheckedRoute(pass.route) && GetString(pass.bag, ID) == Some(id)
    ensures forall k :: 0 <= k < |Walk(pass).state.history| ==> !Walk(pass).state.history[k].ElicitDispatched?
    ensures Successes(Walk(pass).state.history) == 0
    ensures Walk(pass).outcome.Pending? ==> Walk(pass).outcome.pending.id == id
  {
    var s := Fresh(pass.bag, pass.payload, []);
    RouteIsDisciplined(pass.env, pass.route, s);
    NoDispatchNoSuccess([], Walk(pass).state.history);
  }

  /** Over any run of retries the human is asked at most once, whatever the hosts do. */
  lemma {:induction false} AskedAtMostOnce(passes: seq<Pass>)
    requires Retries(passes)
    ensures TotalSuccesses(passes) <= 1
  {
    if |passes| == 1 {
      var s := Fresh(passes[0].bag, passes[0].payload, []);
      RouteIsDisciplined(passes[0].env, passes[0].route, s);
      assert passes[..0] == [];
      NoIdNoSuccess(s, Walk(passes[0]).state);
    } else if |passes| > 1 {
      var n := |passes| - 1;
      var init := passes[..n];
      assert forall k :: 0 <= k < n ==> init[k] == passes[k];
      AskedAtMostOnce(init);
      LaterPass(passes, n);
    }
  }

  /** Every later pass dispatches nothing and can only suspend for the id of the first. */
  lemma {:induction false} LaterPass(passes: seq<Pass>, k: nat)
    requires Retries(passes) && 1 <= k < |passes|
    ensures Successes(Walk(passes[k]).state.history) == 0
    ensures forall j :: 0 <= j < |Walk(passes[k]).state.history| ==> !Walk(passes[k]).state.history[j].ElicitDispatched?
    ensures Walk(passes[0]).outcome.Pending?
    ensures Walk(passes[k]).outcome.Pending? ==> Walk(passes[k]).outcome.pending.id == Walk(passes[0]).outcome.pending.id
  {
    var before := Walk(passes[k - 1]);
    assert before.outcome.Pending? && GetString(passes[k - 1 + 1].bag, ID) == Some(before.outcome.pending.id);
    ArrivingWithId(passes[k], before.outcome.pending.id);
    if k > 1 {
      LaterPass(passes, k - 1);
    }
  }

  lemma NoIdNoSuccess(s: State, t: State)
    requires KeepsId(s, t) && s.history == []
    ensures Successes(t.history) <= 1
  {
    if GetString(s.bag, ID).Some? {
      NoDispatchNoSuccess(s.history, t.history);
    }
  }

  /** A suspended route run did nothing after the status check that suspended it, and never reached the post phases from the pre ones. */
  lemma SuspensionStopsTheRun(env: Env, route: CompiledRoute, s: State)
    requires CheckedRoute(route) && RouteWalk(env, route, s).outcome.Pending?
    ensures var w := RouteWalk(env, route, s);
            var h := w.state.history;
            && h != [] && h[|h| - 1].ElicitChecked? && h[|h| - 1].id == w.outcome.pending.id && h[|h| - 1].checkReply == Ok(StillPending)
            && GetString(w.state.bag, ID) == Some(w.outcome.pending.id)
            && (PreWalk(env, route, s).outcome.Pending? ==> w == PreWalk(env, route, s))
            && Report(w).decision == Allowed && Report(w).pending == Some(w.outcome.pending)
  {
    RouteIsDisciplined(env, route, s);
  }
}
