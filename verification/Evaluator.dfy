/** Walking an effect tree: what each effect does to the request's state, and when the walk stops. */
module Evaluator {
  import opened Prelude
  import opened Json
  import opened Attributes
  import opened Policy
  import opened Host
  import opened DottedPath
  import Branching = RunBranches
  import Constraint
  import Predicates
  import Pipeline
  import Parser

  datatype Payload = Payload(args: Value, result: Option<Value>)

  /** Everything an effect may change, and all exchanges with the host so far. */
  datatype State = State(
    bag: Bag,
    payload: Payload,
    taints: seq<TaintEvent>,
    constraints: seq<Constraint.CandidateConstraint>,
    argsModified: bool,
    resultModified: bool,
    history: History)

  datatype PendingElicitation = PendingElicitation(
    id: string,
    pluginName: string,
    approver: Option<string>,
    intentId: Option<string>,
    channel: Option<string>,
    expiresAt: Option<string>,
    source: string)

  datatype Outcome = Continue | Halt(decision: Decision) | Pending(pending: PendingElicitation)

  datatype Walked = Walked(outcome: Outcome, state: State)

  function Refuse(reason: Failure, source: string): Outcome {
    Halt(Denied(Some(Described(reason)), source))
  }

  // ---- Field operations.

  datatype Side = ArgsSide | ResultSide

  function Root(p: Payload, side: Side): Value
    requires side.ResultSide? ==> p.result.Some?
  {
    if side.ArgsSide? then p.args else p.result.value
  }

  function WithRoot(p: Payload, side: Side, root: Value): Payload {
    if side.ArgsSide? then p.(args := root) else p.(result := Some(root))
  }

  function MarkModified(s: State, side: Side): State {
    if side.ArgsSide? then s.(argsModified := true) else s.(resultModified := true)
  }

  /** A landed edit changes the tree and raises the side's flag. */
  function EditField(s: State, side: Side, segs: seq<string>, edit: Edit): State
    requires segs != [] && (side.ResultSide? ==> s.payload.result.Some?)
  {
    var root := Root(s.payload, side);
    if Lands(root, segs, edit) then
      MarkModified(s.(payload := WithRoot(s.payload, side, Apply(root, segs, edit))), side)
    else s
  }

  /** A pipeline on one field of one side; a missing field is left alone. */
  function RunOnField(env: Env, field: string, stages: seq<Stage>, source: string, phase: DispatchPhase, side: Side, s: State): Walked
    requires side.ResultSide? ==> s.payload.result.Some?
  {
    var segs := Segments(field);
    var current := Look(Root(s.payload, side), segs);
    if current.None? then Walked(Continue, s)
    else
      var eval := Pipeline.EvaluatePipeline(env, s.bag, field, phase, stages, current.value, s.history);
      var seen := s.(taints := s.taints + eval.taints, history := eval.history);
      match eval.outcome
      case Pass => Walked(Continue, seen)
      case Replace(v) => Walked(Continue, EditField(seen, side, segs, Set(v)))
      case Omit => Walked(Continue, EditField(seen, side, segs, Remove))
      case Reject(reason, _) => Walked(Halt(Denied(Some(reason), source)), seen)
  }

  /** A `FieldOp` effect: silent outside its own phase. */
  function RunFieldOp(env: Env, path: string, stages: seq<Stage>, source: string, phase: DispatchPhase, s: State): Walked {
    if "args." <= path then
      if phase.Pre? then RunOnField(env, path[5..], stages, source, phase, ArgsSide, s) else Walked(Continue, s)
    else if "result." <= path then
      if phase.Post? && s.payload.result.Some? then RunOnField(env, path[7..], stages, source, phase, ResultSide, s)
      else Walked(Continue, s)
    else Walked(Refuse(NotAField(path), source), s)
  }

  // ---- Delegation and elicitation.

  function AsciiLower(c: char): char {
    if 'A' <= c <= 'Z' then 'a' + (c - 'A') else c
  }

  predicate ContinuesOnError(onError: Option<string>) {
    && onError.Some? && |onError.value| == 8
    && forall i :: 0 <= i < 8 ==> AsciiLower(onError.value[i]) == "continue"[i]
  }

  function SetText(bag: Bag, key: string, text: Option<string>): Bag {
    if text.None? then bag else bag[key := AString(text.value)]
  }

  function Granted(bag: Bag, outcome: DelegationOutcome): Bag {
    var b1 := bag["delegation.granted" := ABool(true)];
    var b2 := if outcome.permissions == [] then b1
              else b1["delegation.granted.permissions" := AStringSet(set p | p in outcome.permissions)];
    SetText(SetText(b2, "delegation.granted.audience", outcome.audience), "delegation.granted.expires_at", outcome.expiresAt)
  }

  function RunDelegate(env: Env, step: DelegateStep, s: State): Walked {
    var reply := env.delegate(s.history, step);
    var seen := s.(history := s.history + [Delegated(step, reply)]);
    if reply.Ok? && reply.value.decision.Allowed? then Walked(Continue, seen.(bag := Granted(seen.bag, reply.value)))
    else if ContinuesOnError(step.onError) then Walked(Continue, seen)
    else if reply.Ok? then Walked(Halt(reply.value.decision), seen)
    else Walked(Refuse(DelegateError(step.pluginName), step.source), seen)
  }

  const ID := "elicitation.id"
  const STATUS := "elicitation.status"
  const APPROVER := "elicitation.approver"
  const OUTCOME := "elicitation.outcome"
  const INTENT_ID := "elicitation.intent_id"
  const CHANNEL := "elicitation.channel"
  const EXPIRES_AT := "elicitation.expires_at"

  predicate IsAsciiAlpha(c: char) { 'a' <= c <= 'z' || 'A' <= c <= 'Z' }
  predicate IsAsciiDigit(c: char) { '0' <= c <= '9' }

  predicate LooksLikeAttributeRef(s: string) {
    && '.' in s && IsAsciiAlpha(s[0])
    && forall c :: c in s ==> IsAsciiAlpha(c) || IsAsciiDigit(c) || c == '_' || c == '.'
  }

  /** A failure, as opposed to a human's no: the step's `on_error` decides. */
  function FailElicitation(step: ElicitStep, reason: Failure, s: State): Walked {
    Walked(if ContinuesOnError(step.onError) then Continue else Refuse(reason, step.source), s)
  }

  function Dispatched(bag: Bag, step: ElicitStep, d: ElicitationDispatch): Bag {
    var b1 := bag[ID := AString(d.id)][STATUS := AString("pending")];
    var b2 := SetText(SetText(b1, CHANNEL, step.channel), APPROVER, d.approver);
    SetText(SetText(b2, INTENT_ID, d.intentId), EXPIRES_AT, d.expiresAt)
  }

  /** First arrival dispatches; a retry carries the id in the bag and goes straight to the check. */
  function RunElicit(env: Env, step: ElicitStep, s: State): Walked {
    var from := GetString(s.bag, step.from);
    if from.None? && LooksLikeAttributeRef(step.from) then FailElicitation(step, FromUnresolved(step.from), s)
    else
      var id := GetString(s.bag, ID);
      if id.Some? then CheckElicitation(env, step, id.value, s)
      else
        var resolved := from.GetOr(step.from);
        var reply := env.dispatch(s.history, step, resolved);
        var seen := s.(history := s.history + [ElicitDispatched(step, resolved, reply)]);
        if reply.Err? then FailElicitation(step, DispatchFailed, seen)
        else CheckElicitation(env, step, reply.value.id, seen.(bag := Dispatched(seen.bag, step, reply.value)))
  }

  function CheckElicitation(env: Env, step: ElicitStep, id: string, s: State): Walked {
    var reply := env.check(s.history, step, id);
    var seen := s.(history := s.history + [ElicitChecked(step, id, reply)]);
    if reply.Err? then FailElicitation(step, CheckFailed, seen)
    else
      match reply.value
      case StillPending =>
        var bag := seen.bag[STATUS := AString("pending")];
        Walked(
          Pending(PendingElicitation(id, step.pluginName, GetString(bag, APPROVER), GetString(bag, INTENT_ID),
                                     step.channel, GetString(bag, EXPIRES_AT), step.source)),
          seen.(bag := bag))
      case Expired => FailElicitation(step, ElicitationExpired, seen.(bag := seen.bag[STATUS := AString("expired")]))
      case Resolved(false) =>
        Walked(Refuse(ElicitationDenied, step.source),
               seen.(bag := seen.bag[STATUS := AString("resolved")][OUTCOME := AString("denied")]))
      case Resolved(true) => ValidateElicitation(env, step, id, seen)
  }

  function ValidateElicitation(env: Env, step: ElicitStep, id: string, s: State): Walked {
    var reply := env.validate(s.history, step, id);
    var seen := s.(history := s.history + [ElicitValidated(step, id, reply)]);
    if reply.Err? then FailElicitation(step, ValidationFailed, seen)
    else if !reply.value.valid then FailElicitation(step, ResponseInvalid, seen)
    else
      var failure := ScopeFailure(env, step, seen.bag);
      if failure.Some? then FailElicitation(step, failure.value, seen)
      else
        var bag := seen.bag[STATUS := AString("resolved")][OUTCOME := AString("approved")];
        Walked(Continue, seen.(bag := SetText(SetText(bag, APPROVER, reply.value.approver), INTENT_ID, reply.value.intentId)))
  }

  /** Sufficiency: the step's scope must parse and hold on the live bag. */
  function ScopeFailure(env: Env, step: ElicitStep, bag: Bag): Option<Failure> {
    if step.scope.None? then None
    else
      var parsed := Parser.ParsePredicate(step.scope.value);
      if parsed.Err? then Some(ScopeUnparsable(step.scope.value))
      else if !Predicates.Eval(env.f64, parsed.value, bag) then Some(ScopeNotSatisfied(step.scope.value))
      else None
  }

  // ---- The walk.

  function DialectText(d: PdpDialect): string {
    match d
    case Cedar => "Cedar"
    case Opa => "Opa"
    case AuthZen => "AuthZen"
    case NeMo => "NeMo"
    case Cel => "Cel"
    case Custom(key) => "Custom(\"" + key + "\")"
  }

  function RunPlugin(env: Env, name: string, phase: DispatchPhase, s: State): Walked {
    var call := StepCall(phase);
    var reply := env.plugin(s.history, name, s.bag, call);
    var seen := s.(history := s.history + [PluginCalled(name, call, reply)]);
    if reply.Err? then Walked(Refuse(PluginError(name), "plugin:" + name), seen)
    else
      var tainted := seen.(taints := seen.taints + reply.value.taints);
      Walked(if reply.value.decision.Allowed? then Continue else Halt(reply.value.decision), tainted)
  }

  function RunRestrict(spec: Constraint.RestrictSpec, source: string, s: State): Walked {
    var resolved := Constraint.Resolve(spec, s.bag);
    if resolved.Err? then Walked(Refuse(RestrictUnresolved(resolved.error), source), s)
    else if resolved.value.IsEmpty() then Walked(Continue, s)
    else Walked(Continue, s.(constraints := s.constraints + [resolved.value]))
  }

  /** One effect. `source` names the rule a deny without its own code is attributed to. */
  function Dispatch(env: Env, e: Effect, source: string, phase: DispatchPhase, s: State): Walked
    decreases e, 1
  {
    match e
    case Allow => Walked(Continue, s)
    case Deny(reason, code) =>
      var why := if reason.None? then None else Some(Authored(reason.value));
      Walked(Halt(Denied(why, code.GetOr(source))), s)
    case Plugin(name) => RunPlugin(env, name, phase, s)
    case Delegate(step) => RunDelegate(env, step, s)
    case Elicit(step) => RunElicit(env, step, s)
    case Taint(event) => Walked(Continue, s.(taints := s.taints + [event]))
    case Restrict(spec) => RunRestrict(spec, source, s)
    case FieldOp(path, stages) => RunFieldOp(env, path, stages, source, phase, s)
    case Sequential(es) => DispatchAll(env, es, source, phase, s)
    case Parallel(es) => Gather(env, s, Branches(env, es, source, phase, s))
    case When(condition, body, ruleSource) =>
      if Predicates.Eval(env.f64, condition, s.bag) then DispatchAll(env, body, ruleSource, phase, s) else Walked(Continue, s)
    case Pdp(call, onAllow, onDeny) =>
      var reply := env.pdp(s.history, call, s.bag);
      var seen := s.(history := s.history + [PdpCalled(call, reply)]);
      if reply.Err? then Walked(Refuse(PdpError, "pdp:" + DialectText(call.dialect)), seen)
      else if reply.value.Allowed? then DispatchAll(env, onAllow, source, phase, seen)
      else
        var reacted := DispatchAll(env, onDeny, source, phase, seen);
        if reacted.outcome.Continue? then Walked(Halt(reply.value), reacted.state) else reacted
  }

  /** Effects in order, stopping at the first that does not continue. */
  function DispatchAll(env: Env, es: seq<Effect>, source: string, phase: DispatchPhase, s: State): Walked
    decreases es, 0
  {
    if es == [] then Walked(Continue, s)
    else
      var first := Dispatch(env, es[0], source, phase, s);
      if first.outcome.Continue? then DispatchAll(env, es[1..], source, phase, first.state) else first
  }

  // ---- Parallel branches.

  /** A branch starts on a copy of the bag and payload, with nothing gathered yet. */
  function BranchStart(s: State, index: nat): State {
    State(s.bag, s.payload, [], [], false, false, s.history + [BranchEntered(index)])
  }

  /** What each branch does when left to run alone. */
  function Branches(env: Env, es: seq<Effect>, source: string, phase: DispatchPhase, s: State): seq<Walked>
    decreases es, 0
  {
    seq(|es|, i requires 0 <= i < |es| => Dispatch(env, es[i], source, phase, BranchStart(s, i)))
  }

  predicate Halted(w: Walked) { w.outcome.Halt? }

  /** A branch the scheduler lets finish denies: from then on others may be aborted. */
  predicate AnyHalt(env: Env, s: State, branches: seq<Walked>) {
    exists i :: 0 <= i < |branches| && env.fate(s.history, i).Completes? && Halted(branches[i])
  }

  /** How branch `i` ends: without a deny to justify it, nothing is aborted. */
  function End(env: Env, s: State, branches: seq<Walked>, i: nat): Branching.BranchOutcome<Walked>
    requires i < |branches|
  {
    match env.fate(s.history, i)
    case Completes => Branching.Completed(branches[i])
    case AbortedAfter(_) => if AnyHalt(env, s, branches) then Branching.Aborted else Branching.Completed(branches[i])
    case PanicsAfter(_) => Branching.Panicked
  }

  function Ends(env: Env, s: State, branches: seq<Walked>): seq<Branching.BranchOutcome<Walked>> {
    seq(|branches|, i requires 0 <= i < |branches| => End(env, s, branches, i))
  }

  /** The exchanges a branch made since the block was entered. */
  function Log(s: State, branch: Walked): History {
    if s.history <= branch.state.history then branch.state.history[|s.history|..] else []
  }

  function Cut(log: History, calls: nat): History {
    if calls <= |log| then log[..calls] else log
  }

  /** The part of them that happened: a cut branch's first ones. */
  function Happened(env: Env, s: State, branches: seq<Walked>, i: nat): History
    requires i < |branches|
  {
    var log := Log(s, branches[i]);
    match env.fate(s.history, i)
    case Completes => log
    case AbortedAfter(calls) => if AnyHalt(env, s, branches) then Cut(log, calls) else log
    case PanicsAfter(calls) => Cut(log, calls)
  }

  function AllHappened(env: Env, s: State, branches: seq<Walked>, upTo: nat): History
    requires upTo <= |branches|
  {
    if upTo == 0 then [] else AllHappened(env, s, branches, upTo - 1) + Happened(env, s, branches, upTo - 1)
  }

  function JoinedTaints(ends: seq<Branching.BranchOutcome<Walked>>): seq<TaintEvent> {
    if ends == [] then []
    else JoinedTaints(ends[..|ends| - 1]) + (if ends[|ends| - 1].Completed? then ends[|ends| - 1].value.state.taints else [])
  }

  function JoinedConstraints(ends: seq<Branching.BranchOutcome<Walked>>): seq<Constraint.CandidateConstraint> {
    if ends == [] then []
    else
      JoinedConstraints(ends[..|ends| - 1])
      + (if ends[|ends| - 1].Completed? then ends[|ends| - 1].value.state.constraints else [])
  }

  /** The deny of the lowest-numbered branch that completed with one. */
  function FirstHalt(ends: seq<Branching.BranchOutcome<Walked>>): Option<Decision> {
    if ends == [] then None
    else
      var earlier := FirstHalt(ends[..|ends| - 1]);
      var last := ends[|ends| - 1];
      if earlier.Some? then earlier
      else if last.Completed? && Halted(last.value) then Some(last.value.outcome.decision)
      else None
  }

  /** The caller's state once the first `upTo` branches are gathered: only labels and constraints come back. */
  function GatheredState(env: Env, s: State, branches: seq<Walked>, ends: seq<Branching.BranchOutcome<Walked>>, upTo: nat): State
    requires upTo <= |branches| == |ends|
  {
    s.(taints := s.taints + JoinedTaints(ends[..upTo]),
       constraints := s.constraints + JoinedConstraints(ends[..upTo]),
       history := s.history + AllHappened(env, s, branches, upTo))
  }

  function Gather(env: Env, s: State, branches: seq<Walked>): Walked {
    var ends := Ends(env, s, branches);
    var halt := FirstHalt(ends);
    Walked(if halt.Some? then Halt(halt.value) else Continue, GatheredState(env, s, branches, ends, |branches|))
  }

  /** What gathering one more branch adds. */
  lemma {:induction false} GatherStep(env: Env, s: State, branches: seq<Walked>, ends: seq<Branching.BranchOutcome<Walked>>, i: nat)
    requires i < |branches| == |ends|
    ensures var before := GatheredState(env, s, branches, ends, i);
            var completed := ends[i].Completed?;
            GatheredState(env, s, branches, ends, i + 1) == before.(
              taints := if completed then before.taints + ends[i].value.state.taints else before.taints,
              constraints := if completed then before.constraints + ends[i].value.state.constraints else before.constraints,
              history := before.history + Happened(env, s, branches, i))
    ensures var earlier := FirstHalt(ends[..i]);
            FirstHalt(ends[..i + 1]) ==
              if earlier.None? && ends[i].Completed? && Halted(ends[i].value) then Some(ends[i].value.outcome.decision) else earlier
  {
    JoinStep(ends, i);
    JoinAfter(s.taints, JoinedTaints(ends[..i]), if ends[i].Completed? then ends[i].value.state.taints else []);
    JoinAfter(s.constraints, JoinedConstraints(ends[..i]), if ends[i].Completed? then ends[i].value.state.constraints else []);
    JoinAfter(s.history, AllHappened(env, s, branches, i), Happened(env, s, branches, i));
  }

  lemma {:induction false} JoinStep(ends: seq<Branching.BranchOutcome<Walked>>, i: nat)
    requires i < |ends|
    ensures JoinedTaints(ends[..i + 1]) == JoinedTaints(ends[..i]) + if ends[i].Completed? then ends[i].value.state.taints else []
    ensures JoinedConstraints(ends[..i + 1])
         == JoinedConstraints(ends[..i]) + if ends[i].Completed? then ends[i].value.state.constraints else []
    ensures var earlier := FirstHalt(ends[..i]);
            FirstHalt(ends[..i + 1]) ==
              if earlier.None? && ends[i].Completed? && Halted(ends[i].value) then Some(ends[i].value.outcome.decision) else earlier
  {
    assert ends[..i + 1][..i] == ends[..i] && ends[..i + 1][i] == ends[i];
  }

  lemma JoinAfter<T>(a: seq<T>, b: seq<T>, c: seq<T>)
    ensures a + (b + c) == a + b + c
    ensures a + b + [] == a + b
  {
  }

  /** The result of one phase. */
  datatype StepsEvaluation = StepsEvaluation(
    decision: Decision,
    taints: seq<TaintEvent>,
    constraints: seq<Constraint.CandidateConstraint>,
    argsModified: bool,
    resultModified: bool,
    pending: Option<PendingElicitation>)

  function Fresh(bag: Bag, payload: Payload, history: History): State {
    State(bag, payload, [], [], false, false, history)
  }

  /** A suspended phase reports no deny: it is its pending bundle that stops the request. */
  function Report(w: Walked): StepsEvaluation {
    StepsEvaluation(
      if w.outcome.Halt? then w.outcome.decision else Allowed,
      w.state.taints, w.state.constraints, w.state.argsModified, w.state.resultModified,
      if w.outcome.Pending? then Some(w.outcome.pending) else None)
  }

  // ---- The walk in place.

  /** The mutable state a walk is given. */
  class Walker {
    const env: Env
    var bag: Bag
    var payload: Payload
    var taints: seq<TaintEvent>
    var constraints: seq<Constraint.CandidateConstraint>
    var argsModified: bool
    var resultModified: bool
    var history: History

    function View(): State
      reads this
    {
      State(bag, payload, taints, constraints, argsModified, resultModified, history)
    }

    constructor (env: Env, s: State)
      ensures this.env == env && View() == s
    {
      this.env := env;
      bag, payload, taints, constraints := s.bag, s.payload, s.taints, s.constraints;
      argsModified, resultModified, history := s.argsModified, s.resultModified, s.history;
    }

    /** A pipeline on one field, its outcome written back into the payload. */
    method OnField(field: string, stages: seq<Stage>, source: string, phase: DispatchPhase, side: Side) returns (outcome: Outcome)
      requires side.ResultSide? ==> payload.result.Some?
      modifies this
      ensures Walked(outcome, View()) == RunOnField(env, field, stages, source, phase, side, old(View()))
    {
      var root := Root(payload, side);
      var current := GetDotted(root, field);
      if current.None? {
        return Continue;
      }
      var eval := Pipeline.RunPipeline(env, bag, field, phase, stages, current.value, history);
      taints := taints + eval.taints;
      history := eval.history;
      var cell := new Cell(root);
      var landed := false;
      match eval.outcome {
        case Pass =>
        case Replace(v) => landed := SetDotted(cell, field, v);
        case Omit => landed := RemoveDotted(cell, field);
        case Reject(reason, _) => return Halt(Denied(Some(reason), source));
      }
      if landed {
        payload := WithRoot(payload, side, cell.root);
        if side.ArgsSide? {
          argsModified := true;
        } else {
          resultModified := true;
        }
      }
      return Continue;
    }

    method DispatchFieldOp(path: string, stages: seq<Stage>, source: string, phase: DispatchPhase) returns (outcome: Outcome)
      modifies this
      ensures Walked(outcome, View()) == RunFieldOp(env, path, stages, source, phase, old(View()))
    {
      if "args." <= path {
        if !phase.Pre? {
          return Continue;
        }
        outcome := OnField(path[5..], stages, source, phase, ArgsSide);
      } else if "result." <= path {
        if !phase.Post? || payload.result.None? {
          return Continue;
        }
        outcome := OnField(path[7..], stages, source, phase, ResultSide);
      } else {
        return Refuse(NotAField(path), source);
      }
    }

    method DispatchDelegate(step: DelegateStep) returns (outcome: Outcome)
      modifies this
      ensures Walked(outcome, View()) == RunDelegate(env, step, old(View()))
    {
      var reply := env.delegate(history, step);
      history := history + [Delegated(step, reply)];
      match reply {
        case Ok(granted) =>
          if granted.decision.Allowed? {
            bag := bag["delegation.granted" := ABool(true)];
            if granted.permissions != [] {
              bag := bag["delegation.granted.permissions" := AStringSet(set p | p in granted.permissions)];
            }
            bag := SetText(bag, "delegation.granted.audience", granted.audience);
            bag := SetText(bag, "delegation.granted.expires_at", granted.expiresAt);
            return Continue;
          }
          return if ContinuesOnError(step.onError) then Continue else Halt(granted.decision);
        case Err(_) =>
          return if ContinuesOnError(step.onError) then Continue else Refuse(DelegateError(step.pluginName), step.source);
      }
    }

    method DispatchElicitation(step: ElicitStep) returns (outcome: Outcome)
      modifies this
      ensures Walked(outcome, View()) == RunElicit(env, step, old(View()))
    {
      var from := GetString(bag, step.from);
      if from.None? && LooksLikeAttributeRef(step.from) {
        return FailElicitation(step, FromUnresolved(step.from), View()).outcome;
      }
      var resolved := from.GetOr(step.from);
      var known := GetString(bag, ID);
      var id;
      if known.Some? {
        id := known.value;
      } else {
        var reply := env.dispatch(history, step, resolved);
        history := history + [ElicitDispatched(step, resolved, reply)];
        if reply.Err? {
          return FailElicitation(step, DispatchFailed, View()).outcome;
        }
        var d := reply.value;
        bag := bag[ID := AString(d.id)][STATUS := AString("pending")];
        bag := SetText(bag, CHANNEL, step.channel);
        bag := SetText(bag, APPROVER, d.approver);
        bag := SetText(bag, INTENT_ID, d.intentId);
        bag := SetText(bag, EXPIRES_AT, d.expiresAt);
        id := d.id;
      }
      outcome := FinishElicitation(step, id);
    }

    method FinishElicitation(step: ElicitStep, id: string) returns (outcome: Outcome)
      modifies this
      ensures Walked(outcome, View()) == CheckElicitation(env, step, id, old(View()))
    {
      var status := env.check(history, step, id);
      history := history + [ElicitChecked(step, id, status)];
      if status.Err? {
        return FailElicitation(step, CheckFailed, View()).outcome;
      }
      match status.value {
        case StillPending =>
          bag := bag[STATUS := AString("pending")];
          return Pending(PendingElicitation(id, step.pluginName, GetString(bag, APPROVER), GetString(bag, INTENT_ID),
                                            step.channel, GetString(bag, EXPIRES_AT), step.source));
        case Expired =>
          bag := bag[STATUS := AString("expired")];
          return FailElicitation(step, ElicitationExpired, View()).outcome;
        case Resolved(approved) =>
          if !approved {
            bag := bag[STATUS := AString("resolved")][OUTCOME := AString("denied")];
            return Refuse(ElicitationDenied, step.source);
          }
          var verdict := env.validate(history, step, id);
          history := history + [ElicitValidated(step, id, verdict)];
          if verdict.Err? {
            return FailElicitation(step, ValidationFailed, View()).outcome;
          }
          if !verdict.value.valid {
            return FailElicitation(step, ResponseInvalid, View()).outcome;
          }
          var failure := ScopeFailure(env, step, bag);
          if failure.Some? {
            return FailElicitation(step, failure.value, View()).outcome;
          }
          bag := bag[STATUS := AString("resolved")][OUTCOME := AString("approved")];
          bag := SetText(bag, APPROVER, verdict.value.approver);
          bag := SetText(bag, INTENT_ID, verdict.value.intentId);
          return Continue;
      }
    }

    method DispatchEffect(e: Effect, source: string, phase: DispatchPhase) returns (outcome: Outcome)
      modifies this
      ensures Walked(outcome, View()) == Dispatch(env, e, source, phase, old(View()))
      decreases e, 1
    {
      match e {
        case Allow => return Continue;
        case Deny(reason, code) =>
          var why := if reason.None? then None else Some(Authored(reason.value));
          return Halt(Denied(why, code.GetOr(source)));
        case Plugin(name) =>
          var reply := env.plugin(history, name, bag, StepCall(phase));
          history := history + [PluginCalled(name, StepCall(phase), reply)];
          if reply.Err? {
            return Refuse(PluginError(name), "plugin:" + name);
          }
          taints := taints + reply.value.taints;
          return if reply.value.decision.Allowed? then Continue else Halt(reply.value.decision);
        case Delegate(step) => outcome := DispatchDelegate(step);
        case Elicit(step) => outcome := DispatchElicitation(step);
        case Taint(event) =>
          taints := taints + [event];
          return Continue;
        case Restrict(spec) =>
          var resolved := Constraint.Resolve(spec, bag);
          if resolved.Err? {
            return Refuse(RestrictUnresolved(resolved.error), source);
          }
          if !resolved.value.IsEmpty() {
            constraints := constraints + [resolved.value];
          }
          return Continue;
        case FieldOp(path, stages) => outcome := DispatchFieldOp(path, stages, source, phase);
        case Sequential(es) => outcome := DispatchList(es, source, phase);
        case Parallel(es) => outcome := DispatchParallel(es, source, phase);
        case When(condition, body, ruleSource) =>
          if !Predicates.Eval(env.f64, condition, bag) {
            return Continue;
          }
          outcome := DispatchList(body, ruleSource, phase);
        case Pdp(call, onAllow, onDeny) =>
          var reply := env.pdp(history, call, bag);
          history := history + [PdpCalled(call, reply)];
          if reply.Err? {
            return Refuse(PdpError, "pdp:" + DialectText(call.dialect));
          }
          if reply.value.Allowed? {
            outcome := DispatchList(onAllow, source, phase);
          } else {
            outcome := DispatchList(onDeny, source, phase);
            if outcome.Continue? {
              return Halt(reply.value);
            }
          }
      }
    }

    method DispatchList(es: seq<Effect>, source: string, phase: DispatchPhase) returns (outcome: Outcome)
      modifies this
      ensures Walked(outcome, View()) == DispatchAll(env, es, source, phase, old(View()))
      decreases es, 0
    {
      for i := 0 to |es|
        invariant DispatchAll(env, es, source, phase, old(View())) == DispatchAll(env, es[i..], source, phase, View())
      {
        assert es[i..][1..] == es[i + 1..];
        var o := DispatchEffect(es[i], source, phase);
        if !o.Continue? {
          return o;
        }
      }
      return Continue;
    }

    /** Branches run on their own copies; the scheduler's choices decide which of them count. */
    method DispatchParallel(es: seq<Effect>, source: string, phase: DispatchPhase) returns (outcome: Outcome)
      modifies this
      ensures Walked(outcome, View()) == Gather(env, old(View()), Branches(env, es, source, phase, old(View())))
      decreases es, 0
    {
      ghost var s := View();
      ghost var all := Branches(env, es, source, phase, s);
      var branches: seq<Walked> := [];
      for i := 0 to |es|
        invariant View() == s
        invariant branches == all[..i]
      {
        var branch := new Walker(env, BranchStart(View(), i));
        var o := branch.DispatchEffect(es[i], source, phase);
        branches := branches + [Walked(o, branch.View())];
      }
      assert branches == all;
      outcome := JoinBranches(branches);
    }

    /** Aggregation in input order: gathered labels and constraints of completed branches, first deny by index. */
    method JoinBranches(branches: seq<Walked>) returns (outcome: Outcome)
      modifies this
      ensures Walked(outcome, View()) == Gather(env, old(View()), branches)
    {
      var s := View();
      var ends := Ends(env, s, branches);
      var halt: Option<Decision> := None;
      for i := 0 to |ends|
        invariant View() == GatheredState(env, s, branches, ends, i)
        invariant halt == FirstHalt(ends[..i])
      {
        GatherStep(env, s, branches, ends, i);
        history := history + Happened(env, s, branches, i);
        if ends[i].Completed? {
          taints := taints + ends[i].value.state.taints;
          constraints := constraints + ends[i].value.state.constraints;
          if halt.None? && Halted(ends[i].value) {
            halt := Some(ends[i].value.outcome.decision);
          }
        }
      }
      assert ends[..|ends|] == ends;
      return if halt.Some? then Halt(halt.value) else Continue;
    }

    /** One phase from a clean slate: each rule is its own effects' attribution. */
    method EvaluateEffects(es: seq<Effect>, phase: DispatchPhase) returns (evaluation: StepsEvaluation)
      modifies this
      ensures evaluation == Report(DispatchAll(env, es, "", phase, Fresh(old(bag), old(payload), old(history))))
      ensures View() == DispatchAll(env, es, "", phase, Fresh(old(bag), old(payload), old(history))).state
    {
      taints, constraints, argsModified, resultModified := [], [], false, false;
      ghost var start := View();
      var pending: Option<PendingElicitation> := None;
      for i := 0 to |es|
        invariant DispatchAll(env, es, "", phase, start) == DispatchAll(env, es[i..], "", phase, View())
      {
        assert es[i..][1..] == es[i + 1..];
        var fallback := if es[i].When? then es[i].source else "";
        var o := DispatchEffect(es[i], fallback, phase);
        match o {
          case Continue =>
          case Halt(decision) =>
            return StepsEvaluation(decision, taints, constraints, argsModified, resultModified, None);
          case Pending(bundle) =>
            return StepsEvaluation(Allowed, taints, constraints, argsModified, resultModified, Some(bundle));
        }
      }
      return StepsEvaluation(Allowed, taints, constraints, argsModified, resultModified, None);
    }
  }
}
