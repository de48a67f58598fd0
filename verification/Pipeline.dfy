/** Field pipelines: stages applied left to right to one value. */
module Pipeline {
  import opened Prelude
  import opened Json
  import opened Attributes
  import opened Policy
  import opened Host
  import Predicates

  datatype FieldOutcome = Pass | Replace(value: Value) | Omit | Reject(reason: Reason, stageIndex: nat)

  /** A pipeline's result, with the history after its plugin calls. */
  datatype Evaluation = Evaluation(outcome: FieldOutcome, taints: seq<TaintEvent>, history: History)

  /** The pipeline between two stages. */
  datatype Progress = Progress(current: Value, replaced: bool, taints: seq<TaintEvent>, history: History)

  datatype StageResult =
    | Next(progress: Progress)
    | Dropped(progress: Progress)
    | Failed(reason: Reason, progress: Progress)

  const REDACTED: Value := Str("[REDACTED]")

  predicate IsHexDigit(c: char) { '0' <= c <= '9' || 'a' <= c <= 'f' || 'A' <= c <= 'F' }

  predicate IsUuidShape(s: string) {
    && |s| == 36
    && forall i :: 0 <= i < 36 ==> if i in {8, 13, 18, 23} then s[i] == '-' else IsHexDigit(s[i])
  }

  predicate TypeMatches(check: TypeCheck, v: Value) {
    match check
    case IsStr => v.Str?
    case IsInt => v.Num? && v.number.Integer? && IsI64(v.number.n)
    case IsBool => v.Bool?
    case IsFloat => v.Num? && (v.number.Floating? || IsI64(v.number.n))
    case IsEmail => v.Str? && '@' in v.s && '.' in v.s
    case IsUrl => v.Str? && ("http://" <= v.s || "https://" <= v.s)
    case IsUuid => v.Str? && IsUuidShape(v.s)
  }

  /** All but the last `keep` characters starred out. */
  function Mask(s: string, keepLast: nat): (masked: string)
    ensures |masked| == |s|
  {
    var keep := if keepLast < |s| then keepLast else |s|;
    seq(|s| - keep, _ => '*') + s[|s| - keep..]
  }

  function ScanLabel(kind: ScanKind): string {
    match kind case PiiDetect => "PII" case PiiRedact => "PII" case InjectionScan => "injection"
  }

  predicate Outside(n: int, lo: Option<int>, hi: Option<int>) {
    (lo.Some? && n < lo.value) || (hi.Some? && n > hi.value)
  }

  function AsInt(n: Option<nat>): Option<int> { if n.None? then None else Some(n.value) }

  /** One stage on the current value. */
  function RunStage(env: Env, bag: Bag, field: string, phase: DispatchPhase, stage: Stage, p: Progress): StageResult {
    var reject := Failed(Described(StageRejected(stage)), p);
    match stage
    case TypeStage(check) => if TypeMatches(check, p.current) then Next(p) else reject
    case LengthStage(lo, hi) =>
      if p.current.Str? && !Outside(|p.current.s|, AsInt(lo), AsInt(hi)) then Next(p) else reject
    case RangeStage(min, max) =>
      if p.current.Num? && p.current.number.Integer? && IsI64(p.current.number.n) && !Outside(p.current.number.n, min, max)
      then Next(p) else reject
    case EnumStage(values) => if p.current.Str? && p.current.s in values then Next(p) else reject
    case RegexStage(pattern) =>
      var re := env.regex(pattern);
      if re.Some? && p.current.Str? && re.value(p.current.s) then Next(p) else reject
    case ValidateStage(_) => reject
    case MaskStage(keepLast) =>
      if p.current.Str? then Next(p.(current := Str(Mask(p.current.s, keepLast)), replaced := true)) else reject
    case RedactStage(condition) =>
      if condition.None? || Predicates.Eval(env.f64, condition.value, bag) then Next(p.(current := REDACTED, replaced := true))
      else Next(p)
    case OmitStage => Dropped(p)
    case HashStage => Next(p.(current := Str("hash:" + env.hash(p.current)), replaced := true))
    case TaintStage(event) => Next(p.(taints := p.taints + [event]))
    case PluginStage(name) =>
      var call := FieldCall(field, p.current, phase);
      var reply := env.plugin(p.history, name, bag, call);
      var after := p.(history := p.history + [PluginCalled(name, call, reply)]);
      if reply.Err? then Failed(Described(PluginError(name)), after)
      else
        var seen := after.(taints := after.taints + reply.value.taints);
        (match reply.value.decision
         case Allowed =>
           if reply.value.modifiedValue.Some? then Next(seen.(current := reply.value.modifiedValue.value, replaced := true))
           else Next(seen)
         case Denied(reason, _) => Failed(reason.GetOr(Described(PluginError(name))), seen))
    case ScanStage(kind) =>
      var seen := p.(taints := p.taints + [TaintEvent(ScanLabel(kind), [Session])]);
      if kind.PiiRedact? then Next(seen.(current := REDACTED, replaced := true)) else Next(seen)
  }

  function Finish(p: Progress): Evaluation {
    Evaluation(if p.replaced then Replace(p.current) else Pass, p.taints, p.history)
  }

  /** The stages from index `at` on, from the progress made before them. */
  function RunStages(env: Env, bag: Bag, field: string, phase: DispatchPhase, stages: seq<Stage>, at: nat, p: Progress): Evaluation
    requires at <= |stages|
    decreases |stages| - at
  {
    if at == |stages| then Finish(p)
    else
      match RunStage(env, bag, field, phase, stages[at], p)
      case Next(q) => RunStages(env, bag, field, phase, stages, at + 1, q)
      case Dropped(q) => Evaluation(Omit, q.taints, q.history)
      case Failed(reason, q) => Evaluation(Reject(reason, at), q.taints, q.history)
  }

  function Start(value: Value, history: History): Progress {
    Progress(value, false, [], history)
  }

  function EvaluatePipeline(
    env: Env, bag: Bag, field: string, phase: DispatchPhase, stages: seq<Stage>, value: Value, history: History): Evaluation
  {
    RunStages(env, bag, field, phase, stages, 0, Start(value, history))
  }

  /** The stage loop. */
  method RunPipeline(
    env: Env, bag: Bag, field: string, phase: DispatchPhase, stages: seq<Stage>, value: Value, history: History)
    returns (evaluation: Evaluation)
    ensures evaluation == EvaluatePipeline(env, bag, field, phase, stages, value, history)
  {
    var current := value;
    var replaced := false;
    var taints: seq<TaintEvent> := [];
    var calls := history;
    for at := 0 to |stages|
      invariant RunStages(env, bag, field, phase, stages, at, Progress(current, replaced, taints, calls))
             == EvaluatePipeline(env, bag, field, phase, stages, value, history)
    {
      match RunStage(env, bag, field, phase, stages[at], Progress(current, replaced, taints, calls)) {
        case Next(q) => current, replaced, taints, calls := q.current, q.replaced, q.taints, q.history;
        case Dropped(q) => return Evaluation(Omit, q.taints, q.history);
        case Failed(reason, q) => return Evaluation(Reject(reason, at), q.taints, q.history);
      }
    }
    return Evaluation(if replaced then Replace(current) else Pass, taints, calls);
  }

  // ---- Composition.

  /** Progress with its past forgotten: the same value and history, nothing replaced or tainted yet. */
  function Reset(p: Progress): Progress {
    Start(p.current, p.history)
  }

  /** Later progress `q`, made from `Reset(p)`, with the past of `p` put back. */
  function After(p: Progress, q: Progress): Progress {
    Progress(q.current, p.replaced || q.replaced, p.taints + q.taints, q.history)
  }

  function StageAfter(p: Progress, r: StageResult): StageResult {
    match r
    case Next(q) => Next(After(p, q))
    case Dropped(q) => Dropped(After(p, q))
    case Failed(reason, q) => Failed(reason, After(p, q))
  }

  function EvaluationAfter(p: Progress, e: Evaluation): Evaluation {
    Evaluation(if e.outcome.Pass? && p.replaced then Replace(p.current) else e.outcome, p.taints + e.taints, e.history)
  }

  /** A stage looks at the value and the history only. */
  lemma StageIgnoresPast(env: Env, bag: Bag, field: string, phase: DispatchPhase, stage: Stage, p: Progress)
    ensures var fromStart := RunStage(env, bag, field, phase, stage, Reset(p));
            && RunStage(env, bag, field, phase, stage, p) == StageAfter(p, fromStart)
            && (fromStart.progress.replaced || fromStart.progress.current == p.current)
  {
    var r := RunStage(env, bag, field, phase, stage, Reset(p));
    assert p.taints + [] == p.taints;
    if stage.PluginStage? {
      var reply := env.plugin(p.history, stage.name, bag, FieldCall(field, p.current, phase));
      if reply.Ok? {
        assert [] + reply.value.taints == reply.value.taints;
      }
    }
  }

  lemma EvaluationAfterTwice(p: Progress, q: Progress, e: Evaluation)
    requires q.replaced || q.current == p.current
    ensures EvaluationAfter(After(p, q), e) == EvaluationAfter(p, EvaluationAfter(q, e))
  {
    assert p.taints + q.taints + e.taints == p.taints + (q.taints + e.taints);
  }

  /** Carrying on from some progress is starting afresh there, with the past put back. */
  lemma {:induction false} ResumeFrom(
    env: Env, bag: Bag, field: string, phase: DispatchPhase, stages: seq<Stage>, at: nat, p: Progress)
    requires at <= |stages|
    ensures RunStages(env, bag, field, phase, stages, at, p)
         == EvaluationAfter(p, RunStages(env, bag, field, phase, stages, at, Reset(p)))
    decreases |stages| - at
  {
    if at == |stages| {
      assert p.taints + [] == p.taints;
    } else {
      StageIgnoresPast(env, bag, field, phase, stages[at], p);
      var r := RunStage(env, bag, field, phase, stages[at], Reset(p));
      if r.Next? {
        var q := r.progress;
        ResumeFrom(env, bag, field, phase, stages, at + 1, After(p, q));
        ResumeFrom(env, bag, field, phase, stages, at + 1, q);
        EvaluationAfterTwice(p, q, RunStages(env, bag, field, phase, stages, at + 1, Reset(q)));
      }
    }
  }

  /** The second of two chained pipelines, run on what the first one left. */
  function Chain(
    env: Env, bag: Bag, field: string, phase: DispatchPhase,
    value: Value, first: Evaluation, offset: nat, second: seq<Stage>): Evaluation
  {
    match first.outcome
    case Omit => first
    case Reject(_, _) => first
    case _ =>
      var carried := if first.outcome.Replace? then first.outcome.value else value;
      var next := EvaluatePipeline(env, bag, field, phase, second, carried, first.history);
      var outcome :=
        match next.outcome
        case Pass => first.outcome
        case Reject(reason, i) => Reject(reason, offset + i)
        case other => other;
      Evaluation(outcome, first.taints + next.taints, next.history)
  }

  /** Deny positions counted `offset` further on. */
  function Shift(e: Evaluation, offset: nat): Evaluation {
    if e.outcome.Reject? then e.(outcome := Reject(e.outcome.reason, offset + e.outcome.stageIndex)) else e
  }

  /** The stages of `second` run alike behind any prefix, deny positions shifted by its length. */
  lemma {:induction false} RunShifted(
    env: Env, bag: Bag, field: string, phase: DispatchPhase, first: seq<Stage>, second: seq<Stage>, at: nat, p: Progress)
    requires at <= |second|
    ensures RunStages(env, bag, field, phase, first + second, |first| + at, p)
         == Shift(RunStages(env, bag, field, phase, second, at, p), |first|)
    decreases |second| - at
  {
    if at < |second| {
      assert (first + second)[|first| + at] == second[at];
      var r := RunStage(env, bag, field, phase, second[at], p);
      if r.Next? {
        RunShifted(env, bag, field, phase, first, second, at + 1, r.progress);
      }
    }
  }

  /** The stages of `first` from `at` on, then those of `second`. */
  lemma {:induction false} RunThrough(
    env: Env, bag: Bag, field: string, phase: DispatchPhase, first: seq<Stage>, second: seq<Stage>, at: nat, p: Progress)
    returns (end: Progress)
    requires at <= |first|
    ensures var whole := RunStages(env, bag, field, phase, first + second, at, p);
            var part := RunStages(env, bag, field, phase, first, at, p);
            if part.outcome.Omit? || part.outcome.Reject? then whole == part
            else part == Finish(end) && whole == RunStages(env, bag, field, phase, first + second, |first|, end)
                 && (end.replaced || (!p.replaced && end.current == p.current))
    decreases |first| - at
  {
    if at == |first| {
      end := p;
    } else {
      assert (first + second)[at] == first[at];
      StageIgnoresPast(env, bag, field, phase, first[at], p);
      var r := RunStage(env, bag, field, phase, first[at], p);
      if r.Next? {
        end := RunThrough(env, bag, field, phase, first, second, at + 1, r.progress);
      } else {
        end := p;
      }
    }
  }

  /**
   * Pipelines compose: the stages of two chains run as one are the second chain run on the first
   * one's output, with taints concatenated and deny positions shifted; an omit or a deny in the
   * first is the result.
   */
  lemma PipelinesCompose(
    env: Env, bag: Bag, field: string, phase: DispatchPhase, first: seq<Stage>, second: seq<Stage>, value: Value, history: History)
    ensures EvaluatePipeline(env, bag, field, phase, first + second, value, history)
         == Chain(env, bag, field, phase, value, EvaluatePipeline(env, bag, field, phase, first, value, history), |first|, second)
  {
    var end := RunThrough(env, bag, field, phase, first, second, 0, Start(value, history));
    var part := EvaluatePipeline(env, bag, field, phase, first, value, history);
    if !part.outcome.Omit? && !part.outcome.Reject? {
      RunShifted(env, bag, field, phase, first, second, 0, end);
      ResumeFrom(env, bag, field, phase, second, 0, end);
    }
  }
}
