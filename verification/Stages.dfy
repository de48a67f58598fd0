/** What each pipeline stage does to a value, and what a chain lets through. */
module Stages {
  import opened Prelude
  import opened Json
  import opened Attributes
  import opened Policy
  import opened Host
  import opened Pipeline
  import Predicates

  /** The stages that look at the value and change nothing. */
  predicate IsCheck(stage: Stage) {
    stage.TypeStage? || stage.RegexStage? || stage.ValidateStage? || stage.LengthStage? || stage.RangeStage? || stage.EnumStage?
  }

  /** The values a type names. */
  ghost predicate HasType(check: TypeCheck, v: Value) {
    match check
    case IsStr => exists s :: v == Str(s)
    case IsInt => exists n :: v == Num(Integer(n)) && I64_MIN <= n <= I64_MAX
    case IsBool => v == Bool(true) || v == Bool(false)
    case IsFloat => (exists x :: v == Num(Floating(x))) || exists n :: v == Num(Integer(n)) && I64_MIN <= n <= I64_MAX
    case IsEmail => exists s :: v == Str(s) && '@' in s && '.' in s
    case IsUrl => exists rest :: v == Str("http://" + rest) || v == Str("https://" + rest)
    case IsUuid => exists s :: v == Str(s) && Hyphenated(s)
  }

  /** Five groups of hexadecimal digits of 8, 4, 4, 4 and 12 characters. */
  predicate Hyphenated(s: string) {
    && |s| == 36 && s[8] == s[13] == s[18] == s[23] == '-'
    && AllHex(s[..8]) && AllHex(s[9..13]) && AllHex(s[14..18]) && AllHex(s[19..23]) && AllHex(s[24..])
  }

  predicate AllHex(s: string) { forall i :: 0 <= i < |s| ==> s[i] in "0123456789abcdefABCDEF" }

  /** The values a checking stage lets past. */
  ghost predicate Meets(env: Env, stage: Stage, v: Value)
    requires IsCheck(stage)
  {
    match stage
    case TypeStage(check) => HasType(check, v)
    case LengthStage(lo, hi) => v.Str? && (lo.Some? ==> lo.value <= |v.s|) && (hi.Some? ==> |v.s| <= hi.value)
    case RangeStage(min, max) =>
      && HasType(IsInt, v) && (min.Some? ==> min.value <= v.number.n) && (max.Some? ==> v.number.n <= max.value)
    case EnumStage(values) => exists i :: 0 <= i < |values| && v == Str(values[i])
    case RegexStage(pattern) => v.Str? && env.regex(pattern).Some? && env.regex(pattern).value(v.s)
    case ValidateStage(_) => false
  }

  lemma HexDigits(c: char)
    ensures IsHexDigit(c) <==> c in "0123456789abcdefABCDEF"
  {
    var hex := "0123456789abcdefABCDEF";
    if '0' <= c <= '9' {
      assert hex[c as int - '0' as int] == c;
    } else if 'a' <= c <= 'f' {
      assert hex[10 + (c as int - 'a' as int)] == c;
    } else if 'A' <= c <= 'F' {
      assert hex[16 + (c as int - 'A' as int)] == c;
    }
  }

  lemma UuidShape(s: string)
    ensures IsUuidShape(s) <==> Hyphenated(s)
  {
    forall c ensures IsHexDigit(c) <==> c in "0123456789abcdefABCDEF" {
      HexDigits(c);
    }
    if Hyphenated(s) {
      forall i | 0 <= i < 36 ensures if i in {8, 13, 18, 23} then s[i] == '-' else IsHexDigit(s[i]) {
        if i < 8 { assert s[i] == s[..8][i]; }
        else if 8 < i < 13 { assert s[i] == s[9..13][i - 9]; }
        else if 13 < i < 18 { assert s[i] == s[14..18][i - 14]; }
        else if 18 < i < 23 { assert s[i] == s[19..23][i - 19]; }
        else if 23 < i { assert s[i] == s[24..][i - 24]; }
      }
    }
  }

  lemma TypesExactly(check: TypeCheck, v: Value)
    ensures TypeMatches(check, v) <==> HasType(check, v)
  {
    match check
    case IsUuid =>
      if v.Str? {
        UuidShape(v.s);
      }
    case IsUrl =>
      if TypeMatches(IsUrl, v) {
        var n := if "http://" <= v.s then 7 else 8;
        assert v.s == v.s[..n] + v.s[n..];
        assert v == Str((if n == 7 then "http://" else "https://") + v.s[n..]);
      }
    case _ =>
  }

  /** One stage by itself. */
  function Alone(env: Env, bag: Bag, field: string, phase: DispatchPhase, stage: Stage, v: Value, h: History): Evaluation {
    EvaluatePipeline(env, bag, field, phase, [stage], v, h)
  }

  lemma AloneIsOneStep(env: Env, bag: Bag, field: string, phase: DispatchPhase, stage: Stage, v: Value, h: History)
    ensures Alone(env, bag, field, phase, stage, v, h) ==
              match RunStage(env, bag, field, phase, stage, Start(v, h))
              case Next(q) => Finish(q)
              case Dropped(q) => Evaluation(Omit, q.taints, q.history)
              case Failed(reason, q) => Evaluation(Reject(reason, 0), q.taints, q.history)
  {
    var r := RunStage(env, bag, field, phase, stage, Start(v, h));
    assert r.Next? ==> RunStages(env, bag, field, phase, [stage], 1, r.progress) == Finish(r.progress);
  }

  /** A check passes exactly the values it is for and reports any other, and changes, labels and asks nothing. */
  lemma CheckExactly(env: Env, bag: Bag, field: string, phase: DispatchPhase, stage: Stage, v: Value, h: History)
    requires IsCheck(stage)
    ensures Alone(env, bag, field, phase, stage, v, h)
         == Evaluation(if Meets(env, stage, v) then Pass else Reject(Described(StageRejected(stage)), 0), [], h)
  {
    AloneIsOneStep(env, bag, field, phase, stage, v, h);
    match stage
    case TypeStage(check) => TypesExactly(check, v);
    case RangeStage(_, _) => TypesExactly(IsInt, v);
    case _ =>
  }

  /** A chain of checks passes exactly the values every one of them is for, and otherwise names the first that is not met. */
  lemma {:induction false} ChecksExactly(
    env: Env, bag: Bag, field: string, phase: DispatchPhase, stages: seq<Stage>, v: Value, h: History)
    requires forall i :: 0 <= i < |stages| ==> IsCheck(stages[i])
    ensures var e := EvaluatePipeline(env, bag, field, phase, stages, v, h);
            && e.taints == [] && e.history == h
            && (e.outcome == Pass <==> forall i :: 0 <= i < |stages| ==> Meets(env, stages[i], v))
            && (e.outcome != Pass ==>
                  exists k :: 0 <= k < |stages| && e.outcome == Reject(Described(StageRejected(stages[k])), k)
                              && !Meets(env, stages[k], v) && forall i :: 0 <= i < k ==> Meets(env, stages[i], v))
  {
    if stages != [] {
      var n := |stages| - 1;
      var init := stages[..n];
      ChecksExactly(env, bag, field, phase, init, v, h);
      assert stages == init + [stages[n]];
      PipelinesCompose(env, bag, field, phase, init, [stages[n]], v, h);
      CheckExactly(env, bag, field, phase, stages[n], v, h);
      var e := EvaluatePipeline(env, bag, field, phase, init, v, h);
      assert forall i :: 0 <= i < n ==> init[i] == stages[i];
      if e.outcome == Pass && !Meets(env, stages[n], v) {
        assert EvaluatePipeline(env, bag, field, phase, stages, v, h).outcome == Reject(Described(StageRejected(stages[n])), n);
      }
    }
  }

  // ---- Stages that rewrite.

  /** Masking keeps the length and the last characters and stars the rest out; it is only for text. */
  lemma MaskExactly(env: Env, bag: Bag, field: string, phase: DispatchPhase, keepLast: nat, v: Value, h: History)
    ensures var e := Alone(env, bag, field, phase, MaskStage(keepLast), v, h);
            && e.taints == [] && e.history == h
            && (v.Str? ==> e.outcome.Replace? && e.outcome.value.Str?
                           && var masked := e.outcome.value.s;
                              |masked| == |v.s|
                              && forall i :: 0 <= i < |v.s| ==> masked[i] == if i >= |v.s| - keepLast then v.s[i] else '*')
            && (!v.Str? ==> e.outcome == Reject(Described(StageRejected(MaskStage(keepLast))), 0))
  {
    AloneIsOneStep(env, bag, field, phase, MaskStage(keepLast), v, h);
  }

  /** Redaction happens exactly when its condition holds, a bare one always; otherwise the value passes as it is. */
  lemma RedactExactly(env: Env, bag: Bag, field: string, phase: DispatchPhase, condition: Option<Expression>, v: Value, h: History)
    ensures Alone(env, bag, field, phase, RedactStage(condition), v, h)
         == Evaluation(
              if condition.Some? && !Predicates.Eval(env.f64, condition.value, bag) then Pass else Replace(Str("[REDACTED]")), [], h)
  {
    AloneIsOneStep(env, bag, field, phase, RedactStage(condition), v, h);
  }

  /** The remaining stages that ask no one: omit drops, a hash replaces by its digest, a taint and a scan label. */
  lemma OthersExactly(env: Env, bag: Bag, field: string, phase: DispatchPhase, event: TaintEvent, v: Value, h: History)
    ensures Alone(env, bag, field, phase, OmitStage, v, h) == Evaluation(Omit, [], h)
    ensures Alone(env, bag, field, phase, HashStage, v, h) == Evaluation(Replace(Str("hash:" + env.hash(v))), [], h)
    ensures Alone(env, bag, field, phase, TaintStage(event), v, h) == Evaluation(Pass, [event], h)
    ensures Alone(env, bag, field, phase, ScanStage(PiiDetect), v, h) == Evaluation(Pass, [TaintEvent("PII", [Session])], h)
    ensures Alone(env, bag, field, phase, ScanStage(InjectionScan), v, h) == Evaluation(Pass, [TaintEvent("injection", [Session])], h)
    ensures Alone(env, bag, field, phase, ScanStage(PiiRedact), v, h)
         == Evaluation(Replace(Str("[REDACTED]")), [TaintEvent("PII", [Session])], h)
  {
    AloneIsOneStep(env, bag, field, phase, OmitStage, v, h);
    AloneIsOneStep(env, bag, field, phase, HashStage, v, h);
    AloneIsOneStep(env, bag, field, phase, TaintStage(event), v, h);
    AloneIsOneStep(env, bag, field, phase, ScanStage(PiiDetect), v, h);
    AloneIsOneStep(env, bag, field, phase, ScanStage(InjectionScan), v, h);
    AloneIsOneStep(env, bag, field, phase, ScanStage(PiiRedact), v, h);
  }

  /** A plugin stage hands over the value and the field, keeps the plugin's labels, and fails closed. */
  lemma PluginExactly(env: Env, bag: Bag, field: string, phase: DispatchPhase, name: string, v: Value, h: History)
    ensures var call := FieldCall(field, v, phase);
            var reply := env.plugin(h, name, bag, call);
            var e := Alone(env, bag, field, phase, PluginStage(name), v, h);
            && e.history == h + [PluginCalled(name, call, reply)]
            && e.taints == (if reply.Ok? then reply.value.taints else [])
            && (e.outcome.Reject? <==> reply.Err? || reply.value.decision.Denied?)
            && (e.outcome.Reject? ==> e.outcome.stageIndex == 0)
            && (e.outcome.Reject? ==>
                  e.outcome.reason == if reply.Ok? && reply.value.decision.reason.Some? then reply.value.decision.reason.value
                                      else Described(PluginError(name)))
            && (!e.outcome.Reject? ==>
                  e.outcome == if reply.value.modifiedValue.Some? then Replace(reply.value.modifiedValue.value) else Pass)
  {
    AloneIsOneStep(env, bag, field, phase, PluginStage(name), v, h);
  }

  // ---- What later stages and the caller can see.

  /** Two values that a stage replaces by one and the same. */
  ghost predicate Merges(env: Env, bag: Bag, field: string, phase: DispatchPhase, stage: Stage, v: Value, w: Value) {
    forall h :: Alone(env, bag, field, phase, stage, v, h).outcome.Replace?
             && Alone(env, bag, field, phase, stage, v, h) == Alone(env, bag, field, phase, stage, w, h)
  }

  /** The value a stage behind `first` is given. */
  function Reaching(v: Value, first: Evaluation): Value {
    if first.outcome.Replace? then first.outcome.value else v
  }

  /**
   * Whatever stages come before and after, plugins included: two values that `first` treats alike and
   * the next stage merges end in the same outcome, so nothing behind that stage depends on what it hid.
   */
  lemma MergedStayMerged(
    env: Env, bag: Bag, field: string, phase: DispatchPhase,
    first: seq<Stage>, stage: Stage, rest: seq<Stage>, v: Value, w: Value, h: History)
    requires var a, b := EvaluatePipeline(env, bag, field, phase, first, v, h), EvaluatePipeline(env, bag, field, phase, first, w, h);
             && (a.outcome.Pass? || a.outcome.Replace?) && (b.outcome.Pass? || b.outcome.Replace?)
             && a.taints == b.taints && a.history == b.history
             && Merges(env, bag, field, phase, stage, Reaching(v, a), Reaching(w, b))
    ensures EvaluatePipeline(env, bag, field, phase, first + [stage] + rest, v, h)
         == EvaluatePipeline(env, bag, field, phase, first + [stage] + rest, w, h)
  {
    PipelinesCompose(env, bag, field, phase, first + [stage], rest, v, h);
    PipelinesCompose(env, bag, field, phase, first + [stage], rest, w, h);
    PipelinesCompose(env, bag, field, phase, first, [stage], v, h);
    PipelinesCompose(env, bag, field, phase, first, [stage], w, h);
    var a, b := EvaluatePipeline(env, bag, field, phase, first, v, h), EvaluatePipeline(env, bag, field, phase, first, w, h);
    assert Alone(env, bag, field, phase, stage, Reaching(v, a), a.history).outcome.Replace?;
  }

  /** A redaction that applies merges all values; a mask merges texts of one length with the same end. */
  lemma RedactAndMaskMerge(
    env: Env, bag: Bag, field: string, phase: DispatchPhase, condition: Option<Expression>, keepLast: nat, v: Value, w: Value)
    ensures condition.None? || Predicates.Eval(env.f64, condition.value, bag) ==>
              Merges(env, bag, field, phase, RedactStage(condition), v, w)
    ensures v.Str? && w.Str? && |v.s| == |w.s|
            && (forall i :: 0 <= i < |v.s| && i >= |v.s| - keepLast ==> v.s[i] == w.s[i]) ==>
              Merges(env, bag, field, phase, MaskStage(keepLast), v, w)
  {
    if condition.None? || Predicates.Eval(env.f64, condition.value, bag) {
      forall h ensures Alone(env, bag, field, phase, RedactStage(condition), v, h) == Evaluation(Replace(REDACTED), [], h)
               ensures Alone(env, bag, field, phase, RedactStage(condition), w, h) == Evaluation(Replace(REDACTED), [], h) {
        RedactExactly(env, bag, field, phase, condition, v, h);
        RedactExactly(env, bag, field, phase, condition, w, h);
      }
    }
    if v.Str? && w.Str? && |v.s| == |w.s| && (forall i :: 0 <= i < |v.s| && i >= |v.s| - keepLast ==> v.s[i] == w.s[i]) {
      forall h ensures Alone(env, bag, field, phase, MaskStage(keepLast), v, h) == Alone(env, bag, field, phase, MaskStage(keepLast), w, h)
               ensures Alone(env, bag, field, phase, MaskStage(keepLast), v, h).outcome.Replace? {
        MaskExactly(env, bag, field, phase, keepLast, v, h);
        MaskExactly(env, bag, field, phase, keepLast, w, h);
      }
    }
  }
}
