/** Compiling step entries of a policy document into effects. */
module Steps {
  import opened Prelude
  import opened Policy
  import opened Purity
  import Constraint
  import Lexer
  import Parser
  import Printer

  /** An already parsed document node; mappings keep their entries in order. */
  datatype Yaml =
    | YNull
    | YBool(b: bool)
    | YNumber(text: string)
    | YString(s: string)
    | YSeq(items: seq<Yaml>)
    | YMap(entries: seq<Entry>)

  datatype Entry = Entry(key: Yaml, value: Yaml)

  datatype StepError =
    | NotAStep
    | NotOneKey
    | KeyNotText
    | BadPredicate(error: Parser.ParseError)
    | BadText
    | NotAList
    | EmptyList
    | Impure(branch: Effect)
    | UnclosedCall
    | BodyNotMap
    | StrayKey
    | WhenNotText
    | DoShape
    | NoEffects
    | NestedCondition
    | NotOneEffect
    | NestedPdp
    | NotAnEffect
    | BothForms

  datatype Step =
    | StepRule(rule: Rule)
    | StepPdp(call: PdpCall, onDeny: seq<Step>, onAllow: seq<Step>)
    | StepPlugin(name: string)
    | StepDelegate(delegation: DelegateStep)
    | StepElicit(elicitation: ElicitStep)
    | StepTaint(event: TaintEvent)
    | StepRestrict(spec: Constraint.RestrictSpec)

  /** The control effect on the right of a rule line. */
  datatype Action = Permit | Refuse(reason: Option<string>, code: Option<string>)

  /** What one line of step text can be. */
  datatype TextStep =
    | TextRule(condition: Expression, action: Action)
    | TextPlugin(pluginName: string)
    | TextDelegate(delegation: DelegateStep)
    | TextElicit(elicitation: ElicitStep)
    | TextTaint(event: TaintEvent)

  /** The parsers of single lines and of leaf bodies; any parser of these shapes. */
  datatype Leaves = Leaves(
    stepText: (string, string) -> Result<TextStep, StepError>,
    denyCall: string -> Result<Option<Action>, StepError>,
    fieldOp: string -> Result<Option<(string, seq<Stage>)>, StepError>,
    delegateBody: (Yaml, string) -> Result<DelegateStep, StepError>,
    restrictBody: (Yaml, string) -> Result<Constraint.RestrictSpec, StepError>,
    pdpArgs: seq<Entry> -> string)

  function ActionEffect(action: Action): Effect {
    match action case Permit => Allow case Refuse(reason, code) => Deny(reason, code)
  }

  // ---- What the compiler may build.

  /** An effect in a body: groups are never empty, blocks hold no mutation, and nothing is gated or asks a decision point. */
  predicate Built(e: Effect) {
    match e
    case Sequential(es) => es != [] && forall i :: 0 <= i < |es| ==> Built(es[i])
    case Parallel(es) => es != [] && forall i :: 0 <= i < |es| ==> Built(es[i]) && !ContainsMutation(es[i])
    case When(_, _, _) => false
    case Pdp(_, _, _) => false
    case _ => true
  }

  predicate AllBuilt(es: seq<Effect>) { forall i :: 0 <= i < |es| ==> Built(es[i]) }

  predicate StepBuilt(step: Step) {
    match step
    case StepRule(rule) => rule.effects != [] && AllBuilt(rule.effects)
    case StepPdp(_, onDeny, onAllow) =>
      (forall i :: 0 <= i < |onDeny| ==> StepBuilt(onDeny[i])) && forall i :: 0 <= i < |onAllow| ==> StepBuilt(onAllow[i])
    case _ => true
  }

  /** A top-level effect or reaction. */
  predicate TopBuilt(e: Effect) {
    match e
    case When(_, body, _) => body != [] && AllBuilt(body)
    case Pdp(_, onAllow, onDeny) =>
      (forall i :: 0 <= i < |onAllow| ==> TopBuilt(onAllow[i])) && forall i :: 0 <= i < |onDeny| ==> TopBuilt(onDeny[i])
    case _ => e.Plugin? || e.Delegate? || e.Elicit? || e.Taint? || e.Restrict?
  }

  // ---- Mappings and keys.

  function Lookup(entries: seq<Entry>, key: string): (value: Option<Yaml>)
    ensures value.Some? ==> Entry(YString(key), value.value) in entries
  {
    if entries == [] then None
    else if entries[0].key == YString(key) then Some(entries[0].value)
    else Lookup(entries[1..], key)
  }

  function FindLast(s: string, c: char): (at: Option<nat>)
    ensures at.Some? ==> at.value < |s| && s[at.value] == c
  {
    if s == "" then None
    else if s[|s| - 1] == c then Some(|s| - 1)
    else FindLast(s[..|s| - 1], c)
  }

  predicate IsPdpKey(key: string) {
    var open := Find(key, '(');
    Trim(if open.Some? then key[..open.value] else key) in {"cedar", "opa", "authzen", "nemo", "cel"}
  }

  function Dialect(key: string): PdpDialect {
    if key == "cedar" then Cedar
    else if key == "opa" then Opa
    else if key == "authzen" then AuthZen
    else if key == "nemo" then NeMo
    else if key == "cel" then Cel
    else Custom(key)
  }

  /** A call key in two parts: the dialect and the text between its parentheses. */
  function SplitCall(key: string): Result<(string, Option<string>), StepError> {
    var open := Find(key, '(');
    if open.None? then Ok((Trim(key), None))
    else
      var close := FindLast(key, ')');
      if close.None? || close.value <= open.value then Err(UnclosedCall)
      else Ok((Trim(key[..open.value]), Some(Trim(key[open.value + 1..close.value]))))
  }

  // ---- Steps.

  function TextToStep(text: TextStep, source: string): (step: Step)
    ensures StepBuilt(step)
  {
    match text
    case TextRule(condition, action) => StepRule(Rule(condition, [ActionEffect(action)], source))
    case TextPlugin(name) => StepPlugin(name)
    case TextDelegate(delegation) => StepDelegate(delegation)
    case TextElicit(elicitation) => StepElicit(elicitation)
    case TextTaint(event) => StepTaint(event)
  }

  function ParseStep(p: Leaves, v: Yaml, source: string): (step: Result<Step, StepError>)
    ensures step.Ok? ==> StepBuilt(step.value)
    decreases v, 4
  {
    match v
    case YString(s) =>
      var text := p.stepText(s, source);
      if text.Err? then Err(text.error) else Ok(TextToStep(text.value, source))
    case YMap(_) => ParseStepMap(p, v, source)
    case _ => Err(NotAStep)
  }

  function ParseStepMap(p: Leaves, v: Yaml, source: string): (step: Result<Step, StepError>)
    requires v.YMap?
    ensures step.Ok? ==> StepBuilt(step.value)
    decreases v, 3
  {
    if Lookup(v.entries, "when").Some? && Lookup(v.entries, "do").Some? then ParseWhenDo(p, v, source)
    else if |v.entries| != 1 then Err(NotOneKey)
    else
      var body := v.entries[0].value;
      if !v.entries[0].key.YString? then Err(KeyNotText)
      else
        var whole := v.entries[0].key.s;
        var key := Trim(whole);
        if body.YSeq? && key !in {"delegate", "sequential", "parallel"} && !IsPdpKey(key) then
          ParseShorthand(p, key, body.items, source)
        else if key == "delegate" then
          var delegation := p.delegateBody(body, source);
          if delegation.Err? then Err(delegation.error) else Ok(StepDelegate(delegation.value))
        else if key == "restrict" then
          var spec := p.restrictBody(body, source);
          if spec.Err? then Err(spec.error) else Ok(StepRestrict(spec.value))
        else if key == "sequential" then Unconditional(ParseSequential(p, body, source), source)
        else if key == "parallel" then Unconditional(ParseParallel(p, body, source), source)
        else
          var call := SplitCall(whole);
          if call.Err? then Err(call.error)
          else if !body.YMap? then Err(BodyNotMap)
          else
            var parts := PdpBody(p, body, source, 0, PdpParts([], [], []));
            if parts.Err? then Err(parts.error)
            else
              var args := call.value.1.GetOr(p.pdpArgs(parts.value.args));
              Ok(StepPdp(PdpCall(Dialect(call.value.0), args), parts.value.onDeny, parts.value.onAllow))
  }

  function Unconditional(effect: Result<Effect, StepError>, source: string): (step: Result<Step, StepError>)
    requires effect.Ok? ==> Built(effect.value)
    ensures step.Ok? ==> StepBuilt(step.value)
  {
    if effect.Err? then Err(effect.error) else Ok(StepRule(Rule(Always, [effect.value], source)))
  }

  predicate AllowedInWhenDo(e: Entry) { e.key in {YString("when"), YString("do"), YString("id")} }

  function ParseWhenDo(p: Leaves, v: Yaml, source: string): (step: Result<Step, StepError>)
    requires v.YMap? && Lookup(v.entries, "when").Some? && Lookup(v.entries, "do").Some?
    ensures step.Ok? ==> StepBuilt(step.value)
    decreases v, 2
  {
    var when, body := Lookup(v.entries, "when").value, Lookup(v.entries, "do").value;
    if exists i :: 0 <= i < |v.entries| && !AllowedInWhenDo(v.entries[i]) then Err(StrayKey)
    else if !when.YString? then Err(WhenNotText)
    else
      var condition := Parser.ParsePredicate(when.s);
      if condition.Err? then Err(BadPredicate(condition.error))
      else Gated(condition.value, ParseDoBody(p, body, source), source)
  }

  /** A gated body is never empty. */
  function Gated(condition: Expression, effects: Result<seq<Effect>, StepError>, source: string): (step: Result<Step, StepError>)
    requires effects.Ok? ==> AllBuilt(effects.value)
    ensures step.Ok? ==> StepBuilt(step.value)
  {
    if effects.Err? then Err(effects.error)
    else if effects.value == [] then Err(NoEffects)
    else Ok(StepRule(Rule(condition, effects.value, source)))
  }

  function ParseShorthand(p: Leaves, predicateText: string, items: seq<Yaml>, source: string): (step: Result<Step, StepError>)
    ensures step.Ok? ==> StepBuilt(step.value)
    decreases items, 1
  {
    var condition := Parser.ParsePredicate(predicateText);
    if condition.Err? then Err(BadPredicate(condition.error))
    else Gated(condition.value, ParseEffects(p, items, source), source)
  }

  // ---- Effects.

  function ParseDoBody(p: Leaves, v: Yaml, source: string): (effects: Result<seq<Effect>, StepError>)
    ensures effects.Ok? ==> AllBuilt(effects.value)
    decreases v, 6
  {
    match v
    case YSeq(items) => ParseEffects(p, items, source)
    case YString(_) => Single(ParseEffectValue(p, v, source))
    case YMap(_) => Single(ParseEffectValue(p, v, source))
    case _ => Err(DoShape)
  }

  function Single(effect: Result<Effect, StepError>): (effects: Result<seq<Effect>, StepError>)
    requires effect.Ok? ==> Built(effect.value)
    ensures effects.Ok? ==> AllBuilt(effects.value)
  {
    if effect.Err? then Err(effect.error) else Ok([effect.value])
  }

  function ParseEffectValue(p: Leaves, v: Yaml, source: string): (effect: Result<Effect, StepError>)
    ensures effect.Ok? ==> Built(effect.value)
    decreases v, 5
  {
    match v
    case YString(s) => ParseEffectText(p, s, source)
    case YMap(entries) =>
      var group := if |entries| == 1 && entries[0].key.YString? then Trim(entries[0].key.s) else "";
      if group == "sequential" then ParseSequential(p, entries[0].value, source)
      else if group == "parallel" then ParseParallel(p, entries[0].value, source)
      else if group == "restrict" then
        var spec := p.restrictBody(entries[0].value, source);
        if spec.Err? then Err(spec.error) else Ok(Restrict(spec.value))
      else
        var step := ParseStep(p, v, source);
        if step.Err? then Err(step.error) else StepToEffect(step.value)
    case _ => Err(NotAnEffect)
  }

  function BareAction(s: string): Option<Action> {
    if Trim(s) == "deny" then Some(Refuse(None, None)) else if Trim(s) == "allow" then Some(Permit) else None
  }

  function ParseEffectText(p: Leaves, s: string, source: string): (effect: Result<Effect, StepError>)
    ensures effect.Ok? ==> Built(effect.value)
  {
    var trimmed := Trim(s);
    if BareAction(trimmed).Some? then Ok(ActionEffect(BareAction(trimmed).value))
    else
      var deny := p.denyCall(trimmed);
      if deny.Err? then Err(deny.error)
      else if deny.value.Some? then Ok(ActionEffect(deny.value.value))
      else
        var op := p.fieldOp(trimmed);
        if op.Err? then Err(op.error)
        else if op.value.Some? then Ok(FieldOp(op.value.value.0, op.value.value.1))
        else
          var text := p.stepText(s, source);
          if text.Err? then Err(text.error) else StepToEffect(TextToStep(text.value, source))
  }

  /** The effects of a list, or its first error. */
  function ParseEffects(p: Leaves, items: seq<Yaml>, source: string): (effects: Result<seq<Effect>, StepError>)
    ensures effects.Ok? ==> AllBuilt(effects.value) && |effects.value| == |items|
    decreases items, 0
  {
    if items == [] then Ok([])
    else
      var first := ParseEffectValue(p, items[0], source);
      if first.Err? then Err(first.error)
      else
        var rest := ParseEffects(p, items[1..], source);
        if rest.Err? then rest else Ok([first.value] + rest.value)
  }

  function ParseSequential(p: Leaves, body: Yaml, source: string): (effect: Result<Effect, StepError>)
    ensures effect.Ok? ==> Built(effect.value)
    decreases body, 1
  {
    if !body.YSeq? then Err(NotAList)
    else if body.items == [] then Err(EmptyList)
    else
      var effects := ParseEffects(p, body.items, source);
      if effects.Err? then Err(effects.error) else Ok(Sequential(effects.value))
  }

  function ParseParallel(p: Leaves, body: Yaml, source: string): (effect: Result<Effect, StepError>)
    ensures effect.Ok? ==> Built(effect.value)
    decreases body, 1
  {
    if !body.YSeq? then Err(NotAList)
    else if body.items == [] then Err(EmptyList)
    else
      var effects := ParseEffects(p, body.items, source);
      if effects.Err? then Err(effects.error)
      else
        var block := Parallel(effects.value);
        var checked := ValidateParallelPurity(block);
        if checked.Err? then Err(Impure(checked.error))
        else
          BranchesPure(effects.value);
          Ok(block)
  }

  /** A step inside a body: gated rules and decision-point calls are refused, an unconditional rule gives up its one effect. */
  function StepToEffect(step: Step): (effect: Result<Effect, StepError>)
    requires StepBuilt(step)
    ensures effect.Ok? ==> Built(effect.value)
  {
    match step
    case StepPlugin(name) => Ok(Plugin(name))
    case StepDelegate(delegation) => Ok(Delegate(delegation))
    case StepElicit(elicitation) => Ok(Elicit(elicitation))
    case StepTaint(event) => Ok(Taint(event))
    case StepRestrict(spec) => Ok(Restrict(spec))
    case StepRule(rule) =>
      if !rule.condition.Always? then Err(NestedCondition)
      else if |rule.effects| != 1 then Err(NotOneEffect)
      else Ok(rule.effects[0])
    case StepPdp(_, _, _) => Err(NestedPdp)
  }

  // ---- Decision-point calls.

  datatype PdpParts = PdpParts(onDeny: seq<Step>, onAllow: seq<Step>, args: seq<Entry>)

  predicate PartsBuilt(parts: PdpParts) {
    && (forall i :: 0 <= i < |parts.onDeny| ==> StepBuilt(parts.onDeny[i]))
    && (forall i :: 0 <= i < |parts.onAllow| ==> StepBuilt(parts.onAllow[i]))
  }

  /** The entries of a call body from index `at` on: reactions by name, everything else its arguments. */
  function PdpBody(p: Leaves, body: Yaml, source: string, at: nat, so: PdpParts): (parts: Result<PdpParts, StepError>)
    requires body.YMap? && at <= |body.entries| && PartsBuilt(so)
    ensures parts.Ok? ==> PartsBuilt(parts.value)
    decreases body, 0, |body.entries| - at
  {
    if at == |body.entries| then Ok(so)
    else
      var entry := body.entries[at];
      if entry.key == YString("on_deny") then
        var steps := ParseReactions(p, entry.value, source + ".on_deny");
        if steps.Err? then Err(steps.error) else PdpBody(p, body, source, at + 1, so.(onDeny := steps.value))
      else if entry.key == YString("on_allow") then
        var steps := ParseReactions(p, entry.value, source + ".on_allow");
        if steps.Err? then Err(steps.error) else PdpBody(p, body, source, at + 1, so.(onAllow := steps.value))
      else PdpBody(p, body, source, at + 1, so.(args := so.args + [entry]))
  }

  function ParseReactions(p: Leaves, v: Yaml, source: string): (steps: Result<seq<Step>, StepError>)
    ensures steps.Ok? ==> forall i :: 0 <= i < |steps.value| ==> StepBuilt(steps.value[i])
    decreases v, 1
  {
    if !v.YSeq? then Err(NotAList) else ReactionsFrom(p, v.items, source, 0)
  }

  function ReactionsFrom(p: Leaves, items: seq<Yaml>, source: string, at: nat): (steps: Result<seq<Step>, StepError>)
    requires at <= |items|
    ensures steps.Ok? ==> |steps.value| == |items| - at && forall i :: 0 <= i < |steps.value| ==> StepBuilt(steps.value[i])
    decreases items, 0, |items| - at
  {
    if at == |items| then Ok([])
    else
      var first := ParseStep(p, items[at], source + "[" + Decimal(at) + "]");
      if first.Err? then Err(first.error)
      else
        var rest := ReactionsFrom(p, items, source, at + 1);
        if rest.Err? then rest else Ok([first.value] + rest.value)
  }

  // ---- Top level.

  function TopEffect(step: Step): (effect: Effect)
    requires StepBuilt(step)
    ensures TopBuilt(effect)
    decreases step, 1
  {
    match step
    case StepRule(rule) => rule.AsEffect()
    case StepPdp(call, onDeny, onAllow) => Pdp(call, TopEffects(onAllow), TopEffects(onDeny))
    case StepPlugin(name) => Plugin(name)
    case StepDelegate(delegation) => Delegate(delegation)
    case StepElicit(elicitation) => Elicit(elicitation)
    case StepTaint(event) => Taint(event)
    case StepRestrict(spec) => Restrict(spec)
  }

  function TopEffects(steps: seq<Step>): (effects: seq<Effect>)
    requires forall i :: 0 <= i < |steps| ==> StepBuilt(steps[i])
    ensures |effects| == |steps| && forall i :: 0 <= i < |effects| ==> TopBuilt(effects[i])
    decreases steps, 0
  {
    if steps == [] then [] else [TopEffect(steps[0])] + TopEffects(steps[1..])
  }

  function EntriesFrom(p: Leaves, entries: seq<Yaml>, source: string, at: nat): Result<seq<Effect>, StepError>
    requires at <= |entries|
    decreases |entries| - at
  {
    if at == |entries| then Ok([])
    else
      var step := ParseStep(p, entries[at], source + "[" + Decimal(at) + "]");
      if step.Err? then Err(step.error)
      else
        var rest := EntriesFrom(p, entries, source, at + 1);
        if rest.Err? then rest else Ok([TopEffect(step.value)] + rest.value)
  }

  /** One phase of a block: its nested form or its flat form, never both. */
  method CompilePhase(p: Leaves, nested: seq<Yaml>, flat: seq<Yaml>, source: string) returns (effects: Result<seq<Effect>, StepError>)
    ensures nested != [] && flat != [] ==> effects == Err(BothForms)
    ensures nested == [] || flat == [] ==> effects == EntriesFrom(p, nested + flat, source, 0)
    ensures effects.Ok? ==>
              |effects.value| == |nested| + |flat| && forall i :: 0 <= i < |effects.value| ==> TopBuilt(effects.value[i])
  {
    if nested != [] && flat != [] {
      return Err(BothForms);
    }
    var entries := nested + flat;
    var out: seq<Effect> := [];
    ghost var all := EntriesFrom(p, entries, source, 0);
    assert all.Ok? ==> [] + all.value == all.value;
    for i := 0 to |entries|
      invariant |out| == i && forall k :: 0 <= k < i ==> TopBuilt(out[k])
      invariant var rest := EntriesFrom(p, entries, source, i);
                EntriesFrom(p, entries, source, 0) == if rest.Ok? then Ok(out + rest.value) else rest
    {
      var step := ParseStep(p, entries[i], source + "[" + Decimal(i) + "]");
      if step.Err? {
        return Err(step.error);
      }
      ghost var rest := EntriesFrom(p, entries, source, i + 1);
      if rest.Ok? {
        assert out + ([TopEffect(step.value)] + rest.value) == out + [TopEffect(step.value)] + rest.value;
      }
      out := out + [TopEffect(step.value)];
    }
    assert out + [] == out;
    return Ok(out);
  }

  // ---- Purity of everything built.

  lemma {:induction false} BuiltIsPure(e: Effect)
    requires Built(e)
    ensures Pure(e)
  {
    PureByChildren(e);
    match e
    case Sequential(es) =>
      forall i | 0 <= i < |es| ensures Pure(es[i]) {
        BuiltIsPure(es[i]);
      }
    case Parallel(es) =>
      forall i | 0 <= i < |es| ensures Pure(es[i]) {
        BuiltIsPure(es[i]);
      }
    case _ =>
  }

  lemma {:induction false} TopBuiltIsPure(e: Effect)
    requires TopBuilt(e)
    ensures Pure(e)
  {
    PureByChildren(e);
    match e
    case When(_, body, _) =>
      forall i | 0 <= i < |body| ensures Pure(body[i]) {
        BuiltIsPure(body[i]);
      }
    case Pdp(_, onAllow, onDeny) =>
      forall i | 0 <= i < |Children(e)| ensures Pure(Children(e)[i]) {
        TopBuiltIsPure(if i < |onAllow| then onAllow[i] else onDeny[i - |onAllow|]);
      }
    case _ =>
  }

  /**
   * Whatever the document and the leaf parsers, every effect the compiler builds passes the purity
   * check: no field operation, delegation or elicitation sits under a parallel block, in bodies,
   * nested groups and decision-point reactions alike.
   */
  lemma CompiledStepsArePure(p: Leaves, v: Yaml, source: string, path: seq<nat>)
    requires ParseStep(p, v, source).Ok?
    ensures var e := TopEffect(ParseStep(p, v, source).value); Pure(e) && !ViolationAt(e, path)
  {
    var e := TopEffect(ParseStep(p, v, source).value);
    TopBuiltIsPure(e);
    PurityExactly(e);
  }

  /** The same for an entry of a body or group. */
  lemma CompiledEffectsArePure(p: Leaves, v: Yaml, source: string, path: seq<nat>)
    requires ParseEffectValue(p, v, source).Ok?
    ensures var e := ParseEffectValue(p, v, source).value; Pure(e) && !ViolationAt(e, path)
  {
    var e := ParseEffectValue(p, v, source).value;
    BuiltIsPure(e);
    PurityExactly(e);
  }

  /** A compiled phase is one the evaluator's guarantees for checked trees apply to. */
  lemma {:induction false} CompiledPhaseIsPure(p: Leaves, entries: seq<Yaml>, source: string, at: nat)
    requires at <= |entries| && EntriesFrom(p, entries, source, at).Ok?
    ensures AllPure(EntriesFrom(p, entries, source, at).value)
    decreases |entries| - at
  {
    if at < |entries| {
      var e := TopEffect(ParseStep(p, entries[at], source + "[" + Decimal(at) + "]").value);
      TopBuiltIsPure(e);
      CompiledPhaseIsPure(p, entries, source, at + 1);
    }
  }

  // ---- Forms that mean the same.

  lemma {:induction false} OneEntry(entry: Entry, key: string)
    ensures Lookup([entry], key) == if entry.key == YString(key) then Some(entry.value) else None
  {
    assert [entry][1..] == [];
  }

  lemma {:induction false} TwoEntries(first: Entry, second: Entry, key: string)
    ensures Lookup([first, second], key) ==
              if first.key == YString(key) then Some(first.value) else if second.key == YString(key) then Some(second.value) else None
  {
    assert [first, second][1..] == [second];
    OneEntry(second, key);
  }

  lemma WhenIsNotDo()
    ensures "when" != "do"
  {
    assert |"when"| == 4 && |"do"| == 2;
  }

  /** A single-key mapping is never a `when:` / `do:` rule. */
  lemma SingleKey(entry: Entry)
    ensures Lookup([entry], "when").None? || Lookup([entry], "do").None?
  {
    WhenIsNotDo();
    OneEntry(entry, "when");
    OneEntry(entry, "do");
  }

  lemma {:induction false} ShorthandStep(p: Leaves, key: string, items: seq<Yaml>, source: string)
    requires Trim(key) !in {"delegate", "sequential", "parallel"} && !IsPdpKey(Trim(key))
    ensures ParseStep(p, YMap([Entry(YString(key), YSeq(items))]), source) == ParseShorthand(p, Trim(key), items, source)
  {
    SingleKey(Entry(YString(key), YSeq(items)));
  }

  lemma {:induction false} WhenDoStep(p: Leaves, when: string, body: Yaml, source: string)
    ensures var condition := Parser.ParsePredicate(when);
            ParseStep(p, YMap([Entry(YString("when"), YString(when)), Entry(YString("do"), body)]), source)
              == if condition.Err? then Err(BadPredicate(condition.error))
                 else Gated(condition.value, ParseDoBody(p, body, source), source)
  {
    var first, second := Entry(YString("when"), YString(when)), Entry(YString("do"), body);
    WhenIsNotDo();
    TwoEntries(first, second, "when");
    TwoEntries(first, second, "do");
    var v := YMap([first, second]);
    assert ParseStep(p, v, source) == ParseStepMap(p, v, source);
    assert ParseStepMap(p, v, source) == ParseWhenDo(p, v, source);
    forall i | 0 <= i < |v.entries| ensures AllowedInWhenDo(v.entries[i]) {
      assert v.entries[i] == first || v.entries[i] == second;
    }
  }

  /** The shorthand `predicate: [effects]` is the `when:` / `do:` rule with that predicate and body, errors included. */
  lemma {:induction false} ShorthandIsWhenDo(p: Leaves, key: string, items: seq<Yaml>, source: string)
    requires Trim(key) !in {"delegate", "sequential", "parallel"} && !IsPdpKey(Trim(key))
    ensures ParseStep(p, YMap([Entry(YString(key), YSeq(items))]), source)
         == ParseStep(p, YMap([Entry(YString("when"), YString(Trim(key))), Entry(YString("do"), YSeq(items))]), source)
  {
    ShorthandStep(p, key, items, source);
    WhenDoStep(p, Trim(key), YSeq(items), source);
  }

  /** The word by itself is a predicate: the attribute `restrict` is true. */
  lemma RestrictIsAnAttribute()
    ensures Parser.ParsePredicate("restrict") == Ok(Cond(IsTrue("restrict")))
  {
    var key := "restrict";
    var e := Cond(IsTrue(key));
    Printer.IdentRunAll(key);
    Lexer.PathEnd(key);
    assert key[2] == 's' && "require"[2] == 'q' && key != "contains" && key != "exists";
    assert Printer.IsPrintable(e);
    assert Printer.OrToks(e) == [Lexer.Ident(key)];
    assert Printer.Print(e) == key;
    Printer.RoundTrip(e);
  }

  /** A step `restrict:` over anything but a list is a constraint. */
  lemma {:induction false} RestrictStep(p: Leaves, key: string, body: Yaml, source: string)
    requires Trim(key) == "restrict" && !body.YSeq?
    ensures var spec := p.restrictBody(body, source);
            ParseStep(p, YMap([Entry(YString(key), body)]), source)
              == if spec.Err? then Err(spec.error) else Ok(StepRestrict(spec.value))
  {
    RestrictIsNoOtherKey();
    SingleKey(Entry(YString(key), body));
  }

  lemma {:induction false} RestrictList(p: Leaves, items: seq<Yaml>, source: string)
    ensures ParseStep(p, YMap([Entry(YString("restrict"), YSeq(items))]), source)
         == Gated(Cond(IsTrue("restrict")), ParseEffects(p, items, source), source)
  {
    RestrictIsNoOtherKey();
    RestrictIsAnAttribute();
    ShorthandStep(p, "restrict", items, source);
  }

  /**
   * A step of its own keyed `restrict` is a constraint exactly when its body is not a list; a list is
   * read as a rule that runs its items as effects when the attribute `restrict` is true.
   */
  lemma {:induction false} RestrictListIsARule(p: Leaves, body: Yaml, source: string)
    ensures var step := ParseStep(p, YMap([Entry(YString("restrict"), body)]), source);
            && (step.Ok? ==> (step.value.StepRestrict? <==> !body.YSeq?))
            && (body.YSeq? ==> step == Gated(Cond(IsTrue("restrict")), ParseEffects(p, body.items, source), source))
            && (body.YSeq? && step.Ok? ==>
                  && ParseEffects(p, body.items, source).Ok? && body.items != []
                  && step.value == StepRule(Rule(Cond(IsTrue("restrict")), ParseEffects(p, body.items, source).value, source)))
  {
    if body.YSeq? {
      RestrictList(p, body.items, source);
    } else {
      RestrictIsNoOtherKey();
      RestrictStep(p, "restrict", body, source);
    }
  }

  lemma RestrictIsNoOtherKey()
    ensures Trim("restrict") == "restrict"
    ensures "restrict" !in {"delegate", "sequential", "parallel"} && !IsPdpKey("restrict")
  {
    var s := "restrict";
    assert s[0] == 'r' && "sequential"[0] == 's' && "parallel"[0] == 'p' && "delegate"[0] == 'd';
    assert "cedar"[0] == 'c' && "opa"[0] == 'o' && "authzen"[0] == 'a' && "nemo"[0] == 'n' && "cel"[0] == 'c';
    assert '(' !in s;
    assert TrimStart(s) == s && TrimEnd(s) == s;
  }

  lemma GroupKeys()
    ensures "sequential" != "parallel" && "sequential" != "delegate" && "sequential" != "restrict"
    ensures "parallel" != "delegate" && "parallel" != "restrict"
  {
    assert "sequential"[0] == 's' && "parallel"[0] == 'p' && "delegate"[0] == 'd' && "restrict"[0] == 'r';
  }

  /** A group as a step of its own is an unconditional rule with the group as its one effect. */
  lemma {:induction false} GroupStep(p: Leaves, key: string, body: Yaml, source: string)
    requires Trim(key) == "sequential" || Trim(key) == "parallel"
    ensures ParseStep(p, YMap([Entry(YString(key), body)]), source)
         == Unconditional(if Trim(key) == "sequential" then ParseSequential(p, body, source) else ParseParallel(p, body, source), source)
  {
    var v := YMap([Entry(YString(key), body)]);
    GroupKeys();
    SingleKey(v.entries[0]);
    assert ParseStep(p, v, source) == ParseStepMap(p, v, source);
  }

  /** A group inside a body parses alike on its own path and through the step parser. */
  lemma {:induction false} GroupPathsAgree(p: Leaves, key: string, body: Yaml, source: string)
    requires Trim(key) == "sequential" || Trim(key) == "parallel"
    ensures var v := YMap([Entry(YString(key), body)]);
            var step := ParseStep(p, v, source);
            ParseEffectValue(p, v, source) == if step.Err? then Err(step.error) else StepToEffect(step.value)
  {
    GroupKeys();
    GroupStep(p, key, body, source);
    var group := if Trim(key) == "sequential" then ParseSequential(p, body, source) else ParseParallel(p, body, source);
    assert ParseEffectValue(p, YMap([Entry(YString(key), body)]), source) == group;
  }
}
