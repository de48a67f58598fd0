/** The compiled form of a policy: predicates, pipelines and effects. */
module Policy {
  import opened Prelude
  import opened Constraint

  datatype CompareOp = Eq | NotEq | Gt | GtEq | Lt | LtEq | Contains

  /** A literal operand; a float is held as its source text. */
  datatype Literal = LBool(b: bool) | LInt(i: int) | LFloat(text: string) | LString(s: string)

  datatype Condition =
    | Comparison(key: string, op: CompareOp, value: Literal)
    | IsTrue(key: string)
    | IsFalse(key: string)
    | Exists(key: string)
    | InSet(valueKey: string, setKey: string, negate: bool)

  datatype Expression =
    | Cond(condition: Condition)
    | And(parts: seq<Expression>)
    | Or(parts: seq<Expression>)
    | Not(inner: Expression)
    | Always

  datatype TaintScope = Session | Message

  datatype TaintEvent = TaintEvent(name: string, scopes: seq<TaintScope>)

  datatype TypeCheck = IsStr | IsInt | IsBool | IsFloat | IsEmail | IsUrl | IsUuid

  datatype ScanKind = PiiDetect | PiiRedact | InjectionScan

  /** One stage of a field pipeline. */
  datatype Stage =
    | TypeStage(check: TypeCheck)
    | RegexStage(pattern: string)
    | ValidateStage(name: string)
    | LengthStage(lo: Option<nat>, hi: Option<nat>)
    | RangeStage(min: Option<int>, max: Option<int>)
    | EnumStage(values: seq<string>)
    | MaskStage(keepLast: nat)
    | RedactStage(condition: Option<Expression>)
    | OmitStage
    | HashStage
    | TaintStage(event: TaintEvent)
    | PluginStage(name: string)
    | ScanStage(kind: ScanKind)

  datatype FieldRule = FieldRule(field: string, stages: seq<Stage>, source: string)

  datatype DelegateStep = DelegateStep(pluginName: string, onError: Option<string>, source: string)

  datatype ElicitStep = ElicitStep(
    pluginName: string,
    channel: Option<string>,
    from: string,
    scope: Option<string>,
    onError: Option<string>,
    source: string)

  datatype PdpDialect = Cedar | Opa | AuthZen | NeMo | Cel | Custom(key: string)

  datatype PdpCall = PdpCall(dialect: PdpDialect, args: string)

  datatype Effect =
    | Allow
    | Deny(reason: Option<string>, code: Option<string>)
    | Plugin(name: string)
    | Delegate(delegation: DelegateStep)
    | Elicit(elicitation: ElicitStep)
    | Taint(event: TaintEvent)
    | Restrict(spec: RestrictSpec)
    | FieldOp(path: string, stages: seq<Stage>)
    | Sequential(effects: seq<Effect>)
    | Parallel(effects: seq<Effect>)
    | When(condition: Expression, body: seq<Effect>, source: string)
    | Pdp(call: PdpCall, onAllow: seq<Effect>, onDeny: seq<Effect>)

  /** A rule is a gated body. */
  datatype Rule = Rule(condition: Expression, effects: seq<Effect>, source: string) {
    function AsEffect(): Effect { When(condition, effects, source) }
  }

  /** What one route declares; overrides are held as their configuration text. */
  datatype CompiledRoute = CompiledRoute(
    routeKey: string,
    args: seq<FieldRule>,
    policy: seq<Effect>,
    result: seq<FieldRule>,
    postPolicy: seq<Effect>,
    pluginOverrides: map<string, string>,
    response: Option<string>)

  /** What went wrong, where the source writes a message. */
  datatype Failure =
    | PluginError(name: string)
    | PdpError
    | DelegateError(name: string)
    | RestrictUnresolved(path: string)
    | NotAField(path: string)
    | FromUnresolved(from: string)
    | DispatchFailed
    | CheckFailed
    | ElicitationExpired
    | ElicitationDenied
    | ValidationFailed
    | ResponseInvalid
    | ScopeNotSatisfied(scope: string)
    | ScopeUnparsable(scope: string)
    | StageRejected(stage: Stage)

  /** Why a phase denied: the author's or a plugin's own text, or a failure the evaluator describes. */
  datatype Reason = Authored(text: string) | Described(failure: Failure)

  datatype Decision = Allowed | Denied(reason: Option<Reason>, ruleSource: string)
}
