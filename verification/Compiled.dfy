/** What the entries of a policy document do once compiled: each kind of entry, said of its walk. */
module Compiled {
  import opened Prelude
  import opened Policy
  import opened Host
  import opened Evaluator
  import opened EffectInvariants
  import opened Steps
  import Parser
  import Predicates

  /** The walk of one top-level entry. */
  function WalkEntry(env: Env, p: Leaves, entry: Yaml, source: string, phase: DispatchPhase, s: State): Walked
    requires ParseStep(p, entry, source).Ok?
  {
    Dispatch(env, TopEffect(ParseStep(p, entry, source).value), "", phase, s)
  }

  // ---- Decision points.

  /** The value of the last entry under a key: a later one replaces an earlier one. */
  function LastValue(entries: seq<Entry>, key: string): Option<Yaml> {
    if entries == [] then None
    else
      var n := |entries| - 1;
      if entries[n].key == YString(key) then Some(entries[n].value) else LastValue(entries[..n], key)
  }

  predicate IsReaction(e: Entry) { e.key == YString("on_deny") || e.key == YString("on_allow") }

  function Arguments(entries: seq<Entry>): seq<Entry> {
    if entries == [] then []
    else if IsReaction(entries[0]) then Arguments(entries[1..])
    else [entries[0]] + Arguments(entries[1..])
  }

  /** A list of reactions compiles as a phase of its own would. */
  function ReactionEffects(p: Leaves, reactions: Option<Yaml>, source: string): Result<seq<Effect>, StepError> {
    if reactions.None? then Ok([])
    else if !reactions.value.YSeq? then Err(NotAList)
    else EntriesFrom(p, reactions.value.items, source, 0)
  }

  lemma {:induction false} ReactionsCompile(p: Leaves, items: seq<Yaml>, source: string, at: nat)
    requires at <= |items|
    ensures var steps := ReactionsFrom(p, items, source, at);
            EntriesFrom(p, items, source, at) == if steps.Ok? then Ok(TopEffects(steps.value)) else Err(steps.error)
    decreases |items| - at
  {
    if at < |items| {
      ReactionsCompile(p, items, source, at + 1);
      var first := ParseStep(p, items[at], source + "[" + Decimal(at) + "]");
      var rest := ReactionsFrom(p, items, source, at + 1);
      if first.Ok? && rest.Ok? {
        assert ([first.value] + rest.value)[1..] == rest.value;
      }
    }
  }

  lemma KeysApart()
    ensures YString("on_deny") != YString("on_allow")
  {
    assert "on_deny"[3] == 'd' && "on_allow"[3] == 'a';
  }

  lemma {:induction false} LastValueFront(first: Entry, rest: seq<Entry>, key: string)
    ensures LastValue([first] + rest, key)
         == if LastValue(rest, key).Some? then LastValue(rest, key)
            else if first.key == YString(key) then Some(first.value) else None
    decreases |rest|
  {
    var all := [first] + rest;
    if rest == [] {
      assert all[..0] == [] && all[0] == first;
    } else {
      var n := |rest| - 1;
      assert all[|all| - 1] == rest[n] && all[..|all| - 1] == [first] + rest[..n];
      LastValueFront(first, rest[..n], key);
    }
  }

  /** The steps under a key once the entries from `at` on are read, what came before standing where they have none. */
  function StepsUnder(p: Leaves, entries: seq<Entry>, key: string, source: string, so: seq<Step>): Result<seq<Step>, StepError> {
    var last := LastValue(entries, key);
    if last.None? then Ok(so) else ParseReactions(p, last.value, source + "." + key)
  }

  lemma {:induction false} BodyReads(p: Leaves, body: Yaml, source: string, at: nat, so: PdpParts)
    requires body.YMap? && at <= |body.entries| && PartsBuilt(so)
    ensures var parts := PdpBody(p, body, source, at, so);
            var rest := body.entries[at..];
            parts.Ok? ==>
              && StepsUnder(p, rest, "on_deny", source, so.onDeny) == Ok(parts.value.onDeny)
              && StepsUnder(p, rest, "on_allow", source, so.onAllow) == Ok(parts.value.onAllow)
              && parts.value.args == so.args + Arguments(rest)
    decreases |body.entries| - at
  {
    var rest := body.entries[at..];
    if at < |body.entries| {
      var entry := body.entries[at];
      KeysApart();
      assert source + ".on_deny" == source + "." + "on_deny" && source + ".on_allow" == source + "." + "on_allow";
      assert rest == [entry] + body.entries[at + 1..];
      LastValueFront(entry, body.entries[at + 1..], "on_deny");
      LastValueFront(entry, body.entries[at + 1..], "on_allow");
      if entry.key == YString("on_deny") {
        var steps := ParseReactions(p, entry.value, source + ".on_deny");
        if steps.Ok? {
          BodyReads(p, body, source, at + 1, so.(onDeny := steps.value));
        }
      } else if entry.key == YString("on_allow") {
        var steps := ParseReactions(p, entry.value, source + ".on_allow");
        if steps.Ok? {
          BodyReads(p, body, source, at + 1, so.(onAllow := steps.value));
        }
      } else {
        BodyReads(p, body, source, at + 1, so.(args := so.args + [entry]));
        assert so.args + [entry] + Arguments(body.entries[at + 1..]) == so.args + ([entry] + Arguments(body.entries[at + 1..]));
      }
    }
  }

  // ---- Call keys.

  const DIALECTS: set<string> := {"cedar", "opa", "authzen", "nemo", "cel"}

  /** Five names are dialects of their own, any other names itself, and no two names share one. */
  lemma DialectsExactly(a: string, b: string)
    ensures Dialect("cedar") == Cedar && Dialect("opa") == Opa && Dialect("authzen") == AuthZen
    ensures Dialect("nemo") == NeMo && Dialect("cel") == Cel
    ensures a !in DIALECTS ==> Dialect(a) == Custom(a)
    ensures Dialect(a) == Dialect(b) <==> a == b
  {
    assert "cedar"[0] == 'c' && "opa"[0] == 'o' && "authzen"[0] == 'a' && "nemo"[0] == 'n' && "cel"[0] == 'c' && "cedar"[2] != "cel"[2];
  }

  lemma {:induction false} LastParenthesis(s: string)
    ensures FindLast(s + ")", ')') == Some(|s|)
  {
    assert (s + ")")[|s|] == ')';
  }

  lemma {:induction false} NoParenthesis(s: string)
    requires ')' !in s
    ensures FindLast(s, ')') == None
  {
    if s != "" {
      NoParenthesis(s[..|s| - 1]);
    }
  }

  /**
   * A key is a name, or a name and an argument text in parentheses up to the last closing one; it is
   * refused exactly when the first opening parenthesis is never closed. A list under a dialect's key
   * is never read as a rule.
   */
  lemma {:induction false} CallKeyExactly(name: string, inner: string)
    requires '(' !in name
    ensures SplitCall(name) == Ok((Trim(name), None))
    ensures SplitCall(name + "(" + inner + ")") == Ok((Trim(name), Some(Trim(inner))))
    ensures ')' !in name + inner ==> SplitCall(name + "(" + inner) == Err(UnclosedCall)
    ensures IsPdpKey(name) <==> Trim(name) in DIALECTS
    ensures IsPdpKey(name + "(" + inner) <==> Trim(name) in DIALECTS
  {
    var unclosed := name + "(" + inner;
    var key := unclosed + ")";
    assert unclosed[|name|] == '(' && unclosed[..|name|] == name && key[|name|] == '(' && key[..|name|] == name;
    FindAt(unclosed, '(', |name|);
    FindAt(key, '(', |name|);
    LastParenthesis(unclosed);
    assert key[|name| + 1..|unclosed|] == inner;
    if ')' !in name + inner {
      NoParenthesis(unclosed);
    }
  }

  /** A list under a decision point's key is refused, not read as a rule with that predicate. */
  lemma {:induction false} ListUnderCallRefused(p: Leaves, key: string, items: seq<Yaml>, source: string)
    requires IsPdpKey(Trim(key)) && IsCallKey(key)
    ensures ParseStep(p, YMap([Entry(YString(key), YSeq(items))]), source) == Err(BodyNotMap)
  {
    var v := YMap([Entry(YString(key), YSeq(items))]);
    SingleKey(v.entries[0]);
    assert ParseStep(p, v, source) == ParseStepMap(p, v, source);
  }

  /** A key that calls a decision point. */
  predicate IsCallKey(key: string) { Trim(key) !in {"delegate", "restrict", "sequential", "parallel"} && SplitCall(key).Ok? }

  /** The call an entry makes: the text in its parentheses, or else its body without the reactions. */
  function CallOf(p: Leaves, key: string, entries: seq<Entry>): PdpCall
    requires SplitCall(key).Ok?
  {
    var call := SplitCall(key).value;
    PdpCall(Dialect(call.0), call.1.GetOr(p.pdpArgs(Arguments(entries))))
  }

  lemma {:induction false} DecisionPointCompiles(p: Leaves, key: string, entries: seq<Entry>, source: string)
    requires IsCallKey(key)
    requires ParseStep(p, YMap([Entry(YString(key), YMap(entries))]), source).Ok?
    ensures var onAllow := ReactionEffects(p, LastValue(entries, "on_allow"), source + "." + "on_allow");
            var onDeny := ReactionEffects(p, LastValue(entries, "on_deny"), source + "." + "on_deny");
            && onAllow.Ok? && onDeny.Ok?
            && TopEffect(ParseStep(p, YMap([Entry(YString(key), YMap(entries))]), source).value)
               == Pdp(CallOf(p, key, entries), onAllow.value, onDeny.value)
  {
    var body := YMap(entries);
    SingleKey(Entry(YString(key), body));
    var parts := PdpBody(p, body, source, 0, PdpParts([], [], []));
    BodyReads(p, body, source, 0, PdpParts([], [], []));
    assert entries[0..] == entries && [] + Arguments(entries) == Arguments(entries);
    var deny, allow := LastValue(entries, "on_deny"), LastValue(entries, "on_allow");
    if deny.Some? && deny.value.YSeq? {
      ReactionsCompile(p, deny.value.items, source + "." + "on_deny", 0);
    }
    if allow.Some? && allow.value.YSeq? {
      ReactionsCompile(p, allow.value.items, source + "." + "on_allow", 0);
    }
  }

  /**
   * A decision-point entry asks its call; an allow is followed by the entries under `on_allow:`, a deny
   * by those under `on_deny:`, after which it stands unless one of them stopped the request itself.
   */
  lemma {:induction false} DecisionPointWalks(
    env: Env, p: Leaves, key: string, entries: seq<Entry>, source: string, phase: DispatchPhase, s: State)
    requires IsCallKey(key)
    requires ParseStep(p, YMap([Entry(YString(key), YMap(entries))]), source).Ok?
    ensures var onAllow := ReactionEffects(p, LastValue(entries, "on_allow"), source + "." + "on_allow");
            var onDeny := ReactionEffects(p, LastValue(entries, "on_deny"), source + "." + "on_deny");
            var call := CallOf(p, key, entries);
            var reply := env.pdp(s.history, call, s.bag);
            var seen := s.(history := s.history + [PdpCalled(call, reply)]);
            var w := WalkEntry(env, p, YMap([Entry(YString(key), YMap(entries))]), source, phase, s);
            && onAllow.Ok? && onDeny.Ok?
            && (reply == Ok(Allowed) ==> w == DispatchAll(env, onAllow.value, "", phase, seen))
            && (reply.Ok? && reply.value.Denied? ==>
                  var reacted := DispatchAll(env, onDeny.value, "", phase, seen);
                  && w.state == reacted.state
                  && w.outcome == if reacted.outcome.Continue? then Halt(reply.value) else reacted.outcome)
            && (reply.Err? ==> w.outcome.Halt? && w.state == seen)
  {
    DecisionPointCompiles(p, key, entries, source);
  }

  // ---- Lines of text.

  /** A line of text does what it names: a rule acts when its condition holds, a taint labels, a plugin is called. */
  lemma {:induction false} TextWalks(env: Env, p: Leaves, text: string, source: string, phase: DispatchPhase, s: State)
    requires p.stepText(text, source).Ok?
    ensures ParseStep(p, YString(text), source).Ok?
    ensures var w := WalkEntry(env, p, YString(text), source, phase, s);
            match p.stepText(text, source).value
            case TextRule(condition, Permit) => w == Walked(Continue, s)
            case TextRule(condition, Refuse(reason, code)) =>
              && w.state == s
              && (!Predicates.Eval(env.f64, condition, s.bag) ==> w.outcome == Continue)
              && (Predicates.Eval(env.f64, condition, s.bag) ==>
                    && w.outcome.Halt? && w.outcome.decision.Denied?
                    && w.outcome.decision.ruleSource == (if code.Some? then code.value else source)
                    && w.outcome.decision.reason == (if reason.Some? then Some(Authored(reason.value)) else None))
            case TextTaint(event) => w == Walked(Continue, s.(taints := s.taints + [event]))
            case TextPlugin(name) =>
              var reply := env.plugin(s.history, name, s.bag, StepCall(phase));
              && w.state == s.(history := s.history + [PluginCalled(name, StepCall(phase), reply)],
                               taints := s.taints + if reply.Ok? then reply.value.taints else [])
              && (w.outcome.Continue? <==> reply.Ok? && reply.value.decision.Allowed?)
              && (reply.Ok? && reply.value.decision.Denied? ==> w.outcome == Halt(reply.value.decision))
              && (reply.Err? ==> w.outcome == Halt(Denied(Some(Described(PluginError(name))), "plugin:" + name)))
            case TextDelegate(delegation) => w == RunDelegate(env, delegation, s)
            case TextElicit(elicitation) => w == RunElicit(env, elicitation, s)
  {
    var parsed := p.stepText(text, source).value;
    assert s.taints + [] == s.taints;
    match parsed
    case TextRule(condition, action) =>
      OneEffect(env, ActionEffect(action), source, phase, s);
    case _ =>
  }

  // ---- Mappings.

  /** A `when:` / `do:` rule runs its body, under its own name, exactly when its condition holds. */
  lemma {:induction false} RuleWalks(
    env: Env, p: Leaves, when: string, body: Yaml, source: string, phase: DispatchPhase, s: State)
    requires ParseStep(p, YMap([Entry(YString("when"), YString(when)), Entry(YString("do"), body)]), source).Ok?
    ensures var condition, effects := Parser.ParsePredicate(when), ParseDoBody(p, body, source);
            && condition.Ok? && effects.Ok?
            && WalkEntry(env, p, YMap([Entry(YString("when"), YString(when)), Entry(YString("do"), body)]), source, phase, s)
               == if Predicates.Eval(env.f64, condition.value, s.bag) then DispatchAll(env, effects.value, source, phase, s)
                  else Walked(Continue, s)
  {
    WhenDoStep(p, when, body, source);
  }

  /** A rule's keys may come in any order with an `id:` among them; any other key refuses it. */
  lemma {:induction false} RuleKeysExactly(p: Leaves, entries: seq<Entry>, when: string, body: Yaml, source: string)
    requires Lookup(entries, "when") == Some(YString(when)) && Lookup(entries, "do") == Some(body)
    ensures if forall e :: e in entries ==> e.key == YString("when") || e.key == YString("do") || e.key == YString("id") then
              ParseStep(p, YMap(entries), source)
              == ParseStep(p, YMap([Entry(YString("when"), YString(when)), Entry(YString("do"), body)]), source)
            else ParseStep(p, YMap(entries), source) == Err(StrayKey)
  {
    var v := YMap(entries);
    WhenDoStep(p, when, body, source);
    assert ParseStep(p, v, source) == ParseStepMap(p, v, source);
    assert ParseStepMap(p, v, source) == ParseWhenDo(p, v, source);
    if stray :| stray in entries && !(stray.key == YString("when") || stray.key == YString("do") || stray.key == YString("id")) {
      var i :| 0 <= i < |entries| && entries[i] == stray;
      assert !AllowedInWhenDo(v.entries[i]);
    }
  }

  /** A body that is one text or one mapping is the list of that one item; anything else that is no list is refused. */
  lemma {:induction false} OneItemBody(p: Leaves, body: Yaml, source: string)
    ensures body.YString? || body.YMap? ==> ParseDoBody(p, body, source) == ParseDoBody(p, YSeq([body]), source)
    ensures !body.YString? && !body.YMap? && !body.YSeq? ==> ParseDoBody(p, body, source) == Err(DoShape)
  {
    var items := [body];
    assert items[1..] == [];
    assert ParseEffects(p, items[1..], source) == Ok([]);
    var first := ParseEffectValue(p, body, source);
    assert ParseEffects(p, items, source) == if first.Err? then Err(first.error) else Ok([first.value] + []);
    assert first.Ok? ==> [first.value] + [] == [first.value];
  }

  /** Bodies keep the order of the document, one effect for each item. */
  lemma {:induction false} BodyInOrder(p: Leaves, items: seq<Yaml>, source: string, i: nat)
    requires ParseEffects(p, items, source).Ok? && i < |items|
    ensures ParseEffectValue(p, items[i], source) == Ok(ParseEffects(p, items, source).value[i])
    decreases |items|
  {
    if i > 0 {
      BodyInOrder(p, items[1..], source, i - 1);
      assert items[1..][i - 1] == items[i];
    }
  }

  /** The words of a body that are no step: a bare allow or deny, a deny with arguments, a field operation. */
  lemma BodyWords(p: Leaves, text: string, source: string)
    ensures Trim(text) == "deny" ==> ParseEffectValue(p, YString(text), source) == Ok(Deny(None, None))
    ensures Trim(text) == "allow" ==> ParseEffectValue(p, YString(text), source) == Ok(Allow)
    ensures Trim(text) !in {"deny", "allow"} ==>
              && (forall reason, code :: p.denyCall(Trim(text)) == Ok(Some(Refuse(reason, code))) ==>
                    ParseEffectValue(p, YString(text), source) == Ok(Deny(reason, code)))
              && (forall path, stages :: p.denyCall(Trim(text)) == Ok(None) && p.fieldOp(Trim(text)) == Ok(Some((path, stages))) ==>
                    ParseEffectValue(p, YString(text), source) == Ok(FieldOp(path, stages)))
  {
    TrimTwice(text);
    assert "deny"[0] == 'd' && "allow"[0] == 'a';
  }

  lemma {:induction false} TrimStartTwice(s: string)
    ensures TrimStart(TrimStart(s)) == TrimStart(s)
    ensures TrimStart(s) != "" ==> !IsWhitespace(TrimStart(s)[0])
  {
    if s != "" && IsWhitespace(s[0]) {
      TrimStartTwice(s[1..]);
    }
  }

  lemma {:induction false} TrimEndKeeps(s: string)
    ensures TrimEnd(TrimEnd(s)) == TrimEnd(s)
    ensures TrimStart(s) == s ==> TrimStart(TrimEnd(s)) == TrimEnd(s)
  {
    if s != "" && IsWhitespace(s[|s| - 1]) {
      var t := s[..|s| - 1];
      TrimEndKeeps(t);
      if TrimStart(s) == s {
        StartsClean(s);
        assert t != "" ==> t[0] == s[0];
      }
    }
  }

  lemma {:induction false} StartsClean(s: string)
    ensures |TrimStart(s)| <= |s|
    ensures TrimStart(s) == s <==> s == "" || !IsWhitespace(s[0])
  {
    if s != "" && IsWhitespace(s[0]) {
      StartsClean(s[1..]);
    }
  }

  lemma TrimTwice(s: string)
    ensures Trim(Trim(s)) == Trim(s)
  {
    TrimStartTwice(s);
    TrimEndKeeps(TrimStart(s));
  }

  /** A `restrict:` over a list: a rule as a step of its own, a constraint inside a body. */
  predicate RestrictsList(entry: Yaml) {
    && entry.YMap? && |entry.entries| == 1
    && entry.entries[0].key.YString? && Trim(entry.entries[0].key.s) == "restrict" && entry.entries[0].value.YSeq?
  }

  lemma {:induction false} RestrictEntry(p: Leaves, key: string, body: Yaml, source: string)
    requires Trim(key) == "restrict"
    ensures var spec := p.restrictBody(body, source);
            ParseEffectValue(p, YMap([Entry(YString(key), body)]), source) == if spec.Err? then Err(spec.error) else Ok(Restrict(spec.value))
  {
    RestrictIsNoOtherKey();
  }

  lemma {:induction false} BodyEntryIsStep(p: Leaves, entry: Yaml, source: string)
    requires entry.YMap? && !RestrictsList(entry)
    ensures var step := ParseStep(p, entry, source);
            ParseEffectValue(p, entry, source) == if step.Err? then Err(step.error) else StepToEffect(step.value)
  {
    var key := if |entry.entries| == 1 && entry.entries[0].key.YString? then Trim(entry.entries[0].key.s) else "";
    if key == "sequential" || key == "parallel" {
      assert entry == YMap([Entry(YString(entry.entries[0].key.s), entry.entries[0].value)]);
      GroupPathsAgree(p, entry.entries[0].key.s, entry.entries[0].value, source);
    } else if key == "restrict" {
      assert entry == YMap([Entry(YString(entry.entries[0].key.s), entry.entries[0].value)]);
      RestrictEntry(p, entry.entries[0].key.s, entry.entries[0].value, source);
      RestrictStep(p, entry.entries[0].key.s, entry.entries[0].value, source);
    }
  }

  lemma {:induction false} RulesNameTheirEntry(p: Leaves, entry: Yaml, source: string)
    ensures var step := ParseStep(p, entry, source); step.Ok? && step.value.StepRule? ==> step.value.rule.source == source
  {
    if entry.YMap? {
      var step := ParseStepMap(p, entry, source);
      assert ParseStep(p, entry, source) == step;
      if Lookup(entry.entries, "when").Some? && Lookup(entry.entries, "do").Some? {
        assert step == ParseWhenDo(p, entry, source);
      } else if |entry.entries| == 1 && entry.entries[0].key.YString? {
        MappingRules(p, entry.entries[0].key.s, entry.entries[0].value, source);
        assert entry == YMap([Entry(YString(entry.entries[0].key.s), entry.entries[0].value)]);
      }
    }
  }

  lemma {:induction false} MappingRules(p: Leaves, whole: string, body: Yaml, source: string)
    ensures var step := ParseStep(p, YMap([Entry(YString(whole), body)]), source);
            step.Ok? && step.value.StepRule? ==> step.value.rule.source == source
  {
    var v := YMap([Entry(YString(whole), body)]);
    var step, key := ParseStepMap(p, v, source), Trim(whole);
    SingleKey(v.entries[0]);
    assert ParseStep(p, v, source) == step;
    if body.YSeq? && key !in {"delegate", "sequential", "parallel"} && !IsPdpKey(key) {
      assert step == ParseShorthand(p, key, body.items, source);
    }
  }

  /** Any other entry that parses both as a step and inside a body does the same in both places. */
  lemma {:induction false} BodyEntryWalksAlike(
    env: Env, p: Leaves, entry: Yaml, source: string, phase: DispatchPhase, s: State)
    requires entry.YString? ==>
               && Trim(entry.s) !in {"deny", "allow"}
               && p.denyCall(Trim(entry.s)) == Ok(None) && p.fieldOp(Trim(entry.s)) == Ok(None)
    requires !RestrictsList(entry)
    requires ParseStep(p, entry, source).Ok? && ParseEffectValue(p, entry, source).Ok?
    ensures Dispatch(env, ParseEffectValue(p, entry, source).value, source, phase, s)
         == Dispatch(env, TopEffect(ParseStep(p, entry, source).value), source, phase, s)
  {
    var step, e := ParseStep(p, entry, source).value, ParseEffectValue(p, entry, source).value;
    if entry.YString? {
      TrimTwice(entry.s);
    } else {
      BodyEntryIsStep(p, entry, source);
    }
    RulesNameTheirEntry(p, entry, source);
    if step.StepRule? {
      assert step.rule.effects == [e];
      OneEffect(env, e, source, phase, s);
    }
  }

  /** A group of its own runs its items as a sequence or as a block, whatever the attributes hold. */
  lemma {:induction false} GroupWalks(env: Env, p: Leaves, key: string, items: seq<Yaml>, source: string, phase: DispatchPhase, s: State)
    requires Trim(key) == "sequential" || Trim(key) == "parallel"
    requires ParseStep(p, YMap([Entry(YString(key), YSeq(items))]), source).Ok?
    ensures ParseEffects(p, items, source).Ok?
    ensures var effects := ParseEffects(p, items, source).value;
            WalkEntry(env, p, YMap([Entry(YString(key), YSeq(items))]), source, phase, s)
            == if Trim(key) == "sequential" then DispatchAll(env, effects, source, phase, s)
               else Dispatch(env, Parallel(effects), source, phase, s)
  {
    GroupStep(p, key, YSeq(items), source);
    var effects := ParseEffects(p, items, source);
    if effects.Ok? {
      var group := if Trim(key) == "sequential" then Sequential(effects.value) else Parallel(effects.value);
      OneEffect(env, group, source, phase, s);
      assert ParseStep(p, YMap([Entry(YString(key), YSeq(items))]), source) == Ok(StepRule(Rule(Always, [group], source)));
    }
  }

  /** A restriction of its own restricts as its body says. */
  lemma {:induction false} RestrictWalks(env: Env, p: Leaves, key: string, body: Yaml, source: string, phase: DispatchPhase, s: State)
    requires Trim(key) == "restrict" && !body.YSeq? && ParseStep(p, YMap([Entry(YString(key), body)]), source).Ok?
    ensures p.restrictBody(body, source).Ok?
    ensures WalkEntry(env, p, YMap([Entry(YString(key), body)]), source, phase, s)
         == RunRestrict(p.restrictBody(body, source).value, "", s)
  {
    RestrictStep(p, key, body, source);
  }

  /** A delegation delegates as its body says. */
  lemma {:induction false} DelegateWalks(env: Env, p: Leaves, key: string, body: Yaml, source: string, phase: DispatchPhase, s: State)
    requires Trim(key) == "delegate" && ParseStep(p, YMap([Entry(YString(key), body)]), source).Ok?
    ensures p.delegateBody(body, source).Ok?
    ensures WalkEntry(env, p, YMap([Entry(YString(key), body)]), source, phase, s)
         == RunDelegate(env, p.delegateBody(body, source).value, s)
  {
    var v := YMap([Entry(YString(key), body)]);
    var parsed := p.delegateBody(body, source);
    SingleKey(v.entries[0]);
    assert "delegate"[0] == 'd' && "restrict"[0] == 'r';
    assert ParseStep(p, v, source) == ParseStepMap(p, v, source);
    assert parsed.Ok? && ParseStepMap(p, v, source) == Ok(StepDelegate(parsed.value));
  }

  /** A phase walks its entries in the order of the document, each from where the one before it continued. */
  lemma {:induction false} PhaseWalksEntries(
    env: Env, p: Leaves, entries: seq<Yaml>, source: string, at: nat, phase: DispatchPhase, s: State)
    requires at < |entries| && EntriesFrom(p, entries, source, at).Ok?
    ensures var name := source + "[" + Decimal(at) + "]";
            && ParseStep(p, entries[at], name).Ok? && EntriesFrom(p, entries, source, at + 1).Ok?
            && var first := WalkEntry(env, p, entries[at], name, phase, s);
               DispatchAll(env, EntriesFrom(p, entries, source, at).value, "", phase, s)
               == if first.outcome.Continue? then DispatchAll(env, EntriesFrom(p, entries, source, at + 1).value, "", phase, first.state)
                  else first
  {
  }
}
