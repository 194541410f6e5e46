/**
 * The ordered authorization chain: a builder whose calls compile to a first-match decision, and the
 * layer that applies the decision to requests.
 *
 * Path patterns and token decoding are parameters: any total functions will do.
 */
module Authorization {
  import opened Wrappers
  import opened TokenExtraction

  datatype Claims<E> = Claims(subject: string, ext: E)

  datatype Effect<!E> = PermitAll | Authenticated | HasRole(predicate_: E -> bool)

  /** `methods` restricts the rule to some methods; without it any method matches. */
  datatype Rule<!E> = Rule(methods: Option<seq<string>>, pattern: string, effect: Effect<E>)

  /** The pattern syntax: the error a pattern is refused with, and which paths a pattern matches. */
  datatype Patterns = Patterns(refuse: string -> Option<string>, matches: (string, string) -> bool)

  datatype PatternSpec = Pattern(pattern: string) | AnyRequest

  datatype BuildError = MissingAnyRequest | InvalidPattern(error: string)

  // ---- the chain as a list of calls ------------------------------------------------------------

  /** One finished call of the builder. */
  datatype Call<!E> =
    | AddRule(methods: Option<seq<string>>, spec: PatternSpec, effect: Effect<E>)
    | SetCookieName(name: string)
    | SetValidator(validator: Claims<E> -> bool)

  predicate IsMatcher<E>(c: Call<E>) {
    c.AddRule? && c.spec.Pattern?
  }

  /** The matcher rules, in the order they were added. */
  ghost function Matchers<E>(calls: seq<Call<E>>): seq<Rule<E>> {
    if calls == [] then []
    else
      var front, c := calls[..|calls| - 1], calls[|calls| - 1];
      if IsMatcher(c) then Matchers(front) + [Rule(c.methods, c.spec.pattern, c.effect)] else Matchers(front)
  }

  /** The effect of the last `any_request`; whatever methods it was given do not matter. */
  ghost function LastAny<E>(calls: seq<Call<E>>): Option<Effect<E>> {
    if calls == [] then None
    else
      var c := calls[|calls| - 1];
      if c.AddRule? && c.spec.AnyRequest? then Some(c.effect) else LastAny(calls[..|calls| - 1])
  }

  ghost function LastCookieName<E>(calls: seq<Call<E>>): Option<string> {
    if calls == [] then None
    else
      var c := calls[|calls| - 1];
      if c.SetCookieName? then Some(c.name) else LastCookieName(calls[..|calls| - 1])
  }

  ghost function LastValidator<E>(calls: seq<Call<E>>): Option<Claims<E> -> bool> {
    if calls == [] then None
    else
      var c := calls[|calls| - 1];
      if c.SetValidator? then Some(c.validator) else LastValidator(calls[..|calls| - 1])
  }

  lemma CallAdded<E>(calls: seq<Call<E>>, c: Call<E>)
    ensures Matchers(calls + [c]) ==
            if IsMatcher(c) then Matchers(calls) + [Rule(c.methods, c.spec.pattern, c.effect)] else Matchers(calls)
    ensures LastAny(calls + [c]) == if c.AddRule? && c.spec.AnyRequest? then Some(c.effect) else LastAny(calls)
    ensures LastCookieName(calls + [c]) == if c.SetCookieName? then Some(c.name) else LastCookieName(calls)
    ensures LastValidator(calls + [c]) == if c.SetValidator? then Some(c.validator) else LastValidator(calls)
  {
    assert (calls + [c])[..|calls|] == calls;
  }

  /** The error of the first refused pattern. */
  ghost function FirstRefusal<E>(p: Patterns, rules: seq<Rule<E>>): Option<string> {
    if rules == [] then None
    else if p.refuse(rules[0].pattern).Some? then p.refuse(rules[0].pattern)
    else FirstRefusal(p, rules[1..])
  }

  /** The rules whose pattern compiled. */
  ghost function Compiled<E>(p: Patterns, rules: seq<Rule<E>>): seq<Rule<E>> {
    if rules == [] then []
    else (if p.refuse(rules[0].pattern).None? then [rules[0]] else []) + Compiled(p, rules[1..])
  }

  lemma {:induction false} RuleAdded<E>(p: Patterns, rules: seq<Rule<E>>, rule: Rule<E>)
    ensures FirstRefusal(p, rules + [rule]) ==
            if FirstRefusal(p, rules).Some? then FirstRefusal(p, rules) else p.refuse(rule.pattern)
    ensures Compiled(p, rules + [rule]) ==
            Compiled(p, rules) + if p.refuse(rule.pattern).None? then [rule] else []
  {
    if rules == [] {
      assert rules + [rule] == [rule] && [rule][1..] == [];
    } else {
      RuleAdded(p, rules[1..], rule);
      assert (rules + [rule])[1..] == rules[1..] + [rule];
    }
  }

  ghost predicate AllCompile<E>(p: Patterns, rules: seq<Rule<E>>) {
    forall i :: 0 <= i < |rules| ==> p.refuse(rules[i].pattern).None?
  }

  lemma {:induction false} RefusalMeansSome<E>(p: Patterns, rules: seq<Rule<E>>)
    ensures FirstRefusal(p, rules).None? <==> AllCompile(p, rules)
    ensures FirstRefusal(p, rules).None? ==> Compiled(p, rules) == rules
  {
    if rules == [] {
    } else {
      RefusalMeansSome(p, rules[1..]);
    }
  }

  // ---- the builder --------------------------------------------------------------------------------

  /** A rule in the making: the builder it belongs to, its methods and its pattern. */
  datatype RequestMatcher<!E> = RequestMatcher(methods: Option<seq<string>>, spec: PatternSpec)

  /** The built chain. */
  datatype Chain<!E> = Chain(rules: seq<Rule<E>>, anyRequest: Effect<E>,
                             claimsValidator: Option<Claims<E> -> bool>, cookieName: Option<string>)

  /** What a build makes of a list of calls; a refused pattern is reported before a missing terminal rule. */
  ghost function BuiltFrom<E>(p: Patterns, calls: seq<Call<E>>): Result<Chain<E>, BuildError> {
    var rules, last := Matchers(calls), LastAny(calls);
    if FirstRefusal(p, rules).Some? then Err(InvalidPattern(FirstRefusal(p, rules).value))
    else if last.None? then Err(MissingAnyRequest)
    else Ok(Chain(rules, last.value, LastValidator(calls), LastCookieName(calls)))
  }

  class AuthorizationBuilder<!E> {
    const patterns: Patterns
    var rules: seq<Rule<E>>
    var anyRequest: Option<Effect<E>>
    var claimsValidator: Option<Claims<E> -> bool>
    var cookieName: Option<string>
    var poisoned: Option<string>
    /** The calls made so far. */
    ghost var calls: seq<Call<E>>

    ghost predicate Valid()
      reads this
    {
      && rules == Compiled(patterns, Matchers(calls))
      && anyRequest == LastAny(calls)
      && poisoned == FirstRefusal(patterns, Matchers(calls))
      && claimsValidator == LastValidator(calls)
      && cookieName == LastCookieName(calls)
    }

    constructor (patterns: Patterns)
      ensures Valid() && calls == [] && this.patterns == patterns
    {
      this.patterns := patterns;
      rules, anyRequest, claimsValidator, cookieName, poisoned := [], None, None, None, None;
      calls := [];
    }

    /** Finishes a rule with its effect. */
    method Finish(matcher: RequestMatcher<E>, effect: Effect<E>)
      requires Valid()
      modifies this
      ensures Valid() && calls == old(calls) + [AddRule(matcher.methods, matcher.spec, effect)]
    {
      hide Matchers, LastAny, LastValidator, LastCookieName, Compiled, FirstRefusal;
      ghost var call := AddRule(matcher.methods, matcher.spec, effect);
      CallAdded(calls, call);
      match matcher.spec {
        case AnyRequest =>
          anyRequest := Some(effect);
        case Pattern(pattern) =>
          RuleAdded(patterns, Matchers(calls), Rule(matcher.methods, pattern, effect));
          match patterns.refuse(pattern) {
            case None => rules := rules + [Rule(matcher.methods, pattern, effect)];
            case Some(err) => Poison(err);
          }
      }
      calls := calls + [call];
    }

    /** Keeps the first error. */
    method Poison(err: string)
      modifies this`poisoned
      ensures poisoned == if old(poisoned).Some? then old(poisoned) else Some(err)
    {
      if poisoned.None? {
        poisoned := Some(err);
      }
    }

    /** A rule for requests whose claims satisfy at least one of the predicates. */
    method HasAnyRole(matcher: RequestMatcher<E>, predicates: seq<E -> bool>)
      requires Valid()
      modifies this
      ensures Valid() && |calls| == |old(calls)| + 1 && calls[..|old(calls)|] == old(calls)
      ensures var c := calls[|old(calls)|];
              && c.AddRule? && c.methods == matcher.methods && c.spec == matcher.spec && c.effect.HasRole?
              && forall e :: c.effect.predicate_(e) <==> exists i :: 0 <= i < |predicates| && predicates[i](e)
    {
      Finish(matcher, HasRole(e => exists i :: 0 <= i < |predicates| && predicates[i](e)));
    }

    method CookieName(name: string)
      requires Valid()
      modifies this
      ensures Valid() && calls == old(calls) + [SetCookieName(name)]
    {
      cookieName := Some(name);
      CallAdded(calls, SetCookieName(name));
      calls := calls + [SetCookieName(name)];
    }

    method WithClaimsValidator(validator: Claims<E> -> bool)
      requires Valid()
      modifies this
      ensures Valid() && calls == old(calls) + [SetValidator(validator)]
    {
      claimsValidator := Some(validator);
      CallAdded(calls, SetValidator(validator));
      calls := calls + [SetValidator(validator)];
    }

    /** The chain, if every pattern compiled and a terminal rule was given. */
    method Build() returns (r: Result<Chain<E>, BuildError>)
      requires Valid()
      ensures r == BuiltFrom(patterns, calls)
      ensures r.Ok? <==>
                && LastAny(calls).Some?
                && AllCompile(patterns, Matchers(calls))
      ensures r.Ok? ==> r.value.rules == Matchers(calls) && Some(r.value.anyRequest) == LastAny(calls)
    {
      RefusalMeansSome(patterns, Matchers(calls));
      if poisoned.Some? {
        return Err(InvalidPattern(poisoned.value));
      }
      if anyRequest.None? {
        return Err(MissingAnyRequest);
      }
      r := Ok(Chain(rules, anyRequest.value, claimsValidator, cookieName));
    }
  }

  /** Call `i` is the first whose pattern is refused, with this error. */
  predicate RefusedFirst<E>(p: Patterns, calls: seq<Call<E>>, i: nat, error: string) {
    && i < |calls| && calls[i].AddRule? && calls[i].spec.Pattern?
    && p.refuse(calls[i].spec.pattern) == Some(error)
    && forall j :: 0 <= j < i && calls[j].AddRule? && calls[j].spec.Pattern? ==>
         p.refuse(calls[j].spec.pattern) == None
  }

  lemma {:induction false} FirstRefused<E>(p: Patterns, calls: seq<Call<E>>, j: nat) returns (i: nat, error: string)
    requires j < |calls| && calls[j].AddRule? && calls[j].spec.Pattern? && p.refuse(calls[j].spec.pattern).Some?
    ensures i <= j && RefusedFirst(p, calls, i, error)
  {
    if k: nat :| k < j && calls[k].AddRule? && calls[k].spec.Pattern? && p.refuse(calls[k].spec.pattern).Some? {
      i, error := FirstRefused(p, calls, k);
    } else {
      i, error := j, p.refuse(calls[j].spec.pattern).value;
    }
  }

  lemma RefusedFirstSnoc<E>(p: Patterns, front: seq<Call<E>>, c: Call<E>)
    ensures forall i: nat, error :: i < |front| ==>
              (RefusedFirst(p, front + [c], i, error) <==> RefusedFirst(p, front, i, error))
    ensures forall error :: RefusedFirst(p, front + [c], |front|, error) <==>
              && c.AddRule? && c.spec.Pattern? && p.refuse(c.spec.pattern) == Some(error)
              && forall i: nat, e :: !RefusedFirst(p, front, i, e)
    ensures forall i: nat, error :: RefusedFirst(p, front, i, error) ==> i < |front|
  {
    var calls := front + [c];
    assert forall i :: 0 <= i < |front| ==> calls[i] == front[i];
    if j: nat :| j < |front| && front[j].AddRule? && front[j].spec.Pattern? && p.refuse(front[j].spec.pattern) != None {
      var i, error := FirstRefused(p, front, j);
    }
  }

  lemma {:induction false} RefusalIs<E>(p: Patterns, calls: seq<Call<E>>)
    ensures forall error :: FirstRefusal(p, Matchers(calls)) == Some(error) <==>
              exists i: nat :: RefusedFirst(p, calls, i, error)
    decreases |calls|
  {
    if calls == [] {
    } else {
      var front, c := calls[..|calls| - 1], calls[|calls| - 1];
      RefusalIs(p, front);
      assert calls == front + [c];
      CallAdded(front, c);
      if IsMatcher(c) {
        RuleAdded(p, Matchers(front), Rule(c.methods, c.spec.pattern, c.effect));
      }
      hide Matchers, FirstRefusal;
      RefusedFirstSnoc(p, front, c);
    }
  }

  lemma {:induction false} TerminalIs<E>(calls: seq<Call<E>>)
    ensures LastAny(calls) == None <==>
            forall i :: 0 <= i < |calls| && calls[i].AddRule? ==> !calls[i].spec.AnyRequest?
    decreases |calls|
  {
    if calls == [] {
    } else {
      var front := calls[..|calls| - 1];
      TerminalIs(front);
      assert forall i :: 0 <= i < |front| ==> front[i] == calls[i];
    }
  }

  /** A chain is refused for its first refused pattern, or else for want of a terminal rule, and for nothing else. */
  lemma RefusedExactlyWhen<E>(p: Patterns, calls: seq<Call<E>>)
    ensures forall error :: BuiltFrom(p, calls) == Err(InvalidPattern(error)) <==>
              exists i: nat :: RefusedFirst(p, calls, i, error)
    ensures BuiltFrom(p, calls) == Err(MissingAnyRequest) <==>
            && (forall i: nat, error :: !RefusedFirst(p, calls, i, error))
            && (forall i :: 0 <= i < |calls| && calls[i].AddRule? ==> !calls[i].spec.AnyRequest?)
  {
    RefusalIs(p, calls);
    TerminalIs(calls);
    hide Matchers, LastAny, FirstRefusal, RefusedFirst;
    var first := FirstRefusal(p, Matchers(calls));
    forall error ensures first == Some(error) <==> exists i: nat :: RefusedFirst(p, calls, i, error) {
    }
    if first.Some? {
      assert first == Some(first.value);
    }
    forall i: nat, error | RefusedFirst(p, calls, i, error) ensures first == Some(error) {
    }
  }

  // ---- the decision --------------------------------------------------------------------------------

  predicate Applies<E>(p: Patterns, rule: Rule<E>, httpMethod: string, path: string) {
    (rule.methods.Some? ==> httpMethod in rule.methods.value) && p.matches(rule.pattern, path)
  }

  /** The effect of the first rule that applies, or of the terminal rule. */
  function Select<E>(p: Patterns, rules: seq<Rule<E>>, anyRequest: Effect<E>, httpMethod: string, path: string)
    : (r: Effect<E>)
    ensures (exists i :: 0 <= i < |rules| && rules[i].effect == r && Applies(p, rules[i], httpMethod, path) &&
               forall j :: 0 <= j < i ==> !Applies(p, rules[j], httpMethod, path))
            || (r == anyRequest && forall j :: 0 <= j < |rules| ==> !Applies(p, rules[j], httpMethod, path))
  {
    if rules == [] then anyRequest
    else if Applies(p, rules[0], httpMethod, path) then
      assert Applies(p, rules[0], httpMethod, path) && rules[0].effect == rules[0].effect;
      rules[0].effect
    else
      var r := Select(p, rules[1..], anyRequest, httpMethod, path);
      assert forall i :: 0 <= i < |rules| - 1 ==> rules[1..][i] == rules[i + 1];
      r
  }

  datatype Outcome = Allow | Unauthorized | Forbidden

  /** The claims of the token, if it decodes and the validator, if any, accepts them. */
  function Trusted<E>(token: Option<string>, decode: string -> Option<Claims<E>>,
                      validator: Option<Claims<E> -> bool>): Option<Claims<E>> {
    if token.None? then None
    else match decode(token.value)
      case None => None
      case Some(claims) => if validator.None? || validator.value(claims) then Some(claims) else None
  }

  /** Request extensions, as far as the security context goes. */
  class Extensions<!E> {
    var context: Option<Claims<E>>

    constructor (context: Option<Claims<E>>)
      ensures this.context == context
    {
      this.context := context;
    }
  }

  /** 401 without trusted claims, 403 with trusted claims that lack the role. */
  function Decision<E>(effect: Effect<E>, trusted: Option<Claims<E>>): Outcome {
    match effect
    case PermitAll => Allow
    case Authenticated => if trusted.Some? then Allow else Unauthorized
    case HasRole(predicate_) =>
      if trusted.None? then Unauthorized else if predicate_(trusted.value.ext) then Allow else Forbidden
  }

  /**
   * Applies an effect. Only trusted claims become the context of the request; a rejected request
   * leaves the context as it was.
   */
  method ApplyEffect<E>(effect: Effect<E>, token: Option<string>, decode: string -> Option<Claims<E>>,
                        validator: Option<Claims<E> -> bool>, extensions: Extensions<E>) returns (r: Outcome)
    modifies extensions
    ensures r == Decision(effect, Trusted(token, decode, validator))
    ensures extensions.context ==
            if r == Allow && Trusted(token, decode, validator).Some? then Trusted(token, decode, validator)
            else old(extensions.context)
  {
    match effect
    case PermitAll =>
      if token.Some? {
        var decoded := decode(token.value);
        if decoded.Some? {
          var valid := match validator case Some(v) => v(decoded.value) case None => true;
          if valid {
            extensions.context := decoded;
          }
        }
      }
      r := Allow;
    case Authenticated =>
      var decoded := if token.Some? then decode(token.value) else None;
      match decoded {
        case None => r := Unauthorized;
        case Some(claims) =>
          if validator.Some? && !validator.value(claims) {
            return Unauthorized;
          }
          extensions.context := decoded;
          r := Allow;
      }
    case HasRole(predicate_) =>
      var decoded := if token.Some? then decode(token.value) else None;
      match decoded {
        case None => r := Unauthorized;
        case Some(claims) =>
          if validator.Some? && !validator.value(claims) {
            return Unauthorized;
          }
          if predicate_(claims.ext) {
            extensions.context := decoded;
            r := Allow;
          } else {
            r := Forbidden;
          }
      }
  }

  /** The decision of a chain on a request. */
  function Decide<E>(p: Patterns, chain: Chain<E>, decode: string -> Option<Claims<E>>,
                     httpMethod: string, path: string, token: Option<string>): Outcome {
    Decision(Select(p, chain.rules, chain.anyRequest, httpMethod, path),
             Trusted(token, decode, chain.claimsValidator))
  }

  // ---- what the order of calls means ------------------------------------------------------------------

  /** Terminal rules and settings may be moved anywhere among the matchers. */
  lemma {:induction false} MatchersOfConcat<E>(a: seq<Call<E>>, b: seq<Call<E>>)
    ensures Matchers(a + b) == Matchers(a) + Matchers(b)
    ensures LastAny(a + b) == if LastAny(b).Some? then LastAny(b) else LastAny(a)
    ensures LastValidator(a + b) == if LastValidator(b).Some? then LastValidator(b) else LastValidator(a)
    ensures LastCookieName(a + b) == if LastCookieName(b).Some? then LastCookieName(b) else LastCookieName(a)
    decreases |b|
  {
    if b == [] {
      assert a + b == a;
    } else {
      MatchersOfConcat(a, b[..|b| - 1]);
      assert (a + b)[..|a + b| - 1] == a + b[..|b| - 1];
    }
  }

  function Later<T>(a: Option<T>, b: Option<T>): Option<T> {
    if a.Some? then a else b
  }

  lemma ThreeParts<E>(a: seq<Call<E>>, u: Call<E>, v: Call<E>, b: seq<Call<E>>)
    ensures var s := a + [u, v] + b;
            && Matchers(s) == Matchers(a) + (Matchers([u]) + Matchers([v])) + Matchers(b)
            && LastAny(s) == Later(LastAny(b), Later(Later(LastAny([v]), LastAny([u])), LastAny(a)))
            && LastValidator(s) ==
                 Later(LastValidator(b), Later(Later(LastValidator([v]), LastValidator([u])), LastValidator(a)))
            && LastCookieName(s) ==
                 Later(LastCookieName(b), Later(Later(LastCookieName([v]), LastCookieName([u])), LastCookieName(a)))
  {
    hide Matchers, LastAny, LastValidator, LastCookieName;
    assert [u, v] == [u] + [v];
    MatchersOfConcat([u], [v]);
    MatchersOfConcat(a, [u, v]);
    MatchersOfConcat(a + [u, v], b);
  }

  /** A call that adds no matcher may change places with a matcher call. */
  lemma NonMatchersCommute<E>(p: Patterns, a: seq<Call<E>>, x: Call<E>, y: Call<E>, b: seq<Call<E>>)
    requires !IsMatcher(x) && IsMatcher(y)
    ensures BuiltFrom(p, a + [x, y] + b) == BuiltFrom(p, a + [y, x] + b)
  {
    assert [x, y] == [x] + [y] && [y, x] == [y] + [x];
    ThreeParts(a, x, y, b);
    ThreeParts(a, y, x, b);
    assert [x][..0] == [] && [y][..0] == [];
    assert Matchers([x]) == [] && LastAny([y]) == None && LastValidator([y]) == None && LastCookieName([y]) == None;
    assert Matchers([x]) + Matchers([y]) == Matchers([y]) == Matchers([y]) + Matchers([x]);
  }

  ghost function RuleCalls<E>(rules: seq<Rule<E>>): seq<Call<E>> {
    if rules == [] then []
    else
      var last := rules[|rules| - 1];
      RuleCalls(rules[..|rules| - 1]) + [AddRule(last.methods, Pattern(last.pattern), last.effect)]
  }

  /** The calls that count: every matcher in its order, then the last terminal rule and the last settings. */
  ghost function NormalForm<E>(calls: seq<Call<E>>): seq<Call<E>> {
    var settled := if LastAny(calls).None? then RuleCalls(Matchers(calls))
                   else RuleCalls(Matchers(calls)) + [AddRule(None, AnyRequest, LastAny(calls).value)];
    var named := if LastCookieName(calls).None? then settled
                 else settled + [SetCookieName(LastCookieName(calls).value)];
    if LastValidator(calls).None? then named else named + [SetValidator(LastValidator(calls).value)]
  }

  lemma {:induction false} RuleCallsAreMatchers<E>(rules: seq<Rule<E>>)
    ensures Matchers(RuleCalls(rules)) == rules
    ensures LastAny(RuleCalls(rules)) == None && LastCookieName(RuleCalls(rules)) == None
    ensures LastValidator(RuleCalls(rules)) == None
    decreases |rules|
  {
    if rules == [] {
    } else {
      var last := rules[|rules| - 1];
      RuleCallsAreMatchers(rules[..|rules| - 1]);
      CallAdded(RuleCalls(rules[..|rules| - 1]), AddRule(last.methods, Pattern(last.pattern), last.effect));
      assert rules == rules[..|rules| - 1] + [Rule(last.methods, last.pattern, last.effect)];
    }
  }

  /**
   * Only the matcher rules in their order, the last terminal rule and the last settings count: a
   * chain of calls builds what its normal form builds, so two chains with the same matchers and
   * the same last calls build the same layer, or fail alike.
   */
  lemma BuildsAsNormalForm<E>(p: Patterns, calls: seq<Call<E>>)
    ensures BuiltFrom(p, calls) == BuiltFrom(p, NormalForm(calls))
  {
    RuleCallsAreMatchers(Matchers(calls));
    var last, cookie, validator := LastAny(calls), LastCookieName(calls), LastValidator(calls);
    var c0 := RuleCalls(Matchers(calls));
    var c1 := if last.Some? then c0 + [AddRule(None, AnyRequest, last.value)] else c0;
    var c2 := if cookie.Some? then c1 + [SetCookieName(cookie.value)] else c1;
    var c3 := if validator.Some? then c2 + [SetValidator(validator.value)] else c2;
    assert NormalForm(calls) == c3;
    hide Matchers, LastAny, LastCookieName, LastValidator, RuleCalls, NormalForm, FirstRefusal;
    if last.Some? {
      CallAdded(c0, AddRule(None, AnyRequest, last.value));
    }
    if cookie.Some? {
      CallAdded(c1, SetCookieName(cookie.value));
    }
    if validator.Some? {
      CallAdded(c2, SetValidator(validator.value));
    }
  }

  /** Methods given to a terminal rule are ignored. */
  lemma TerminalMethodsIgnored<E>(p: Patterns, a: seq<Call<E>>, methods: Option<seq<string>>,
                                  other: Option<seq<string>>, effect: Effect<E>, b: seq<Call<E>>)
    ensures BuiltFrom(p, a + [AddRule(methods, AnyRequest, effect)] + b) ==
            BuiltFrom(p, a + [AddRule(other, AnyRequest, effect)] + b)
  {
    var x, y := AddRule(methods, AnyRequest, effect), AddRule(other, AnyRequest, effect);
    CallAdded(a, x);
    CallAdded(a, y);
    hide Matchers, LastAny, LastValidator, LastCookieName, FirstRefusal;
    MatchersOfConcat(a + [x], b);
    MatchersOfConcat(a + [y], b);
  }

  /** Every request a rule applies to is caught by an earlier rule. */
  ghost predicate Covered<E>(p: Patterns, rules: seq<Rule<E>>, i: nat)
    requires i < |rules|
  {
    forall m, path :: Applies(p, rules[i], m, path) ==> exists j :: 0 <= j < i && Applies(p, rules[j], m, path)
  }

  lemma {:induction false} SelectOfConcat<E>(p: Patterns, a: seq<Rule<E>>, b: seq<Rule<E>>, any: Effect<E>,
                                             m: string, path: string)
    ensures Select(p, a + b, any, m, path) == Select(p, a, Select(p, b, any, m, path), m, path)
  {
    hide Applies;
    if a == [] {
      assert a + b == b;
    } else {
      SelectOfConcat(p, a[1..], b, any, m, path);
      assert (a + b)[1..] == a[1..] + b;
    }
  }

  lemma {:induction false} EarlierRuleDecides<E>(p: Patterns, a: seq<Rule<E>>, j: nat, x: Effect<E>, y: Effect<E>,
                                                 m: string, path: string)
    requires j < |a| && Applies(p, a[j], m, path)
    ensures Select(p, a, x, m, path) == Select(p, a, y, m, path)
  {
    if Applies(p, a[0], m, path) {
    } else {
      EarlierRuleDecides(p, a[1..], j - 1, x, y, m, path);
    }
  }

  lemma {:induction false} NoRuleDecides<E>(p: Patterns, a: seq<Rule<E>>, x: Effect<E>, m: string, path: string)
    requires forall j :: 0 <= j < |a| ==> !Applies(p, a[j], m, path)
    ensures Select(p, a, x, m, path) == x
  {
    if a == [] {
    } else {
      assert !Applies(p, a[0], m, path);
      assert forall j :: 0 <= j < |a[1..]| ==> a[1..][j] == a[j + 1];
      NoRuleDecides(p, a[1..], x, m, path);
    }
  }

  lemma DeleteCovered<E>(p: Patterns, rules: seq<Rule<E>>, i: nat, e: Effect<E>, rest: seq<Rule<E>>, any: Effect<E>,
                         m: string, path: string)
    requires i < |rules| && Covered(p, rules, i)
    ensures Select(p, rules[..i] + [rules[i].(effect := e)] + rest, any, m, path) ==
            Select(p, rules[..i] + rest, any, m, path)
  {
    var front, rule := rules[..i], rules[i].(effect := e);
    assert front + [rule] + rest == front + ([rule] + rest);
    SelectOfConcat(p, front, [rule] + rest, any, m, path);
    SelectOfConcat(p, front, rest, any, m, path);
    assert ([rule] + rest)[1..] == rest;
    if Applies(p, rule, m, path) {
      assert Applies(p, rules[i], m, path);
      var j :| 0 <= j < i && Applies(p, rules[j], m, path);
      assert front[j] == rules[j];
      EarlierRuleDecides(p, front, j, Select(p, [rule] + rest, any, m, path), Select(p, rest, any, m, path), m, path);
    }
  }

  /**
   * A covered rule can be deleted, and only a covered rule can be deleted whatever its effect and
   * the rules behind it are: deleting rule `i` never shows exactly when earlier rules cover it.
   */
  lemma DeletableExactlyWhenCovered<E>(p: Patterns, rules: seq<Rule<E>>, i: nat)
    requires i < |rules|
    ensures Covered(p, rules, i) <==>
            forall e, rest, any, m, path ::
              Select(p, rules[..i] + [rules[i].(effect := e)] + rest, any, m, path) ==
              Select(p, rules[..i] + rest, any, m, path)
  {
    var front := rules[..i];
    if Covered(p, rules, i) {
      forall e, rest, any, m, path
        ensures Select(p, front + [rules[i].(effect := e)] + rest, any, m, path) == Select(p, front + rest, any, m, path)
      {
        DeleteCovered(p, rules, i, e, rest, any, m, path);
      }
    }
    if !Covered(p, rules, i) {
      var m, path :| Applies(p, rules[i], m, path) && forall j :: 0 <= j < i ==> !Applies(p, rules[j], m, path);
      var rule := rules[i].(effect := PermitAll);
      assert forall j :: 0 <= j < |front| ==> front[j] == rules[j];
      SelectOfConcat(p, front, [rule], Authenticated, m, path);
      NoRuleDecides(p, front, PermitAll, m, path);
      NoRuleDecides(p, front, Authenticated, m, path);
      assert front + [rule] + [] == front + [rule] && front + [] == front;
      assert Select(p, [rule], Authenticated, m, path) == PermitAll;
      assert Select(p, front + [rules[i].(effect := PermitAll)] + [], Authenticated, m, path) !=
             Select(p, front + [], Authenticated, m, path);
    }
  }

  // ---- requests ------------------------------------------------------------------------------------------

  datatype Request<!E> = Request(httpMethod: string, path: string, headers: Headers, context: Option<Claims<E>>)

  /** The inner service gets the request with its context; a rejected request never reaches it. */
  datatype Response<!E> = Forwarded(context: Option<Claims<E>>) | Rejected(status: nat)

  /** The response to a request: forwarded with trusted claims, if there are any, or rejected. */
  function Respond<E>(p: Patterns, chain: Chain<E>, decode: string -> Option<Claims<E>>, request: Request<E>): Response<E> {
    var token := ExtractToken(request.headers, chain.cookieName);
    var trusted := Trusted(token, decode, chain.claimsValidator);
    match Decide(p, chain, decode, request.httpMethod, request.path, token)
    case Allow => Forwarded(if trusted.Some? then trusted else request.context)
    case Unauthorized => Rejected(401)
    case Forbidden => Rejected(403)
  }

  function StatusOf(o: Outcome): Option<nat> {
    match o case Allow => None case Unauthorized => Some(401) case Forbidden => Some(403)
  }

  /** The failures counted so far, by method and status; none until the first failure. */
  class FailureCounter {
    var counts: Option<multiset<(string, nat)>>

    constructor ()
      ensures counts == None
    {
      counts := None;
    }

    method Add(httpMethod: string, status: nat)
      modifies this
      ensures counts == Some((if old(counts).Some? then old(counts).value else multiset{}) + multiset{(httpMethod, status)})
    {
      if counts.None? {
        counts := Some(multiset{});
      }
      counts := Some(counts.value + multiset{(httpMethod, status)});
    }
  }

  /** The rejections among handled requests, by method and status. */
  function Rejections<E>(handled: seq<(Request<E>, Response<E>)>): multiset<(string, nat)> {
    if handled == [] then multiset{}
    else
      var (request, response) := handled[|handled| - 1];
      if response.Rejected? then
        Rejections(handled[..|handled| - 1]) + multiset{(request.httpMethod, response.status)}
      else Rejections(handled[..|handled| - 1])
  }

  lemma RejectionsSnoc<E>(handled: seq<(Request<E>, Response<E>)>, request: Request<E>, response: Response<E>)
    ensures Rejections(handled + [(request, response)]) ==
            if response.Rejected? then Rejections(handled) + multiset{(request.httpMethod, response.status)}
            else Rejections(handled)
    ensures response.Rejected? ==> Rejections(handled + [(request, response)]) != multiset{}
  {
    assert (handled + [(request, response)])[..|handled|] == handled;
    if response.Rejected? {
      assert (request.httpMethod, response.status) in Rejections(handled + [(request, response)]);
    }
  }

  /** A layer. Its clones share chain and counter, so one object stands for all of them. */
  class AuthorizationLayer<!E> {
    const patterns: Patterns
    const chain: Chain<E>
    const decode: string -> Option<Claims<E>>
    const failureCounter: FailureCounter
    /** Requests handled so far. */
    ghost var handled: seq<(Request<E>, Response<E>)>

    /** Conservation: what is counted is exactly what was rejected, and the counter appears with the first rejection. */
    ghost predicate Valid()
      reads this, failureCounter
    {
      failureCounter.counts ==
        if Rejections(handled) == multiset{} then None else Some(Rejections(handled))
    }

    constructor (patterns: Patterns, chain: Chain<E>, decode: string -> Option<Claims<E>>)
      ensures Valid() && handled == [] && fresh(failureCounter)
      ensures this.patterns == patterns && this.chain == chain && this.decode == decode
    {
      this.patterns, this.chain, this.decode := patterns, chain, decode;
      failureCounter := new FailureCounter();
      handled := [];
    }

    /**
     * Handles one request: decides by the first rule that applies, counts a rejection, and forwards
     * an allowed request with trusted claims, if there are any, as its context.
     */
    method Handle(request: Request<E>) returns (response: Response<E>)
      requires Valid()
      modifies this, failureCounter
      ensures Valid() && handled == old(handled) + [(request, response)]
      ensures response == Respond(patterns, chain, decode, request)
    {
      var extensions := new Extensions(request.context);
      var token := ExtractToken(request.headers, chain.cookieName);
      var effect := Select(patterns, chain.rules, chain.anyRequest, request.httpMethod, request.path);
      var outcome := ApplyEffect(effect, token, decode, chain.claimsValidator, extensions);
      var failureStatus := StatusOf(outcome);
      if failureStatus.Some? {
        failureCounter.Add(request.httpMethod, failureStatus.value);
      }
      match outcome {
        case Allow => response := Forwarded(extensions.context);
        case Unauthorized => response := Rejected(401);
        case Forbidden => response := Rejected(403);
      }
      RejectionsSnoc(handled, request, response);
      handled := handled + [(request, response)];
    }
  }

  // ---- from the calls made to the response --------------------------------------------------------------

  /** The call adds a matcher whose pattern matches the path, and whose methods, if it has any, include the method. */
  predicate Catches<E>(p: Patterns, c: Call<E>, httpMethod: string, path: string) {
    && c.AddRule? && c.spec.Pattern?
    && p.matches(c.spec.pattern, path)
    && (c.methods == None || httpMethod in c.methods.value)
  }

  predicate IsTerminal<E>(c: Call<E>) {
    c.AddRule? && c.spec.AnyRequest?
  }

  /** Call `i` decides: it is the first matcher rule that applies, or none applies and it is the last terminal rule. */
  ghost predicate DecidedBy<E>(p: Patterns, calls: seq<Call<E>>, httpMethod: string, path: string, i: nat) {
    && i < |calls|
    && if Catches(p, calls[i], httpMethod, path) then
         forall j :: 0 <= j < i ==> !Catches(p, calls[j], httpMethod, path)
       else
         && IsTerminal(calls[i])
         && (forall j :: 0 <= j < |calls| ==> !Catches(p, calls[j], httpMethod, path))
         && (forall j :: i < j < |calls| ==> !IsTerminal(calls[j]))
  }

  /** One more call decides only what the calls before it leave open. */
  lemma SelectsLast<E>(p: Patterns, front: seq<Call<E>>, c: Call<E>, any: Effect<E>, m: string, path: string)
    ensures Catches(p, c, m, path) ==> c.AddRule?
    ensures Select(p, Matchers(front + [c]), any, m, path) ==
            Select(p, Matchers(front), if Catches(p, c, m, path) then c.effect else any, m, path)
  {
    CallAdded(front, c);
    if IsMatcher(c) {
      var rule := [Rule(c.methods, c.spec.pattern, c.effect)];
      SelectOfConcat(p, Matchers(front), rule, any, m, path);
      assert Select(p, rule, any, m, path) == if Catches(p, c, m, path) then c.effect else any;
    }
  }

  /** The effect selected is that of the first call that catches the request, or the one given. */
  lemma {:induction false} SelectsByCall<E>(p: Patterns, calls: seq<Call<E>>, any: Effect<E>, m: string, path: string)
    ensures (forall j :: 0 <= j < |calls| ==> !Catches(p, calls[j], m, path)) ==>
              Select(p, Matchers(calls), any, m, path) == any
    ensures forall i :: (0 <= i < |calls| && Catches(p, calls[i], m, path) &&
                         forall j :: 0 <= j < i ==> !Catches(p, calls[j], m, path)) ==>
              Select(p, Matchers(calls), any, m, path) == calls[i].effect
    decreases |calls|
  {
    if calls == [] {
    } else {
      var front, c := calls[..|calls| - 1], calls[|calls| - 1];
      assert forall j :: 0 <= j < |front| ==> front[j] == calls[j];
      assert calls == front + [c];
      SelectsLast(p, front, c, any, m, path);
      hide Catches, Select, Matchers;
      SelectsByCall(p, front, if Catches(p, c, m, path) then c.effect else any, m, path);
    }
  }

  lemma {:induction false} LastTerminal<E>(calls: seq<Call<E>>) returns (i: nat)
    requires LastAny(calls).Some?
    ensures i < |calls| && IsTerminal(calls[i]) && calls[i].effect == LastAny(calls).value
    ensures forall j :: i < j < |calls| ==> !IsTerminal(calls[j])
    decreases |calls|
  {
    i := |calls| - 1;
    if IsTerminal(calls[i]) {
    } else {
      i := LastTerminal(calls[..|calls| - 1]);
    }
  }

  /** Once a terminal rule was given, some call decides each request. */
  lemma SomeCallDecides<E>(p: Patterns, calls: seq<Call<E>>, m: string, path: string) returns (i: nat)
    requires LastAny(calls).Some?
    ensures DecidedBy(p, calls, m, path, i)
  {
    hide Applies, IsMatcher;
    i := 0;
    while i < |calls| && !Catches(p, calls[i], m, path)
      invariant i <= |calls| && forall j :: 0 <= j < i ==> !Catches(p, calls[j], m, path)
    {
      i := i + 1;
    }
    if i == |calls| {
      i := LastTerminal(calls);
    }
  }

  /** The effect selected is that of the call that decides. */
  lemma DecidingEffect<E>(p: Patterns, calls: seq<Call<E>>, m: string, path: string, i: nat)
    requires LastAny(calls).Some? && DecidedBy(p, calls, m, path, i)
    ensures Select(p, Matchers(calls), LastAny(calls).value, m, path) == calls[i].effect
  {
    hide Matchers, LastAny, Applies, Select, IsMatcher;
    SelectsByCall(p, calls, LastAny(calls).value, m, path);
    if !Catches(p, calls[i], m, path) {
      var last := LastTerminal(calls);
      assert i == last;
    }
  }

  /** The token found under the last cookie name decodes to these claims, and the last validator accepts them. */
  ghost predicate Vouches<E>(calls: seq<Call<E>>, decode: string -> Option<Claims<E>>, request: Request<E>,
                             claims: Claims<E>)
  {
    var token := ExtractToken(request.headers, LastCookieName(calls));
    && token.Some? && decode(token.value) == Some(claims)
    && (LastValidator(calls).None? || LastValidator(calls).value(claims))
  }

  /**
   * From the chain of calls to the response: a request is forwarded exactly when the call that decides
   * it permits all, or its token vouches for claims that have the role, if the call asks for one. It
   * carries those claims, or the context it came with. It is rejected with 403 exactly when only the
   * role is missing, else with 401.
   */
  lemma ForwardedExactlyWhenEntitled<E>(p: Patterns, calls: seq<Call<E>>, decode: string -> Option<Claims<E>>,
                                        request: Request<E>, i: nat)
    requires BuiltFrom(p, calls).Ok? && DecidedBy(p, calls, request.httpMethod, request.path, i)
    ensures var response, effect := Respond(p, BuiltFrom(p, calls).value, decode, request), calls[i].effect;
            && (response.Forwarded? <==>
                || effect.PermitAll?
                || exists claims :: Vouches(calls, decode, request, claims) &&
                     (effect.HasRole? ==> effect.predicate_(claims.ext)))
            && (response == Rejected(403) <==>
                effect.HasRole? &&
                exists claims :: Vouches(calls, decode, request, claims) && !effect.predicate_(claims.ext))
            && (response.Rejected? && response != Rejected(403) ==> response == Rejected(401))
    ensures var response := Respond(p, BuiltFrom(p, calls).value, decode, request);
            response.Forwarded? ==>
              && (forall claims :: Vouches(calls, decode, request, claims) ==> response.context == Some(claims))
              && ((forall claims :: !Vouches(calls, decode, request, claims)) ==> response.context == request.context)
  {
    hide DecidedBy, Select, Matchers, LastAny, LastValidator, LastCookieName, FirstRefusal, ExtractToken;
    DecidingEffect(p, calls, request.httpMethod, request.path, i);
    var token := ExtractToken(request.headers, LastCookieName(calls));
    if token.Some? && decode(token.value).Some? {
      var claims := decode(token.value).value;
      assert LastValidator(calls).None? || LastValidator(calls).value(claims) ==>
          Vouches(calls, decode, request, claims);
    }
  }

  /** A request whose method is on no matcher's list gets the effect of the last terminal rule. */
  lemma UnlistedMethodIsTerminal<E>(p: Patterns, calls: seq<Call<E>>, decode: string -> Option<Claims<E>>,
                                    request: Request<E>)
    requires BuiltFrom(p, calls).Ok?
    requires forall c :: c in calls && c.AddRule? && c.spec.Pattern? ==>
               c.methods.Some? && request.httpMethod !in c.methods.value
    ensures var chain := BuiltFrom(p, calls).value;
            Respond(p, chain, decode, request) == Respond(p, chain.(rules := []), decode, request)
    ensures forall i: nat :: DecidedBy(p, calls, request.httpMethod, request.path, i) ==> IsTerminal(calls[i])
  {
    hide Matchers, LastAny, LastValidator, LastCookieName, FirstRefusal, ExtractToken;
    SelectsByCall(p, calls, LastAny(calls).value, request.httpMethod, request.path);
  }
}
