/** When a route macro loses nothing of what was written in its attribute. */
module WrittenKeys {
  import opened Sequences
  import opened Wrappers
  import opened Syntax
  import opened KeySplitting
  import opened RouteExpansion

  const METHODS: seq<string> := ["get", "post", "put", "delete", "patch"]

  predicate IsReserved(name: string) {
    name == "request_body" || name == "responses" || name == "params"
  }

  /** The value of `name = value`. */
  function ValueOf(tokens: Tokens): Tokens {
    if |tokens| >= 2 then tokens[2..] else []
  }

  function NameOf(tokens: Tokens): string {
    BuildAttrKey(tokens).name
  }

  /**
   * Emitted argument `arg` says what `key` says: it is the key itself, or a request body that prints
   * alike, or a call whose last entries are those of the key.
   */
  predicate Carries(arg: Tokens, key: AttrKey) {
    if key.name == "request_body" then
      NameOf(arg) == "request_body" && Normalize(ValueOf(arg)) == Normalize(ValueOf(key.tokens))
    else if IsReserved(key.name) then
      && |arg| == 2 && arg[1].Group? && arg == Call(key.name, arg[1].inner)
      && GroupInnerTokens(key.tokens).Some?
      && EndsWith(Split(arg[1].inner), Split(GroupInnerTokens(key.tokens).value))
    else arg == key.tokens
  }

  ghost predicate IsHome(home: seq<nat>, keys: seq<AttrKey>, args: seq<Tokens>) {
    && |home| == |keys| && Distinct(home)
    && forall i :: 0 <= i < |keys| ==> home[i] < |args| && Carries(args[home[i]], keys[i])
  }

  /** Every written key has an emitted argument of its own that carries it. */
  ghost predicate NothingLost(keys: seq<AttrKey>, args: seq<Tokens>) {
    exists home: seq<nat> :: IsHome(home, keys, args)
  }

  /** What a caller can check: no reserved name twice, and `responses` and `params` are calls. */
  predicate WellWritten(keys: seq<AttrKey>) {
    && (forall i, j :: 0 <= i < j < |keys| && IsReserved(keys[i].name) ==> keys[j].name != keys[i].name)
    && (forall i :: 0 <= i < |keys| && (keys[i].name == "responses" || keys[i].name == "params") ==>
          GroupInnerTokens(keys[i].tokens).Some?)
  }

  /** Written parameters with inferred ones in front of them: those must close their angle brackets. */
  predicate ParamsKeepApart(attr: Tokens, func: Handler) {
    ExplicitParams(attr).Some? && Inferred(attr, func) != [] && Split(ExplicitParams(attr).value) != [] ==>
      Closed(Join(Inferred(attr, func)))
  }

  // ---- where the arguments are -------------------------------------------------------------------

  /** How many of the first `i` keys are forwarded. */
  function Position(keys: seq<AttrKey>, i: nat): nat
    requires i <= |keys|
  {
    |PassThrough(keys[..i])|
  }

  lemma {:induction false} PassThroughOfConcat(a: seq<AttrKey>, b: seq<AttrKey>)
    ensures PassThrough(a + b) == PassThrough(a) + PassThrough(b)
  {
    hide PassesThrough;
    if a == [] {
      assert a + b == b;
    } else {
      PassThroughOfConcat(a[1..], b);
      assert (a + b)[1..] == a[1..] + b;
      Assoc(if PassesThrough(a[0]) then [a[0].tokens] else [], PassThrough(a[1..]), PassThrough(b));
    }
  }

  lemma ForwardedAt(keys: seq<AttrKey>, i: nat)
    requires i < |keys| && PassesThrough(keys[i])
    ensures Position(keys, i) < |PassThrough(keys)| && PassThrough(keys)[Position(keys, i)] == keys[i].tokens
    ensures Position(keys, i + 1) == Position(keys, i) + 1
  {
    assert keys == keys[..i] + ([keys[i]] + keys[i + 1..]);
    PassThroughOfConcat(keys[..i], [keys[i]] + keys[i + 1..]);
    PassThroughOfConcat([keys[i]], keys[i + 1..]);
    PassThroughSnoc(keys[..i], keys[i]);
    assert keys[..i + 1] == keys[..i] + [keys[i]];
    assert [keys[i]][1..] == [];
  }

  lemma PositionsGrow(keys: seq<AttrKey>, i: nat, j: nat)
    requires i <= j <= |keys|
    ensures Position(keys, i) <= Position(keys, j)
  {
    assert keys[..j] == keys[..i] + keys[i..j];
    PassThroughOfConcat(keys[..i], keys[i..j]);
  }

  /** The place of the argument under a reserved name. */
  function Slot(p: Parts, name: string): nat
    requires IsReserved(name)
  {
    var m := |p.head| + |p.passThrough|;
    if name == "request_body" then m
    else if name == "responses" then m + |Opt(p.body)|
    else m + |Opt(p.body)| + 1
  }

  /** The place of a key's argument among all arguments. */
  function Home(p: Parts, keys: seq<AttrKey>, i: nat): nat
    requires i < |keys|
  {
    if IsReserved(keys[i].name) then Slot(p, keys[i].name) else |p.head| + Position(keys, i)
  }

  lemma ArgumentAt(p: Parts)
    ensures forall i :: 0 <= i < |p.head| ==> p.All()[i] == p.head[i]
    ensures forall i :: 0 <= i < |p.passThrough| ==> p.All()[|p.head| + i] == p.passThrough[i]
    ensures p.body.Some? ==> p.All()[Slot(p, "request_body")] == p.body.value
    ensures Slot(p, "responses") < |p.All()| && p.All()[Slot(p, "responses")] == Call("responses", p.responsesInner)
    ensures p.params.Some? ==> Slot(p, "params") < |p.All()| && p.All()[Slot(p, "params")] == p.params.value
    ensures |p.All()| == Slot(p, "params") + |Opt(p.params)|
  {
  }

  // ---- a reserved name stands for one argument ------------------------------------------------------

  lemma {:induction false} ForwardedIsNotReserved(keys: seq<AttrKey>)
    requires forall i :: 0 <= i < |keys| ==> keys[i].name == NameOf(keys[i].tokens)
    ensures forall i :: 0 <= i < |PassThrough(keys)| ==> !IsReserved(NameOf(PassThrough(keys)[i]))
  {
    if keys == [] {
    } else {
      ForwardedIsNotReserved(keys[1..]);
    }
  }

  lemma NamesOfParts(httpMethod: string, attr: Tokens, func: Handler)
    requires Expand(httpMethod, attr, func).Ok? && httpMethod in METHODS
    ensures var p := Expand(httpMethod, attr, func).value;
            && (forall i :: 0 <= i < |p.head| ==> !IsReserved(NameOf(p.head[i])))
            && (forall i :: 0 <= i < |p.passThrough| ==> !IsReserved(NameOf(p.passThrough[i])))
            && (p.body.Some? ==> NameOf(p.body.value) == "request_body")
            && (p.params.Some? ==> NameOf(p.params.value) == "params")
  {
    hide Split, Inferred, ExplicitParams, ResponsesInner, Any200, InferredResponseBody, ExplicitResponses, WrappedTypes;
    var p := Expand(httpMethod, attr, func).value;
    ForwardedIsNotReserved(Keys(attr));
    FindKeyIsThere(Keys(attr), "request_body");
  }

  /** An argument under a reserved name is the one in its slot. */
  lemma ReservedIsInSlot(httpMethod: string, attr: Tokens, func: Handler, h: nat)
    requires Expand(httpMethod, attr, func).Ok? && httpMethod in METHODS
    requires h < |Expand(httpMethod, attr, func).value.All()|
    requires IsReserved(NameOf(Expand(httpMethod, attr, func).value.All()[h]))
    ensures var p := Expand(httpMethod, attr, func).value; h == Slot(p, NameOf(p.All()[h]))
  {
    var p := Expand(httpMethod, attr, func).value;
    NamesOfParts(httpMethod, attr, func);
    ArgumentAt(p);
    hide Expand, Parts.All, METHODS;
    var m := |p.head| + |p.passThrough|;
    assert forall i :: |p.head| <= i < m ==> p.All()[i] == p.passThrough[i - |p.head|];
  }

  // ---- the argument of each key -----------------------------------------------------------------------

  /** A name that occurs once is found at its key. */
  lemma FoundOnce(keys: seq<AttrKey>, i: nat)
    requires i < |keys| && forall j :: 0 <= j < |keys| && j != i ==> keys[j].name != keys[i].name
    ensures FindKey(keys, keys[i].name) == Some(keys[i])
  {
    FindKeyIsThere(keys, keys[i].name);
  }

  lemma BodyCarries(httpMethod: string, attr: Tokens, func: Handler, key: AttrKey)
    requires Expand(httpMethod, attr, func).Ok?
    requires key.name == "request_body" == NameOf(key.tokens) && FindKey(Keys(attr), "request_body") == Some(key)
    ensures var p := Expand(httpMethod, attr, func).value; p.body.Some? && Carries(p.body.value, key)
  {
    hide Split, FindKey, Inferred, ExplicitParams, ResponsesInner, Any200, InferredResponseBody, ExplicitResponses,
         WrappedTypes, Normalize;
  }

  lemma ResponsesCarry(httpMethod: string, attr: Tokens, func: Handler, key: AttrKey)
    requires Expand(httpMethod, attr, func).Ok?
    requires key.name == "responses" && FindKey(Keys(attr), "responses") == Some(key)
    requires GroupInnerTokens(key.tokens).Some?
    ensures Carries(Call("responses", Expand(httpMethod, attr, func).value.responsesInner), key)
  {
    ResponsesSurvive(httpMethod, attr, func);
    hide Expand, Split, FindKey, HasStatus200, Entry200, InferredResponseBody;
  }

  /** The written parameters are the last ones emitted exactly when the inferred ones keep apart from them. */
  lemma ParamsCarry(httpMethod: string, attr: Tokens, func: Handler, key: AttrKey)
    requires Expand(httpMethod, attr, func).Ok?
    requires key.name == "params" && FindKey(Keys(attr), "params") == Some(key)
    requires GroupInnerTokens(key.tokens).Some?
    ensures var p := Expand(httpMethod, attr, func).value;
            p.params.Some? && (Carries(p.params.value, key) <==> ParamsKeepApart(attr, func))
  {
    var inferred, written := Inferred(attr, func), GroupInnerTokens(key.tokens).value;
    assert ExplicitParams(attr) == Some(written);
    BehindExactlyWhen(Join(inferred), written);
    hide Split, FindKey, Inferred, ExplicitParams, ResponsesInner, Any200, InferredResponseBody, ExplicitResponses,
         WrappedTypes, RequestBodyArg, Join, Closed;
  }

  lemma PassThroughIs(httpMethod: string, attr: Tokens, func: Handler)
    requires Expand(httpMethod, attr, func).Ok?
    ensures Expand(httpMethod, attr, func).value.passThrough == PassThrough(Keys(attr))
  {
  }

  lemma ForwardedCarries(p: Parts, key: AttrKey, arg: Tokens)
    requires !IsReserved(key.name)
    ensures Carries(arg, key) <==> arg == key.tokens
  {
  }

  lemma KeyNames(attr: Tokens, i: nat)
    requires i < |Keys(attr)|
    ensures Keys(attr)[i].name == NameOf(Keys(attr)[i].tokens)
  {
  }

  lemma SlotsFit(p: Parts)
    ensures Slot(p, "request_body") <= Slot(p, "responses") < |p.All()|
    ensures p.params.Some? ==> Slot(p, "params") < |p.All()|
  {
  }

  lemma ReservedHomeCarries(httpMethod: string, attr: Tokens, func: Handler, i: nat)
    requires Expand(httpMethod, attr, func).Ok? && i < |Keys(attr)| && IsReserved(Keys(attr)[i].name)
    requires WellWritten(Keys(attr)) && ParamsKeepApart(attr, func)
    ensures var p, key := Expand(httpMethod, attr, func).value, Keys(attr)[i];
            Slot(p, key.name) < |p.All()| && Carries(p.All()[Slot(p, key.name)], key)
  {
    var p, key := Expand(httpMethod, attr, func).value, Keys(attr)[i];
    ArgumentAt(p);
    FoundOnce(Keys(attr), i);
    KeyNames(attr, i);
    hide Parts.All, Expand, Split, ParamsKeepApart, Carries, PassThrough, Keys, GroupInnerTokens, FindKey, Slot;
    if key.name == "request_body" {
      BodyCarries(httpMethod, attr, func, key);
    } else if key.name == "responses" {
      ResponsesCarry(httpMethod, attr, func, key);
    } else {
      ParamsCarry(httpMethod, attr, func, key);
    }
    SlotsFit(p);
  }

  lemma ForwardedHomeCarries(p: Parts, keys: seq<AttrKey>, i: nat)
    requires p.passThrough == PassThrough(keys) && i < |keys| && !IsReserved(keys[i].name)
    ensures Home(p, keys, i) < |p.All()| && Carries(p.All()[Home(p, keys, i)], keys[i])
  {
    ForwardedAt(keys, i);
    ForwardedCarries(p, keys[i], keys[i].tokens);
    ArgumentAt(p);
    SlotsFit(p);
    hide PassThrough, Carries, Parts.All;
  }

  lemma HomeCarries(httpMethod: string, attr: Tokens, func: Handler, i: nat)
    requires Expand(httpMethod, attr, func).Ok? && i < |Keys(attr)|
    requires WellWritten(Keys(attr)) && ParamsKeepApart(attr, func)
    ensures var p, keys := Expand(httpMethod, attr, func).value, Keys(attr);
            Home(p, keys, i) < |p.All()| && Carries(p.All()[Home(p, keys, i)], keys[i])
  {
    var p, keys := Expand(httpMethod, attr, func).value, Keys(attr);
    if IsReserved(keys[i].name) {
      hide Expand, Keys, Carries, Parts.All, WellWritten, ParamsKeepApart;
      ReservedHomeCarries(httpMethod, attr, func, i);
    } else {
      PassThroughIs(httpMethod, attr, func);
      hide Expand, Keys, Carries, Parts.All, WellWritten, ParamsKeepApart;
      ForwardedHomeCarries(p, keys, i);
    }
  }

  lemma HomesDiffer(p: Parts, keys: seq<AttrKey>, i: nat, j: nat)
    requires i < j < |keys| && WellWritten(keys) && p.passThrough == PassThrough(keys)
    requires IsReserved(keys[i].name) && keys[i].name == "request_body" ==> p.body.Some?
    requires IsReserved(keys[j].name) && keys[j].name == "request_body" ==> p.body.Some?
    ensures Home(p, keys, i) != Home(p, keys, j)
  {
    hide PassThrough, GroupInnerTokens;
    if !IsReserved(keys[i].name) {
      ForwardedAt(keys, i);
      PositionsGrow(keys, i + 1, j);
    }
    if !IsReserved(keys[j].name) {
      ForwardedAt(keys, j);
    }
  }

  lemma HomesDifferHere(httpMethod: string, attr: Tokens, func: Handler, i: nat, j: nat)
    requires Expand(httpMethod, attr, func).Ok? && i < j < |Keys(attr)| && WellWritten(Keys(attr))
    ensures var p, keys := Expand(httpMethod, attr, func).value, Keys(attr); Home(p, keys, i) != Home(p, keys, j)
  {
    var p, keys := Expand(httpMethod, attr, func).value, Keys(attr);
    PassThroughIs(httpMethod, attr, func);
    forall k | 0 <= k < |keys| && keys[k].name == "request_body" ensures p.body.Some? {
      FoundOnce(keys, k);
      BodyCarries(httpMethod, attr, func, keys[k]);
    }
    hide Expand, Home, Keys, Carries, PassThrough;
    HomesDiffer(p, keys, i, j);
  }

  lemma WrittenIsKept(httpMethod: string, attr: Tokens, func: Handler)
    requires Expand(httpMethod, attr, func).Ok?
    requires WellWritten(Keys(attr)) && ParamsKeepApart(attr, func)
    ensures NothingLost(Keys(attr), Expand(httpMethod, attr, func).value.All())
  {
    var p, keys := Expand(httpMethod, attr, func).value, Keys(attr);
    var home := seq(|keys|, i requires 0 <= i < |keys| => Home(p, keys, i));
    hide Expand, Home, Keys, WellWritten, ParamsKeepApart, Carries, Parts.All;
    forall i | 0 <= i < |keys| ensures home[i] < |p.All()| && Carries(p.All()[home[i]], keys[i]) {
      HomeCarries(httpMethod, attr, func, i);
    }
    forall i, j | 0 <= i < j < |home| ensures home[i] != home[j] {
      HomesDifferHere(httpMethod, attr, func, i, j);
    }
    assert IsHome(home, keys, p.All());
  }

  lemma CarriedNames(arg: Tokens, key: AttrKey)
    requires IsReserved(key.name) && Carries(arg, key)
    ensures NameOf(arg) == key.name
    ensures key.name != "request_body" ==> GroupInnerTokens(key.tokens).Some?
  {
    hide Split, Normalize;
  }

  lemma NoParams(attr: Tokens, func: Handler)
    requires forall k :: 0 <= k < |Keys(attr)| ==> Keys(attr)[k].name != "params"
    ensures ParamsKeepApart(attr, func)
  {
    FindKeyIsThere(Keys(attr), "params");
  }

  lemma KeptIsWellWritten(httpMethod: string, attr: Tokens, func: Handler, home: seq<nat>)
    requires Expand(httpMethod, attr, func).Ok? && httpMethod in METHODS
    requires IsHome(home, Keys(attr), Expand(httpMethod, attr, func).value.All())
    ensures WellWritten(Keys(attr)) && ParamsKeepApart(attr, func)
  {
    var p, keys := Expand(httpMethod, attr, func).value, Keys(attr);
    hide Expand, Carries, Parts.All, Keys, METHODS, ParamsKeepApart, NameOf;
    forall i | 0 <= i < |keys| && IsReserved(keys[i].name)
      ensures home[i] == Slot(p, keys[i].name)
      ensures keys[i].name != "request_body" ==> GroupInnerTokens(keys[i].tokens).Some?
    {
      CarriedNames(p.All()[home[i]], keys[i]);
      ReservedIsInSlot(httpMethod, attr, func, home[i]);
    }
    if k :| 0 <= k < |keys| && keys[k].name == "params" {
      FoundOnce(keys, k);
      ParamsCarry(httpMethod, attr, func, keys[k]);
      ArgumentAt(p);
    } else {
      NoParams(attr, func);
    }
  }

  /**
   * Nothing that was written gets lost: every key of an accepted attribute has an emitted argument of
   * its own that forwards it, prints like it, or has its entries at the end, if and only if no
   * reserved name occurs twice, every `responses` and `params` key is a call, and inferred parameters
   * in front of written ones close their angle brackets.
   */
  lemma NothingLostExactlyWhen(httpMethod: string, attr: Tokens, func: Handler)
    requires Expand(httpMethod, attr, func).Ok? && httpMethod in METHODS
    ensures NothingLost(Keys(attr), Expand(httpMethod, attr, func).value.All()) <==>
            WellWritten(Keys(attr)) && ParamsKeepApart(attr, func)
  {
    hide Expand, IsHome, Keys, WellWritten, ParamsKeepApart, METHODS, Parts.All;
    if NothingLost(Keys(attr), Expand(httpMethod, attr, func).value.All()) {
      var home: seq<nat> :| IsHome(home, Keys(attr), Expand(httpMethod, attr, func).value.All());
      KeptIsWellWritten(httpMethod, attr, func, home);
    }
    if WellWritten(Keys(attr)) && ParamsKeepApart(attr, func) {
      WrittenIsKept(httpMethod, attr, func);
    }
  }

  // ---- attributes that lose something ----------------------------------------------------------------

  /** The keys of `responses(a), responses(b)`. */
  lemma TwoResponses(a: Tokens, b: Tokens)
    ensures var first, second := Call("responses", a), Call("responses", b);
            && Keys(first) == [BuildAttrKey(first)]
            && Keys(first + [COMMA] + second) == [BuildAttrKey(first), BuildAttrKey(second)]
  {
    var first, second := Call("responses", a), Call("responses", b);
    CallIsSolid("responses", a);
    SplitCloses(first, second);
    OneCall("responses", a);
    OneCall("responses", b);
    hide Split;
    assert Split(first + [COMMA] + second) == [first, second];
    assert KeysOf([first, second]) == [BuildAttrKey(first), BuildAttrKey(second)];
    assert KeysOf([first]) == [BuildAttrKey(first)];
  }

  /** A second key under one reserved name changes nothing of what is looked at. */
  lemma SecondIsNotSeen(x: AttrKey, y: AttrKey)
    requires x.name == y.name == "responses"
    ensures PassThrough([x, y]) == PassThrough([x])
    ensures forall name :: FindKey([x, y], name) == FindKey([x], name)
  {
    assert [x, y][1..] == [y] && [y][1..] == [] && [x][1..] == [];
    assert PassThrough([y]) == [] == PassThrough([x]);
    forall name ensures FindKey([x, y], name) == FindKey([x], name) {
      assert FindKey([y], name) == if name == "responses" then Some(y) else None;
    }
  }

  /** The expansion looks at the keys it forwards and at the first key of each name. */
  lemma SameExpansion(httpMethod: string, attr: Tokens, other: Tokens, func: Handler)
    requires PassThrough(Keys(attr)) == PassThrough(Keys(other))
    requires forall name :: FindKey(Keys(attr), name) == FindKey(Keys(other), name)
    ensures Expand(httpMethod, attr, func) == Expand(httpMethod, other, func)
  {
    hide Keys, FindKey, PassThrough, Any200, ResponsesInner, WrappedTypes, InferredResponseBody, RequestBodyArg,
         InferredParams, FirstLiteral, ParamsArg;
  }

  lemma TwiceIsNotWellWritten(keys: seq<AttrKey>, a: Tokens, b: Tokens)
    requires keys == [BuildAttrKey(Call("responses", a)), BuildAttrKey(Call("responses", b))]
    ensures !WellWritten(keys)
  {
    assert keys[0].name == "responses" == keys[1].name;
  }

  /** Of two `responses(...)` only the first counts: what the second says makes no difference, and is lost. */
  lemma SecondResponsesLost(httpMethod: string, a: Tokens, b: Tokens, func: Handler)
    requires httpMethod in METHODS
    ensures var attr := Call("responses", a) + [COMMA] + Call("responses", b);
            && Expand(httpMethod, attr, func) == Expand(httpMethod, Call("responses", a), func)
            && (Expand(httpMethod, attr, func).Ok? ==>
                  !NothingLost(Keys(attr), Expand(httpMethod, attr, func).value.All()))
  {
    var first, second := Call("responses", a), Call("responses", b);
    var attr := first + [COMMA] + second;
    TwoResponses(a, b);
    SecondIsNotSeen(BuildAttrKey(first), BuildAttrKey(second));
    hide *;
    SameExpansion(httpMethod, first, attr, func);
    if Expand(httpMethod, attr, func).Ok? {
      NothingLostExactlyWhen(httpMethod, attr, func);
      TwiceIsNotWellWritten(Keys(attr), a, b);
    }
  }
}
