/** The route macros: merging what is written with what the handler's signature implies. */
module RouteExpansion {
  import opened Sequences
  import opened Wrappers
  import opened Syntax
  import opened KeySplitting
  import PathTemplates

  // ---- the handler -------------------------------------------------------------------------------

  datatype FnArg = Receiver | Typed(ty: Type)
  datatype ReturnType = DefaultReturn | Returns(ty: Type)
  datatype Handler = Handler(name: string, inputs: seq<FnArg>, output: ReturnType)

  /** `T` if the type is `wrapper<T>`, by the last path segment. */
  function ExtractTypeArg(ty: Type, wrapper: string): Option<Type> {
    match LastSegment(ty)
    case None => None
    case Some(segment) =>
      if segment.ident == wrapper && segment.args.AngleBracketed? && |segment.args.args| == 1
         && segment.args.args[0].TypeArg?
      then Some(segment.args.args[0].ty)
      else None
  }

  function ExtractResultOkArg(ty: Type): Option<Type> {
    FirstTypeArg(ty, "Result")
  }

  const PRIMITIVES: seq<string> :=
    ["String", "bool", "char", "i8", "i16", "i32", "i64", "i128", "isize", "u8", "u16", "u32", "u64", "u128",
     "usize", "f32", "f64"]

  predicate IsPrimitivePathParamType(ty: Type) {
    && ty.PathType? && |ty.segments| == 1 && ty.segments[0].args.NoArgs?
    && var name := ty.segments[0].ident;
       name in PRIMITIVES || (|name| >= 2 && name[|name| - 2..] == "Id")
  }

  function InferredResponseBody(output: ReturnType): Option<Type> {
    if output.DefaultReturn? then None
    else
      var direct := ExtractTypeArg(output.ty, "AppJson");
      if direct.Some? then direct
      else match ExtractResultOkArg(output.ty)
        case None => None
        case Some(okTy) => ExtractTypeArg(okTy, "AppJson")
  }

  /** The inner type of one parameter, if it is of type `wrapper<_>`. */
  function Wrapped(arg: FnArg, wrapper: string): Option<Type> {
    if arg.Typed? then ExtractTypeArg(arg.ty, wrapper) else None
  }

  function OptType(o: Option<Type>): seq<Type> {
    if o.Some? then [o.value] else []
  }

  /** The inner types of the parameters of type `wrapper<_>`, in order. */
  function WrappedTypes(inputs: seq<FnArg>, wrapper: string): seq<Type> {
    if inputs == [] then []
    else OptType(Wrapped(inputs[0], wrapper)) + WrappedTypes(inputs[1..], wrapper)
  }

  lemma {:induction false} WrappedTypesSnoc(inputs: seq<FnArg>, arg: FnArg, wrapper: string)
    ensures WrappedTypes(inputs + [arg], wrapper) == WrappedTypes(inputs, wrapper) + OptType(Wrapped(arg, wrapper))
  {
    hide Wrapped;
    if inputs == [] {
      assert inputs + [arg] == [arg] && [arg][1..] == [];
    } else {
      WrappedTypesSnoc(inputs[1..], arg, wrapper);
      assert (inputs + [arg])[1..] == inputs[1..] + [arg];
      Assoc(OptType(Wrapped(inputs[0], wrapper)), WrappedTypes(inputs[1..], wrapper), OptType(Wrapped(arg, wrapper)));
    }
  }

  lemma NothingWrapped()
    ensures forall wrapper :: WrappedTypes([], wrapper) == []
  {
  }

  function First<T>(s: seq<T>): Option<T> {
    if s == [] then None else Some(s[0])
  }

  datatype SignatureInference = SignatureInference(
    appJsonTypes: seq<Type>,
    appPathType: Option<Type>,
    appPathCount: nat,
    appQueryType: Option<Type>,
    appQueryCount: nat)

  /** One pass over the parameters: the types of each wrapper, the first of each, and how many. */
  method InspectSignature(inputs: seq<FnArg>) returns (sig: SignatureInference)
    ensures sig.appJsonTypes == WrappedTypes(inputs, "AppJson")
    ensures sig.appPathType == First(WrappedTypes(inputs, "AppPath"))
    ensures sig.appPathCount == |WrappedTypes(inputs, "AppPath")|
    ensures sig.appQueryType == First(WrappedTypes(inputs, "AppQuery"))
    ensures sig.appQueryCount == |WrappedTypes(inputs, "AppQuery")|
  {
    hide ExtractTypeArg, WrappedTypes;
    NothingWrapped();
    assert inputs[..0] == [];
    var json: seq<Type> := [];
    var pathType: Option<Type>, pathCount := None, 0;
    var queryType: Option<Type>, queryCount := None, 0;
    var i := 0;
    while i < |inputs|
      invariant 0 <= i <= |inputs|
      invariant json == WrappedTypes(inputs[..i], "AppJson")
      invariant pathType == First(WrappedTypes(inputs[..i], "AppPath"))
      invariant pathCount == |WrappedTypes(inputs[..i], "AppPath")|
      invariant queryType == First(WrappedTypes(inputs[..i], "AppQuery"))
      invariant queryCount == |WrappedTypes(inputs[..i], "AppQuery")|
    {
      assert inputs[..i + 1] == inputs[..i] + [inputs[i]];
      WrappedTypesSnoc(inputs[..i], inputs[i], "AppJson");
      WrappedTypesSnoc(inputs[..i], inputs[i], "AppPath");
      WrappedTypesSnoc(inputs[..i], inputs[i], "AppQuery");
      if inputs[i].Typed? {
        var ty := inputs[i].ty;
        var inner := ExtractTypeArg(ty, "AppJson");
        if inner.Some? {
          json := json + [inner.value];
        }
        inner := ExtractTypeArg(ty, "AppPath");
        if inner.Some? {
          pathCount := pathCount + 1;
          pathType := if pathType.None? then inner else pathType;
        }
        inner := ExtractTypeArg(ty, "AppQuery");
        if inner.Some? {
          queryCount := queryCount + 1;
          queryType := if queryType.None? then inner else queryType;
        }
      }
      i := i + 1;
    }
    assert inputs[..i] == inputs;
    sig := SignatureInference(json, pathType, pathCount, queryType, queryCount);
  }

  // ---- response entries -----------------------------------------------------------------------------

  /** `200` followed by letters only, or by nothing: what the macro looks for. */
  predicate Is200(text: string) {
    |text| >= 3 && text[..3] == "200" &&
    forall i :: 3 <= i < |text| ==> 'a' <= text[i] <= 'z' || 'A' <= text[i] <= 'Z'
  }

  predicate Mentions(tokens: Tokens, literal: string -> bool) {
    exists i :: 0 <= i < |tokens| && tokens[i].Literal? && literal(tokens[i].text)
  }

  /** A parenthesised entry with a `status` key that mentions such a literal. */
  predicate HasStatus(entry: TokenTree, literal: string -> bool) {
    entry.Group? && entry.delimiter == Parenthesis &&
    exists i :: 0 <= i < |Split(entry.inner)| &&
      BuildAttrKey(Split(entry.inner)[i]).name == "status" && Mentions(Split(entry.inner)[i], literal)
  }

  predicate HasStatus200(entry: TokenTree) {
    HasStatus(entry, Is200)
  }

  method EntryHasStatus200(entry: TokenTree) returns (r: bool)
    ensures r == HasStatus200(entry)
  {
    if !entry.Group? || entry.delimiter != Parenthesis {
      return false;
    }
    var keys := SplitTopLevelKeys(entry.inner);
    var i := 0;
    while i < |keys|
      invariant 0 <= i <= |keys|
      invariant forall j :: 0 <= j < i ==> keys[j].name == "status" ==> !Mentions(Split(entry.inner)[j], Is200)
    {
      if keys[i].name == "status" {
        var tokens := keys[i].tokens;
        var j := 0;
        while j < |tokens|
          invariant 0 <= j <= |tokens|
          invariant forall l :: 0 <= l < j ==> !(tokens[l].Literal? && Is200(tokens[l].text))
        {
          if tokens[j].Literal? && Is200(tokens[j].text) {
            assert Mentions(Split(entry.inner)[i], Is200) && BuildAttrKey(Split(entry.inner)[i]).name == "status";
            return true;
          }
          j := j + 1;
        }
      }
      i := i + 1;
    }
    return false;
  }

  /** Some token among the entries of a response list is a 200 entry. */
  predicate Any200(inner: Tokens) {
    exists i, j :: 0 <= i < |Split(inner)| && 0 <= j < |Split(inner)[i]| && HasStatus200(Split(inner)[i][j])
  }

  method AnyEntry200(inner: Tokens) returns (r: bool)
    ensures r == Any200(inner)
  {
    var keys := SplitTopLevelKeys(inner);
    var i := 0;
    while i < |keys|
      invariant 0 <= i <= |keys|
      invariant forall l, j :: 0 <= l < i && 0 <= j < |Split(inner)[l]| ==> !HasStatus200(Split(inner)[l][j])
    {
      var tokens := keys[i].tokens;
      var j := 0;
      while j < |tokens|
        invariant 0 <= j <= |tokens|
        invariant forall l :: 0 <= l < j ==> !HasStatus200(Split(inner)[i][l])
      {
        var hit := EntryHasStatus200(tokens[j]);
        if hit {
          assert HasStatus200(Split(inner)[i][j]);
          return true;
        }
        j := j + 1;
      }
      i := i + 1;
    }
    return false;
  }

  // ---- merging --------------------------------------------------------------------------------------

  function FindKey(keys: seq<AttrKey>, name: string): Option<AttrKey> {
    if keys == [] then None
    else if keys[0].name == name then Some(keys[0])
    else FindKey(keys[1..], name)
  }

  /** The tokens inside `key(...)`; nothing for `key = value`. */
  function GroupInnerTokens(tokens: Tokens): Option<Tokens> {
    if |tokens| == 2 && tokens[1].Group? then Some(tokens[1].inner) else None
  }

  function InnerOf(key: Option<AttrKey>): Option<Tokens> {
    if key.None? then None else GroupInnerTokens(key.value.tokens)
  }

  /** The string of the first literal of the `path` key. */
  function FirstLiteral(tokens: Tokens): Option<string> {
    if tokens == [] then None
    else if tokens[0].Literal? then tokens[0].strValue
    else FirstLiteral(tokens[1..])
  }

  function FindPathLiteral(keys: seq<AttrKey>): Option<string> {
    var key := FindKey(keys, "path");
    if key.None? then None else FirstLiteral(key.value.tokens)
  }

  function Opening(d: Delimiter): string {
    match d case Parenthesis => "(" case Bracket => "[" case Brace => "{" case NoDelimiter => ""
  }

  function Closing(d: Delimiter): string {
    match d case Parenthesis => ")" case Bracket => "]" case Brace => "}" case NoDelimiter => ""
  }

  function TextOf(t: TokenTree): string {
    match t
    case Ident(name) => name
    case Punct(ch) => [ch]
    case Literal(text, _) => text
    case Group(delimiter, inner) => Opening(delimiter) + TextOfAll(inner) + Closing(delimiter)
  }

  function TextOfAll(ts: Tokens): string {
    if ts == [] then "" else TextOf(ts[0]) + TextOfAll(ts[1..])
  }

  function WithoutSpaces(s: string): string {
    if s == "" then "" else (if s[0] == ' ' then "" else [s[0]]) + WithoutSpaces(s[1..])
  }

  function Normalize(tokens: Tokens): string {
    WithoutSpaces(TextOfAll(tokens))
  }

  datatype ExpansionError =
    | ManyRequestBodies
    | ManyPaths
    | ManyQueries
    | ConflictingRequestBody
    | Duplicate200
    | NoResponses

  function KeyValue(name: string, value: Tokens): Tokens {
    [Ident(name), Punct('=')] + value
  }

  function Call(name: string, inner: Tokens): Tokens {
    [Ident(name), Group(Parenthesis, inner)]
  }

  /** `request_body`, which must agree with an inferred body if both are there. */
  function RequestBodyArg(explicit: Option<AttrKey>, inferred: Option<Type>): Result<Option<Tokens>, ExpansionError> {
    match (explicit, inferred)
    case (Some(key), Some(ty)) =>
      if Normalize(if |key.tokens| >= 2 then key.tokens[2..] else []) != Normalize(ty.tokens)
      then Err(ConflictingRequestBody)
      else Ok(Some(KeyValue("request_body", ty.tokens)))
    case (Some(key), None) => Ok(Some(key.tokens))
    case (None, Some(ty)) => Ok(Some(KeyValue("request_body", ty.tokens)))
    case (None, None) => Ok(None)
  }

  /** The entry for the inferred body. */
  function Entry200(body: Type): TokenTree {
    Group(Parenthesis,
          KeyValue("status", [Literal("200", None)]) + [COMMA] + KeyValue("body", body.tokens))
  }

  function ResponsesInner(inferred: Option<Type>, explicit: Option<Tokens>): Tokens {
    match (inferred, explicit)
    case (Some(body), Some(rest)) => [Entry200(body), COMMA] + rest
    case (Some(body), None) => [Entry200(body)]
    case (None, Some(rest)) => rest
    case (None, None) => []
  }

  function Placeholders(pathLit: Option<string>): seq<string> {
    if pathLit.Some? then PathTemplates.Scan(pathLit.value) else []
  }

  /** A path parameter of simple type is named after the one placeholder of the path. */
  predicate ByName(ty: Type, pathLit: Option<string>) {
    |Placeholders(pathLit)| == 1 && IsPrimitivePathParamType(ty)
  }

  /** `("name" = T, Path)`. */
  function NamedParam(name: string, ty: Type): Tokens {
    [Group(Parenthesis, [Literal("\"" + name + "\"", Some(name)), Punct('=')] + ty.tokens + [COMMA, Ident("Path")])]
  }

  function InferredParams(sig: SignatureInference, pathLit: Option<string>): seq<Tokens> {
    (match sig.appPathType
     case None => []
     case Some(ty) => if ByName(ty, pathLit) then [NamedParam(Placeholders(pathLit)[0], ty)] else [ty.tokens])
    + (match sig.appQueryType case None => [] case Some(ty) => [ty.tokens])
  }

  function ParamsArg(inferred: seq<Tokens>, explicit: Option<Tokens>): Option<Tokens> {
    match explicit
    case None => if inferred == [] then None else Some(Call("params", Join(inferred)))
    case Some(rest) =>
      Some(Call("params", if inferred == [] then rest else Join(inferred) + [COMMA] + rest))
  }

  predicate PassesThrough(key: AttrKey) {
    key.name != "request_body" && key.name != "responses" && key.name != "params"
  }

  function PassThrough(keys: seq<AttrKey>): seq<Tokens> {
    if keys == [] then []
    else (if PassesThrough(keys[0]) then [keys[0].tokens] else []) + PassThrough(keys[1..])
  }

  lemma {:induction false} PassThroughSnoc(keys: seq<AttrKey>, key: AttrKey)
    ensures PassThrough(keys + [key]) == PassThrough(keys) + if PassesThrough(key) then [key.tokens] else []
  {
    if keys == [] {
      assert keys + [key] == [key];
    } else {
      PassThroughSnoc(keys[1..], key);
      assert (keys + [key])[1..] == keys[1..] + [key];
    }
  }

  function Opt(o: Option<Tokens>): seq<Tokens> {
    if o.Some? then [o.value] else []
  }

  // ---- the expansion ----------------------------------------------------------------------------------

  /** The arguments of the emitted attribute, before they are joined by commas. */
  datatype Parts = Parts(head: seq<Tokens>, passThrough: seq<Tokens>, body: Option<Tokens>,
                         responsesInner: Tokens, params: Option<Tokens>)
  {
    function All(): seq<Tokens> {
      head + passThrough + Opt(body) + [Call("responses", responsesInner)] + Opt(params)
    }
  }

  function Head(httpMethod: string, name: string): seq<Tokens> {
    [[Ident(httpMethod)], KeyValue("operation_id", [Literal("\"" + name + "\"", Some(name))])]
  }

  function Keys(attr: Tokens): seq<AttrKey> {
    KeysOf(Split(attr))
  }

  function InferredBody(func: Handler): Option<Type> {
    First(WrappedTypes(func.inputs, "AppJson"))
  }

  function ExplicitResponses(attr: Tokens): Option<Tokens> {
    InnerOf(FindKey(Keys(attr), "responses"))
  }

  /** What one pass over the handler's parameters finds. */
  function SignatureOf(func: Handler): SignatureInference {
    var paths, queries := WrappedTypes(func.inputs, "AppPath"), WrappedTypes(func.inputs, "AppQuery");
    SignatureInference(WrappedTypes(func.inputs, "AppJson"), First(paths), |paths|, First(queries), |queries|)
  }

  function ExplicitParams(attr: Tokens): Option<Tokens> {
    InnerOf(FindKey(Keys(attr), "params"))
  }

  /** The parameters the macro infers for this attribute and handler. */
  function Inferred(attr: Tokens, func: Handler): seq<Tokens> {
    InferredParams(SignatureOf(func), FindPathLiteral(Keys(attr)))
  }

  /** What the expansion is, error cases in the order they are looked for. */
  ghost function Expand(httpMethod: string, attr: Tokens, func: Handler): Result<Parts, ExpansionError> {
    var keys := Keys(attr);
    var paths, queries := WrappedTypes(func.inputs, "AppPath"), WrappedTypes(func.inputs, "AppQuery");
    var body := RequestBodyArg(FindKey(keys, "request_body"), InferredBody(func));
    var response, responses := InferredResponseBody(func.output), ExplicitResponses(attr);
    if |WrappedTypes(func.inputs, "AppJson")| > 1 then Err(ManyRequestBodies)
    else if |paths| > 1 then Err(ManyPaths)
    else if |queries| > 1 then Err(ManyQueries)
    else if body.Err? then Err(body.error)
    else if response.Some? && responses.Some? && Any200(responses.value) then Err(Duplicate200)
    else if response.None? && responses.None? then Err(NoResponses)
    else Ok(Parts(Head(httpMethod, func.name), PassThrough(keys), body.value, ResponsesInner(response, responses),
                  ParamsArg(Inferred(attr, func), ExplicitParams(attr))))
  }

  lemma NothingForwarded()
    ensures PassThrough([]) == []
  {
  }

  /** The keys that are neither request body, responses nor parameters, in order. */
  method ForwardedKeys(keys: seq<AttrKey>) returns (passThrough: seq<Tokens>)
    ensures passThrough == PassThrough(keys)
  {
    hide PassThrough, PassesThrough;
    passThrough := [];
    var i := 0;
    NothingForwarded();
    while i < |keys|
      invariant 0 <= i <= |keys|
      invariant passThrough == PassThrough(keys[..i])
    {
      assert keys[..i + 1] == keys[..i] + [keys[i]];
      PassThroughSnoc(keys[..i], keys[i]);
      if PassesThrough(keys[i]) {
        passThrough := passThrough + [keys[i].tokens];
      }
      i := i + 1;
    }
    assert keys[..i] == keys;
  }

  method RouteMethodFn(httpMethod: string, attr: Tokens, func: Handler) returns (r: Result<Tokens, ExpansionError>)
    ensures var spec := Expand(httpMethod, attr, func);
            r == if spec.Ok? then Ok(Join(spec.value.All())) else Err(spec.error)
  {
    hide RequestBodyArg, ResponsesInner, ParamsArg, InferredParams, FindKey, FindPathLiteral, InferredResponseBody,
         Any200, WrappedTypes, Split, Join, KeysOf, Head, InnerOf, PassThrough, Call;
    var keys := SplitTopLevelKeys(attr);
    var sig := InspectSignature(func.inputs);
    if |sig.appJsonTypes| > 1 {
      return Err(ManyRequestBodies);
    }
    if sig.appPathCount > 1 {
      return Err(ManyPaths);
    }
    if sig.appQueryCount > 1 {
      return Err(ManyQueries);
    }
    var body := RequestBodyArg(FindKey(keys, "request_body"), First(sig.appJsonTypes));
    if body.Err? {
      return Err(body.error);
    }
    var explicitResponses := InnerOf(FindKey(keys, "responses"));
    var inferredBody := InferredResponseBody(func.output);
    if inferredBody.Some? && explicitResponses.Some? {
      var duplicate := AnyEntry200(explicitResponses.value);
      if duplicate {
        return Err(Duplicate200);
      }
    }
    if inferredBody.None? && explicitResponses.None? {
      return Err(NoResponses);
    }
    var params := ParamsArg(InferredParams(sig, FindPathLiteral(keys)), InnerOf(FindKey(keys, "params")));
    var passThrough := ForwardedKeys(keys);
    var pathArgs := Head(httpMethod, func.name);
    pathArgs := pathArgs + passThrough;
    pathArgs := pathArgs + Opt(body.value);
    pathArgs := pathArgs + [Call("responses", ResponsesInner(inferredBody, explicitResponses))];
    pathArgs := pathArgs + Opt(params);
    r := Ok(Join(pathArgs));
  }

  // ---- what the expansion preserves ---------------------------------------------------------------------

  /** Tokens that neither end a key nor leave an angle bracket open. */
  predicate Solid(ts: Tokens) {
    Unbroken(ts, 0) && Closed(ts)
  }

  lemma KeyValueIsSolid(name: string, value: Tokens)
    ensures IsChunk(KeyValue(name, value)) <==> Unbroken(value, 0)
    ensures Closed(KeyValue(name, value)) <==> Closed(value)
  {
    var front: Tokens := [Ident(name), Punct('=')];
    assert front[1..] == [Punct('=')] && front[1..][1..] == [];
    UnbrokenConcat(front, value, 0);
    DepthOfConcat(front, value, 0);
  }

  lemma GroupIsSolid(group: TokenTree)
    requires group.Group?
    ensures IsChunk([group]) && Closed([group])
  {
    assert [group][1..] == [];
    assert DepthAfter([group], 0) == DepthAfter([], 0) == 0;
    assert Unbroken([group], 0) == Unbroken([], 0);
  }

  lemma CallIsSolid(name: string, inner: Tokens)
    ensures IsChunk(Call(name, inner)) && Closed(Call(name, inner))
  {
    GroupIsSolid(Group(Parenthesis, inner));
    assert Call(name, inner)[1..] == [Group(Parenthesis, inner)];
  }

  lemma HeadIsSolid(httpMethod: string, name: string)
    ensures forall i :: 0 <= i < 2 ==> IsChunk(Head(httpMethod, name)[i]) && Closed(Head(httpMethod, name)[i])
  {
    var h: Tokens := [Ident(httpMethod)];
    assert h[1..] == [];
    var l: Tokens := [Literal("\"" + name + "\"", Some(name))];
    assert l[1..] == [];
    assert DepthAfter(l, 0) == DepthAfter([], 0) == 0;
    KeyValueIsSolid("operation_id", l);
    assert DepthAfter(h, 0) == DepthAfter([], 0) == 0;
    assert Head(httpMethod, name)[0] == h && Head(httpMethod, name)[1] == KeyValue("operation_id", l);
  }

  lemma {:induction false} PassThroughIsFromKeys(keys: seq<AttrKey>)
    ensures forall t :: t in PassThrough(keys) ==> exists i :: 0 <= i < |keys| && keys[i].tokens == t
  {
    if keys == [] {
    } else {
      PassThroughIsFromKeys(keys[1..]);
      forall t | t in PassThrough(keys) ensures exists i :: 0 <= i < |keys| && keys[i].tokens == t {
        if t in PassThrough(keys[1..]) {
          var i :| 0 <= i < |keys[1..]| && keys[1..][i].tokens == t;
          assert keys[i + 1].tokens == t;
        } else {
          assert keys[0].tokens == t;
        }
      }
    }
  }

  lemma PassThroughAreChunks(attr: Tokens)
    ensures forall i :: 0 <= i < |PassThrough(Keys(attr))| ==> IsChunk(PassThrough(Keys(attr))[i])
    ensures Closed(attr) ==> forall i :: 0 <= i < |PassThrough(Keys(attr))| ==> Closed(PassThrough(Keys(attr))[i])
  {
    SplitIsSeparable(attr);
    ClosedTogether(attr);
    PassThroughIsFromKeys(Keys(attr));
    var passed := PassThrough(Keys(attr));
    forall i | 0 <= i < |passed| ensures IsChunk(passed[i]) && (Closed(attr) ==> Closed(passed[i])) {
      assert passed[i] in passed;
      var j :| 0 <= j < |Keys(attr)| && Keys(attr)[j].tokens == passed[i];
      assert Split(attr)[j] == passed[i];
    }
  }

  /** Keys in front of a responses key are separable exactly when each is a closed key. */
  lemma SeparableParts(p: Parts)
    requires forall i :: 0 <= i < |p.head| ==> IsChunk(p.head[i]) && Closed(p.head[i])
    requires forall i :: 0 <= i < |p.passThrough| ==> IsChunk(p.passThrough[i])
    requires p.params.Some? ==> IsChunk(p.params.value)
    ensures Separable(p.All()) <==>
              && (forall i :: 0 <= i < |p.passThrough| ==> Closed(p.passThrough[i]))
              && (p.body.Some? ==> IsChunk(p.body.value) && Closed(p.body.value))
  {
    var all := p.All();
    var h, n := |p.head|, |p.passThrough|;
    CallIsSolid("responses", p.responsesInner);
    assert forall i :: 0 <= i < h ==> all[i] == p.head[i];
    assert forall i :: 0 <= i < n ==> all[h + i] == p.passThrough[i];
    assert p.body.Some? ==> all[h + n] == p.body.value;
    var m := h + n + |Opt(p.body)|;
    assert all[m] == Call("responses", p.responsesInner);
    assert p.params.Some? ==> |all| == m + 2 && all[m + 1] == p.params.value;
    if Separable(all) {
      forall i | 0 <= i < n ensures Closed(p.passThrough[i]) {
        assert Closed(all[h + i]);
      }
    }
  }

  lemma ParamsAreChunk(httpMethod: string, attr: Tokens, func: Handler)
    requires Expand(httpMethod, attr, func).Ok?
    ensures var params := Expand(httpMethod, attr, func).value.params;
            params.Some? ==> IsChunk(params.value) && exists inner :: params.value == Call("params", inner)
  {
    var params := Expand(httpMethod, attr, func).value.params;
    if params.Some? {
      var inner :| params.value == Call("params", inner);
      CallIsSolid("params", inner);
    }
  }

  /**
   * The emitted argument list parses back into exactly the arguments that went in, in their order,
   * if and only if every forwarded key closes its angle brackets and so does the request body.
   */
  lemma ArgumentsComeBack(httpMethod: string, attr: Tokens, func: Handler)
    requires Expand(httpMethod, attr, func).Ok?
    ensures var p := Expand(httpMethod, attr, func).value;
            Split(Join(p.All())) == p.All() <==>
              && (forall i :: 0 <= i < |p.passThrough| ==> Closed(p.passThrough[i]))
              && (p.body.Some? ==> IsChunk(p.body.value) && Closed(p.body.value))
  {
    var p := Expand(httpMethod, attr, func).value;
    HeadIsSolid(httpMethod, func.name);
    PassThroughAreChunks(attr);
    ParamsAreChunk(httpMethod, attr, func);
    SeparableParts(p);
    SplitUndoesJoin(p.All());
  }

  lemma {:induction false} FindKeyIsThere(keys: seq<AttrKey>, name: string)
    ensures FindKey(keys, name).Some? ==>
              exists i :: 0 <= i < |keys| && keys[i] == FindKey(keys, name).value && keys[i].name == name &&
                forall j :: 0 <= j < i ==> keys[j].name != name
    ensures FindKey(keys, name).None? ==> forall i :: 0 <= i < |keys| ==> keys[i].name != name
  {
    if keys != [] && keys[0].name != name {
      FindKeyIsThere(keys[1..], name);
      if FindKey(keys[1..], name).Some? {
        var i :| 0 <= i < |keys[1..]| && keys[1..][i] == FindKey(keys[1..], name).value && keys[1..][i].name == name &&
          forall j :: 0 <= j < i ==> keys[1..][j].name != name;
        assert keys[i + 1] == FindKey(keys, name).value;
        assert forall j :: 0 < j < i + 1 ==> keys[j] == keys[1..][j - 1];
      }
    } else if keys != [] {
      assert keys[0] == FindKey(keys, name).value;
    }
  }

  /** As a caller sees it: a closed attribute and an ordinary body type always come back. */
  lemma ClosedAttributesComeBack(httpMethod: string, attr: Tokens, func: Handler)
    requires Expand(httpMethod, attr, func).Ok? && Closed(attr)
    requires InferredBody(func).Some? ==> Solid(InferredBody(func).value.tokens)
    ensures var p := Expand(httpMethod, attr, func).value; Split(Join(p.All())) == p.All()
  {
    var p := Expand(httpMethod, attr, func).value;
    PassThroughAreChunks(attr);
    if p.body.Some? {
      if InferredBody(func).Some? {
        KeyValueIsSolid("request_body", InferredBody(func).value.tokens);
      } else {
        FindKeyIsThere(Keys(attr), "request_body");
        var i :| 0 <= i < |Keys(attr)| && Keys(attr)[i] == FindKey(Keys(attr), "request_body").value;
        SplitIsSeparable(attr);
        ClosedTogether(attr);
        assert p.body.value == Split(attr)[i];
      }
    }
    ArgumentsComeBack(httpMethod, attr, func);
  }

  /** The inferred entry has the status `200`, whatever the body type looks like. */
  lemma EntryMentions(body: Type, literal: string -> bool)
    requires literal("200")
    ensures HasStatus(Entry200(body), literal)
  {
    var status := KeyValue("status", [Literal("200", None)]);
    var rest := KeyValue("body", body.tokens);
    var l: Tokens := [Literal("200", None)];
    assert l[1..] == [];
    KeyValueIsSolid("status", l);
    SplitCloses(status, rest);
    var inner := Entry200(body).inner;
    assert Split(inner)[0] == status;
    assert status[2] == Literal("200", None);
    assert Mentions(Split(inner)[0], literal);
  }

  lemma Entry200IsRecognised(body: Type)
    ensures HasStatus200(Entry200(body))
  {
    EntryMentions(body, Is200);
  }

  lemma MergedResponses(body: Type, explicit: Option<Tokens>)
    requires explicit.Some? ==> !Any200(explicit.value)
    ensures var inner := ResponsesInner(Some(body), explicit);
            && Split(inner) == [[Entry200(body)]] + (if explicit.Some? then Split(explicit.value) else [])
            && forall i, j :: 0 <= i < |Split(inner)| && 0 <= j < |Split(inner)[i]| ==>
                 (HasStatus200(Split(inner)[i][j]) <==> i == 0)
  {
    Entry200IsRecognised(body);
    var entry: Tokens := [Entry200(body)];
    GroupIsSolid(Entry200(body));
    hide Split, HasStatus200, Entry200, IsChunk, Closed;
    var inner := ResponsesInner(Some(body), explicit);
    if explicit.Some? {
      assert inner == entry + [COMMA] + explicit.value;
      SplitCloses(entry, explicit.value);
      forall i, j | 0 <= i < |Split(inner)| && 0 <= j < |Split(inner)[i]|
        ensures HasStatus200(Split(inner)[i][j]) <==> i == 0
      {
        if i > 0 {
          assert Split(inner)[i] == Split(explicit.value)[i - 1];
        }
      }
    } else {
      SplitOne(entry);
    }
  }

  /**
   * With an inferred body the emitted responses are the inferred entry followed by the entries
   * written in the first `responses(...)`, in order; the macro recognises only the inferred one as
   * an entry for 200.
   */
  lemma ResponsesSurvive(httpMethod: string, attr: Tokens, func: Handler)
    requires Expand(httpMethod, attr, func).Ok?
    ensures var inner := Expand(httpMethod, attr, func).value.responsesInner;
            var written := if ExplicitResponses(attr).Some? then Split(ExplicitResponses(attr).value) else [];
            match InferredResponseBody(func.output)
            case None => Split(inner) == written
            case Some(body) =>
              && Split(inner) == [[Entry200(body)]] + written
              && forall i, j :: 0 <= i < |Split(inner)| && 0 <= j < |Split(inner)[i]| ==>
                   (HasStatus200(Split(inner)[i][j]) <==> i == 0)
  {
    hide Split, Any200, HasStatus200, Entry200, PassThrough, ParamsArg, InferredParams, RequestBodyArg, Head, WrappedTypes,
         FindPathLiteral, InferredResponseBody;
    match InferredResponseBody(func.output)
    case None =>
    case Some(body) => MergedResponses(body, ExplicitResponses(attr));
  }

  // ---- 200 under any suffix --------------------------------------------------------------------------------

  const INTEGER_SUFFIXES: seq<string> :=
    ["", "u8", "u16", "u32", "u64", "u128", "usize", "i8", "i16", "i32", "i64", "i128", "isize"]

  /** An integer literal for 200: without a suffix or with the suffix of an integer type. */
  predicate Means200(text: string) {
    |text| >= 3 && text[..3] == "200" && text[3..] in INTEGER_SUFFIXES
  }

  predicate HasDigit(s: string) {
    exists i :: 0 <= i < |s| && '0' <= s[i] <= '9'
  }

  /** An integer literal for 200 whose suffix has a digit, such as `200u16`. */
  predicate IsSized200(text: string) {
    Means200(text) && HasDigit(text[3..])
  }

  lemma LettersUnlessDigit(suffix: string)
    requires suffix in INTEGER_SUFFIXES && !HasDigit(suffix)
    ensures forall i :: 0 <= i < |suffix| ==> 'a' <= suffix[i] <= 'z'
  {
    assert |suffix| <= 1 || suffix == "usize" || suffix == "isize" || '0' <= suffix[1] <= '9';
  }

  /** Of the literals for 200 the macro misses exactly those whose suffix has a digit. */
  lemma MissedExactlyWhenSized(text: string)
    requires Means200(text)
    ensures Is200(text) <==> !IsSized200(text)
  {
    var suffix := text[3..];
    if HasDigit(suffix) {
      var i :| 0 <= i < |suffix| && '0' <= suffix[i] <= '9';
      assert text[3 + i] == suffix[i];
    } else {
      LettersUnlessDigit(suffix);
      forall i | 3 <= i < |text| ensures 'a' <= text[i] <= 'z' || 'A' <= text[i] <= 'Z' {
        assert text[i] == suffix[i - 3];
      }
    }
  }

  /** Token `j` of emitted entry `i` is an entry for 200, under any integer suffix. */
  predicate EmitsTwoHundred(inner: Tokens, i: nat, j: nat) {
    i < |Split(inner)| && j < |Split(inner)[i]| && HasStatus(Split(inner)[i][j], Means200)
  }

  predicate WritesSized200(inner: Tokens, i: nat, j: nat) {
    i < |Split(inner)| && j < |Split(inner)[i]| && HasStatus(Split(inner)[i][j], IsSized200)
  }

  /** A status literal for 200 that the macro misses carries a suffix with a digit. */
  lemma Unrecognised200(entry: TokenTree)
    requires HasStatus(entry, Means200) && !HasStatus200(entry)
    ensures HasStatus(entry, IsSized200)
  {
    var chunks := Split(entry.inner);
    var i :| 0 <= i < |chunks| && BuildAttrKey(chunks[i]).name == "status" && Mentions(chunks[i], Means200);
    var j :| 0 <= j < |chunks[i]| && chunks[i][j].Literal? && Means200(chunks[i][j].text);
    assert !Mentions(chunks[i], Is200);
    MissedExactlyWhenSized(chunks[i][j].text);
    assert Mentions(chunks[i], IsSized200);
  }

  lemma Sized200Means200(entry: TokenTree)
    requires HasStatus(entry, IsSized200)
    ensures HasStatus(entry, Means200)
  {
    var chunks := Split(entry.inner);
    var i :| 0 <= i < |chunks| && BuildAttrKey(chunks[i]).name == "status" && Mentions(chunks[i], IsSized200);
    assert Mentions(chunks[i], Means200);
  }

  /** Behind a first entry: the entries for 200 that the macro missed. */
  lemma MissedEntries(first: Tokens, inner: Tokens, written: Tokens)
    requires Split(inner) == [first] + Split(written)
    requires forall i, j :: 0 < i < |Split(inner)| && 0 <= j < |Split(inner)[i]| ==> !HasStatus200(Split(inner)[i][j])
    ensures (exists i: nat, j: nat :: i > 0 && EmitsTwoHundred(inner, i, j)) <==>
            exists i: nat, j: nat :: WritesSized200(written, i, j)
  {
    hide Split, HasStatus, HasStatus200;
    forall i: nat, j: nat | i > 0 && EmitsTwoHundred(inner, i, j) ensures WritesSized200(written, i - 1, j) {
      assert Split(inner)[i] == Split(written)[i - 1];
      Unrecognised200(Split(inner)[i][j]);
    }
    forall i: nat, j: nat | WritesSized200(written, i, j) ensures EmitsTwoHundred(inner, i + 1, j) {
      assert Split(inner)[i + 1] == Split(written)[i];
      Sized200Means200(Split(written)[i][j]);
    }
  }

  predicate AreLetters(s: string) {
    forall i :: 0 <= i < |s| ==> 'a' <= s[i] <= 'z' || 'A' <= s[i] <= 'Z'
  }

  /** `200` and behind it letters only, or nothing. */
  ghost predicate Spells200(text: string) {
    exists rest: string :: text == "200" + rest && AreLetters(rest)
  }

  lemma RecognisedExactlyWhen(text: string)
    ensures Is200(text) <==> Spells200(text)
  {
    if Is200(text) {
      assert text == "200" + text[3..] && AreLetters(text[3..]);
    }
    if rest: string :| text == "200" + rest && AreLetters(rest) {
      assert forall i :: 3 <= i < |text| ==> text[i] == rest[i - 3];
    }
  }

  lemma PlainMeans200()
    ensures Means200("200") && IsSized200("200u16") && !Is200("200u16")
  {
    assert "200"[3..] == INTEGER_SUFFIXES[0];
    assert "200u16"[3..] == INTEGER_SUFFIXES[2];
    assert "u16"[1] == '1' && "200u16"[4] == '1';
  }

  /**
   * The inferred entry is not always the only one for 200: a second one is emitted exactly when a
   * written one carries a suffix with a digit.
   */
  lemma SecondTwoHundredExactlyWhen(httpMethod: string, attr: Tokens, func: Handler)
    requires Expand(httpMethod, attr, func).Ok? && InferredResponseBody(func.output).Some?
    ensures var inner := Expand(httpMethod, attr, func).value.responsesInner;
            && EmitsTwoHundred(inner, 0, 0)
            && ((exists i: nat, j: nat :: i > 0 && EmitsTwoHundred(inner, i, j)) <==>
                ExplicitResponses(attr).Some? &&
                exists i: nat, j: nat :: WritesSized200(ExplicitResponses(attr).value, i, j))
  {
    ResponsesSurvive(httpMethod, attr, func);
    var inner := Expand(httpMethod, attr, func).value.responsesInner;
    var explicit, body := ExplicitResponses(attr), InferredResponseBody(func.output).value;
    PlainMeans200();
    EntryMentions(body, Means200);
    hide Expand, Split, HasStatus, InferredResponseBody, ExplicitResponses, Entry200;
    assert Split(inner)[0] == [Entry200(body)];
    if explicit.Some? {
      MissedEntries([Entry200(body)], inner, explicit.value);
    }
  }

  /** An attribute that declares a response for `200u16` beside the inferred one. */
  function SizedEntry(): TokenTree {
    Group(Parenthesis, KeyValue("status", [Literal("200u16", None)]))
  }

  lemma SizedEntryHasOneKey()
    ensures Split(SizedEntry().inner) == [KeyValue("status", [Literal("200u16", None)])]
  {
    var l: Tokens := [Literal("200u16", None)];
    assert l[1..] == [] && Unbroken(l, 0);
    KeyValueIsSolid("status", l);
    SplitOne(KeyValue("status", l));
  }

  lemma SizedEntryIsMissed()
    ensures HasStatus(SizedEntry(), IsSized200) && !HasStatus200(SizedEntry())
  {
    SizedEntryHasOneKey();
    PlainMeans200();
    hide Is200, IsSized200, Split;
    var key := KeyValue("status", [Literal("200u16", None)]);
    assert key[2] == Literal("200u16", None);
    assert BuildAttrKey(Split(SizedEntry().inner)[0]).name == "status";
    assert Mentions(key, IsSized200);
    assert !Mentions(key, Is200);
  }

  lemma SplitOfEntry(entry: TokenTree)
    requires entry.Group?
    ensures Split([entry]) == [[entry]]
  {
    GroupIsSolid(entry);
    SplitOne([entry]);
  }

  /** An attribute of one call has one key. */
  lemma OneCall(name: string, inner: Tokens)
    ensures Split(Call(name, inner)) == [Call(name, inner)]
    ensures InnerOf(FindKey(Keys(Call(name, inner)), name)) == Some(inner)
  {
    CallIsSolid(name, inner);
    SplitOne(Call(name, inner));
    assert FindKey(Keys(Call(name, inner)), name) == Some(BuildAttrKey(Call(name, inner)));
  }

  lemma ResponsesOfOneCall(httpMethod: string, written: Tokens, func: Handler)
    requires Expand(httpMethod, Call("responses", written), func).Ok?
    ensures ExplicitResponses(Call("responses", written)) == Some(written)
    ensures Expand(httpMethod, Call("responses", written), func).value.responsesInner ==
            ResponsesInner(InferredResponseBody(func.output), Some(written))
  {
    OneCall("responses", written);
    hide Split, Any200, PassThrough, ParamsArg, RequestBodyArg, Inferred, ExplicitParams, WrappedTypes,
         InferredResponseBody, FindKey;
  }

  /** For such an attribute the macro emits both entries. */
  lemma SizedEntryIsEmitted(httpMethod: string, func: Handler)
    requires InferredResponseBody(func.output).Some?
    requires Expand(httpMethod, Call("responses", [SizedEntry()]), func).Ok?
    ensures var inner := Expand(httpMethod, Call("responses", [SizedEntry()]), func).value.responsesInner;
            inner == [Entry200(InferredResponseBody(func.output).value), COMMA, SizedEntry()] &&
            exists i: nat, j: nat :: i > 0 && EmitsTwoHundred(inner, i, j)
  {
    var attr := Call("responses", [SizedEntry()]);
    hide Expand, Split, HasStatus, IsSized200, Call;
    ResponsesOfOneCall(httpMethod, [SizedEntry()], func);
    SplitOfEntry(SizedEntry());
    SizedEntryIsMissed();
    assert WritesSized200([SizedEntry()], 0, 0);
    SecondTwoHundredExactlyWhen(httpMethod, attr, func);
  }

  // ---- parameters --------------------------------------------------------------------------------------------

  /**
   * The types of the handler's path and query parameters keep apart when they are printed in a row:
   * none has a separating comma, and those with something behind them close their angle brackets.
   * The path parameter does not matter if it is given as `("name" = T, Path)`.
   */
  predicate TypesKeepApart(attr: Tokens, func: Handler, more: bool) {
    var sig := SignatureOf(func);
    && (sig.appPathType.Some? && !ByName(sig.appPathType.value, FindPathLiteral(Keys(attr))) ==>
          var tokens := sig.appPathType.value.tokens;
          IsChunk(tokens) && (more || sig.appQueryType.Some? ==> Closed(tokens)))
    && (sig.appQueryType.Some? ==>
          var tokens := sig.appQueryType.value.tokens;
          IsChunk(tokens) && (more ==> Closed(tokens)))
  }

  lemma NamedParamIsSolid(name: string, ty: Type)
    ensures ClosedChunk(NamedParam(name, ty))
  {
    GroupIsSolid(NamedParam(name, ty)[0]);
  }

  /** The condition on the parameters as a condition on their types. */
  lemma KeepApartExactlyWhen(attr: Tokens, func: Handler)
    ensures TypesKeepApart(attr, func, true) <==>
            forall i :: 0 <= i < |Inferred(attr, func)| ==> ClosedChunk(Inferred(attr, func)[i])
    ensures TypesKeepApart(attr, func, false) <==> Separable(Inferred(attr, func))
  {
    hide IsChunk, Closed, FindPathLiteral, WrappedTypes, Placeholders, NamedParam, IsPrimitivePathParamType, Keys;
    var sig, pathLit := SignatureOf(func), FindPathLiteral(Keys(attr));
    var inferred := Inferred(attr, func);
    if sig.appPathType.Some? && ByName(sig.appPathType.value, pathLit) {
      NamedParamIsSolid(Placeholders(pathLit)[0], sig.appPathType.value);
    }
    if sig.appPathType.Some? {
      assert inferred[0] == if ByName(sig.appPathType.value, pathLit)
                            then NamedParam(Placeholders(pathLit)[0], sig.appPathType.value)
                            else sig.appPathType.value.tokens;
    }
    if sig.appQueryType.Some? {
      assert inferred[|inferred| - 1] == sig.appQueryType.value.tokens;
    }
  }

  /**
   * The emitted parameters are the inferred ones followed by the written ones, in order, if and only
   * if the handler's types keep apart; there is no `params` only if nothing is inferred or written.
   */
  lemma ParamsSurvive(httpMethod: string, attr: Tokens, func: Handler)
    requires Expand(httpMethod, attr, func).Ok?
    ensures var params, inferred, written :=
              Expand(httpMethod, attr, func).value.params, Inferred(attr, func), ExplicitParams(attr);
            && (params.None? <==> inferred == [] && written.None?)
            && (params.Some? ==>
                  && params.value == Call("params", params.value[1].inner)
                  && (Split(params.value[1].inner) == inferred + (if written.Some? then Split(written.value) else [])
                      <==> TypesKeepApart(attr, func, written.Some?)))
  {
    var inferred, written := Inferred(attr, func), ExplicitParams(attr);
    KeepApartExactlyWhen(attr, func);
    hide InferredParams, TypesKeepApart, FindPathLiteral, FindKey, Split, Separable, ClosedChunk, RequestBodyArg,
         ResponsesInner, WrappedTypes, Any200, InferredResponseBody;
    if inferred != [] {
      if written.Some? {
        InFrontExactlyWhen(inferred, written.value);
      } else {
        SplitUndoesJoin(inferred);
        assert inferred + [] == inferred;
      }
    } else if written.Some? {
      assert [] + Split(written.value) == Split(written.value);
    }
  }
}
