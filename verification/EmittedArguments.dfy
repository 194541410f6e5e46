/**
 * What the route macros accept and emit, said of the types and tokens that are written: which type
 * stands in which wrapper, which keys are there, and which tokens come out.
 */
module EmittedArguments {
  import opened Sequences
  import opened Wrappers
  import opened Syntax
  import opened KeySplitting
  import opened RouteExpansion
  import opened WrittenKeys
  import PathTemplates

  // ---- the handler ---------------------------------------------------------------------------------

  /** The parameter's type is `wrapper<inner>`. */
  ghost predicate Takes(arg: FnArg, wrapper: string, inner: Type) {
    arg.Typed? && HasOnlyArg(arg.ty, wrapper, inner)
  }

  ghost predicate Nobody(inputs: seq<FnArg>, wrapper: string) {
    forall i, inner :: 0 <= i < |inputs| ==> !Takes(inputs[i], wrapper, inner)
  }

  /** One parameter has a type `wrapper<inner>`, and no other a type `wrapper<_>`. */
  ghost predicate Solo(inputs: seq<FnArg>, wrapper: string, inner: Type) {
    exists i :: 0 <= i < |inputs| && Takes(inputs[i], wrapper, inner) &&
      forall j, other :: 0 <= j < |inputs| && j != i ==> !Takes(inputs[j], wrapper, other)
  }

  ghost predicate Several(inputs: seq<FnArg>, wrapper: string) {
    exists i, j, x, y :: 0 <= i < j < |inputs| && Takes(inputs[i], wrapper, x) && Takes(inputs[j], wrapper, y)
  }

  /** The return type is `AppJson<body>` or `Result<AppJson<body>, ..>`. */
  ghost predicate ReturnsBody(output: ReturnType, body: Type) {
    output.Returns? &&
    (HasOnlyArg(output.ty, "AppJson", body) ||
     exists ok :: HasFirstArg(output.ty, "Result", ok) && HasOnlyArg(ok, "AppJson", body))
  }

  lemma WrappedIs(arg: FnArg, wrapper: string)
    ensures forall inner :: Takes(arg, wrapper, inner) <==> Wrapped(arg, wrapper) == Some(inner)
  {
  }

  lemma ResponseBodyIs(output: ReturnType)
    ensures forall body :: ReturnsBody(output, body) <==> InferredResponseBody(output) == Some(body)
  {
    if output.Returns? {
      FirstTypeArgIs(output.ty, "Result");
    }
  }

  lemma NobodyCons(inputs: seq<FnArg>, wrapper: string)
    requires inputs != []
    ensures Nobody(inputs, wrapper) <==>
            Nobody(inputs[1..], wrapper) && forall inner :: !Takes(inputs[0], wrapper, inner)
  {
    hide Takes;
    assert forall i :: 0 < i < |inputs| ==> inputs[i] == inputs[1..][i - 1];
    assert forall i :: 0 <= i < |inputs[1..]| ==> inputs[1..][i] == inputs[i + 1];
  }

  lemma SeveralCons(inputs: seq<FnArg>, wrapper: string)
    requires inputs != []
    ensures Several(inputs, wrapper) <==>
            || Several(inputs[1..], wrapper)
            || (!Nobody(inputs[1..], wrapper) && exists inner :: Takes(inputs[0], wrapper, inner))
  {
    hide Takes;
    var rest := inputs[1..];
    assert forall i :: 0 < i < |inputs| ==> inputs[i] == rest[i - 1];
    assert forall i :: 0 <= i < |rest| ==> rest[i] == inputs[i + 1];
  }

  lemma SoloCons(inputs: seq<FnArg>, wrapper: string)
    requires inputs != []
    ensures forall inner :: Solo(inputs, wrapper, inner) <==>
              || (Takes(inputs[0], wrapper, inner) && Nobody(inputs[1..], wrapper))
              || (Solo(inputs[1..], wrapper, inner) && forall other :: !Takes(inputs[0], wrapper, other))
  {
    hide Takes;
    var rest := inputs[1..];
    assert forall i :: 0 < i < |inputs| ==> inputs[i] == rest[i - 1];
    assert forall i :: 0 <= i < |rest| ==> rest[i] == inputs[i + 1];
  }

  lemma {:induction false} WrappedAre(inputs: seq<FnArg>, wrapper: string)
    ensures WrappedTypes(inputs, wrapper) == [] <==> Nobody(inputs, wrapper)
    ensures |WrappedTypes(inputs, wrapper)| > 1 <==> Several(inputs, wrapper)
    ensures forall inner :: WrappedTypes(inputs, wrapper) == [inner] <==> Solo(inputs, wrapper, inner)
  {
    if inputs == [] {
    } else {
      WrappedAre(inputs[1..], wrapper);
      WrappedIs(inputs[0], wrapper);
      hide Takes, Wrapped;
      NobodyCons(inputs, wrapper);
      SeveralCons(inputs, wrapper);
      SoloCons(inputs, wrapper);
    }
  }

  // ---- the attribute -------------------------------------------------------------------------------

  /** Key `i` of the attribute begins with this name. */
  predicate Begins(attr: Tokens, i: nat, name: string) {
    i < |Split(attr)| && Split(attr)[i] != [] && Split(attr)[i][0] == Ident(name)
  }

  predicate NoKey(attr: Tokens, name: string) {
    forall i :: 0 <= i < |Split(attr)| ==> !Begins(attr, i, name)
  }

  /** The first key of this name is `chunk`. */
  predicate FirstKey(attr: Tokens, name: string, chunk: Tokens) {
    exists i :: 0 <= i < |Split(attr)| && Begins(attr, i, name) && Split(attr)[i] == chunk &&
      forall j :: 0 <= j < i ==> !Begins(attr, j, name)
  }

  /** The first key of this name is `name(inner)`, with any brackets. */
  ghost predicate FirstCall(attr: Tokens, name: string, inner: Tokens) {
    exists d :: FirstKey(attr, name, [Ident(name), Group(d, inner)])
  }

  /** There is no key of this name, or the first one is not a call. */
  ghost predicate NoCall(attr: Tokens, name: string) {
    forall inner :: !FirstCall(attr, name, inner)
  }

  lemma NamesAre(attr: Tokens, name: string)
    requires name != ""
    ensures forall i :: 0 <= i < |Split(attr)| ==>
              (Keys(attr)[i].name == name <==> Begins(attr, i, name)) && Keys(attr)[i].tokens == Split(attr)[i]
    ensures |Keys(attr)| == |Split(attr)|
  {
    SplitIsSeparable(attr);
  }

  lemma FoundIs(attr: Tokens, name: string)
    requires name != ""
    ensures FindKey(Keys(attr), name) == None <==> NoKey(attr, name)
    ensures forall chunk :: FirstKey(attr, name, chunk) <==> FindKey(Keys(attr), name) == Some(AttrKey(name, chunk))
  {
    NamesAre(attr, name);
    FindKeyIsThere(Keys(attr), name);
    hide Begins, Split, Keys, FindKey;
    if FindKey(Keys(attr), name).Some? {
      var key := FindKey(Keys(attr), name).value;
      var i :| 0 <= i < |Keys(attr)| && Keys(attr)[i] == key && key.name == name &&
        forall j :: 0 <= j < i ==> Keys(attr)[j].name != name;
      assert FirstKey(attr, name, key.tokens);
      forall chunk | FirstKey(attr, name, chunk) ensures chunk == key.tokens {
        var k :| 0 <= k < |Split(attr)| && Begins(attr, k, name) && Split(attr)[k] == chunk &&
          forall j :: 0 <= j < k ==> !Begins(attr, j, name);
        assert Keys(attr)[k].name == name;
      }
    }
  }

  lemma FoundBegins(attr: Tokens, name: string)
    requires name != "" && FindKey(Keys(attr), name).Some?
    ensures var key := FindKey(Keys(attr), name).value;
            key.name == name && key.tokens != [] && key.tokens[0] == Ident(name)
  {
    NamesAre(attr, name);
    FindKeyIsThere(Keys(attr), name);
  }

  lemma CallIs(attr: Tokens, name: string)
    requires name != ""
    ensures forall inner :: FirstCall(attr, name, inner) <==> InnerOf(FindKey(Keys(attr), name)) == Some(inner)
  {
    FoundIs(attr, name);
    NamesAre(attr, name);
    FindKeyIsThere(Keys(attr), name);
    hide FirstKey, Split, Keys, FindKey;
    forall inner | InnerOf(FindKey(Keys(attr), name)) == Some(inner) ensures FirstCall(attr, name, inner) {
      var key := FindKey(Keys(attr), name).value;
      FoundBegins(attr, name);
      assert key.tokens == [Ident(name), Group(key.tokens[1].delimiter, inner)];
      assert FirstKey(attr, name, [Ident(name), Group(key.tokens[1].delimiter, inner)]);
    }
  }

  // ---- texts ------------------------------------------------------------------------------------------

  lemma WithoutSpacesStep(s: string)
    requires s != ""
    ensures WithoutSpaces(s) == (if s[0] == ' ' then "" else [s[0]]) + WithoutSpaces(s[1..])
  {
  }

  lemma {:induction false} WithoutSpacesOf(a: string, b: string)
    ensures WithoutSpaces(a + b) == WithoutSpaces(a) + WithoutSpaces(b)
  {
    if a == "" {
      assert a + b == b;
    } else {
      WithoutSpacesOf(a[1..], b);
      var first := if a[0] == ' ' then "" else [a[0]];
      WithoutSpacesStep(a + b);
      WithoutSpacesStep(a);
      hide WithoutSpaces;
      assert (a + b)[1..] == a[1..] + b;
      Assoc(first, WithoutSpaces(a[1..]), WithoutSpaces(b));
    }
  }

  /** Spaces are dropped and nothing else: what is left of a text is left of each of its parts. */
  lemma SpacesAreDropped(a: string, b: string, c: char)
    ensures WithoutSpaces(a + b) == WithoutSpaces(a) + WithoutSpaces(b)
    ensures WithoutSpaces([c]) == if c == ' ' then "" else [c]
  {
    WithoutSpacesOf(a, b);
    assert [c][1..] == "";
  }

  lemma {:induction false} TextOfConcat(a: Tokens, b: Tokens)
    ensures TextOfAll(a + b) == TextOfAll(a) + TextOfAll(b)
  {
    hide TextOf;
    if a == [] {
      assert a + b == b;
    } else {
      TextOfConcat(a[1..], b);
      assert (a + b)[1..] == a[1..] + b;
      Assoc(TextOf(a[0]), TextOfAll(a[1..]), TextOfAll(b));
    }
  }

  lemma {:induction false} NoSpaces(s: string)
    requires ' ' !in s
    ensures WithoutSpaces(s) == s
  {
    if s == "" {
    } else {
      NoSpaces(s[1..]);
    }
  }

  lemma Bracketed(open: string, s: string, close: string)
    requires ' ' !in open && ' ' !in close
    ensures WithoutSpaces(open + s + close) == open + WithoutSpaces(s) + close
  {
    WithoutSpacesOf(open + s, close);
    WithoutSpacesOf(open, s);
    NoSpaces(open);
    NoSpaces(close);
  }

  /** What is left of the text of tokens is left of each of its parts. */
  lemma NormalizeOf(a: Tokens, b: Tokens)
    ensures Normalize(a + b) == Normalize(a) + Normalize(b)
  {
    TextOfConcat(a, b);
    WithoutSpacesOf(TextOfAll(a), TextOfAll(b));
  }

  lemma TextOfOne(t: TokenTree)
    ensures TextOfAll([t]) == TextOf(t)
  {
    assert [t][1..] == [];
    assert TextOf(t) + "" == TextOf(t);
  }

  /** The text of one token, a group's with its brackets, without any space. */
  lemma NormalizeOne(t: TokenTree)
    ensures match t {
              case Ident(name) => ' ' !in name ==> Normalize([t]) == name
              case Literal(text, _) => ' ' !in text ==> Normalize([t]) == text
              case Punct(ch) => ch != ' ' ==> Normalize([t]) == [ch]
              case Group(Parenthesis, inner) => Normalize([t]) == "(" + Normalize(inner) + ")"
              case Group(Bracket, inner) => Normalize([t]) == "[" + Normalize(inner) + "]"
              case Group(Brace, inner) => Normalize([t]) == "{" + Normalize(inner) + "}"
              case Group(NoDelimiter, inner) => Normalize([t]) == Normalize(inner)
            }
  {
    TextOfOne(t);
    hide WithoutSpaces, TextOfAll;
    match t
    case Group(d, inner) =>
      Bracketed(Opening(d), TextOfAll(inner), Closing(d));
      assert "" + WithoutSpaces(TextOfAll(inner)) + "" == WithoutSpaces(TextOfAll(inner));
    case Ident(name) => if ' ' !in name { NoSpaces(name); }
    case Literal(text, _) => if ' ' !in text { NoSpaces(text); }
    case Punct(ch) => if ch != ' ' { NoSpaces([ch]); }
  }

  // ---- what is accepted -------------------------------------------------------------------------------

  /** A body is written and one is inferred, and their texts differ. */
  ghost predicate BodiesConflict(attr: Tokens, func: Handler) {
    exists chunk, ty :: FirstKey(attr, "request_body", chunk) && Solo(func.inputs, "AppJson", ty) &&
      Normalize(if |chunk| >= 2 then chunk[2..] else []) != Normalize(ty.tokens)
  }

  /** `(.., status .. 200 .., ..)`: parentheses with a key `status` among whose tokens 200 is spelled. */
  ghost predicate IsEntryFor200(entry: TokenTree) {
    exists inner, i: nat, j: nat, text, s ::
      && entry == Group(Parenthesis, inner) && Begins(inner, i, "status")
      && j < |Split(inner)[i]| && Split(inner)[i][j] == Literal(text, s) && Spells200(text)
  }

  /** Some token of some key is an entry for 200. */
  ghost predicate Lists200(written: Tokens) {
    exists i, j :: 0 <= i < |Split(written)| && 0 <= j < |Split(written)[i]| && IsEntryFor200(Split(written)[i][j])
  }

  lemma EntryFor200Is(entry: TokenTree)
    ensures IsEntryFor200(entry) <==> HasStatus200(entry)
  {
    forall text ensures Spells200(text) <==> Is200(text) {
      RecognisedExactlyWhen(text);
    }
    hide Spells200, Is200;
    if entry.Group? {
      SplitIsSeparable(entry.inner);
    }
    hide Split;
    if HasStatus200(entry) {
      var i :| 0 <= i < |Split(entry.inner)| && BuildAttrKey(Split(entry.inner)[i]).name == "status" &&
        Mentions(Split(entry.inner)[i], Is200);
      var j :| 0 <= j < |Split(entry.inner)[i]| && Split(entry.inner)[i][j].Literal? &&
        Is200(Split(entry.inner)[i][j].text);
      var literal := Split(entry.inner)[i][j];
      assert Begins(entry.inner, i, "status");
      assert entry == Group(Parenthesis, entry.inner) && literal == Literal(literal.text, literal.strValue);
    }
    if IsEntryFor200(entry) {
      var inner, i: nat, j: nat, text, s :|
        && entry == Group(Parenthesis, inner) && Begins(inner, i, "status")
        && j < |Split(inner)[i]| && Split(inner)[i][j] == Literal(text, s) && Spells200(text);
      assert Is200(Split(inner)[i][j].text);
      assert Mentions(Split(inner)[i], Is200);
    }
  }

  lemma Lists200Is(written: Tokens)
    ensures Lists200(written) <==> Any200(written)
  {
    forall entry ensures IsEntryFor200(entry) <==> HasStatus200(entry) {
      EntryFor200Is(entry);
    }
    hide IsEntryFor200, HasStatus200, Split;
  }

  /** A response is inferred, and one for 200 is written. */
  ghost predicate ResponsesConflict(attr: Tokens, func: Handler) {
    exists body, written :: ReturnsBody(func.output, body) && FirstCall(attr, "responses", written) && Lists200(written)
  }

  ghost predicate NoResponse(attr: Tokens, func: Handler) {
    (forall body :: !ReturnsBody(func.output, body)) && NoCall(attr, "responses")
  }

  /** The request body: the type of the one `AppJson` parameter, else the key as it is written, else none. */
  ghost predicate IsBody(attr: Tokens, func: Handler, part: seq<Tokens>) {
    || (exists ty :: Solo(func.inputs, "AppJson", ty) && part == [[Ident("request_body"), Punct('=')] + ty.tokens])
    || (Nobody(func.inputs, "AppJson") && exists chunk :: FirstKey(attr, "request_body", chunk) && part == [chunk])
    || (Nobody(func.inputs, "AppJson") && NoKey(attr, "request_body") && part == [])
  }

  lemma FirstOf<T>(s: seq<T>)
    requires |s| <= 1
    ensures First(s).None? <==> s == []
    ensures forall x :: First(s) == Some(x) <==> s == [x]
  {
  }

  lemma FoundNamed(attr: Tokens, name: string)
    requires name != ""
    ensures var key := FindKey(Keys(attr), name); key.Some? ==> key == Some(AttrKey(name, key.value.tokens))
  {
    FindKeyIsThere(Keys(attr), name);
  }

  lemma InferredBodyIs(func: Handler)
    ensures InferredBody(func) == First(WrappedTypes(func.inputs, "AppJson"))
  {
  }

  lemma BodyCases(attr: Tokens, func: Handler, key: Option<AttrKey>, inferred: Option<Type>)
    requires key.None? ==> NoKey(attr, "request_body")
    requires key.Some? ==> key == Some(AttrKey("request_body", key.value.tokens))
    requires forall chunk :: FirstKey(attr, "request_body", chunk) <==> key == Some(AttrKey("request_body", chunk))
    requires inferred.None? ==> Nobody(func.inputs, "AppJson")
    requires forall ty :: Solo(func.inputs, "AppJson", ty) <==> inferred == Some(ty)
    ensures var body := RequestBodyArg(key, inferred);
            && (body == Err(ConflictingRequestBody) <==> BodiesConflict(attr, func))
            && (body.Err? ==> body == Err(ConflictingRequestBody))
            && (body.Ok? ==> IsBody(attr, func, Opt(body.value)))
  {
    hide FirstKey, NoKey, Solo, Nobody, Normalize;
    match (key, inferred)
    case (Some(k), Some(ty)) =>
      assert FirstKey(attr, "request_body", k.tokens) && Solo(func.inputs, "AppJson", ty);
    case (Some(k), None) =>
      assert FirstKey(attr, "request_body", k.tokens);
    case (None, Some(ty)) =>
      assert Solo(func.inputs, "AppJson", ty);
    case (None, None) =>
  }

  lemma BodyIs(attr: Tokens, func: Handler)
    requires !Several(func.inputs, "AppJson")
    ensures var body := RequestBodyArg(FindKey(Keys(attr), "request_body"), InferredBody(func));
            && (body == Err(ConflictingRequestBody) <==> BodiesConflict(attr, func))
            && (body.Err? ==> body == Err(ConflictingRequestBody))
            && (body.Ok? ==> IsBody(attr, func, Opt(body.value)))
  {
    WrappedAre(func.inputs, "AppJson");
    FirstOf(WrappedTypes(func.inputs, "AppJson"));
    FoundIs(attr, "request_body");
    FoundNamed(attr, "request_body");
    hide *;
    BodyCases(attr, func, FindKey(Keys(attr), "request_body"), First(WrappedTypes(func.inputs, "AppJson")));
    InferredBodyIs(func);
  }

  lemma ResponsesAre(attr: Tokens, func: Handler)
    ensures var response, responses := InferredResponseBody(func.output), ExplicitResponses(attr);
            && (ResponsesConflict(attr, func) <==> response.Some? && responses.Some? && Any200(responses.value))
            && (NoResponse(attr, func) <==> response.None? && responses.None?)
  {
    ResponseBodyIs(func.output);
    CallIs(attr, "responses");
    forall written ensures Lists200(written) <==> Any200(written) {
      Lists200Is(written);
    }
    hide Lists200, FirstCall, ReturnsBody, Any200, FindKey, Keys, InferredResponseBody;
    var response, responses := InferredResponseBody(func.output), ExplicitResponses(attr);
    assert response.Some? ==> ReturnsBody(func.output, response.value);
    assert responses.Some? ==> FirstCall(attr, "responses", responses.value);
  }

  /** The refusals in terms of what the macro computes. */
  lemma RefusalsAre(httpMethod: string, attr: Tokens, func: Handler)
    ensures var body := RequestBodyArg(FindKey(Keys(attr), "request_body"), InferredBody(func));
            var response, responses := InferredResponseBody(func.output), ExplicitResponses(attr);
            var r := Expand(httpMethod, attr, func);
            if |WrappedTypes(func.inputs, "AppJson")| > 1 then r == Err(ManyRequestBodies)
            else if |WrappedTypes(func.inputs, "AppPath")| > 1 then r == Err(ManyPaths)
            else if |WrappedTypes(func.inputs, "AppQuery")| > 1 then r == Err(ManyQueries)
            else if body.Err? then r == Err(body.error)
            else if response.Some? && responses.Some? && Any200(responses.value) then r == Err(Duplicate200)
            else if response.None? && responses.None? then r == Err(NoResponses)
            else r.Ok? && r.value.body == body.value &&
                 r.value.head == Head(httpMethod, func.name) && r.value.passThrough == PassThrough(Keys(attr)) &&
                 r.value.responsesInner == ResponsesInner(response, responses) &&
                 r.value.params == ParamsArg(Inferred(attr, func), ExplicitParams(attr))
  {
    hide WrappedTypes, RequestBodyArg, Any200, FindKey, Keys, Inferred, ExplicitParams, ExplicitResponses, ResponsesInner,
         InferredResponseBody, PassThrough, Head, ParamsArg, InferredBody;
  }

  /** The first reason to refuse, in the order they are looked for; without one the attribute is accepted. */
  lemma AcceptedExactlyWhen(httpMethod: string, attr: Tokens, func: Handler)
    ensures var r := Expand(httpMethod, attr, func);
            if Several(func.inputs, "AppJson") then r == Err(ManyRequestBodies)
            else if Several(func.inputs, "AppPath") then r == Err(ManyPaths)
            else if Several(func.inputs, "AppQuery") then r == Err(ManyQueries)
            else if BodiesConflict(attr, func) then r == Err(ConflictingRequestBody)
            else if ResponsesConflict(attr, func) then r == Err(Duplicate200)
            else if NoResponse(attr, func) then r == Err(NoResponses)
            else r.Ok?
  {
    WrappedAre(func.inputs, "AppJson");
    WrappedAre(func.inputs, "AppPath");
    WrappedAre(func.inputs, "AppQuery");
    if !Several(func.inputs, "AppJson") {
      BodyIs(attr, func);
    }
    ResponsesAre(attr, func);
    hide *;
    RefusalsAre(httpMethod, attr, func);
  }

  // ---- what is emitted ----------------------------------------------------------------------------------

  /** What is written in the first `name(..)`, if there is one. */
  ghost predicate IsWritten(attr: Tokens, name: string, part: seq<Tokens>) {
    || (exists inner :: FirstCall(attr, name, inner) && part == [inner])
    || (NoCall(attr, name) && part == [])
  }

  /** The entry for the returned body: `(status = 200, body = ..)`. */
  ghost predicate IsEntry(func: Handler, part: seq<Tokens>) {
    || (exists body :: ReturnsBody(func.output, body) &&
          part == [[Group(Parenthesis, [Ident("status"), Punct('='), Literal("200", None), Punct(','),
                                        Ident("body"), Punct('=')] + body.tokens)]])
    || ((forall body :: !ReturnsBody(func.output, body)) && part == [])
  }

  ghost predicate IsQuery(func: Handler, part: seq<Tokens>) {
    || (exists ty :: Solo(func.inputs, "AppQuery", ty) && part == [ty.tokens])
    || (Nobody(func.inputs, "AppQuery") && part == [])
  }

  /** The first literal among the tokens is a string that stands for `lit`. */
  ghost predicate BeginsLiteral(tokens: Tokens, lit: string) {
    exists j :: 0 <= j < |tokens| && tokens[j].Literal? && tokens[j].strValue == Some(lit) &&
      forall k :: 0 <= k < j ==> !tokens[k].Literal?
  }

  ghost predicate PathLiteral(attr: Tokens, lit: string) {
    exists chunk :: FirstKey(attr, "path", chunk) && BeginsLiteral(chunk, lit)
  }

  /** A built-in type or one whose name ends in `Id`, without path or arguments. */
  ghost predicate IsSimple(ty: Type) {
    exists name: string :: ty.PathType? && ty.segments == [Segment(name, NoArgs)] &&
      (name in {"String", "bool", "char", "i8", "i16", "i32", "i64", "i128", "isize", "u8", "u16", "u32", "u64",
                "u128", "usize", "f32", "f64"} ||
       exists front :: name == front + "Id")
  }

  /** The one placeholder of the path is `name`. */
  ghost predicate OnePlaceholder(attr: Tokens, name: string) {
    exists lit :: PathLiteral(attr, lit) && PathTemplates.Scan(lit) == [name]
  }

  /** The path parameter: named after the one placeholder if its type is simple, else the type. */
  ghost predicate IsPath(attr: Tokens, func: Handler, part: seq<Tokens>) {
    || (exists ty, name :: Solo(func.inputs, "AppPath", ty) && IsSimple(ty) && OnePlaceholder(attr, name) &&
          part == [[Group(Parenthesis, [Literal("\"" + name + "\"", Some(name)), Punct('=')] + ty.tokens
                                       + [Punct(','), Ident("Path")])]])
    || (exists ty :: Solo(func.inputs, "AppPath", ty) && part == [ty.tokens] &&
          !(IsSimple(ty) && exists name :: OnePlaceholder(attr, name)))
    || (Nobody(func.inputs, "AppPath") && part == [])
  }

  lemma EntryIs(func: Handler)
    ensures var body := InferredResponseBody(func.output);
            IsEntry(func, if body.Some? then [[Entry200(body.value)]] else [])
  {
    ResponseBodyIs(func.output);
    var body := InferredResponseBody(func.output);
    hide ReturnsBody, InferredResponseBody;
    if body.Some? {
      assert ReturnsBody(func.output, body.value);
      assert Entry200(body.value) ==
             Group(Parenthesis, [Ident("status"), Punct('='), Literal("200", None), Punct(','),
                                 Ident("body"), Punct('=')] + body.value.tokens);
    }
  }

  lemma WrittenIs(attr: Tokens, name: string)
    requires name != ""
    ensures IsWritten(attr, name, Opt(InnerOf(FindKey(Keys(attr), name))))
  {
    CallIs(attr, name);
    var inner := InnerOf(FindKey(Keys(attr), name));
    hide FirstCall, InnerOf, Keys;
    if inner.Some? {
      assert FirstCall(attr, name, inner.value);
    }
  }

  lemma QueryIs(func: Handler)
    requires !Several(func.inputs, "AppQuery")
    ensures IsQuery(func, match First(WrappedTypes(func.inputs, "AppQuery")) {
                            case None => []
                            case Some(ty) => [ty.tokens]
                          })
  {
    WrappedAre(func.inputs, "AppQuery");
    FirstOf(WrappedTypes(func.inputs, "AppQuery"));
    var ty := First(WrappedTypes(func.inputs, "AppQuery"));
    hide WrappedTypes, Solo, Nobody;
    if ty.Some? {
      assert Solo(func.inputs, "AppQuery", ty.value);
    }
  }

  lemma {:induction false} FirstLiteralIs(tokens: Tokens)
    ensures forall lit :: FirstLiteral(tokens) == Some(lit) <==> BeginsLiteral(tokens, lit)
  {
    if tokens == [] {
    } else {
      var rest := tokens[1..];
      FirstLiteralIs(rest);
      assert forall j :: 0 < j < |tokens| ==> tokens[j] == rest[j - 1];
      assert forall j :: 0 <= j < |rest| ==> rest[j] == tokens[j + 1];
    }
  }

  lemma SimpleIs(ty: Type)
    ensures IsSimple(ty) <==> IsPrimitivePathParamType(ty)
  {
    if IsPrimitivePathParamType(ty) {
      var name := ty.segments[0].ident;
      assert ty.segments == [Segment(name, NoArgs)];
      if name !in PRIMITIVES {
        assert name == name[..|name| - 2] + "Id";
      }
    }
    if IsSimple(ty) {
      var name: string :| ty.PathType? && ty.segments == [Segment(name, NoArgs)] &&
        (name in {"String", "bool", "char", "i8", "i16", "i32", "i64", "i128", "isize", "u8", "u16", "u32", "u64",
                  "u128", "usize", "f32", "f64"} ||
         exists front :: name == front + "Id");
      if front :| name == front + "Id" {
        assert name[|name| - 2..] == "Id";
      }
    }
  }

  lemma PathLiteralIs(attr: Tokens)
    ensures forall lit :: PathLiteral(attr, lit) <==> FindPathLiteral(Keys(attr)) == Some(lit)
  {
    FoundIs(attr, "path");
    FoundNamed(attr, "path");
    var key := FindKey(Keys(attr), "path");
    if key.Some? {
      FirstLiteralIs(key.value.tokens);
    }
    hide FirstKey, FindKey, Keys, BeginsLiteral, FirstLiteral;
    if key.Some? {
      assert FirstKey(attr, "path", key.value.tokens);
    }
  }

  lemma PlaceholderIs(attr: Tokens)
    ensures forall name :: OnePlaceholder(attr, name) <==> Placeholders(FindPathLiteral(Keys(attr))) == [name]
  {
    PathLiteralIs(attr);
    hide PathLiteral, FindPathLiteral, Keys;
    var lit := FindPathLiteral(Keys(attr));
    if lit.Some? {
      assert PathLiteral(attr, lit.value);
    }
  }

  lemma PathIs(attr: Tokens, func: Handler)
    requires !Several(func.inputs, "AppPath")
    ensures var ty, lit := First(WrappedTypes(func.inputs, "AppPath")), FindPathLiteral(Keys(attr));
            IsPath(attr, func, match ty
                               case None => []
                               case Some(t) => if ByName(t, lit) then [NamedParam(Placeholders(lit)[0], t)] else [t.tokens])
  {
    WrappedAre(func.inputs, "AppPath");
    FirstOf(WrappedTypes(func.inputs, "AppPath"));
    PlaceholderIs(attr);
    var ty, lit := First(WrappedTypes(func.inputs, "AppPath")), FindPathLiteral(Keys(attr));
    if ty.Some? {
      SimpleIs(ty.value);
    }
    hide WrappedTypes, Solo, Nobody, OnePlaceholder, IsSimple, IsPrimitivePathParamType, FindPathLiteral, Keys, Placeholders;
    if ty.Some? {
      assert Solo(func.inputs, "AppPath", ty.value);
      if ByName(ty.value, lit) {
        assert Placeholders(lit) == [Placeholders(lit)[0]];
        assert OnePlaceholder(attr, Placeholders(lit)[0]);
      }
    }
  }

  /** The inferred parameters: the path parameter, then the query parameter. */
  lemma InferredParts(attr: Tokens, func: Handler) returns (path: seq<Tokens>, query: seq<Tokens>)
    requires !Several(func.inputs, "AppPath") && !Several(func.inputs, "AppQuery")
    ensures IsPath(attr, func, path) && IsQuery(func, query) && Inferred(attr, func) == path + query
  {
    PathIs(attr, func);
    QueryIs(func);
    hide IsPath, IsQuery, Several, WrappedTypes, FindPathLiteral, Keys, Placeholders, IsPrimitivePathParamType, NamedParam;
    var lit := FindPathLiteral(Keys(attr));
    path := match First(WrappedTypes(func.inputs, "AppPath"))
      case None => []
      case Some(t) => if ByName(t, lit) then [NamedParam(Placeholders(lit)[0], t)] else [t.tokens];
    query := match First(WrappedTypes(func.inputs, "AppQuery")) case None => [] case Some(t) => [t.tokens];
  }

  lemma JoinTwo(a: Tokens, b: Tokens)
    ensures Join([a] + [b]) == a + [COMMA] + b
  {
    JoinSnoc([a], b);
    JoinOne([a]);
  }

  lemma ResponsesJoined(response: Option<Type>, written: Option<Tokens>)
    requires response.Some? || written.Some?
    ensures ResponsesInner(response, written) ==
            Join((if response.Some? then [[Entry200(response.value)]] else []) + Opt(written))
  {
    hide Entry200;
    match (response, written)
    case (Some(body), Some(rest)) =>
      JoinTwo([Entry200(body)], rest);
    case (Some(body), None) =>
      assert [[Entry200(body)]] + [] == [[Entry200(body)]];
      JoinOne([[Entry200(body)]]);
    case (None, Some(rest)) =>
      assert [] + [rest] == [rest];
      JoinOne([rest]);
  }

  lemma ParamsJoined(inferred: seq<Tokens>, written: Option<Tokens>)
    ensures ParamsArg(inferred, written) ==
            if inferred + Opt(written) == [] then None else Some(Call("params", Join(inferred + Opt(written))))
  {
    hide Join;
    if written.None? {
      assert inferred + Opt(written) == inferred;
    } else if inferred == [] {
      assert inferred + Opt(written) == [written.value];
      JoinOne([written.value]);
    } else {
      JoinSnoc(inferred, written.value);
    }
  }

  lemma HeadIs(httpMethod: string, name: string)
    ensures Head(httpMethod, name) ==
            [[Ident(httpMethod)], [Ident("operation_id"), Punct('='), Literal("\"" + name + "\"", Some(name))]]
  {
    var literal := Literal("\"" + name + "\"", Some(name));
    assert KeyValue("operation_id", [literal]) == [Ident("operation_id"), Punct('='), literal];
  }

  /**
   * What an accepted attribute expands to, argument by argument: the method, the handler's name as
   * operation id, the forwarded keys, the request body, the responses with the inferred entry in front
   * of the written ones, and the parameters with the inferred ones in front.
   */
  lemma Emitted(httpMethod: string, attr: Tokens, func: Handler)
    returns (body: seq<Tokens>, entry: seq<Tokens>, responses: seq<Tokens>,
             path: seq<Tokens>, query: seq<Tokens>, params: seq<Tokens>)
    requires Expand(httpMethod, attr, func).Ok?
    ensures IsBody(attr, func, body)
    ensures IsEntry(func, entry) && IsWritten(attr, "responses", responses) && entry + responses != []
    ensures IsPath(attr, func, path) && IsQuery(func, query) && IsWritten(attr, "params", params)
    ensures Expand(httpMethod, attr, func).value.All() ==
            [[Ident(httpMethod)],
             [Ident("operation_id"), Punct('='), Literal("\"" + func.name + "\"", Some(func.name))]]
            + PassThrough(Keys(attr)) + body
            + [[Ident("responses"), Group(Parenthesis, Join(entry + responses))]]
            + (if path + query + params == [] then []
               else [[Ident("params"), Group(Parenthesis, Join(path + query + params))]])
  {
    AcceptedExactlyWhen(httpMethod, attr, func);
    RefusalsAre(httpMethod, attr, func);
    hide Expand, IsBody, IsEntry, IsWritten, IsPath, IsQuery, Several, BodiesConflict, ResponsesConflict, NoResponse, Join,
         PassThrough, Keys, WrappedTypes, RequestBodyArg, FindKey, InferredResponseBody, Any200, ResponsesInner, ParamsArg,
         FindPathLiteral, ByName, NamedParam, Entry200, Head;
    var p := Expand(httpMethod, attr, func).value;
    BodyIs(attr, func);
    EntryIs(func);
    WrittenIs(attr, "responses");
    WrittenIs(attr, "params");
    var response, written := InferredResponseBody(func.output), ExplicitResponses(attr);
    ResponsesJoined(response, written);
    body, entry, responses := Opt(p.body), if response.Some? then [[Entry200(response.value)]] else [], Opt(written);
    params := Opt(ExplicitParams(attr));
    path, query := InferredParts(attr, func);
    ParamsJoined(path + query, ExplicitParams(attr));
    HeadIs(httpMethod, func.name);
    assert p.responsesInner == Join(entry + responses);
    assert Opt(p.params) == if path + query + params == [] then []
                            else [[Ident("params"), Group(Parenthesis, Join(path + query + params))]];
  }

  /** Where no body is written and none is inferred, none is emitted under any argument. */
  lemma NoBodyEmitted(httpMethod: string, attr: Tokens, func: Handler)
    requires Expand(httpMethod, attr, func).Ok? && httpMethod in METHODS
    requires NoKey(attr, "request_body") && Nobody(func.inputs, "AppJson")
    ensures forall arg :: arg in Expand(httpMethod, attr, func).value.All() && arg != [] ==> arg[0] != Ident("request_body")
  {
    var p := Expand(httpMethod, attr, func).value;
    WrappedAre(func.inputs, "AppJson");
    FoundIs(attr, "request_body");
    RefusalsAre(httpMethod, attr, func);
    assert p.body == None;
    ArgumentAt(p);
    hide Expand, Parts.All, WrappedTypes, FindKey, Keys, NoKey, Nobody, METHODS;
    forall arg | arg in p.All() && arg != [] ensures arg[0] != Ident("request_body") {
      var h :| 0 <= h < |p.All()| && p.All()[h] == arg;
      if arg[0] == Ident("request_body") {
        ReservedIsInSlot(httpMethod, attr, func, h);
      }
    }
  }
}
