# A verified model of the stano platform

The stano platform is a set of Rust crates: a dependency-injection container, macros that wire services
and routes, and a request-authorization layer. This project models the parts whose correctness spans
several functions or whole runs, and proves what they promise. `dafny verify dfyconfig.toml` checks
everything; nothing here runs the platform.

## What is modelled

**The container** (`Graphs`, `CycleDetection`, `Fates`, `Resolution`, `Containers`, `Concurrency`, `Agreement`).

- `CycleDetection` is the three-colour depth-first search with its explicit stack, parallel path and
  resumable child indices. Roots come in any order, lists may repeat an id and may name unregistered ids.
  An empty report means an acyclic graph and the other way round; every reported cycle is simple and made
  of declared edges, with registered names; each back edge is reported once for every time it is listed;
  deleting the reported back edges leaves an acyclic graph that the finish numbers descend; and the number
  of inner iterations is exact. The fallbacks `unwrap_or(0)` and `"unknown"` are shown to be dead.
- `Fates` reads off the registrations which lookups end. A key is *good* when nothing unregistered, nothing
  panicking and no cycle can be reached from it. It is *answerable* when it is good, or when following the
  first read that is not good, again and again, ends at an unregistered id or at a factory that panics on
  its own after good reads. A cycle behind a read that panics first does no harm.
- `Resolution` says what a lookup must do, without touching cells: a key is *doomed* when a walk through
  unresolved keys leads to an unregistered id or to a factory that panics on its own, and *decided* when it
  is answerable given what is resolved already. Lookups change neither, and at the start both are read off
  the registrations (`Resolution.FreshIsUnresolved`).
- `Containers` is the sequential container: four maps, once-cells that are empty, being filled or full,
  factories that recurse through the container, panics that unwind, and eager validation. A lookup panics
  exactly when its key is doomed; a success resolves each key it needs once and wires fields to the very
  instances in the cells; a failure leaves the failing key and its callers empty. No cell is entered
  while it is being filled.
- `Concurrency` is a step machine for any number of threads. Cells move from empty to "filled by thread t"
  and on to full, or back to empty when a panic unwinds. Nothing is assumed about cycles. Every step keeps
  the invariant; only answerable keys ever get an answer; as long as a thread has an answerable key to look
  up some thread can step, wherever others hang; every run is finite, with a bound; and at its end each
  thread has answered its lookups up to the first key that is not answerable. The answer does not depend
  on the schedule.
- `Agreement` connects the two: what sequential validation reports is what any schedule will find.

Assumptions about the container, stated once. A factory reads what it reads in a fixed order and then
either panics or returns; whether it panics is fixed. A factory that builds creates a new instance; a
hand-written trait factory could also return the `Arc` of another cell, and that the sharing of instances
is *only* what the declarations say holds for factories that do not. A once-cell blocks competitors, stays
empty when its initialiser panics, and must not be entered by the thread that is filling it. `Honest` means
that factories read exactly what was declared for them; registrations generated by `#[service]` establish
it (`ServiceMacro`), and what validation says in terms of the declarations needs it. Re-registration is
allowed: the contracts say exactly when it leaves a resolved service holding something stale. A sequential
lookup requires that its key is decided; any other blocks or panics inside the once-cell, as
`Concurrency.StuckMeansAnswered` shows.

**The service macro** (`ServiceMacro`): the field loop of `#[service]`, position by position, from the field
types as they are written to the generated lookups, and the registrations it generates.

**The route macros** (`Syntax`, `KeySplitting`, `PathTemplates`, `RouteExpansion`, `WrittenKeys`,
`EmittedArguments`): the comma splitter with clamped angle depth, shown to cut exactly where counting brackets
says that nothing is open; the placeholder scanner; signature inspection; the merge of written and inferred
keys, described once as the code computes it and once by the types and tokens that are written, with both
descriptions proved to agree; and exactly when the merge loses nothing that was written.

**The authorization chain** (`TokenExtraction`, `Authorization`): the builder as a fold over its calls, the
first-match decision, claims and context, the failure counter, and the token parser against a printer of
cookie headers (section 4.2.1 of RFC 6265; bearer credentials as in section 2.1 of RFC 6750).

Patterns, token decoding and claims validation are parameters: any total functions.

`Wrappers` and `Sequences` hold what the modules share.

### Where the code and its documentation differ

- The container README says that cycles "cause infinite loops". A lookup that is not answerable blocks
  inside the once-cell (`Concurrency.SelfReadHangs` is an instance); one with a cycle behind a read that
  panics first is answered with the panic (`Concurrency.CycleBehindFailure`).
- The comment on token extraction says the cookie is used "when no such header is present". The code also
  falls back when the header is present but unreadable or without the `Bearer ` prefix
  (`TokenExtraction.BearerExactlyWhen`, `TokenExtraction.OtherCredentialsFallBack`).
- Methods given to `any_request()` are accepted and ignored, although they read as a restriction
  (`Authorization.TerminalMethodsIgnored`).
- A `responses` or `params` key that is not a call, and every `responses`, `params` or `request_body` key
  after the first, is dropped from the expansion without a message, and an inferred parameter type that
  leaves an angle bracket open swallows the comma in front of the written parameters.
  `WrittenKeys.NothingLostExactlyWhen` shows that nothing else is lost; `WrittenKeys.SecondResponsesLost`
  is an instance.
- The macro's error text says that the 200 case is always inferred. A written entry whose status carries an
  integer suffix with a digit, such as `200u16`, is not recognised, and two entries for 200 are emitted
  (`RouteExpansion.SecondTwoHundredExactlyWhen`, `RouteExpansion.SizedEntryIsEmitted`).

## Model

| member | source | states |
|---|---|---|
| CycleDetection.DetectCycles | crates/stano-di/src/container.rs:257-321 | reports nothing if and only if the declared graph is acyclic; every report is a simple declared cycle under registered names; each back edge is reported exactly once for every time it is listed; the reported back edges are a feedback arc set, exactly the edges that do not descend the finish numbers; exact number of inner iterations |
| CycleDetection.PushChild | crates/stano-di/src/container.rs:310-314 | a white child joins the path: it was neither on it nor finished, and the invariant holds |
| CycleDetection.GrayClosesCycle | crates/stano-di/src/container.rs:302-309 | a gray child is on the path, and the path from it to the top is a simple cycle ending at the node |
| CycleDetection.CountedReport | crates/stano-di/src/container.rs:302-309 | one more report for the gray child examined, and every other back edge keeps as many reports as it has examined occurrences |
| CycleDetection.PopTop | crates/stano-di/src/container.rs:291-296 | a finished node gets a number above all its unreported children and the invariant holds |
| CycleDetection.NoReportIffAcyclic | crates/stano-di/src/container.rs:274-320 | a numbering that all unreported edges descend makes the rest acyclic; no report then means no cycle at all |
| Fates.AnswerableExactlyWhen | crates/stano-di/src/container.rs:180-187 | no cycle can be reached over reads that can happen if and only if the key is good, or following the first read that is not good ends at an unregistered id or at a factory that panics after good reads |
| Fates.AnswerableByReads | crates/stano-di/src/container.rs:180-187 | a factory whose reads before the first failure are good, and whose failing read is answerable, is answerable |
| Fates.AnswerableSucceeds | crates/stano-di/src/container.rs:180-187 | an answerable key that cannot reach a failure succeeds |
| Resolution.DoomedUnfold | crates/stano-di/src/container.rs:180-187 | an unresolved key fails exactly when its own factory panics or one of its reads fails |
| Resolution.DoomedStable | crates/stano-di/src/container.rs:180-187 | resolving some keys changes no key's fate |
| Resolution.SoundStable | crates/stano-di/src/container.rs:180-187 | resolving some keys changes for no key whether its lookup would succeed, cycles included |
| Resolution.DecidedStable | crates/stano-di/src/container.rs:180-187 | resolving some keys changes for no key whether its lookup ends |
| Resolution.ReachKept | crates/stano-di/src/container.rs:180-187 | a cell that waits for an unresolved key over feasible reads still does after other lookups |
| Resolution.DoomedIsHopeless | crates/stano-di/src/container.rs:328-354 | in a wired container a lookup fails exactly when an unregistered id or a panicking factory is reachable, whatever was resolved before |
| Resolution.SettlesTrans | crates/stano-di/src/container.rs:174-215 | successive lookups compose: nothing resolved changes and what each resolves is disjoint |
| Resolution.FieldsFollowDeclarations | crates/stano-di-macros/src/lib.rs:271-276 | following field positions from a resolved service ends at the instance in the cell of the declared key |
| Resolution.SharingIsDeclared | crates/stano-di/src/container.rs:174-215 | two field paths meet in one object exactly when the declarations send them to one key, alike in any two wired containers whose factories build new instances |
| Containers.NeverReentered | crates/stano-di/src/container.rs:180-187 | a cell that may be asked for is not being filled |
| Containers.ReadsAreReady | crates/stano-di/src/container.rs:180-187 | while a key is being filled and its reads so far succeeded, the next read may be asked for |
| Containers.OthersStillWait | crates/stano-di/src/container.rs:180-187 | lookups on behalf of a key change nothing about which cells being filled wait for it |
| Containers.RegistrationEffect | crates/stano-di/src/container.rs:97-164 | replacing an entry keeps a wired container wired if and only if no other resolved service holds something else under that key |
| Containers.FillDone | crates/stano-di/src/container.rs:180-187 | a returning factory fills its cell and completes the lookup |
| Containers.FillPanicked | crates/stano-di/src/container.rs:339-341 | a panicking factory leaves its cell empty and keeps what was resolved |
| Containers.Container.RegisterWithDeps | crates/stano-di/src/container.rs:97-113 | the four maps keep equal keys and right representations; exact condition for staying wired and for staying honest |
| Containers.Container.RegisterTraitWithDeps | crates/stano-di/src/container.rs:116-134 | the same under the trait key and the boxed representation |
| Containers.Container.RegisterInstance | crates/stano-di/src/container.rs:150-164 | the cell is full at once with the given instance; exact condition for staying wired |
| Containers.Container.TryGet | crates/stano-di/src/container.rs:174-192 | an unregistered key is reported; a registered one whose lookup ends panics exactly when doomed and otherwise gives its cell's instance, never a failed downcast; each newly resolved key ran its factory once; a resolved key runs none |
| Containers.Container.TryGetTrait | crates/stano-di/src/container.rs:195-215 | the same for trait keys |
| Containers.Container.Get | crates/stano-di/src/container.rs:220-222 | panics exactly when the key is doomed, unregistered keys included, for every lookup that ends |
| Containers.Container.GetTrait | crates/stano-di/src/container.rs:225-231 | the same for trait keys |
| Containers.Container.GetOrInit | crates/stano-di/src/container.rs:180-187 | the once-cell is handed out or filled; a panic leaves it and its callers empty, and everything listed before the first doomed read is resolved |
| Containers.Container.CallFactory | crates/stano-di/src/container.rs:104-108 | reads the list in order, stops at the first doomed read, and builds an instance whose fields are the instances read; cycles behind that read do not matter |
| Containers.Container.Read | crates/stano-di-macros/src/lib.rs:211-230 | one read by the accessor that fits the key, as part of filling the reader's cell |
| Containers.Container.FillAll | crates/stano-di/src/container.rs:335-347 | one error for each doomed key and no other, in any order of the keys; every other key ends resolved |
| Containers.Container.Validate | crates/stano-di/src/container.rs:328-354 | cycles stop it before any factory runs, with one error for every time a back edge is listed, and without those edges no cycle is left; otherwise one factory error for each key that fails, and success means every later lookup finds its cell full; in an honest wired container the failing keys are the hopeless ones |
| Containers.Container.HonestIsDecided | crates/stano-di/src/container.rs:328-354 | where factories read what was declared, validation may always be asked for: without declared cycles every lookup ends |
| Concurrency.StepKeepsInv | crates/stano-di/src/container.rs:180-191 | every step of every thread keeps marks, stacks, wiring, answers and completion counts consistent; a thread unwinds only from an answerable key; no factory completes twice for a key |
| Concurrency.StepKeepsFull | crates/stano-di/src/container.rs:180-191 | a full cell keeps its instance whoever steps |
| Concurrency.NoReentry | crates/stano-di/src/container.rs:180-187 | while it looks up an answerable key, no thread asks for a cell it is filling |
| Concurrency.SomeThreadCanStep | crates/stano-di/src/container.rs:204-210 | deadlock freedom, lookup by lookup: while some thread has an answerable key to look up, some thread can step, whatever other threads look up and wherever they hang |
| Concurrency.StepIsCheaper | crates/stano-di/src/container.rs:180-187 | each step lowers the work left, counting keys that will hang once; it raises no other thread's share, and a thread looking up an answerable key lowers its own |
| Concurrency.RunsAreSafeAndFinite | crates/stano-di/src/container.rs:180-215 | with or without cycles every run keeps the invariant, every full cell and every thread's list of lookups, fills each cell by one factory call that returned, and has a bounded number of steps |
| Concurrency.AnswersAreDetermined | crates/stano-di/src/container.rs:188-191 | only answerable keys get an answer; it is a panic exactly when the key is hopeless and an instance exactly when it is good; all lookups of a key, by any thread, got the same instance |
| Concurrency.StuckMeansAnswered | crates/stano-di/src/container.rs:335-347 | when no thread can step each has answered its lookups up to the first key that is not answerable, with panics at exactly the hopeless keys; it finished if and only if all its lookups are answerable |
| Concurrency.FullRunAnswers | crates/stano-di/src/container.rs:180-191 | from a container before any lookup, every run that cannot go on answers each thread's lookups up to the first that is not answerable, with the verdict the registrations give |
| Concurrency.SchedulesAgree | crates/stano-di/src/container.rs:180-191 | any two such runs of the same lookups answer the same lookups with the same verdicts |
| Concurrency.SharingIsDeclared | crates/stano-di/src/container.rs:180-191 | under any schedule two field paths meet in one instance exactly when the declarations send them to one key, for factories that build new instances |
| Concurrency.SelfReadHangs | crates/stano-di/src/container.rs:180-187 | an instance: a factory that first reads its own key is not answerable, and its lookup leaves a state where nobody can step |
| Concurrency.CycleBehindFailure | crates/stano-di/src/container.rs:180-187 | an instance of the other kind: a factory that reads an unregistered id before itself is answered with a panic |
| Agreement.ValidationForetells | crates/stano-di/src/container.rs:335-347 | the keys validation reports, and unregistered ones, are exactly those whose lookups panic in every run of threads over the same registrations, and every lookup is answered |
| ServiceMacro.ServiceStruct | crates/stano-di-macros/src/lib.rs:182-242 | accepts exactly unit structs and structs whose field types are written as `Arc<inner, ..>`, reports the first other field; a `dyn` inner type is declared and read as a trait object, any other as itself, and declared keys equal the keys read, position by position |
| ServiceMacro.Register | crates/stano-di-macros/src/lib.rs:279-333 | under the trait of the annotation or else the struct's own type: an empty cell, the struct's name, the declared keys, and a factory that reads them and never panics on its own; the container stays honest |
| ServiceMacro.RegisterAll | crates/stano-di-macros/src/lib.rs:369-373 | any list of generated registrations leaves an honest container; the last service under a key stays, in all four maps, with an empty cell; entries under other keys stay as they were |
| KeySplitting.SplitTopLevelKeys | crates/stano-route-macros/src/lib.rs:121-146 | the loop computes the split, and each key is named by its first token if that is an identifier |
| KeySplitting.DepthIsExcess | crates/stano-route-macros/src/lib.rs:126-133 | the clamped depth is the largest excess of `<` over `>` among the stretches that end here |
| KeySplitting.SplitIsThePieces | crates/stano-route-macros/src/lib.rs:121-146 | the keys are the non-empty pieces between separating commas, in order, and nothing else is left out; a comma separates if and only if no stretch that ends at it has more `<` than `>` |
| KeySplitting.NestedIsOneKey | crates/stano-route-macros/src/lib.rs:121-146 | tokens with balanced nested angle brackets are one closed key, whatever commas stand inside |
| KeySplitting.SplitIsSeparable | crates/stano-route-macros/src/lib.rs:121-146 | keys are non-empty, have no comma at clamped depth zero, concatenate to the input minus exactly those commas, and only the last may end inside an angle bracket |
| KeySplitting.ClosedTogether | crates/stano-route-macros/src/lib.rs:126-145 | every key closes its angle brackets exactly when the whole input does |
| KeySplitting.SplitUndoesJoin | crates/stano-route-macros/src/lib.rs:121-146 | splitting a comma-join gives the parts back if and only if they are keys and all but the last close their angle brackets |
| KeySplitting.SplitIsIdempotent | crates/stano-route-macros/src/lib.rs:121-146 | splitting the comma-join of a split changes nothing |
| KeySplitting.InFrontExactlyWhen | crates/stano-route-macros/src/lib.rs:121-146 | keys put in front of others by commas come out as they went in, the others behind them, if and only if each is a key that closes its angle brackets |
| KeySplitting.BehindExactlyWhen | crates/stano-route-macros/src/lib.rs:121-146 | what stands behind a comma keeps its keys if and only if what stands in front closes its angle brackets, or it has no key |
| PathTemplates.PathPlaceholders | crates/stano-route-macros/src/lib.rs:267-283 | the index loop terminates and computes the scan |
| PathTemplates.ScanUndoesRender | crates/stano-route-macros/src/lib.rs:267-283 | scanning a rendered path returns exactly the placeholder names in order |
| PathTemplates.EveryPathIsRendered | crates/stano-route-macros/src/lib.rs:267-283 | every string is such a rendering up to a tail without a closed brace, and the scan returns its names |
| RouteExpansion.InspectSignature | crates/stano-route-macros/src/lib.rs:305-336 | types of each wrapper in order, the first of each and their number |
| RouteExpansion.EntryHasStatus200 | crates/stano-route-macros/src/lib.rs:171-192 | true exactly for parenthesised entries with a status key that mentions `200` followed by letters only or by nothing |
| RouteExpansion.RecognisedExactlyWhen | crates/stano-route-macros/src/lib.rs:183-188 | the literal looked for is `200` followed by letters only, or by nothing |
| RouteExpansion.AnyEntry200 | crates/stano-route-macros/src/lib.rs:428-434 | true exactly when some token of some entry is recognised as a 200 entry |
| RouteExpansion.ForwardedKeys | crates/stano-route-macros/src/lib.rs:498-503 | the keys with no reserved name, in order |
| RouteExpansion.RouteMethodFn | crates/stano-route-macros/src/lib.rs:355-531 | the error found first, or the emitted argument list of the specification |
| EmittedArguments.WrappedAre | crates/stano-route-macros/src/lib.rs:202-219 | the types found in a wrapper are none, one or several exactly when no, one or several parameters are written `wrapper<T>`, and one gives that `T` |
| EmittedArguments.ResponseBodyIs | crates/stano-route-macros/src/lib.rs:340-349 | the inferred response body is `T` exactly for the return types `AppJson<T>` and `Result<AppJson<T>, ..>` |
| EmittedArguments.SpacesAreDropped | crates/stano-route-macros/src/lib.rs:535-537 | a text loses its spaces and nothing else |
| EmittedArguments.NormalizeOf | crates/stano-route-macros/src/lib.rs:535-537 | the text compared for a token list is that of its parts, one after the other |
| EmittedArguments.NormalizeOne | crates/stano-route-macros/src/lib.rs:535-537 | the text of one token, a group with its brackets, without spaces |
| EmittedArguments.EntryFor200Is | crates/stano-route-macros/src/lib.rs:171-192 | recognised are exactly parenthesised entries in which a key `status` holds a literal spelled `200` with letters or nothing behind it |
| EmittedArguments.AcceptedExactlyWhen | crates/stano-route-macros/src/lib.rs:363-449 | the first of six reasons to refuse, each said of the written types and keys; an attribute is accepted exactly when none holds, and conflicting request bodies are those whose texts differ apart from spaces |
| EmittedArguments.Emitted | crates/stano-route-macros/src/lib.rs:394-522 | the whole emitted list, token by token: method, the handler's name as operation id, forwarded keys, the body of the one `AppJson` parameter or else the written one, the inferred 200 entry in front of the written responses, path and query parameters in front of the written ones, the path parameter by name exactly for one placeholder and a simple type |
| EmittedArguments.NoBodyEmitted | crates/stano-route-macros/src/lib.rs:394-420 | with neither a written nor an inferred body no argument named request_body is emitted |
| RouteExpansion.ArgumentsComeBack | crates/stano-route-macros/src/lib.rs:498-522 | re-splitting the emitted list gives method, operation id, forwarded keys, body, responses and params in that order, if and only if forwarded keys and body close their angle brackets |
| RouteExpansion.ClosedAttributesComeBack | crates/stano-route-macros/src/lib.rs:355-531 | a closed attribute with an ordinary body type always comes back |
| RouteExpansion.Entry200IsRecognised | crates/stano-route-macros/src/lib.rs:460-463 | the inferred entry counts as a 200 entry for any body type |
| RouteExpansion.ResponsesSurvive | crates/stano-route-macros/src/lib.rs:422-465 | emitted entries are the inferred one followed by the written ones in order, and the inferred one is the only one that the macro recognises as a 200 entry |
| RouteExpansion.SecondTwoHundredExactlyWhen | crates/stano-route-macros/src/lib.rs:422-465 | beside the inferred entry a second entry for 200, under any integer suffix, is emitted if and only if a written one carries a suffix with a digit |
| RouteExpansion.SizedEntryIsMissed | crates/stano-route-macros/src/lib.rs:171-192 | the entry `(status = 200u16)` is not recognised |
| RouteExpansion.SizedEntryIsEmitted | crates/stano-route-macros/src/lib.rs:422-465 | for `responses((status = 200u16))` and an inferred body both entries are emitted |
| RouteExpansion.KeepApartExactlyWhen | crates/stano-route-macros/src/lib.rs:467-488 | the inferred parameters are closed keys exactly when the handler's parameter types are; the form `("name" = T, Path)` always is |
| RouteExpansion.ParamsSurvive | crates/stano-route-macros/src/lib.rs:467-496 | emitted parameters are the inferred ones followed by the written ones in order if and only if the handler's path and query types keep apart; none are emitted only if none were inferred or written |
| RouteExpansion.FindKeyIsThere | crates/stano-route-macros/src/lib.rs:395-396 | the first key of a name is found exactly when there is one |
| WrittenKeys.NothingLostExactlyWhen | crates/stano-route-macros/src/lib.rs:355-531 | every written key has an emitted argument of its own that forwards it, prints like it or ends with its entries, if and only if no reserved name occurs twice, every responses and params key is a call, and inferred parameters in front of written ones close their angle brackets |
| WrittenKeys.SecondResponsesLost | crates/stano-route-macros/src/lib.rs:422-425 | for `responses(a), responses(b)` the second makes no difference to the expansion and is lost |
| TokenExtraction.ValueOfPair | crates/stano-axum/src/security/layer.rs:199-202 | a printed pair is found under its name and no other, with any whitespace around it |
| TokenExtraction.FindInRendered | crates/stano-axum/src/security/layer.rs:197-203 | searching a printed cookie header gives the first value stored under the name, or nothing |
| TokenExtraction.ExtractUndoesRender | crates/stano-axum/src/security/layer.rs:188-203 | a bearer credential wins; otherwise extraction undoes cookie printing |
| TokenExtraction.BearerExactlyWhen | crates/stano-axum/src/security/layer.rs:188-195 | there is a bearer token if and only if the header is readable and is the prefix followed by the token |
| TokenExtraction.NoTokenWithoutCookie | crates/stano-axum/src/security/layer.rs:197-198 | without a bearer credential there is no token if no cookie name is set, no cookie header is there or it is unreadable |
| TokenExtraction.OtherCredentialsFallBack | crates/stano-axum/src/security/layer.rs:188-203 | with any other Authorization header the cookie is used |
| Authorization.AuthorizationBuilder.Finish | crates/stano-axum/src/security/authorization.rs:238-260 | the builder's fields stay what the calls so far mean: compiled matchers in order, last terminal rule, first refusal |
| Authorization.AuthorizationBuilder.Poison | crates/stano-axum/src/security/authorization.rs:263-267 | the first error is kept |
| Authorization.AuthorizationBuilder.HasAnyRole | crates/stano-axum/src/security/authorization.rs:228-236 | adds a rule whose predicate holds exactly when one of the given ones does |
| Authorization.AuthorizationBuilder.CookieName | crates/stano-axum/src/security/authorization.rs:155-158 | the last cookie name counts |
| Authorization.AuthorizationBuilder.WithClaimsValidator | crates/stano-axum/src/security/authorization.rs:141-150 | the last validator counts |
| Authorization.AuthorizationBuilder.Build | crates/stano-axum/src/security/authorization.rs:162-180 | succeeds if and only if every pattern compiled and a terminal rule was given; the chain holds all matchers in order; a refused pattern is reported first |
| Authorization.RefusedExactlyWhen | crates/stano-axum/src/security/authorization.rs:162-180 | the error is that of the first call with a refused pattern if there is one, else a missing terminal rule exactly if no call gave one |
| Authorization.NonMatchersCommute | crates/stano-axum/src/security/authorization.rs:238-260 | a terminal rule or setting may change places with a matcher without changing what is built |
| Authorization.BuildsAsNormalForm | crates/stano-axum/src/security/authorization.rs:162-180 | a chain of calls builds exactly what its matchers in order, last terminal rule and last settings build |
| Authorization.TerminalMethodsIgnored | crates/stano-axum/src/security/authorization.rs:238-243 | methods given to a terminal rule make no difference to what is built |
| Authorization.Select | crates/stano-axum/src/security/layer.rs:75-86 | the effect of the least rule that applies, or the terminal one if none does |
| Authorization.DeletableExactlyWhenCovered | crates/stano-axum/src/security/layer.rs:75-86 | deleting a rule never shows, whatever its effect and the rules behind it, if and only if earlier rules cover it |
| Authorization.ApplyEffect | crates/stano-axum/src/security/layer.rs:120-184 | the outcome by effect and trusted claims; only trusted claims of an allowed request become its context |
| Authorization.ForwardedExactlyWhenEntitled | crates/stano-axum/src/security/layer.rs:120-184 | from the builder's calls to the response: forwarded exactly when the deciding call is open or the token vouches for claims with the role asked for, and then with those claims or else the context it came with; 403 exactly when only the role is missing, and every other rejection is 401 |
| Authorization.SomeCallDecides | crates/stano-axum/src/security/layer.rs:75-86 | once a terminal rule was given, each request is decided by the first call whose pattern matches the path and whose methods, if any, include the method, or else by the last terminal one |
| Authorization.UnlistedMethodIsTerminal | crates/stano-axum/src/security/layer.rs:75-86 | a request whose method is on no matcher's list is answered as by a chain without matchers |
| Authorization.FailureCounter.Add | crates/stano-axum/src/security/layer.rs:242-256 | the counter appears with the first failure and counts by method and status |
| Authorization.AuthorizationLayer.Handle | crates/stano-axum/src/security/layer.rs:224-268 | the response is the specified one for chain and request, and over all requests the counts equal the rejections by method and status |

## Left out

- The mechanics of `TypeId`, `Any` and `Arc`: ids are an abstract datatype with disjoint concrete and trait keys, instances are references, and a downcast compares the tag stored with the content.
- `register` and `register_trait` without a dependency list: they are the registrations above with an empty list, and outside `Honest` when the factory does read something.
- Sequential lookups that never end: a sequential lookup requires that its key is decided; the hanging ones are states of the thread machine.
- Resolution.SharingIsDeclared: a factory that hands out an instance belonging to another cell is outside the factories modelled, so there two keys could share one instance.
- Concurrency.SharingIsDeclared: the same; every completed call makes a new object.
- Concurrency.StepKeepsInv: a factory's own panic comes after its reads, as in generated code, where arguments are resolved before the constructor runs.
- Waking order and fairness of blocked threads: the step relation lets any enabled thread go next.
- KeySplitting.SplitTopLevelKeys: does not model overflow of the 32-bit angle counter, which needs more than two thousand million open brackets.
- PathTemplates.PathPlaceholders: works on characters where the code indexes bytes; the braces it looks for are single bytes that occur in no other character.
- Parsing and printing of types: a type carries the tokens it prints as, a string literal the value it stands for, and comparing body types concatenates token texts without spaces.
- The crate-path lookup of the macros, which reads a manifest, and the emitted code around the attribute.
- Pattern compilation, path matching, token decoding and claims validation: parameters; the asynchronous validator is a plain function.
- RouteExpansion.SecondTwoHundredExactlyWhen: counts `200` followed directly by an integer suffix; other spellings, such as `0xC8`, `2_00` or `200_u16`, are not recognised by the macro either and are not counted here.
- TokenExtraction.ExtractUndoesRender: whitespace is what can occur in a readable header value.
- `dependency_graph`, error message texts, `ApplicationContext`, configuration, server wiring, database and observability crates: thin or I/O.
