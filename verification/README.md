# The MiniApp container, modelled and proved

The repository is a container for mini-programs: it compiles their WXML and WXSS to a render tree, runs their skill
JavaScript behind a module loader and a chain of middlewares, lets component scripts change data and push actions,
passes every API call through validation, permission and consent with an audit trail, and logs users in with a
one-time signed challenge. These modules model that behaviour in Dafny and prove what it promises.

Code that moves a cursor, fills a map or updates an object is a method or class here, proved against a function of its
inputs or of its old state; the properties are lemmas about those functions.

- **Templates.** `Wxml` (lexer and parser as functions), `WxmlParser` (the code), `WxmlGrammar` (parser = stack
  machine = balanced token strings), `WxmlPrinter` (parsing undoes printing), `WxmlMarkup` (markup as it is written by
  hand), `Wxss`, `WxssLaws`.
- **Compiler.** `Binding`, `BindingLaws`, `JsonText`, `Compiler`, `CompilerCode` (the code), `CompilerAttrs`,
  `CompilerLaws`, `CompilerIds`, `CompilerEvents`, `CompilerBindings`, `CompilerScope`, `CompilerRename`,
  `CompilerTrees`, `CompilerLoops`, `CompilerLoopLimits`. A loop recurses on a copy of its element of the same size;
  what decreases is the pair of tree size and whether `wx:for` is still there.
- **Login.** `AuthStore`: logins as interleaved steps over a shared map, with verification between two locks.
- **Script runtime.** `ModulePath`, `PathLaws`, `Loader`, `LoaderMachine`, `Middleware`, `MiddlewareLaws`,
  `MiddlewareBodies`, `SetData`, `SetDataLaws`, `ComponentVm`, `ComponentLaws`, `ComponentRuns`.
- **Consent and audit.** `Redaction`, `RedactionLaws`, `Digest`, `DigestLaws`, `Orchestrator`, `OrchestratorLaws`,
  `CallLaws`.
- **Codecs.** `Base58`, `Base64Url`, `SignatureInput`, `HttpUrl`, over `Alphabet`, `Positional`, `Utf8`, `Text`.
- **Tokens.** `Capability`, `CapabilityLaws`, `TokenCache`, `LoginSessions`, `HttpClient`, `HttpLaws`, over `Saturating`
  and `Checks`.

Where a method is proved against a function, that function's meaning is told again without it: by what an author
writes (`WxmlMarkup`, `WxssLaws`, `BindingLaws`), by which scripts run (`ComponentRuns`), by indices
(`MiddlewareBodies`), by a loop over a stack (`LoaderMachine`), by the first check that fails (`AuthStore`, `HttpLaws`,
`CallLaws`), or by what every place holds (`SetDataLaws`, `RedactionLaws`).

External parties (signature checks, the executor, the renderer, servers, clocks, random ids, a lock that may be
poisoned) are arbitrary answers given as parameters.

Some properties one would expect are false of the code. Each has an input that shows it and a lemma that says when it
does hold:

- renaming a loop variable keeps the tree: `CompilerLoopLimits.ConditionReadsItem` and
  `CompilerLoopLimits.KeyReadsItem`; exactly when, `CompilerLoops.RenamingLoopVariableIff`;
- a binding carries the value of every `data-*` attribute: `CompilerEvents.SharedKeyLosesValue`; exactly when,
  `CompilerEvents.CarriesValueIff`;
- an id resolves back to itself: `ModulePath.EmptyIdDoesNotResolveBack`; exactly when, `ModulePath.IdResolvesBackIff`;
- a load that succeeds has loaded all that is reachable: `Loader.CaughtFailureSkips`; exactly when,
  `Loader.LoadsExactlyTheReachable`;
- a write changes no other path: `SetData.LengthSeesWrite`; exactly when, `SetData.ReadElsewhereIff`;
- a written path reads its value back: `SetData.LengthHidesWrite`; exactly when, `SetData.WrittenReadsBackIff`;
- host and script side agree on expiry: `ComponentLaws.FlagsCanDiffer`; exactly when one expiry parts them,
  `ComponentLaws.FlagsPartIff`, and components whose runs never do, `ComponentLaws.CleanFlagsAgree`;
- a caught error stays caught: `MiddlewareLaws.CaughtErrorComesBack`; exactly when,
  `MiddlewareLaws.SwallowedErrorResurfacesIff`;
- a URL is found again in its origin and path: `HttpUrl.HiddenPort`; exactly when, `HttpUrl.OriginParsesBackIff`;
- no two texts decode to the same bytes: `Base64Url.NotInjective`; exactly when a text is determined by its bytes,
  `Base64Url.EncodesBackIff`;
- a token cache that drops what has expired answers as one that does not: `TokenCache.DroppingShows`; it does while the
  clock does not go back, `TokenCache.DroppingNeverShows`.

## Model

| member | source | states |
|---|---|---|
| WxmlParser.ReadAttrValue | crates/component-runtime/src/wxml.rs:212-237 | the value after `=`, quoted or bare, and the cursor behind it; a missing value or an open quote is the error |
| WxmlParser.SkipSpaces | crates/component-runtime/src/wxml.rs:180-188 | the cursor moves past exactly the white space at it |
| WxmlParser.ReadAssigned | crates/component-runtime/src/wxml.rs:196-205 | an attribute without `=` gets the empty value; white space around `=` is skipped |
| WxmlParser.ReadAttr | crates/component-runtime/src/wxml.rs:184-207 | one attribute: name up to white space or `=`, value, and how far the cursor moves; an attribute with an empty name is skipped, with its value |
| WxmlParser.ParseAttrs | crates/component-runtime/src/wxml.rs:176-210 | the loop yields the map of all attributes, a later one replacing an earlier one, or the first error |
| WxmlParser.ParseTagInside | crates/component-runtime/src/wxml.rs:164-174 | name and attributes of a tag; an empty name is the error |
| WxmlParser.Parser.constructor | crates/component-runtime/src/wxml.rs:47-52 | the cursor starts before the whole source |
| WxmlParser.Parser.ParseDocument | crates/component-runtime/src/wxml.rs:54-69 | the result is the parse of everything left: the one meaningful node, several wrapped in a `view`, or the error |
| WxmlParser.Parser.ParseChildren | crates/component-runtime/src/wxml.rs:71-99 | the siblings read are those of the token stream at the cursor up to the awaited closing tag, and the cursor stands behind it |
| WxmlParser.Parser.ReadElement | crates/component-runtime/src/wxml.rs:101-117 | the element and its subtree are those of the token stream, and the cursor advances by exactly their tokens |
| WxmlParser.Parser.ReadTag | crates/component-runtime/src/wxml.rs:102-110 | one opening or self-closing tag is read and the cursor advances past it |
| WxmlParser.Parser.ReadClosingTag | crates/component-runtime/src/wxml.rs:119-123 | the trimmed name of a closing tag, with the cursor behind its bracket |
| WxmlParser.Parser.ReadText | crates/component-runtime/src/wxml.rs:125-130 | the text up to the next `<` or the end; the cursor advances by its length |
| WxmlParser.Parser.ReadUntil | crates/component-runtime/src/wxml.rs:132-140 | the text before the needle with the cursor behind it, or the error when there is no needle |
| WxmlGrammar.MachineIsParser | crates/component-runtime/src/wxml.rs:71-117 | an explicit stack machine agrees with the recursive parser in every configuration of stack and input |
| WxmlGrammar.ParserIsMachine | crates/component-runtime/src/wxml.rs:54-117 | for every source the parser returns what the stack machine builds: same tree, same error |
| WxmlGrammar.ReadsSpelled | crates/component-runtime/src/wxml.rs:71-117 | tokens that spell a balanced forest are read as that forest, whatever follows |
| WxmlGrammar.AcceptedIsSpelled | crates/component-runtime/src/wxml.rs:71-117 | whatever the parser accepts is the spelling of some balanced forest that means the nodes returned |
| WxmlGrammar.ParsesIffBalanced | crates/component-runtime/src/wxml.rs:54-153 | a source parses exactly when it lexes to its end, is balanced with matching names, and has a node that is more than white space |
| WxmlGrammar.ParsesSpelled | crates/component-runtime/src/wxml.rs:54-117 | and then the tree is the one its spelling means |
| WxmlPrinter.ReadsSortedAttrs | crates/component-runtime/src/wxml.rs:176-237 | attributes printed in key order are read back as the same map |
| WxmlPrinter.ReadsTag | crates/component-runtime/src/wxml.rs:155-174 | the printed inside of a tag is read as that tag and never taken for a self-closing one |
| WxmlPrinter.LexPrinted | crates/component-runtime/src/wxml.rs:71-137 | printed siblings lex to the tokens that spell them, whatever tag or end follows |
| WxmlPrinter.ParseOfPrint | crates/component-runtime/src/wxml.rs:16-237 | parsing undoes printing for every printable tree that is more than white space, attributes included |
| WxmlMarkup.ReadsAttributes | crates/component-runtime/src/wxml.rs:176-237 | attributes as an author may write them (without a value, bare, in either quotes, white space around `=`, without a name) are read as what they mean, of one name the last |
| WxmlMarkup.ReadsTags | crates/component-runtime/src/wxml.rs:155-174 | the inside of a tag, with any white space around it, is that tag, self-closing exactly when a slash stands at its end, with white space before it or behind it |
| Text.SpacesAre | crates/component-runtime/src/wxml.rs:164-188 | the white space that is trimmed is the 25 code points Unicode lists; between attributes only the ASCII ones without the vertical tab count |
| WxmlMarkup.LexWritten | crates/component-runtime/src/wxml.rs:71-137 | markup lexes to the tokens of its elements and texts, at any depth, whatever tag or end follows |
| WxmlMarkup.ParseOfMarkup | crates/component-runtime/src/wxml.rs:16-237 | a document written by hand, self-closing tags at any depth included, parses to what it means: its one node, a `view` around several, or the error when there is none |
| WxmlMarkup.OpenBracket | crates/component-runtime/src/wxml.rs:132-140 | after any complete markup, a tag without its bracket is that error |
| WxmlMarkup.NamelessTag | crates/component-runtime/src/wxml.rs:164-168 | a tag of nothing but white space is that error |
| WxmlMarkup.OpenQuote | crates/component-runtime/src/wxml.rs:212-229 | a value whose quote is never closed is that error |
| WxmlMarkup.WrongClosing | crates/component-runtime/src/wxml.rs:71-99 | a closing tag that does not belong to the innermost open element, or its absence, is that error |
| Wxss.DeclarationsMerge | crates/component-runtime/src/wxss.rs:51-89 | parsing `a;b` is parsing `a`, parsing `b`, and merging the second over the first, warnings in order |
| Wxss.ParseDeclarations | crates/component-runtime/src/wxss.rs:70-119 | the loop yields the style and warnings of all declarations, a later one winning |
| Wxss.ReadSheet | crates/component-runtime/src/wxss.rs:11-34 | the loop over `{` and `}` yields the rules of the sheet; a later rule of a class replaces an earlier one, other selectors and an open rule are warned about |
| WxssLaws.UnitsReplaced | crates/component-runtime/src/wxss.rs:117-119 | every `rpx` of a value becomes `px` and nothing else changes, however the units adjoin |
| WxssLaws.NamedIff | crates/component-runtime/src/wxss.rs:91-115 | a property is set exactly by its name, the background by a second one too |
| WxssLaws.StyleIs | crates/component-runtime/src/wxss.rs:45-119 | a style as it is written is read as what it means: of one property the last value, and a warning for every declaration without a colon or with an unknown name, in order |
| WxssLaws.SheetIs | crates/component-runtime/src/wxss.rs:11-34 | a sheet as it is written is read as what it means: of one class the last rule, a warning for every other selector and for a rule that is never closed |
| Binding.InterpolateText | crates/component-runtime/src/compiler.rs:326-343 | the scanning loop yields the text with every binding replaced, and the warnings in order |
| BindingLaws.SupportedIff | crates/component-runtime/src/compiler.rs:377-385 | a path binds exactly if it is words of letters, digits and underscores with single dots between them |
| BindingLaws.ValueOfName | crates/component-runtime/src/compiler.rs:27-40 | a word is the loop variable of that name, or else the member of the data |
| BindingLaws.ValueOfMember | crates/component-runtime/src/compiler.rs:42-53 | a longer path is a member of the value of the shorter one; `length` counts items, characters or members |
| BindingLaws.SpacesDoNotCount | crates/component-runtime/src/compiler.rs:27-32 | of any path, white space around its pieces does not count, nor do pieces of nothing else |
| BindingLaws.TextShows | crates/component-runtime/src/compiler.rs:326-369 | for every text made of plain stretches and bindings: the stretches as they are and of each binding its value (a text itself, a number, boolean, array or object as compact JSON, null or missing nothing), an unsupported one nothing and one warning, an unclosed one as written |
| BindingLaws.PlainTextShows | crates/component-runtime/src/compiler.rs:326-343 | a text in which no opening brace is doubled is shown as it is |
| BindingLaws.BindingBetween | crates/component-runtime/src/compiler.rs:326-369 | between any two texts the value of a supported path stands where its binding stood; the text before must not end in the brace that the binding begins with |
| BindingLaws.ValueShows | crates/component-runtime/src/compiler.rs:345-350 | an attribute that is one binding has the value itself, null if there is none |
| BindingLaws.SingleIsWritten | crates/component-runtime/src/compiler.rs:371-375 | a text taken for a single binding is one: a supported path in its braces with white space around |
| JsonText.TextReadsBack | crates/component-runtime/src/compiler.rs:362-368 | the compact JSON text of a value is read back as that value by an independent reader, whatever follows |
| JsonText.TextDetermines | crates/component-runtime/src/compiler.rs:362-368 | so values with equal texts are equal, for values as `serde_json` holds them |
| CompilerCode.Session.NextIdentifier | crates/component-runtime/src/compiler.rs:387-391 | the id carries the counter's new value and the counter advances by one |
| CompilerCode.Session.ApplyAttribute | crates/component-runtime/src/compiler.rs:258-298 | one arm of the attribute match on the node being filled, with its warnings |
| CompilerCode.Session.FillDataset | crates/component-runtime/src/compiler.rs:288-295 | every event binding so far gets the value, interpolated anew for each |
| CompilerCode.Session.ApplyAttributes | crates/component-runtime/src/compiler.rs:237-299 | all attributes in key order on top of the class and inline styles |
| CompilerCode.Session.InitialStyling | crates/component-runtime/src/compiler.rs:244-256 | the classes in order and then the inline style, merged |
| CompilerCode.Session.CompileTheNode | crates/component-runtime/src/compiler.rs:120-138 | the nodes, counter and warnings of one template node; the counter and the warnings only grow |
| CompilerCode.Session.CompileTheElement | crates/component-runtime/src/compiler.rs:140-202 | condition and loop: no nodes, one compilation, or one per item |
| CompilerCode.Session.CompileTheRounds | crates/component-runtime/src/compiler.rs:175-202 | one copy of the element without its loop attributes per item, in the scope of its item and index |
| CompilerCode.Session.CompileTheOne | crates/component-runtime/src/compiler.rs:204-235 | kind, id, attributes, children and collapsed text of one element |
| CompilerCode.Session.CompileTheChildren | crates/component-runtime/src/compiler.rs:219-222 | the children's nodes in order, threading counter and warnings |
| CompilerCode.CompileComponent | crates/component-runtime/src/compiler.rs:101-118 | the whole pipeline: parse the template and the sheet, compile, keep the first root; the error when there is none |
| CompilerAttrs.WordsAre | crates/component-runtime/src/compiler.rs:244-250 | a class list names its classes in order, however they are spaced |
| CompilerAttrs.AttributesGive | crates/component-runtime/src/compiler.rs:237-299 | for every element: the style is that of its classes, later ones over earlier ones, under the inline style; exactly the props of its tag; exactly its events, with kind and handler; and the warnings in order |
| CompilerAttrs.KeyOfName | crates/component-runtime/src/compiler.rs:288-289 | a data key is what follows every leading `data-`, and `data-render-key` is none |
| CompilerLaws.TextNodeIs | crates/component-runtime/src/compiler.rs:128-135 | a text node holds its text with the bindings shown, numbered, or is dropped when that is blank |
| CompilerLaws.NotShown | crates/component-runtime/src/compiler.rs:147-155 | an element whose condition is null, missing, false, zero or empty makes nothing; a condition that is no binding is warned of too |
| CompilerLaws.LoopIs | crates/component-runtime/src/compiler.rs:157-202 | a loop makes, in order, one copy for each item in the scope with item and index, without its loop attributes and with the text of its key; over anything else nothing |
| CompilerLaws.ElementIs | crates/component-runtime/src/compiler.rs:204-235 | an element makes one node: id, kind by its tag, style, props, events, and its children or, for a text, their joined text |
| CompilerLaws.ChildrenInOrder | crates/component-runtime/src/compiler.rs:219-222 | two lists of siblings compile one after the other, counter, nodes and warnings |
| CompilerLaws.ComponentIs | crates/component-runtime/src/compiler.rs:101-118 | the answer for every template, sheet and data: the parse error, no root, or the first root over the data alone with the sheet's warnings first |
| CompilerLaws.PageShows | crates/component-runtime/src/compiler.rs:399-409 | from markup to node: a text with any bindings inside a `view` compiles to the text that the data give it |
| CompilerIds.NumberOfId | crates/component-runtime/src/compiler.rs:387-391 | the decimal after the last `-` of an id is its counter, whatever the prefix |
| CompilerIds.NodeNumbered | crates/component-runtime/src/compiler.rs:120-138 | a compiled node uses exactly the ids of its half-open counter range, increasing in tree order |
| CompilerIds.ElementNumbered | crates/component-runtime/src/compiler.rs:140-235 | the same through conditions and loops, which recurse on an element of the same size without its `wx:for` |
| CompilerIds.CompiledTreeWellFormed | crates/component-runtime/src/compiler.rs:101-235 | for every template, sheet and data: all ids of the tree are distinct, and text nodes are leaves |
| CompilerEvents.BindingsCarryDataset | crates/component-runtime/src/compiler.rs:258-298 | the bindings of an element are its event attributes in name order, and each carries every `data-*` attribute but `data-render-key` |
| CompilerEvents.LastOfKey | crates/component-runtime/src/compiler.rs:288-295 | every `data-*` name has a last one with its key, whose value the bindings carry |
| CompilerEvents.CarriesValueIff | crates/component-runtime/src/compiler.rs:288-295 | a binding carries the value of a given `data-*` attribute exactly when the last name with its key has the same value |
| CompilerBindings.EveryBindingHasItsData | crates/component-runtime/src/compiler.rs:101-298 | every binding in a compiled tree is an event attribute of one element of the template and carries exactly that element's `data-*` keys, with their values in the data extended by one item of each loop around the element |
| CompilerEvents.SharedKeyLosesValue | crates/component-runtime/src/compiler.rs:288-295 | `data-data-x` and `data-x` share the key `x`: a binding loses the value of the first |
| CompilerScope.NodeSame | crates/component-runtime/src/compiler.rs:120-235 | two scopes that agree on the names a node reads give the same nodes, warnings and counter |
| CompilerScope.DependsOnlyOnFreeNames | crates/component-runtime/src/compiler.rs:27-235 | tree and warnings depend on the data only through the template's free top-level names; loop variables shadow data |
| CompilerRename.SingleShape | crates/component-runtime/src/compiler.rs:371-385 | a text is a single binding exactly when only white space surrounds its braces and its path is supported |
| CompilerRename.RenamedText | crates/component-runtime/src/compiler.rs:326-369 | a text with a name renamed reads, in the renamed scope, as the text did |
| CompilerTrees.RenamedNode | crates/component-runtime/src/compiler.rs:120-235 | a node with its free occurrences of a name renamed to a fresh word compiles, in the renamed scope, to as many nodes with the same text and ids, and to the same tree exactly when every inner loop that shows a round has its key unchanged |
| CompilerTrees.KeptKeysStay | crates/component-runtime/src/compiler.rs:120-314 | those keys are unchanged when inner loops read the name in their keys only in its value, not in a field of their items |
| CompilerRename.RenamedKeyIff | crates/component-runtime/src/compiler.rs:301-314 | a renamed `wx:key` has the value of the key exactly unless it is looked up in the item and that changes it |
| CompilerLoops.LongKeyIff | crates/component-runtime/src/compiler.rs:301-314 | a plain key that starts with the variable keeps its value exactly when the variable's value has the rest of the path, or the item reads the same under both field names; a key that is the variable always does |
| CompilerLoops.RenamingLoopVariableIff | crates/component-runtime/src/compiler.rs:140-202 | renaming a loop's item or index variable to a fresh word leaves the compiled tree unchanged exactly when no round is shown, or the loop's condition has the same outcome before the variable exists and every round shown has the same key, with all keys of the loops shown inside it |
| CompilerLoops.RenamingLoopVariable | crates/component-runtime/src/compiler.rs:140-202 | so it does when the loop's condition does not read the variable and no key, of this loop or of one inside it, reads a field named after it |
| CompilerLoopLimits.ConditionReadsItem | crates/component-runtime/src/compiler.rs:140-173 | `wx:if="{{item}}"` on the loop itself is read before the item exists: with `item` in the data, renaming the variable loses the element |
| CompilerLoopLimits.KeyReadsItem | crates/component-runtime/src/compiler.rs:301-314 | `wx:key="item.f"` over items `{item: {f}}` falls back to a field of the item called `item`: renaming the variable loses the key |
| AuthStore.Store.IssueChallenge | crates/demo-server/src/auth.rs:233-259 | the challenge handed out, and the store with its record if the lock could be taken |
| AuthStore.Store.ChallengeRecord | crates/demo-server/src/auth.rs:346-352 | the record under the id, or the error; nothing changes |
| AuthStore.Store.RemoveChallenge | crates/demo-server/src/auth.rs:354-361 | the id is removed exactly when it was there; otherwise the error and nothing changes |
| AuthStore.Store.Login | crates/demo-server/src/auth.rs:261-328 | a login that nothing interrupts: its answer and the store after it |
| AuthStore.StepKeepsInv | crates/demo-server/src/auth.rs:233-361 | every step of every interleaving keeps records, logins and tokens in order |
| AuthStore.OneTokenPerChallenge | crates/demo-server/src/auth.rs:261-361 | in every interleaving of logins and challenges, no challenge yields two tokens |
| AuthStore.TokensComeInTime | crates/demo-server/src/auth.rs:271-278 | in every interleaving, the login of each token read its challenge before the expiry, in its scope, with a proof that checked |
| AuthStore.TokensCarryScope | crates/demo-server/src/auth.rs:261-328 | in every interleaving, a token carries the user, agent, skill, session and merchant its challenge was issued for |
| AuthStore.OnlyVerifiedLoginsRemove | crates/demo-server/src/auth.rs:261-361 | in every interleaving, a challenge leaves the store only by a login whose proof was verified against its payload |
| AuthStore.AcceptedIff | crates/demo-server/src/auth.rs:261-328 | a login is accepted exactly if merchant, challenge, lifetime, the five fields of the scope, proof, locks and issuer are all in order, and then with this token and this store |
| AuthStore.ExpiredIff | crates/demo-server/src/auth.rs:271-278 | a stored challenge is answered as expired exactly from its expiry on, or when the proof's check says so |
| AuthStore.RefusedBy | crates/demo-server/src/auth.rs:261-328 | a refused login is answered by the first of eight checks that fails |
| AuthStore.AcceptedThroughItsLifetime | crates/demo-server/src/auth.rs:233-328 | a challenge issued at `t` for `ttl` is accepted throughout `[t, t + ttl)` and expired from then on, on a 64-bit clock |
| AuthStore.ChallengesAreConserved | crates/demo-server/src/auth.rs:233-361 | in every interleaving, a stored challenge is in the store or was removed by one login, never both |
| AuthStore.LoginAloneIsInterleaving | crates/demo-server/src/auth.rs:261-328 | the login method answers and leaves the store as the separate steps do when nothing comes between them |
| ModulePath.MakeModuleId | crates/js-runtime-quickjs/src/commonjs.rs:81-121 | the loop over path components yields the id, or the error for absolute, parent, non-UTF-8 and empty paths |
| PathLaws.IdOfFile | crates/js-runtime-quickjs/src/commonjs.rs:81-121 | a file has an id exactly if its path is relative, of names and `.` only, with a name; the id is the names between slashes without the extension |
| ModulePath.NormalizeRequire | crates/js-runtime-quickjs/src/bridge.rs:42-77 | the loop over segments yields the resolved id, or the error |
| PathLaws.DetourCancels | crates/js-runtime-quickjs/src/bridge.rs:55-67 | a name and the `..` behind it cancel, wherever they stand in a specifier |
| PathLaws.UpThenDown | crates/js-runtime-quickjs/src/bridge.rs:55-67 | `k` times `..` and then names lead to the directory without its last `k` parts followed by the names, and out of the package exactly when it has fewer |
| PathLaws.RequireLeadsTo | crates/js-runtime-quickjs/src/bridge.rs:42-77 | for every parent and specifier as texts, with `./`, `../` or neither, extension or not: the module resolved, or the error |
| PathLaws.DetourLeadsToTheSame | crates/js-runtime-quickjs/src/bridge.rs:42-77 | a detour in the text of a specifier changes neither the module nor the kind of error |
| PathLaws.RefusedOutright | crates/js-runtime-quickjs/src/bridge.rs:42-48 | the empty specifier, a NUL, a scheme anywhere, a leading slash or backslash are refused, with these errors |
| ModulePath.EscapesIffAboveRoot | crates/js-runtime-quickjs/src/bridge.rs:50-68 | resolution leaves the package exactly when some prefix of the specifier climbs above the root |
| ModulePath.IdIsRefusedIff | crates/js-runtime-quickjs/src/bridge.rs:42-48 | an id with its extension is refused outright exactly for a NUL or a leading backslash |
| ModulePath.IdResolvesBackIff | crates/js-runtime-quickjs/src/bridge.rs:42-77 | for every id made from a file path, requiring `id + ".js"` yields the id exactly when it holds no NUL, starts with no backslash, and does not start with a dot unless the requiring module is at the root |
| ModulePath.EmptyIdDoesNotResolveBack | crates/js-runtime-quickjs/src/commonjs.rs:81-121 | a file called `.js` has the empty id, which a module in a directory cannot require by its file name |
| Loader.Runtime.RequireModule | crates/js-runtime-quickjs/src/bridge.rs:79-92 | resolves, answers from the cache, or caches first and then runs the body; terminates on every module graph |
| LoaderMachine.LoadIsLoop | crates/js-runtime-quickjs/src/bridge.rs:79-115 | on every graph, cycles, throws and catches included, the recursive loader is one loop over a stack of bodies: same order of bodies, registrations and middlewares, same broken bodies, same answer |
| Loader.Runtime.RunBody | crates/js-runtime-quickjs/src/bridge.rs:86-90 | the operations of a body in order; the first failing one throws out, unless it is a `require` in a try block |
| Loader.Runtime.RegisterHandler | crates/js-runtime-quickjs/src/bridge.rs:97-108 | a name is registered once, with a function; otherwise the error and nothing changes |
| Loader.LoadConsistent | crates/js-runtime-quickjs/src/bridge.rs:79-92 | the cached ids stay exactly the bodies started, each once, whether loading succeeds, throws, or catches what another module threw |
| Loader.BodiesRunOnce | crates/js-runtime-quickjs/src/bridge.rs:79-92 | on every module graph, cycles included, each body runs at most once |
| Loader.LoadReaches | crates/js-runtime-quickjs/src/bridge.rs:79-92 | everything a load adds to the cache is reachable from where it started |
| Loader.LoadCompletes | crates/js-runtime-quickjs/src/bridge.rs:79-92 | after a load, whether it succeeds or throws, every module it added whose body did not throw has all its requirements in the cache |
| Loader.LoadsExactlyTheReachable | crates/js-runtime-quickjs/src/bridge.rs:167-169 | only modules reachable from `index` are loaded; when loading succeeds, all that are reachable past bodies that did not throw, and all of them exactly if the bodies that threw had their requirements loaded; always if no body catches what `require` throws |
| Loader.CaughtFailureSkips | crates/js-runtime-quickjs/src/bridge.rs:79-92 | a module that catches the failure of another: loading succeeds, and a reachable module is not loaded |
| Middleware.Dispatcher.Dispatch | crates/js-runtime-quickjs/src/middleware.rs:5-37 | the guarded dispatcher refines a right fold that has no position guard: result, trace and index |
| Middleware.Dispatcher.CallNext | crates/js-runtime-quickjs/src/middleware.rs:19-26 | the first `next` of a position dispatches the position after it, and keeps its promise only if it got one |
| Middleware.Dispatcher.RunAsync | crates/js-runtime-quickjs/src/middleware.rs:17-36 | an asynchronous middleware: its trace around what `next` ran, and the choice between its value and the result of `next` |
| Middleware.Dispatcher.RunSync | crates/js-runtime-quickjs/src/middleware.rs:17-36 | the same for a synchronous one, which throws out of the dispatcher |
| Middleware.RunMiddlewareChain | crates/js-runtime-quickjs/src/middleware.rs:2-40 | the chain's result and trace are those of the fold |
| MiddlewareBodies.BodyIs | crates/js-runtime-quickjs/src/middleware.rs:17-36 | an asynchronous middleware told by the indices of its steps: what it says and where `next` runs, where it ends, and with what |
| MiddlewareBodies.EveryBodyTakes | crates/js-runtime-quickjs/src/middleware.rs:17-36 | every body has such an end |
| MiddlewareBodies.AsyncIs | crates/js-runtime-quickjs/src/middleware.rs:17-36 | the trace, result and reach of such a position, given what is inside it |
| MiddlewareBodies.SyncIs | crates/js-runtime-quickjs/src/middleware.rs:17-36 | the same for a synchronous one, and for a value that is no function |
| MiddlewareBodies.HandlerIs | crates/js-runtime-quickjs/src/middleware.rs:28-30 | the handler's part |
| MiddlewareBodies.ThrowsIff | crates/js-runtime-quickjs/src/middleware.rs:17-36 | a dispatch throws instead of returning a promise exactly if synchronous middlewares hand on the throw of a synchronous one or of the handler |
| MiddlewareLaws.EntersInOrder | crates/js-runtime-quickjs/src/middleware.rs:5-37 | positions are entered in order, each once and without a gap: the handler runs at most once and after every middleware has started |
| MiddlewareLaws.TraceIsOnion | crates/js-runtime-quickjs/src/middleware.rs:5-37 | the trace of an awaited chain is properly nested: replayed on a stack, only the innermost position speaks or exits |
| MiddlewareLaws.OutermostDecides | crates/js-runtime-quickjs/src/middleware.rs:32-36 | the result is that of the outermost position that does not leave it to its `next` |
| MiddlewareLaws.SwallowedErrorResurfacesIff | crates/js-runtime-quickjs/src/middleware.rs:19-36 | every asynchronous middleware that called `next` and ends without a result fails with the inner error, caught or not, exactly unless the inner function threw instead of returning a promise |
| MiddlewareLaws.CaughtErrorComesBack | crates/js-runtime-quickjs/src/middleware.rs:19-36 | `try { await next() } catch {}` around a handler that rejects: the chain rejects with the caught error |
| MiddlewareLaws.AnySchedule | crates/js-runtime-quickjs/src/middleware.rs:5-26 | from the first dispatch on, whenever and however often the `next` functions are called, the position guard never refuses, and they start the positions 1, 2 and so on, each once |
| MiddlewareLaws.NextKeepsGuards | crates/js-runtime-quickjs/src/middleware.rs:6-26 | a `next` starts a position exactly when it is that of the innermost started position; either guard alone would do |
| SetData.Target.SetByPath | crates/component-runtime/src/component_vm.rs:40-54 | the walk with a cursor that opens objects on the way equals one recursive write |
| SetData.Target.ApplySetData | crates/component-runtime/src/component_vm.rs:56-65 | the updates in order, dotted keys through their path |
| SetDataLaws.AfterWrite | crates/component-runtime/src/component_vm.rs:40-54 | what every path holds after a write: inside the written one the value's part, along it an object, elsewhere what it held before |
| SetDataLaws.MembersStay | crates/component-runtime/src/component_vm.rs:40-54 | an object along the written path keeps its other members, and gets no others |
| SetDataLaws.KeyIs | crates/component-runtime/src/component_vm.rs:56-65 | a key is the member it names; with dots, the path of its non-empty pieces, and without any it writes nothing |
| SetDataLaws.AppliedInOrder | crates/component-runtime/src/component_vm.rs:56-65 | updates are applied one after the other |
| SetDataLaws.LastUpdateStands | crates/component-runtime/src/component_vm.rs:56-65 | whatever came before, the last update reads back |
| SetData.WrittenReadsBack | crates/component-runtime/src/component_vm.rs:40-54 | after a write, the template's lookup of that path returns the value, and a longer path reads inside it; segments called `length` excluded |
| SetData.WrittenReadsBackIff | crates/component-runtime/src/component_vm.rs:40-54 | for every path: it reads back what was written exactly when no inner segment is `length` and a last one called `length` was given the new number of members |
| SetData.LengthHidesWrite | crates/component-runtime/src/component_vm.rs:40-54 | a text written to `a.length` reads as a number |
| SetData.ReadElsewhereIff | crates/component-runtime/src/component_vm.rs:40-54 | for every path that parts from the written one: it reads as before exactly unless it asks for the length of what stands where they part and the write changes that length |
| SetData.LengthSeesWrite | crates/component-runtime/src/component_vm.rs:45-50 | asking for a length there does see the write: a text becomes an object |
| SetData.WritesCommute | crates/component-runtime/src/component_vm.rs:40-54 | writes to paths that part ways can be made in either order |
| SetData.SamePath | crates/component-runtime/src/compiler.rs:27-53 | for a path the template can bind, writer and reader split it alike |
| SetData.EveryKeyReadsBack | crates/component-runtime/src/component_vm.rs:56-65 | after one `setData` call with independent keys, in whatever order, every key reads its value |
| ComponentVm.RunRegisters | crates/component-runtime/src/component_vm.rs:89-98 | a script registers strictly less than it weighs itself |
| ComponentVm.PendingShrinks | crates/component-runtime/src/component_vm.rs:198-205 | what is left of a live handler list shrinks with every handler run, although handlers may add to it |
| ComponentVm.Runtime.PushAction | crates/component-runtime/src/component_vm.rs:74-87 | the action is queued, and after a follow-up message the API calls among its blocks |
| ComponentRuns.CallBlockIff | crates/component-runtime/src/component_vm.rs:78-84 | a block asks for a call exactly if it has that type, an object with a name, and then with these arguments |
| ComponentRuns.QueuedIs | crates/component-runtime/src/component_vm.rs:74-87 | a follow-up message is queued with the calls of its blocks, in order; any other action alone |
| ComponentVm.Runtime.RunScript | crates/component-runtime/src/component_vm.rs:159-187 | the steps of a script in order, up to the first that throws |
| ComponentVm.Runtime.RunHandlers | crates/component-runtime/src/component_vm.rs:202-204 | the live walk over the handler list terminates and runs also what is added on the way |
| ComponentVm.Runtime.NotifyHandlers | crates/component-runtime/src/component_vm.rs:198-205 | a notification is traced and the handlers of its name in lower case run; without an instance it throws |
| ComponentRuns.LowerIs | crates/component-runtime/src/component_vm.rs:67-72 | upper-case letters of a notification name become lower-case ones, and nothing else changes |
| ComponentVm.Runtime.RunLifecycle | crates/component-runtime/src/component_vm.rs:189-196 | a lifecycle function is traced and run if there is one |
| ComponentVm.Runtime.TakeSnapshot | crates/component-runtime/src/component_vm.rs:207-216 | the state and both queues are handed out and the queues are emptied |
| ComponentVm.Runtime.MountComponent | crates/component-runtime/src/component_vm.rs:228-239 | a new instance, the four phases in order, and a snapshot; an error stops and leaves the queues |
| ComponentVm.Runtime.DispatchEvent | crates/component-runtime/src/component_vm.rs:241-253 | refused when expired or unknown; otherwise traced, run, and a snapshot |
| ComponentVm.Runtime.ExpireComponent | crates/component-runtime/src/component_vm.rs:255-262 | the expiry phases run once; the flag is set only if they succeed |
| ComponentRuns.MountIs | crates/component-runtime/src/component_vm.rs:153-239 | a mount starts from the defaults under the properties under the seed and runs `created`, the input and result handlers registered by then or on the way, and `attached`; its state, actions, trace and error are those of all these scripts up to the first that throws |
| ComponentRuns.EventIs | crates/component-runtime/src/component_vm.rs:241-253 | an event is refused after expiry, without definition or method; otherwise state, actions, trace and error are those of the method |
| ComponentRuns.ExpiryIs | crates/component-runtime/src/component_vm.rs:255-262 | an expiry runs the expire handlers and `detached` once, and marks the component exactly when none of them throws |
| ComponentRuns.Unmounted | crates/component-runtime/src/component_vm.rs:241-262 | before a mount an event's method may push but not set data, and an expiry fails |
| ComponentVm.ComponentInstance.Mount | crates/component-runtime/src/component_vm.rs:562-576 | the host's fields after a mount, by how the script, the decoding and the rendering went |
| ComponentVm.ComponentInstance.DispatchEvent | crates/component-runtime/src/component_vm.rs:578-590 | the same for an event; an expired host does not reach the script side |
| ComponentVm.ComponentInstance.Expire | crates/component-runtime/src/component_vm.rs:592-601 | the same for expiry |
| ComponentRuns.HostIs | crates/component-runtime/src/component_vm.rs:562-656 | what the host makes of a snapshot: undecodable actions and failed renderings are its errors, and which of its fields change on each |
| ComponentRuns.ExpiredHostRefuses | crates/component-runtime/src/component_vm.rs:578-585 | an expired host refuses events before the script side sees them, and nothing changes |
| ComponentLaws.ActionsAreConserved | crates/component-runtime/src/component_vm.rs:74-262 | in every run of calls, all actions and trace entries ever pushed are those drained followed by those waiting: in order, none lost, none twice |
| ComponentLaws.DrainedIsReceivedUnless | crates/component-runtime/src/component_vm.rs:623-656 | the caller receives what was drained, unless decoding or rendering fails: then it is gone |
| ComponentLaws.FlagsAreSound | crates/component-runtime/src/component_vm.rs:562-601 | in every run, the host says expired only if the script side is, and only a mounted component is |
| ComponentLaws.AfterExpiry | crates/component-runtime/src/component_vm.rs:241-262 | after expiry no event runs, and expiring again runs nothing and only empties the queues |
| ComponentLaws.ExpiryIsFinal | crates/component-runtime/src/component_vm.rs:228-262 | no sequence of calls takes expiry back, mounting included |
| ComponentLaws.FlagsPartIff | crates/component-runtime/src/component_vm.rs:592-601 | an expiry succeeds unknown to the host exactly when none of the scripts it runs throws (the handlers of `expire`, those they register, and `detached`), and an action that waits or that they push does not decode |
| ComponentLaws.CleanFlagsAgree | crates/component-runtime/src/component_vm.rs:562-601 | for a component that names by texts all cards it ever asks to expire, nested handlers included, host and script side agree on expiry in every run |
| ComponentLaws.FlagsCanDiffer | crates/component-runtime/src/component_vm.rs:592-601 | so the two flags can differ in a run: mounting and expiring a component whose `detached` pushes a card path that is not a text |
| Redaction.RedactIdempotent | crates/consent-audit/src/audit.rs:119-155 | redacting twice is redacting once, truncated texts included |
| Redaction.RedactedAlikeIff | crates/consent-audit/src/audit.rs:119-155 | two values look alike after redaction exactly when they differ only under sensitive keys and beyond the kept characters of long texts |
| Redaction.SensitiveIsHidden | crates/consent-audit/src/audit.rs:123-126 | nothing under a sensitive key shows |
| RedactionLaws.SensitiveIff | crates/consent-audit/src/audit.rs:157-184 | a key is sensitive exactly if one of the listed words stands somewhere in it, in whatever case |
| RedactionLaws.TextIs | crates/consent-audit/src/audit.rs:147-155 | a text of at most 160 characters stays; of a longer one the first 160 stay, with the mark |
| RedactionLaws.PlaceIs | crates/consent-audit/src/audit.rs:119-145 | place by place: off sensitive keys what stood there, at the first sensitive key the mark and nothing below |
| RedactionLaws.NoNewPlaces | crates/consent-audit/src/audit.rs:119-145 | redaction opens no place that was not there |
| Digest.ParameterDigest | crates/consent-audit/src/consent.rs:213-222 | the loop yields the sixteen hexadecimal digits of the 64-bit hash of the redacted value's text |
| DigestLaws.XorBits | crates/consent-audit/src/consent.rs:217-220 | each low bit of the exclusive or is one exactly where the two differ |
| DigestLaws.ByteByByte | crates/consent-audit/src/consent.rs:216-220 | one byte more: exclusive or with the byte first, then the product by the prime in 64 bits, from the offset basis |
| DigestLaws.DigestOfNothing | crates/consent-audit/src/consent.rs:216-221 | the published hash of nothing |
| DigestLaws.DigestOfA | crates/consent-audit/src/consent.rs:216-221 | the published hash of the letter a |
| DigestLaws.DigestIs | crates/consent-audit/src/consent.rs:213-222 | of a short plain text the bytes hashed are its characters in double quotes, of any value those of the JSON text of the redacted value |
| DigestLaws.EncodeInjective | crates/consent-audit/src/consent.rs:214-215 | texts with equal bytes are equal |
| Digest.StepInjective | crates/consent-audit/src/consent.rs:217-220 | the loop's step loses nothing: of equal results, equal states mean equal bytes and the other way round |
| Digest.OneByteChangesDigest | crates/consent-audit/src/consent.rs:213-222 | two encodings of equal length that differ in one byte have different digests |
| Digest.SharedEnding | crates/consent-audit/src/consent.rs:213-222 | with the same ending, digests agree exactly when those of the beginnings do |
| Digest.HexInjective | crates/consent-audit/src/consent.rs:221 | different hashes print differently |
| Digest.DigestOfSummary | crates/consent-audit/src/consent.rs:213-215 | the digest of the redacted summary is that of the raw arguments |
| Digest.HiddenPartsDoNotCount | crates/consent-audit/src/consent.rs:213-215 | what redaction hides has no influence on the digest |
| Orchestrator.Orchestrator.CallApi | crates/dock-core/src/orchestrator.rs:110-200 | what a call asks of whom, in which order, what it records and what it returns, for every answer of the host |
| Orchestrator.Orchestrator.ExecuteAndRecord | crates/dock-core/src/orchestrator.rs:167-199 | execution, check of the result, rendering, one audit event, answer |
| Orchestrator.Orchestrator.RouteResult | crates/dock-core/src/orchestrator.rs:225-256 | rendered, or a fallback with its reason, or nothing for an error result |
| Orchestrator.Orchestrator.RecordAudit | crates/dock-core/src/orchestrator.rs:258-277 | one audit event with the redacted arguments |
| Orchestrator.Orchestrator.HandleComponentAction | crates/dock-core/src/orchestrator.rs:202-215 | an API call of a component is a call in its context; other actions do nothing |
| CallLaws.AnswerIs | crates/dock-core/src/orchestrator.rs:110-200 | every call is answered by the first gate or result check that fails, a failing audit log taking the place of an audited error, and otherwise with the result, its visible part and what is rendered of it |
| CallLaws.LogIs | crates/dock-core/src/orchestrator.rs:110-277 | every call's whole log: gates, request, execution, rendering, and the audit event with its name, summary and proof, field by field |
| CallLaws.ComponentContext | crates/dock-core/src/orchestrator.rs:28-34 | a component's call is made for the same parties and token, under its own name and arguments |
| OrchestratorLaws.ExecutionsAreGuarded | crates/dock-core/src/orchestrator.rs:110-215 | in every run against any host, each execution follows valid input, an Allow and, from L3 on, an approval of these arguments, in the same call |
| OrchestratorLaws.AuditedOnceUnless | crates/dock-core/src/orchestrator.rs:110-200 | every call leaves at most one audit event, and none exactly when the API is unknown or a gate could not answer |
| OrchestratorLaws.OkIsAudited | crates/dock-core/src/orchestrator.rs:110-200 | a call returns a result only with exactly one stored event `ok`, which has a proof exactly from L3 on, with the same summary and the digest of the raw arguments |
| OrchestratorLaws.OkAuditWithoutResultIff | crates/dock-core/src/orchestrator.rs:167-199 | an event `ok` is recorded exactly when the API ran to a valid result, and that is returned exactly if the log stored the event and the result could be serialised |
| OrchestratorLaws.StoredOkIffReturned | crates/dock-core/src/orchestrator.rs:110-200 | for every call: a result is returned exactly when an event `ok` was stored, serialisation, which cannot fail for these values, assumed |
| OrchestratorLaws.RendersUnlessError | crates/dock-core/src/orchestrator.rs:110-256 | a returned result has a rendering exactly if it is no error, and a fallback with a reason exactly if there is no component path or rendering failed; the log says the same |
| OrchestratorLaws.AuditAgrees | crates/consent-audit/src/consent.rs:184-211 | the consent proof and the audit event of one call carry one summary, and the digest is that of the raw arguments |
| Base58.B58Decode | examples/coffee-fastapi-server/auth.py:682-692 | the loop over characters yields the bytes, leading ones as zero bytes, or the error |
| Base58.DecodeOfEncoded | examples/coffee-fastapi-server/auth.py:682-692 | decoding inverts the standard encoder on every byte string, leading zeros included |
| Base58.EncodeOfDecoded | examples/coffee-fastapi-server/auth.py:682-692 | a text decodes exactly when all its characters are base58, and then it is the encoding of what it decodes to |
| Base58.DecodeInjective | examples/coffee-fastapi-server/auth.py:682-692 | no two texts decode to the same bytes |
| Base64Url.Base64UrlDecode | crates/js-runtime-quickjs/src/api_vm.rs:826-847 | the 32-bit register that drops its high bits gives the same output as unbounded pending bits |
| Base64Url.ShiftHolds | crates/js-runtime-quickjs/src/api_vm.rs:839-843 | the bits a shift drops are never read |
| Base64Url.DecodeOfEncoded | crates/js-runtime-quickjs/src/api_vm.rs:826-847 | decoding inverts the unpadded encoding of every byte string, and stops at padding |
| Base64Url.NotInjective | crates/js-runtime-quickjs/src/api_vm.rs:841-844 | left-over bits are dropped unseen, so different texts give the same bytes |
| Base64Url.GroupsBackIff | crates/js-runtime-quickjs/src/api_vm.rs:826-847 | six-bit groups come back from their bytes exactly when no lone group and no left-over bit is at the end |
| Base64Url.EncodesBackIff | crates/js-runtime-quickjs/src/api_vm.rs:826-847 | a text that decodes is the unpadded encoding of its bytes, up to the padding, exactly when its groups are of that kind |
| Base64Url.CanonicalInjective | crates/js-runtime-quickjs/src/api_vm.rs:826-847 | two such texts with the same bytes are the same up to their padding |
| SignatureInput.SerializeSignatureParams | examples/coffee-fastapi-server/auth.py:470-480 | the list built step by step prints components and parameters in the fixed order |
| SignatureInput.ParseSignatureInput | examples/coffee-fastapi-server/auth.py:483-505 | the loop over parameters yields label, components and the parameter map, or the error |
| SignatureInput.ReadOfPrinted | examples/coffee-fastapi-server/auth.py:470-505 | reading a label and the printed parameters returns the same label, components and parameters, for all values without delimiters |
| SignatureInput.MetadataOfPrinted | examples/coffee-fastapi-server/auth.py:345-366 | and the metadata are those printed, created, expires, nonce and key id, exactly when there is a key id |
| SignatureInput.ExtractSignatureMetadata | examples/coffee-fastapi-server/auth.py:345-366 | label, components and metadata from the two header fields, or the error when one is missing, malformed or has another label |
| SignatureInput.ExtractedFromPrinted | examples/coffee-fastapi-server/auth.py:345-519 | of two printed fields everything comes back exactly when the labels agree, the signature is base64 and a key is named |
| SignatureInput.IntRoundTrip | examples/coffee-fastapi-server/auth.py:588-600 | an integer reads back as printed, negative ones too |
| HttpUrl.ParsedIs | crates/js-runtime-quickjs/src/api_vm.rs:953-979 | a parsed URL has a host without slash, a 16-bit port and a path that starts with a slash |
| HttpUrl.OriginParsesBackIff | crates/js-runtime-quickjs/src/api_vm.rs:953-995 | a parsed URL is found again in its own origin and path exactly unless the default port hid a colon of the host |
| HttpUrl.HiddenPort | crates/js-runtime-quickjs/src/api_vm.rs:953-995 | `http://a:1:80/` parses to host `a:1` and the default port, and its origin parses to host `a` and port 1 |
| HttpUrl.DecodeOfEncoded | crates/js-runtime-quickjs/src/api_vm.rs:1071-1082 | form decoding inverts the percent-encoding of every byte string, and no separator is left in it |
| HttpUrl.AppendQueryData | crates/js-runtime-quickjs/src/api_vm.rs:998-1012 | the loop appends all members after the path, or after the query it has |
| HttpUrl.QueryReadsBack | crates/js-runtime-quickjs/src/api_vm.rs:998-1012 | splitting the query of the new path and decoding the pieces gives the fields the path had, and then every member, in key order |
| Capability.TimestampsInOrder | crates/anp-adapter/src/token.rs:414-425 | flooring the start and rounding up the end leaves at least a second, for all 64-bit times and positive lifetimes, saturation included |
| Capability.IssueFailsIff | crates/anp-adapter/src/token.rs:414-456 | for a valid issuer, a request is refused exactly for its own fields, never for its timestamps |
| CapabilityLaws.IssuedIs | crates/anp-adapter/src/token.rs:414-456 | every request is answered by what is wrong with its own fields, or with claims field by field, start rounded down and end rounded up to seconds |
| Capability.TimeCheckIff | crates/anp-adapter/src/token.rs:603-615 | the time check passes exactly from the start to the end of validity in milliseconds |
| Capability.LifetimeOf | crates/anp-adapter/src/token.rs:414-425 | without saturation an issued token is valid throughout its lifetime and expired from 999 ms after it |
| Capability.IssuedIsAcceptedIff | crates/anp-adapter/src/token.rs:478-507 | an issued token is accepted exactly by a verifier it fits, at the times it is valid |
| CapabilityLaws.RefusedBy | crates/anp-adapter/src/token.rs:478-507 | every token is refused for the first of ten checks that fails, in this order, and accepted with its claims if none does |
| Capability.ExpiryAgreesIff | crates/anp-adapter/src/token.rs:62-66 | client and verifier agree on expiry at every instant but the last of 64 bits, when the expiry saturated |
| TokenCache.InMemoryTokenCache.Get | crates/anp-adapter/src/token.rs:97-105 | the token under the scope, dropped instead if it has expired |
| TokenCache.InMemoryTokenCache.Put | crates/anp-adapter/src/token.rs:107-110 | the scope holds the token, other scopes are untouched |
| TokenCache.InMemoryTokenCache.Clear | crates/anp-adapter/src/token.rs:112-115 | the scope holds nothing, other scopes are untouched |
| TokenCache.DroppingNeverShows | crates/anp-adapter/src/token.rs:97-115 | in every run with a clock that does not go back, the cache answers as one that never drops |
| TokenCache.DroppingShows | crates/anp-adapter/src/token.rs:97-105 | with a clock that goes back it can answer differently |
| TokenCache.ReturnedIsNotExpired | crates/anp-adapter/src/token.rs:97-105 | a token the cache returns is not one its verifier calls expired at that instant |
| LoginSessions.Host.EnsureLogin | crates/js-runtime-quickjs/src/api_vm.rs:655-706 | served from the cache exactly while enough time is left; otherwise one login, remembered only if it succeeds and the cache can be locked |
| LoginSessions.ServedIff | crates/js-runtime-quickjs/src/api_vm.rs:98-103 | a session is served without a login exactly when more than 5000 ms are left of it, saturation included |
| LoginSessions.BaseUrlIs | crates/js-runtime-quickjs/src/api_vm.rs:664-672 | the login goes to the host's own origin, else to the first of two arguments that is there, without trailing slashes, and nowhere when that is empty |
| LoginSessions.KeysAgreeIff | crates/js-runtime-quickjs/src/api_vm.rs:676-690 | two sessions share a cache entry exactly if server, merchant (a default if none is named), user, agent, skill and session agree |
| HttpClient.Client.AuthMaterialFor | crates/anp-adapter/src/signed_request.rs:154-199 | the cached token if it has not expired and no signature is forced, or a signature; who fails first decides the error |
| HttpClient.ForcedIsUncached | crates/anp-adapter/src/signed_request.rs:154-199 | a forced signature is what an empty cache would give and leaves the cache alone; otherwise a live cached token goes out exactly when there is one |
| HttpClient.Client.RetryAfterChallenge | crates/anp-adapter/src/signed_request.rs:232-272 | the one further request, or the error before it |
| HttpClient.Client.Send | crates/anp-adapter/src/signed_request.rs:201-230 | requests sent, cache and result of one exchange, for every answer of the server |
| HttpLaws.WhatIsSent | crates/anp-adapter/src/signed_request.rs:201-272 | the first request is the caller's with the fresh cached token as bearer or else the signature over its header fields; the second, after a 401, is the caller's with the answer to the challenge and nothing of the first credential |
| HttpLaws.WhatIsAnswered | crates/anp-adapter/src/signed_request.rs:201-272 | every exchange is answered by the first of nine checks that fails, and otherwise with the last response |
| HttpLaws.TokensOnTheWire | crates/anp-adapter/src/signed_request.rs:201-272 | in every run from an empty cache, a request that goes out with a bearer token from the client has one that a response brought, and nothing sent since was answered 401; a retry never has one |
| HttpLaws.ParamIs | crates/anp-adapter/src/signed_request.rs:384-393 | a parameter of Authentication-Info brings its text exactly if it is a non-empty access token, with white space and quotes around it |
| HttpLaws.StrayIs | crates/anp-adapter/src/signed_request.rs:384-393 | a part without an equals sign brings nothing |
| HttpLaws.FirstPartCounts | crates/anp-adapter/src/signed_request.rs:384-393 | of several parts the first that brings a token counts |
| HttpLaws.TokenTextIs | crates/anp-adapter/src/signed_request.rs:371-393 | the token of a response is that of the first part that brings one, or else its bearer |
| HttpClient.AtMostTwoSends | crates/anp-adapter/src/signed_request.rs:201-272 | at most two requests go out, the second only after a 401 |
| HttpClient.CacheAfter | crates/anp-adapter/src/signed_request.rs:201-230 | on every exit, errors included: a rejected cached token has left the cache, an expired one too, and a token the last response brought is in it; nothing else changes |
| HttpClient.ExchangeIsSafe | crates/anp-adapter/src/signed_request.rs:201-272 | every exchange keeps that the cached token was brought by a response and not refused since |
| HttpClient.RefusedTokensAreNotReused | crates/anp-adapter/src/signed_request.rs:201-272 | in every run of requests against any server, a token is used only after a response brought it, and once refused not again until a response brings it again |

## Left out

- WxmlParser.Parser.constructor: positions count characters here and bytes of UTF-8 in the code; every cut falls at an ASCII character, so the pieces are the same.
- WxmlPrinter.ParseOfPrint: the printer is part of the model, the repository has none; it prints attributes in key order and never a self-closing tag. Markup as it is written by hand is `WxmlMarkup`.
- CompilerTrees.RenamedNode: an inner loop that binds the renamed name itself must not read it in its own `wx:if`, whose one text is read both outside and inside that loop, so that it has no renamed form.
- CompilerLoops.RenamingLoopVariableIff: the new name is a fresh word, and the loop's body is as `CompilerTrees.RenamedNode` demands.
- CompilerLoops.RenamingLoopVariable: a sufficient condition; the exact one is `CompilerLoops.RenamingLoopVariableIff`.
- CompilerCode.CompileComponent: render styles are maps of the named properties; the extra styles and the accessibility fields of a node, which the compiler never fills, are not modelled.
- Json numbers are their printed text and whether they equal zero; floating point and the parsing of numbers are not modelled.
- AuthStore.Store.Login: the proof check and the token issuer are arbitrary functions and answers; ids are fresh by assumption, and nothing is said about their randomness.
- Loader.Runtime.RequireModule: the exports a module returns, also half-filled ones inside a cycle, are not modelled.
- Middleware.Dispatcher.Dispatch: the trace and the result are those of middlewares that await `next` when they call it; other schedules of `next` are covered by `MiddlewareLaws.AnySchedule` only. The shared context object is not modelled.
- Middleware.Dispatcher.RunAsync: a body that calls `next` and awaits it later, or never, is covered by `MiddlewareLaws.AnySchedule` only.
- Middleware.Dispatcher.RunSync: a synchronous body calls `next` as its last act or not at all; others are covered by `MiddlewareLaws.AnySchedule` only.
- SetData.Target.SetByPath: component data are values, and the cursor is the path walked so far; aliasing between two places of the data, prototypes and `__proto__` keys are not modelled.
- ComponentVm.Runtime.RunScript: scripts are arbitrary sequences of setData, push, registration and throw; the order of integer-like keys in `Object.keys`, direct writes to `this.data` and interruption by the time limit between two steps are not modelled.
- Digest.ParameterDigest: the text of a value is the compact JSON of serde_json and its UTF-8 bytes; nothing is said about collisions beyond those stated.
- Orchestrator.Orchestrator.CallApi: schema validation and the inference of the risk level are parameters.
- SignatureInput.ReadOfPrinted: digits outside ASCII, which Python's `int` accepts, are not modelled; base64 of the signature is a parameter.
- SignatureInput.IntRoundTrip: CPython from 3.11 on refuses to convert integers of more than 4300 digits from or to text; that limit is not modelled.
- ComponentVm.Runtime.NotifyHandlers: lower-casing is that of ASCII; no other character becomes a letter of the three names the host sends.
- Capability.IssuedIsAcceptedIff: the token text and its HMAC are a constructor with the claims; encoding and signature are foreign calls.
- HttpClient.Client.Send: the look-up of header fields and the expiry a token text carries are parameters; the allow-list of authorities is one answer.
- Ed25519 and JWT encoding, sockets and response parsing, routes and command lines, the skill loader's file checks, the storage and permission tables of the wx compatibility layer, manifest validation, the coffee order store and the keyword tables of risk inference are foreign calls, plumbing or finite tables.
