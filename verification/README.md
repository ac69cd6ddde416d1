# A verified model of the API firewall

This project models the parts of the API firewall that decide what happens to a request, and proves
what they promise for every input, every history and every interleaving:

- the **routing tree**: registration with node splitting, sorted child lists and binary search, and
  the backtracking lookup with its shared context of captured values;
- the **parameter decoder**: the serialization styles of path parameters, nested objects in the
  query, and the schema-directed rebuild of nested values;
- the **load balancer**: the round-robin choice, and the lock-free protocol of many callers;
- the **reload of specifications**: storages, the periodic updater, and routers and documents that
  are replaced as one generation;
- the **fan-out** of one request over many specifications;
- the **websocket relay** of the GraphQL handler;
- the expansion of **subnets** and the text form of **endpoint lists**.

## How it is built

The routing tree is described twice. `RouteTree` gives it as a value, with `Insert` and `Find` as
functions. `Patterns` and `PatternText` say how patterns are read and what they take from a path.
`RouteTable` and `RouteRegister` read the routes off such a value and say what a
registration does to them. A route can be matched in several *ways*, since the last regular
expression or parameter of a child list is tried once more with an empty value: `RouteWays` lists the
ways of a tree, `RouteSiblings` and `RouteChoice` say which there are and in which order they are
tried. `Routing`, `Lookups`, `Isolation` and `RegistrationOrder` are about whole histories of
registrations, and `RouteExamples` holds inputs for which properties fail.

`RouterNodes`, `RouterInsert` and `Router` give the tree as the program keeps it: node objects whose
fields and child lists change in place, walked by loops. Every node carries as ghost state the value
it stands for, and each method is proved to do to the objects what the function does to the value.
`Mux` joins the two: the tree in memory always stands for the value that the history of registrations
builds.

`NestedMaps` and `NestedDicts` do the same for the nested maps that `deepSet` fills: as values, and as
maps on the heap that hold each other by reference. `ParamObjects`, `ParamFlat`, `ParamShapes`,
`ParamOrders` and `ParamBuild` hold the rebuild under a schema, `ParamPaths` what it gives for every
nested map, path by path, `ParamStyles`, `ParamBrackets` and `ParamQuery` the styles. The styles are read
back from what `TemplateExpansion` writes, which follows sections 3.2.2, 3.2.5 and 3.2.7 of RFC 6570
and knows nothing of the decoders.

Protocols with several goroutines (`LoadBalancerRuns`, `FanOut`, `WsRelay`, `SpecUpdater`) are state
machines with one step for each atomic access, lock-protected section, read or write; their theorems
hold over every run.

Regular expressions, the parsing of documents, the validation of GraphQL queries, upper-casing, the
printing of addresses and random permutations are parameters: the theorems hold whatever they do.

Functions that a method is proved against are in turn tied to definitions that compute nothing:
the closing brace by the number of braces in front of it (`PatternText.ReadIff`), the value of a
wildcard by where it ends (`Patterns.TakeIff`), the bracketed keys by the positions of the brackets
(`ParamBrackets.BracketsReadAs`), a storage by the rows of its table (`SpecStorage.SQLLite.Load`), and
so on.

Some properties hold only under a condition. Each has an input for which it fails, or a lemma for the
whole failing side, and the condition under which it holds, in both directions:

- isolation of registrations fails with adjacent wildcards (`AdjacentNotIsolated`) and with regular
  expressions (`RegexpNotIsolated`); `IsolatedIff` says exactly when a lookup stays as it was, and
  `AllowedAfter` that a way of matching is lost exactly where the new registration puts a node last in
  a regexp or parameter list;
- independence of the order of registrations fails for two parameters that end at different bytes
  (`OrderDecides`), for two registrations of one route (`LastDecides`) and for two regular expressions
  (`RegexpOrderDecides`); without the latter `OrderIff` gives the condition;
- the rebuild of objects fails for declared members that do not suit the schema for additional
  properties, which is applied to them as well (`DeclaredIsRefused`, `AdditionalTextRefuses`), and for
  properties without a name (`NamelessMember`); `ObjectRoundTrip`, `ShapedRoundTrip` and `NamelessIff`
  give the conditions;
- objects in a query are misread for names with a bracket and keys with a closing bracket or a line
  break (`BracketInName`, `BracketInKey`, `BreakInKey`); `DeepObjectRoundTrip` gives the condition;
- the decoders of objects can crash where a text and an object are given under one key
  (`TextAndObjectCrash`); `CrashIff`, `PathCrashIff` and `QueryCrashIff` give the condition;
- `deepSet` panics for key paths of which one is a prefix of another (`NestedMaps.NeverPanicsIff`);
- the load balancer panics for tickets near and beyond 2^63 (`LoadBalancing.NeverPanicsIff`);
- the updater does not come to rest with rows that cannot be marked (`QuiescentIff`);
- a message is forwarded twice when its validation breaks in log-only mode (`PlanDoubles`).

Three remarks on the source. The comment on `tailSort` speaks of nodes being pushed to the end; the
code moves one node, the last one with tail `/`, and the model follows the code. A deep object whose
schema declares no properties is decoded but reported as not given, which `DeepObjectRoundTrip`
states. And a request against several ids is not served by one generation: each goroutine reads the
routers for itself (pkg/APIMode/apifw.go:239), so a reload can come between them. What holds is that
routers and documents are of one generation between operations, and that each single lookup is
answered from one of them.

## Model

| member | source | states |
|---|---|---|
| `Patterns.PatNextSegment` | internal/platform/router/tree.go:759-827 | the scanning loops cut a pattern where the specification `NextSegment` does, with the same errors for a misplaced `*` and a missing brace; `PatternText.SegmentIs` and `PatternText.SegmentErrors` say where and which |
| `PatternText.ClosesFirst` | internal/platform/router/tree.go:780-793 | a brace is closed at the first position behind it where as many braces are closed as opened, counted over the text, and is missing its end exactly if there is none |
| `PatternText.SegmentErrors` | internal/platform/router/tree.go:759-827 | which patterns are refused at their next wildcard, and with which of the three errors |
| `PatternText.SegmentIs` | internal/platform/router/tree.go:775-819 | a wildcard in braces ends at that position; its name is the text up to the first colon, its expression the rest, anchored, and its tail the byte behind it |
| `PatternText.ParamTokens` | internal/platform/router/tree.go:795-800 | `{key}` is a parameter for every key with balanced braces and no colon |
| `PatternText.RexTokens` | internal/platform/router/tree.go:802-817 | `{key:expression}` is a regular expression node for every expression with balanced braces |
| `PatternText.AnchoredIs` | internal/platform/router/tree.go:809-816 | an expression that is not empty gets the anchors it lacks, and nothing else |
| `PatternText.ReadIff` | internal/platform/router/tree.go:759-848 | a pattern stands for tokens and names exactly when it is written as literal bytes, wildcards in balanced braces and at most one `*` at its end that mean these; it is refused exactly when it cannot be written so |
| `Patterns.TakeIff` | internal/platform/router/tree.go:506-525 | a wildcard takes a value exactly when the value ends at the first byte equal to its tail, or with the text where the tail is a slash that does not occur; the value of a parameter has no slash in it, that of an expression is not empty and matches it |
| `Patterns.PatParamKeys` | internal/platform/router/tree.go:829-848 | succeeds exactly for a pattern that can be cut to its end and whose names are pairwise distinct, and returns those names in order |
| `Patterns.MatchIffFits` | internal/platform/router/tree.go:495-557 | without regular expressions and adjacent wildcards, cutting a path from left to right finds values exactly when some values fit at all, and they are the only ones that fit |
| `Patterns.FillIsFillTokens` | internal/platform/router/tree.go:759-827 | writing values into the text of a pattern is the same as writing them into what the tree keeps of it |
| `RouteWays.FindIsScan` | internal/platform/router/tree.go:469-614 | in every well-formed tree, with regular expressions and adjacent wildcards, the backtracking search returns exactly what a linear scan over the ways of matching its routes returns, endpoint and captured values |
| `RouteRegister.InsertOutcome` | internal/platform/router/tree.go:144-353 | a registration keeps the representation invariant, succeeds exactly for a readable pattern with distinct names, and in the list of routes changes or adds the one route with the pattern's tokens, also where nodes are split; an unreadable pattern leaves the list unchanged |
| `RouteSiblings.InsertSib` | internal/platform/router/tree.go:144-353 | a registration puts the token of its pattern into the regexp or parameter list behind each of its prefixes where it is new, at the end, but in front of a last node with tail `/` unless it has that tail itself, and changes no other list, also where nodes are split |
| `RouteFacts.WayCaptures` | internal/platform/router/tree.go:469-614 | whatever way of a route matches a text, the values it captures written into the route give the text; a parameter's value has no slash and not the byte behind it, a regular expression's value matches it or is empty |
| `RouteFacts.WayFitsIff` | internal/platform/router/tree.go:469-614 | a way of a route matches a text with these values exactly when the values fit the text from left to right, by the same declared conditions for literals, parameters, expressions, the catch-all and the empty retry |
| `RouteChoice.WaysOrdered` | internal/platform/router/tree.go:469-614 | the search tries the ways of a tree strictly in one order: where two part, literal text by its bytes, then regular expressions by their place in the list, then their retry with an empty value, then parameters and their retry in the same manner, then the catch-all |
| `RouteChoice.WayIffRoute` | internal/platform/router/tree.go:501-602 | the ways of a tree are exactly those of its routes in which only the last node of a regexp or parameter list stands for an empty value |
| `RouteFacts.PlainInstead` | internal/platform/router/tree.go:556-602 | without regular expressions and adjacent wildcards the retry with an empty value is redundant: whatever matches with it matches without, and captures the same |
| `Routing.RegisterAccepts` | internal/platform/router/mux.go:97-104 | a registration succeeds exactly when the pattern begins with a slash, is readable, compiles and has distinct names, whatever was registered before; the tree stays well-formed either way |
| `Routing.BuildRepresents` | internal/platform/router/tree.go:144-415 | after every history, accepted or refused, the tree is well-formed and holds, for each pattern shape and method, exactly the endpoint of the latest accepted registration, and no shape twice |
| `Lookups.BuildSiblings` | internal/platform/router/tree.go:144-353 | after every history the regexp and parameter lists of the tree are the tokens of the readable patterns in order of first registration, except that a last node with tail `/` gives way only to another with that tail |
| `Lookups.LookupDecided` | internal/platform/router/tree.go:417-614 | after every history of patterns of any kind a lookup finds nothing exactly if no way of a pattern in force matches, and else answers with the endpoint in force and the values of the one such way that is tried first |
| `Lookups.LookupFits` | internal/platform/router/tree.go:417-614 | the same said of the path itself, for patterns of any kind: the answer is in force and the path fits one of its ways with the captured values, every other way it fits is tried later, and nothing is found exactly if it fits none |
| `Lookups.LookupIffFits` | internal/platform/router/tree.go:417-440 | with real handlers a lookup succeeds exactly when the path fits a way of the pattern of some accepted registration for the method, with regular expressions and adjacent wildcards |
| `Lookups.AnswerUnique` | internal/platform/router/tree.go:469-614 | at most one way is tried before all others, so the history determines the answer |
| `Isolation.IsolatedIff` | internal/platform/router/tree.go:144-256 | after every history of patterns of any kind one more registration leaves a lookup as it was, endpoint and captures, exactly when no way of the new pattern matches where nothing was found, or else the answering way is still allowed, is tried before every matching way of the new pattern, and keeps its endpoint |
| `Isolation.AllowedAfter` | internal/platform/router/tree.go:878-892 | a way loses one of its empty values exactly when the registration, accepted or refused, puts a new node last in that regexp or parameter list |
| `Isolation.ChangedOnlyIf` | internal/platform/router/tree.go:144-256 | so a lookup changes only if the registration sets the answering route anew, or a way of the new pattern matches, or a node that took part in the answer with an empty value is displaced from the last place |
| `RegistrationOrder.OrderIff` | internal/platform/router/tree.go:883-892 | for patterns without regular expressions and adjacent wildcards a lookup gives the same answer for every order of the registrations exactly when every one of them that sets the answering route sets the same endpoint and every other one that fits is tried later in whatever order; a lookup that finds nothing does so in every order exactly when none fits |
| `RegistrationOrder.OrderIffNoTie` | internal/platform/router/tree.go:883-892 | with no route registered twice for one method that is so exactly when no other fitting pattern in force parts from the answer at two parameters neither of which ends at a slash |
| `Lookups.LookupIsBestMatch` | internal/platform/router/tree.go:469-614 | after every history of patterns without regular expressions and adjacent wildcards a lookup succeeds exactly when some pattern in force fits; the answer is the endpoint in force for a fitting pattern with the values that fit, and every other fitting pattern is tried later, which determines the answer |
| `Lookups.LookupIffRegistered` | internal/platform/router/tree.go:417-440 | for such patterns and real handlers a lookup succeeds exactly when the pattern of some accepted registration for the method fits the path |
| `Isolation.HistoryIsolated` | internal/platform/router/tree.go:144-256 | for such patterns one more registration changes no lookup, unless it is accepted, for that method, and its pattern fits that path; so a refused one changes none |
| `Lookups.LiteralWins` | internal/platform/router/tree.go:469-493 | after every history of patterns of any kind, a literal pattern equal to the path wins, as the Paths Object (section 4.7.8 of OpenAPI 3.0.3) requires |
| `Lookups.SubstitutionRoundTrip` | internal/platform/router/tree.go:417-440 | after every history of patterns of any kind, the captured values written into the matched pattern give the path; there is one value for each name, the names are distinct, and the endpoint comes from an accepted registration for the method |
| `RouteExamples.AdjacentNotIsolated` | internal/platform/router/tree.go:556-602 | with adjacent wildcards isolation fails: `/xy/z` is found under `/{a}{b}/z` until `/{c}`, which does not fit it, is registered |
| `RouteExamples.RegexpNotIsolated` | internal/platform/router/tree.go:556-602 | with regular expressions isolation fails: `//x` is found under `/{p:a}/x` with an empty value that the expression never saw, and no more once `/{q:b}/y` is registered |
| `RouteExamples.OrderDecides` | internal/platform/router/tree.go:883-892 | `/p-q.r` fits both `/{a}.{b}` and `/{a}-{b}`, and whichever was registered first answers |
| `RouteExamples.LastDecides` | internal/platform/router/tree.go:380-415 | `/{a}` and `/{b}` are one route, and whichever was registered last answers |
| `RouteExamples.RegexpOrderDecides` | internal/platform/router/tree.go:501-561 | of `/{p:a}/x` and `/{q:b}/x` the one registered first answers a path whose value both expressions match |
| `RouteExamples.BracesInExpression` | internal/platform/router/tree.go:780-817 | `/articles/{rid:^[0-9]{5,6}}`: the inner braces belong to the expression, and the path `/articles/12345` is found with the value `12345` by any engine that matches it |
| `RouterLookup.FindEdge` | internal/platform/router/tree.go:894-912 | the binary search returns the child that a scan by label would, or nothing |
| `RouterLookup.TakeParam` | internal/platform/router/tree.go:506-525 | how much text a parameter or regular expression node takes, or that it is passed over: the values that can be taken by the declared conditions are exactly this one |
| `RouterLookup.TryParams` | internal/platform/router/tree.go:501-561 | the loop over parameter nodes, and that the context is as before where none of them leads to an endpoint |
| `RouterLookup.FindRoute` | internal/platform/router/tree.go:469-614 | terminates by the height of the subtree; answers what `Find` answers for the value of the node, and records keys and values behind what was there, or leaves the context exactly as it was |
| `RouterLookup.RouteContext.URLParam` | internal/platform/router/context.go:100-107 | the backwards loop returns the value at the last position with the name, or the empty string where the name does not occur |
| `RouterLookup.RouteContext.AllURLParams` | internal/platform/router/context.go:18-28 | the loop builds the map of exactly the recorded names, each with the value at its last position |
| `RouterLookup.ParamsAgree` | internal/platform/router/context.go:18-28 | `URLParam` and `AllURLParams` agree on every name |
| `RouterInsert.CommonPrefix` | internal/platform/router/tree.go:852-864 | the loop finds the longest common prefix |
| `RouterInsert.GetEdgeNode` | internal/platform/router/tree.go:367-378 | the loop finds the first child with the label, tail and expression |
| `RouterInsert.PutEndpoint` | internal/platform/router/tree.go:380-415 | sets the endpoint of one method and keeps the others; refused names leave the endpoints of all methods as they were |
| `RouterInsert.SortNodes` | internal/platform/router/tree.go:878-881 | sorts a child list by label, stably |
| `RouterInsert.TailSortNodes` | internal/platform/router/tree.go:883-892 | swaps the last node with tail `/` to the end |
| `RouterInsert.ReplaceChild` | internal/platform/router/tree.go:355-365 | replaces one static child in its place and no other |
| `RouterInsert.BuildChain` | internal/platform/router/tree.go:262-353 | the nodes made for a text stand for the chain the specification builds, and an error is reported exactly where it is there |
| `RouterWalk.Walk` | internal/platform/router/tree.go:144-214 | the loop descends to the node where the tree has to change; registering at the root means registering the rest of the text there |
| `RouterWalk.DivideNode` | internal/platform/router/tree.go:216-254 | a static node is split in place: the lower half keeps its children, the upper half takes its place, and the registration goes on there |
| `RouterWalk.InsertRoute` | internal/platform/router/tree.go:144-256 | in place, on linked nodes: afterwards the nodes consistently stand for the tree that `Insert` builds, accepted or refused, and new nodes are the only additions |
| `MuxRouter.NumberedBits` | internal/platform/router/tree.go:19-45 | the methods known from the start have distinct bits, numbered from one |
| `MuxRouter.NumberedAt` | internal/platform/router/tree.go:19-45 | the one at position i has the bit i + 1 |
| `MuxRouter.MethodTable.RegisterMethod` | internal/platform/router/tree.go:49-66 | a new method takes the bit behind those in use, within the machine word, known ones keep theirs, and it is refused exactly when no bit is left |
| `MuxRouter.Mux.Handle` | internal/platform/router/mux.go:97-104 | after every call the tree in memory stands for the tree of the history with this registration; an error exactly where the registration is not acceptable |
| `MuxRouter.Mux.AddEndpoint` | internal/platform/router/mux.go:27-38 | an unknown method changes nothing; a known one extends the history |
| `MuxRouter.Mux.FindRouteHandler` | internal/platform/router/tree.go:417-440 | the answer and the context are those of the lookup in the tree of the history: names and values are appended, the pattern recorded; nothing found leaves the request's parameters alone |
| `MuxRouter.Mux.Find` | internal/platform/router/mux.go:62-76 | the same by method name; an unknown name finds nothing and leaves the context alone |
| `MuxRouter.LookupParams` | internal/platform/router/tree.go:417-440 | after a successful lookup each captured value is read back under its name, through both accessors, and the values written into the pattern give the path |
| `NestedMaps.SetAllAnyOrder` | internal/platform/validator/req_resp_decoder.go:896-906 | prefix-free key paths are set without a panic in any order, and every order gives the same nested map |
| `NestedMaps.SetThenGet` | internal/platform/validator/req_resp_decoder.go:883-906 | after all of them are set, each stored value is found at its own path |
| `NestedMaps.NeverPanicsIff` | internal/platform/validator/req_resp_decoder.go:896-906 | no order of a set of key paths panics exactly when none is a proper prefix of another |
| `NestedMaps.BlockedIff` | internal/platform/validator/req_resp_decoder.go:896-906 | one key path panics exactly when a text stands at a proper part of it |
| `NestedMaps.SetExact` | internal/platform/validator/req_resp_decoder.go:896-906 | else it puts one text at the path, drops what lay below it, and keeps every other text |
| `NestedMaps.GetIs` | internal/platform/validator/req_resp_decoder.go:883-894 | what is found at a path: the text there or at the first part of it that is a text, else the map with the texts below, else nothing, and then there is no text below |
| `NestedDicts.GetDeep` | internal/platform/validator/req_resp_decoder.go:883-894 | the loop over maps on the heap finds what the nested value has at the path, stopping early at a text |
| `NestedDicts.SetDeep` | internal/platform/validator/req_resp_decoder.go:896-906 | the loop changes maps in place so that the nested value gains exactly this path; it panics exactly where a text is in the way, and then nothing has changed |
| `ParamObjects.AtoiItoa` | internal/platform/validator/req_resp_decoder.go:933-960 | an array index is read back from its text, within the range of `int` |
| `ParamObjects.AtoiIff` | internal/platform/validator/req_resp_decoder.go:937-941 | a text is an index exactly when it is digits behind an optional sign that write a number in the range of `int` |
| `ParamObjects.Rebuilds` | internal/platform/validator/req_resp_decoder.go:962-1049 | wherever the nested map of a value lies, the rebuild under any schema returns exactly the values that fit the schema, reports an error exactly for those it does not accept, and never ignores a value |
| `ParamFlat.PairsAreLeaves` | internal/platform/validator/req_resp_decoder.go:908-919 | the texts of a value with their key paths are exactly the leaves of its nested map |
| `ParamFlat.ObjectRoundTrip` | internal/platform/validator/req_resp_decoder.go:908-1049 | an object of any depth, of objects and arrays without empty parts and with non-empty texts, flattened to joined key paths, is rebuilt identically under an object schema exactly when it fits the schema, and is refused exactly when the schema does not accept it |
| `ParamFlat.NamelessTextRefused` | internal/platform/validator/req_resp_decoder.go:962-966 | a schema with a text property without a name refuses every object |
| `ParamFlat.NamelessMember` | internal/platform/validator/req_resp_decoder.go:962-966 | a property without a name, of any schema, is built from the whole object: every object is refused or gains a nameless member |
| `ParamFlat.NamelessIff` | internal/platform/validator/req_resp_decoder.go:962-1024 | an object whose members fit the schema is rebuilt identically exactly when the schema has no property without a name |
| `ParamShapes.ShapedRoundTrip` | internal/platform/validator/req_resp_decoder.go:989-1024 | an object whose declared members have the shape of their own schemas and all others that of the schema for additional properties is rebuilt identically exactly when, at every depth, no property is nameless and each declared member next to such a schema fits it too and is accepted by its own |
| `ParamShapes.SeparateUndisturbed` | internal/platform/validator/req_resp_decoder.go:989-1024 | that is so for every value of the shape, if the schema nowhere has a nameless property or declared properties next to a schema for additional ones |
| `ParamShapes.MixedRoundTrip` | internal/platform/validator/req_resp_decoder.go:1012-1021 | with such schemas inside, an object schema with declared and additional properties returns an object of its shape exactly when no property is nameless and every declared member fits the schema for additional properties |
| `ParamShapes.AdditionalTextRefuses` | internal/platform/validator/req_resp_decoder.go:1012-1021 | additional properties that are texts refuse every object with an array or object among its members, declared or not |
| `ParamShapes.DeclaredIsRefused` | internal/platform/validator/req_resp_decoder.go:1012-1021 | such an input: an object with a declared array of texts, of the shape of its schema, is refused |
| `ParamBuild.SliceMapToSlice` | internal/platform/validator/req_resp_decoder.go:933-960 | the entries by index up to the largest one, with gaps; an error exactly where a key is no integer |
| `ParamBuild.BuildResObj` | internal/platform/validator/req_resp_decoder.go:962-1049 | the recursion over the schema, with loops in any order over maps, gives the value the specification gives; `ParamPaths.RebuiltAsExpected` says which that is |
| `ParamPaths.RebuiltAsExpected` | internal/platform/validator/req_resp_decoder.go:962-1049 | for every nested map, key path and schema, empty texts included: an error exactly if some path leads to a map where a text is asked for, a text where an array is, or a key of an array that is no integer; else every path of the result holds what its schema and the nested map call for: a non-empty text where it has that text, nil for an array item without one, no member without one |
| `ParamPaths.ObjectPaths` | internal/platform/validator/req_resp_decoder.go:908-1049 | the same for the object made from properties, which is also refused if a value contains the internal delimiter |
| `ParamPaths.EmptyTextLeftOut` | internal/platform/validator/req_resp_decoder.go:1126-1129 | of the properties `a` and `b` with an empty and a non-empty text only the second becomes a member |
| `ParamBuild.MakeObject` | internal/platform/validator/req_resp_decoder.go:908-930 | whatever order the properties are taken in, the outcome is that of the specification for some order, and it is the same for all orders where the properties fit into one nested map |
| `ParamBuild.TellsIff` | internal/platform/validator/req_resp_decoder.go:908-919 | properties fit into one nested map exactly when no key path is a proper prefix of another |
| `ParamOrders.CrashIff` | internal/platform/validator/req_resp_decoder.go:896-919 | some order of the properties panics exactly when two of them, with values free of the internal delimiter, have key paths of which one is a proper prefix of the other |
| `ParamOrders.MakesIs` | internal/platform/validator/req_resp_decoder.go:908-930 | properties that fit into one nested map come to the same object in every order |
| `ParamOrders.MadeFromProps` | internal/platform/validator/req_resp_decoder.go:908-1049 | in whatever order, with or without clashes, every text of the rebuilt object was given under its own key path |
| `ParamStyles.PrimitiveRoundTrip` | internal/platform/validator/req_resp_decoder.go:364-392 | in every style the expansion of a text (sections 3.2.2, 3.2.5 and 3.2.7 of RFC 6570) comes back exactly when the text is not empty |
| `ParamStyles.PrimitiveIs` | internal/platform/validator/req_resp_decoder.go:364-392 | what any raw text comes to: an unknown style, nothing given, a text without what the style puts in front, or what is behind it |
| `ParamStyles.ParseArray` | internal/platform/validator/req_resp_decoder.go:1102-1121 | the loop stops at an item that is not a primitive, and one empty item makes the array nil |
| `ParamStyles.DecodeArray` | internal/platform/validator/req_resp_decoder.go:394-430 | decodes as the specification of prefix, delimiter and items says; `ParamStyles.ArrayIff` says what comes out without them |
| `ParamStyles.ArrayRoundTrip` | internal/platform/validator/req_resp_decoder.go:394-430 | in the simple, label and matrix styles, exploded or not, the expansion of a non-empty list comes back exactly when no item is empty and the items can be told apart in it |
| `ParamStyles.ArrayIff` | internal/platform/validator/req_resp_decoder.go:394-430 | a non-empty list comes out exactly when its expansion went in, no item is empty and the items can be told apart in it |
| `ParamStyles.NestedItemsRefused` | internal/platform/validator/req_resp_decoder.go:1102-1121 | items that are arrays or objects are refused, unless the first one is empty |
| `ParamStyles.ArrayOfFreeItems` | internal/platform/validator/req_resp_decoder.go:394-430 | so every list of non-empty items comes back that are free of the comma or, exploded, of the full stop of the label style or the semicolon of the matrix style |
| `ParamStyles.PropsFromString` | internal/platform/validator/req_resp_decoder.go:845-881 | the loops read the property list of either format into a map, and refuse an odd number of parts or a part that is not a pair |
| `ParamStyles.PropertiesRoundTrip` | internal/platform/validator/req_resp_decoder.go:845-881 | a property list comes back exactly when no name or value contains a delimiter |
| `ParamStyles.PropertyListIff` | internal/platform/validator/req_resp_decoder.go:845-881 | a list of properties comes out exactly when it was written so, and no name or value contains a delimiter |
| `ParamStyles.PropertiesReadIff` | internal/platform/validator/req_resp_decoder.go:432-480 | in every style properties are read exactly when their expansion went in and they can be told apart in it; in the exploded matrix style for values that are not empty |
| `ParamStyles.MapOfDistinct` | internal/platform/validator/req_resp_decoder.go:861-863 | pairs with distinct names are all in the map |
| `ParamStyles.MapOfLast` | internal/platform/validator/req_resp_decoder.go:861-863 | of several pairs with one name the last one counts |
| `ParamStyles.DecodeObject` | internal/platform/validator/req_resp_decoder.go:432-480 | decodes as the specification of prefix, delimiters and properties says, for some order of the properties |
| `ParamStyles.ObjectStyleRoundTrip` | internal/platform/validator/req_resp_decoder.go:432-480 | in the same styles the expansion of a property list whose parts can be told apart comes back as the object with these members exactly when that object fits the schema |
| `ParamStyles.PathCrashIff` | internal/platform/validator/req_resp_decoder.go:432-480 | the decoder of path objects can crash exactly when two names it reads clash once they are split at the internal delimiter |
| `ParamStyles.PathNeverCrashes` | internal/platform/validator/req_resp_decoder.go:432-480 | so it never crashes for names free of that delimiter |
| `ParamQuery.DeepProps` | internal/platform/validator/req_resp_decoder.go:655-681 | every query key that addresses the parameter gives one property under its joined key path, and no other key does |
| `ParamQuery.DecodeDeepObject` | internal/platform/validator/req_resp_decoder.go:632-719 | decodes an object of the deep object style as some order of the properties says, and says whether it counts as given |
| `ParamQuery.DeepHasIff` | internal/platform/validator/req_resp_decoder.go:707-714 | something is found under a key path exactly when all its names lead through objects to a value, or the first few of them to one that is not an object |
| `ParamQuery.DeepObjectRoundTrip` | internal/platform/validator/req_resp_decoder.go:632-719 | an object of any depth written as `name[key][key]` comes back from a query that holds other parameters too exactly when it fits the schema, no bracket of the parameter's name is read as one, and no key contains a closing bracket or a line break; it then counts as given exactly when the schema declares a property |
| `ParamBrackets.BracketsIff` | internal/platform/validator/req_resp_decoder.go:664-674 | a key path is read back from a query key exactly when no bracket of the name is read as one and no key contains a closing bracket or a line break |
| `ParamBrackets.BracketsReadAs` | internal/platform/validator/req_resp_decoder.go:663-672 | for every query key: the texts read are those between the leftmost pairs of brackets that do not overlap, each closed by the nearest closing bracket with no line break between |
| `ParamBrackets.InertIff` | internal/platform/validator/req_resp_decoder.go:660-664 | for names without a line break the first means that there is no opening bracket in them |
| `ParamQuery.BracketInName` | internal/platform/validator/req_resp_decoder.go:660-674 | for the parameter `a[b]` the key `a[b][k]` gives an object without its member, which does not count as given |
| `ParamQuery.BracketInKey` | internal/platform/validator/req_resp_decoder.go:664-674 | a member named `x]y` is lost in the same way |
| `ParamQuery.BreakInKey` | internal/platform/validator/req_resp_decoder.go:664-668 | with a line break in a key the parameter is not found |
| `ParamQuery.QueryCrashIff` | internal/platform/validator/req_resp_decoder.go:632-719 | the decoder can crash exactly when two keys of the parameter, with one value each, have key paths of which one is a proper prefix of the other |
| `ParamQuery.TextAndObjectCrash` | internal/platform/validator/req_resp_decoder.go:896-906 | `p[a]=1&p[a][b]=2` can crash it |
| `LoadBalancing.UpperHalfPanics` | internal/platform/proxy/loadbalancer.go:78-80 | a round of a scan in the upper half of the range panics, except where its distance to the end of the range is a multiple of the number of backends |
| `LoadBalancing.NeverPanicsIff` | internal/platform/proxy/loadbalancer.go:77-88 | for n backends a ticket panics under no health flags exactly when ticket plus n is at most 2^63, or is one more and n divides 2^63 |
| `LoadBalancing.DownPanicsIff` | internal/platform/proxy/loadbalancer.go:77-88 | with every backend unhealthy a ticket panics exactly outside that range |
| `LoadBalancing.FlagsPanicIff` | internal/platform/proxy/loadbalancer.go:77-88 | for given health flags a ticket panics exactly when the index of some round is out of range and all rounds before it saw an unhealthy backend |
| `LoadBalancing.HealthyShare` | internal/platform/proxy/loadbalancer.go:77-84 | with fixed flags, over any n consecutive tickets in that range a healthy backend is selected once, and once more for each unhealthy backend immediately before it |
| `LoadBalancing.UnhealthyShare` | internal/platform/proxy/loadbalancer.go:77-84 | in that range an unhealthy backend is never selected while another one is healthy |
| `LoadBalancing.FallbackShare` | internal/platform/proxy/loadbalancer.go:86-88 | when all are unhealthy each backend is still selected for one of n consecutive tickets in that range |
| `LoadBalancing.EqualShares` | internal/platform/proxy/loadbalancer.go:77-84 | when all are healthy each backend is selected for one of n consecutive tickets in that range |
| `LoadBalancing.LoadBalancer.Next` | internal/platform/proxy/loadbalancer.go:66-89 | takes one ticket and returns what the scan from its position selects, or panics where an index is out of range: never for a ticket in that range, and exactly outside of it when all backends are unhealthy; no ticket is taken for fewer than two backends |
| `LoadBalancing.SelectedIsChosen` | internal/platform/proxy/loadbalancer.go:77-88 | in that range the scan selects the first healthy backend from the position on, or the one at the position |
| `LoadBalancing.SlotIs` | internal/platform/proxy/loadbalancer.go:78-80 | which index each round looks at, for every ticket, through the conversion to a signed number and its overflow: in range in the lower half and behind the end of the range, and only for multiples of n in the upper half |
| `LoadBalancing.SelectedIff` | internal/platform/proxy/loadbalancer.go:77-88 | what the scan selects for every ticket and all flags, in that range or not: the backend of the first round that sees a healthy one, or that of the first round if none does |
| `LoadBalancing.LoadBalancer.GetHealthyCount` | internal/platform/proxy/loadbalancer.go:91-99 | counts the healthy backends: the size of the set of positions whose flag is set |
| `LoadBalancing.LoadBalancer.SetHealthy` | internal/platform/proxy/loadbalancer.go:112-116 | changes one flag and ignores an index out of range |
| `LoadBalancing.LoadBalancer.CheckAll` | internal/platform/proxy/loadbalancer.go:136-154 | every flag is what probing its backend gave |
| `LoadBalancing.LoadBalancer.Stop` | internal/platform/proxy/loadbalancer.go:166-172 | the stop channel is closed once, however often this is called |
| `LoadBalancerRuns.TicketsInRuns` | internal/platform/proxy/loadbalancer.go:78-78 | over every run of concurrent callers and health updates the tickets are distinct and contiguous |
| `LoadBalancerRuns.CallsJustified` | internal/platform/proxy/loadbalancer.go:66-89 | over every run each call with a ticket in that range returns the first backend in ring order that was healthy when the call looked at it, all earlier ones having been unhealthy when it looked, or the one at its ticket's position only if it saw every backend unhealthy; it never panics |
| `LoadBalancerRuns.FallbackSawAll` | internal/platform/proxy/loadbalancer.go:78-88 | a call that falls back looked at every backend, each in a round of its own, and saw it unhealthy |
| `SpecStorage.EntriesMarked` | internal/platform/storage/dbv2.go:237-251 | reading the table after rows were marked gives the marked entries |
| `SpecStorage.SQLLite.Load` | internal/platform/storage/dbv2.go:62-128 | an id is kept exactly when the document in the last row with that id can be parsed; its entry then has the version, the content and, in the layout with a status, the status of that row, and its document is what parsing gave; reports an error exactly when one could not be parsed; a failed read changes nothing |
| `SpecStorage.SQLLite.AfterLoad` | internal/platform/storage/dbv2.go:207-254 | marks exactly the new rows, in the table and in the storage, or neither where the statement fails |
| `SpecStorage.SQLLite.SchemaIDs` | internal/platform/storage/dbv2.go:182-194 | the ids in strictly ascending order |
| `SpecStorage.SQLLite.ShouldUpdate` | internal/platform/storage/dbv2.go:256-284 | true exactly when the maps from ids to versions differ or, for storages with status, a newly read row is new |
| `SpecStorage.SQLLite.SchemaVersions` | internal/platform/storage/dbv1.go:36-43 | the version of every id |
| `SpecUpdater.QuiescentIff` | cmd/api-firewall/internal/handlers/api/updater.go:76-121 | after a tick that replaced the storage, a tick over the unchanged database does nothing exactly when no new row was read or the rows could be marked |
| `SpecUpdater.StaysQuiet` | cmd/api-firewall/internal/handlers/api/updater.go:76-121 | then no number of further ticks changes storage or database |
| `SpecUpdater.ReloadSafe` | cmd/api-firewall/internal/handlers/api/updater.go:86-90 | over every run of ticks and outside changes of the database the storage's version never decreases, and its documents are those of its entries |
| `SpecUpdater.LayoutRead` | internal/platform/storage/storage.go:42-58 | which layout a read gives: by default the one with a status wherever it can be read completely, else the other; what it gives is what the last rows of that table say |
| `SpecUpdater.SwapsIff` | cmd/api-firewall/internal/handlers/api/updater.go:76-121 | a tick replaces the storage exactly when one was read that is not of an older layout and has other ids or versions than the one in use or, where that one has a status, a new row |
| `SpecUpdater.TickIs` | cmd/api-firewall/internal/handlers/api/updater.go:76-121 | what such a tick leaves behind: the documents that were read, with exactly the new rows marked as applied in storage and table, if the statement works |
| `SpecUpdater.LoadOpenAPIDB` | internal/platform/storage/storage.go:42-58 | which layout is read for which configured version, by default the newer one first |
| `SpecUpdater.Specification.OnTick` | cmd/api-firewall/internal/handlers/api/updater.go:76-117 | one turn of the loop does to the objects what the specification does to their values; updater, request handler and health report always use the same storage |
| `ApiFirewall.BuildRouter` | pkg/APIMode/helpers.go:63-86 | a router is built exactly when every operation has a known method and an acceptable pattern, and its history is exactly these operations |
| `ApiFirewall.GetRouters` | pkg/APIMode/helpers.go:31-90 | succeeds exactly when a router can be built for every id; then there is one for each id of the storage, built from the document of its id |
| `ApiFirewall.OpenAndMark` | internal/platform/storage/dbv2.go:38-60 | what a read with marking gives and what becomes of the table: rows that could be parsed are marked even where others could not, and then the read fails |
| `ApiFirewall.MarkingIs` | internal/platform/storage/dbv2.go:38-60 | said of the rows: exactly the new ones that can be parsed are marked, if the statement works; the read succeeds exactly if all can be parsed and none was left to mark, and gives what the table then says |
| `ApiFirewall.NewLayoutRead` | internal/platform/storage/storage.go:32-58 | which layout is read with marking, also where rows are marked in one that is then given up for the other |
| `ApiFirewall.NewIsSettled` | internal/platform/storage/storage.go:32-34 | whatever is read with marking has a document for each entry and no new row left |
| `ApiFirewall.Start` | pkg/APIMode/apifw.go:146-165 | succeeds exactly when a storage is read and a router can be built for each of its ids; then the storage is what was read, and routers and storage are of one generation |
| `ApiFirewall.APIFWModeAPI.UpdateSpecsStorage` | pkg/APIMode/apifw.go:169-204 | routers and storage are both replaced by ones of one generation, exactly when a storage was read that is not of an older layout, differs, and gives a router for every id; in every other case both are left alone, and which cases are errors |
| `ApiFirewall.APIFWModeAPI.FindHandler` | pkg/APIMode/validator/validator.go:149-161 | a request for an id is answered by a lookup among the operations of that id's document in the storage in use; an unknown id is reported |
| `FanOut.SampleSlice` | pkg/APIMode/validator/response.go:32-44 | at most the limit, each element at most as often as it is there; zero means all, a negative limit panics |
| `FanOut.ProcessRequest` | pkg/APIMode/validator/validator.go:26-146 | on every path, panics included, exactly one summary entry for the id comes back, with the status and errors of that path; with more errors than the limit there are exactly as many as it says |
| `FanOut.FanOutConserves` | pkg/APIMode/apifw.go:207-264 | for every list of ids and every interleaving the merged summary has one entry for each occurrence of an id, errors are the multiset union of what the single checks found, and an error is reported exactly if one of them reported one |
| `WsRelay.PlanDoubles` | cmd/api-firewall/internal/handlers/graphql/wsHandler.go:173-255 | a turn forwards a message twice exactly in log-only mode when the validation itself breaks |
| `WsRelay.OtherModesForward` | cmd/api-firewall/internal/handlers/graphql/wsHandler.go:95-255 | with validation off or logging only, once the loop has gone on from a message or has ended it has written that message to the backend, once or, where the validation itself broke, twice, and nothing else for it; only the last write can have failed, and it ended the loop |
| `WsRelay.BackendReceivesInOrder` | cmd/api-firewall/internal/handlers/graphql/wsHandler.go:72-258 | over every run the backend receives client messages in order, and none twice except in that case |
| `WsRelay.BackendReceivesValid` | cmd/api-firewall/internal/handlers/graphql/wsHandler.go:114-255 | in block mode every start or subscribe message that was forwarded passed validation, and no unreadable data was forwarded |
| `WsRelay.BlockedIsTold` | cmd/api-firewall/internal/handlers/graphql/wsHandler.go:182-242 | in block mode, once the loop has gone on from a blocked message or has ended it has attempted an error and then a completion with its id, and nothing else for it |
| `WsRelay.AllowedIsForwarded` | cmd/api-firewall/internal/handlers/graphql/wsHandler.go:95-255 | in block mode, once the loop has gone on from a message that is not blocked or has ended it has written it to the backend exactly once, or done nothing for unreadable data; only the last message read can be undelivered, by the failed write that ended the loop |
| `WsRelay.ChannelsCloseOnce` | cmd/api-firewall/internal/handlers/graphql/wsHandler.go:59-295 | each signal channel is closed at most once, and exactly once when its loop has ended; at most the last message of the backend is not passed on |
| `WsRelay.EndingSpreads` | cmd/api-firewall/internal/handlers/graphql/wsHandler.go:75-78 | once one loop has ended the other takes in at most the message it is already waiting for |
| `IpRanges.GetIPsFromCIDR` | internal/platform/allowiplist/allowiplist.go:28-48 | the loop ends at the end of the block or of the address space and lists successive addresses, none twice |
| `IpRanges.ListedExactly` | internal/platform/allowiplist/allowiplist.go:37-47 | exactly the addresses that agree with the prefix (section 3.1 of RFC 4632) are listed, each once and in order, without the first and last where there are more than two |
| `EndpointLists.EndpointList.Set` | internal/config/endpoints.go:22-62 | appends the endpoints up to the first invalid item, and says whether there is one |
| `EndpointLists.ListIs` | internal/config/endpoints.go:22-62 | the endpoints read are those of the items in front of the first one that says none, and all is well exactly when there is no such item |
| `EndpointLists.ItemIff` | internal/config/endpoints.go:29-58 | an item gives an endpoint exactly when it is three texts between two bars, the first split at its first colon if there is one, with path and modes what is left of theirs without spaces around, none of them empty |
| `EndpointLists.TrimIff` | internal/config/endpoints.go:46-49 | trimming cuts off the spaces at both ends, all of them, and nothing else |
| `EndpointLists.EndpointList.String` | internal/config/endpoints.go:65-72 | writes the list |
| `EndpointLists.WriteItemIs` | internal/config/endpoints.go:65-72 | an endpoint is written as method, colon, path, bar, request mode, bar, response mode |
| `EndpointLists.ParsedIsWritable` | internal/config/endpoints.go:29-58 | whatever is read from an item can be written and read back |
| `EndpointLists.ListRoundTrip` | internal/config/endpoints.go:22-72 | reading what was written gives the list exactly when all fields are free of delimiters, paths and modes are trimmed and not empty, and no method contains a colon; methods may be empty and are not trimmed, paths may contain colons |

## Left out

- Lookups.LookupIsBestMatch: for patterns without regular expressions and adjacent wildcards, where fitting values can be told without reference to the tree; `Lookups.LookupDecided` covers patterns of every kind.
- Lookups.LookupIffRegistered: for the same patterns.
- Isolation.HistoryIsolated: for the same patterns, since with others isolation fails; `Isolation.IsolatedIff` covers patterns of every kind.
- RegistrationOrder.OrderIff: for the same patterns; with regular expressions the order of their lists decides as well, and with adjacent wildcards which node is last.
- RegistrationOrder.OrderIffNoTie: for the same patterns.
- RouterInsert.SortNodes: the library sort is modelled as stable, which it is for up to twelve siblings; equal labels only occur among regular expressions and parameters.
- RouterWalk.InsertRoute: the loop that walks down and the change at its end are two methods.
- Bytes: a `char` stands for a byte of a pattern or path.
- Actions of endpoints, sub-routers, the listing of routes and the hints about allowed methods, which nothing reads: they would only add easy members.
- ParamObjects.Rebuilds: schemas of text, arrays and objects; numbers, booleans and combinations of schemas are not modelled, and an array is no longer than the largest `int`.
- ParamBuild.BuildResObj: which of several parse errors is reported is not told apart.
- ParamStyles.ArrayRoundTrip: the percent-encoding of an expansion (section 3.2.1 of RFC 6570) is undone before the decoders see it and is not modelled.
- Decoders of headers, cookies and form-style queries, which reuse the modelled parts.
- Probing of backends, timers and the health-check goroutine itself: its effect is a flag that is set at any time.
- SpecUpdater.Specification.OnTick: nobody writes to the database between its reads and its marking.
- ApiFirewall.GetRouters: server paths, path joining and the router loader are one function that may report an error.
- The variant of the fan-out that reads requests from a stream, metrics, logging and caches.
- The contents of websocket messages beyond what the relay looks at, and the closing handshake.
- IpRanges.GetIPsFromCIDR: the parsing of a prefix is a parameter.
