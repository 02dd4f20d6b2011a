# path-travel-agent route matching, modelled in Dafny

This project models the core of path-travel-agent, a Kotlin library. The library compiles URL-style routes into an immutable tree, deep-merges trees, and matches a request's path segments against a tree. A match selects one handler and gathers typed parameter values and a wildcard remainder.

The model covers:

- **The route tree and its merge** (`RouteTree`). Nodes are datatypes. Each node has an optional handler, literal children in a `map`, an optional parametric child and an optional wildcard child.
  - `Mergeable` and `Merged` specify the merge.
  - `MergeNodes` is the original's recursive merge. `MergedPathSegmentChildNodes` is its HashMap-copying loop. Both are proved to compute that specification.
- **Segment parsing** (`Segments`). `StringSegment` accepts any text. `NumberSegment` is a radix-10 32-bit `parseInt` over ASCII. `NumberSegmentRoundTrip` proves the parser inverts the decimal rendering of every 32-bit integer.
- **The match accumulator** (`MatchResults.RouteMatchResult`). It is a class with two maps and a list, updated in place. `MatchData` is its value at one moment.
- **The handler context** (`RouteMatches.RouteMatch`): the request plus read-only typed getters.
- **The matcher** (`Matcher`). `Walk` specifies the deterministic walk: literal child first, then the parametric child, then the wildcard child, with no backtracking. `MatchSpec` adds the final handler call. `Match` is the original's `while` loop over a mutable accumulator, proved equal to `MatchSpec`.
- **The three builders**:
  - `NodeBuilder.RouteTreeNodeBuilder` validates keys and has set-once slots.
  - `TreeBuilder.RouteTreeBuilder` normalises prefixes and is fluent.
  - `SingleRoute.SingleRouteBuilder` builds a reversed chain. `ChainFrom` specifies that chain, and `IsChain` is the shape it is proved to have.
- **URL path splitting** (`PathSegments`). `Split` follows Kotlin's `split(Char)`, which keeps empty parts, including trailing ones. `Parse` is `parse`, and `ExtractPath` is `extractPath`.
- **End-to-end examples** (`EndToEnd`). They cover the `/projects` tree, the `/files` wildcard tree, routes from the single-route builder under the matcher, and merged trees under the matcher.

Handlers are a type parameter `H`. Handler merge is a function value `hm: (H, H) -> H`, and handler call is a function value `call: (H, RouteMatch) -> R`. No law is assumed for either: not associativity and not commutativity. A request is its segment list, `seq<string>`.

Exceptions become values:
- A `Result`, or an `Outcome`, holds `IllegalArgument`, `IllegalState` or `NullPointer`.
- A builder call that throws leaves the builder unchanged.
- A `null` "no match" becomes `None`.

Three behaviours of the code are easy to miss:

- **Wildcard with no segments left.** A wildcard child takes every remaining segment (`DefaultRouteMatcher.kt:35-43`), but the outer loop at `DefaultRouteMatcher.kt:17` only runs while a segment remains. So a request that ends exactly at a node with a wildcard child is served by that node's own handler, or by nothing; the wildcard child's handler is never used for it. `Matcher.WildcardNeedsASegment` states this for any tree, beside the general `Matcher.MatchOutcome`; `EndToEnd.FilesAlone` shows it on a concrete router.
- **One-sided wildcard in a merge.** A literal or parametric child present on one side only is adopted by the merge (`RouteTreeNode.kt:142-166`). A wildcard child is not: when only the left operand has one, `RouteTreeNode.kt:172` dereferences the right operand's missing child and throws. See Findings.
- **Merging with an empty tree.** `empty.merge(T)` is `T` for every tree (`RouteTree.MergeLeftEmpty`). `T.merge(empty)` succeeds, and then gives `T` with the root label, exactly when `T` has no wildcard child at its root (`RouteTree.MergeRightEmpty`).

## Model

| member | source | states |
|---|---|---|
| Segments.GetValue | src/main/java/com/augustl/pathtravelagent/segment/NumberSegment.kt:7-14 | the value a segment kind produces from a raw segment: the raw text for a string segment, the parsed integer or a rejection for a number segment |
| Segments.ParseInt | src/main/java/com/augustl/pathtravelagent/segment/NumberSegment.kt:9-13 | a parsed value always lies in the 32-bit signed range |
| Segments.NumberSegmentAccepts | src/main/java/com/augustl/pathtravelagent/segment/NumberSegment.kt:7-14 | a number segment accepts a raw value exactly when it is an optional sign followed by at least one ASCII digit whose value fits 32 bits, and then yields an integer result with that value |
| Segments.NumberSegmentRoundTrip | src/main/java/com/augustl/pathtravelagent/segment/NumberSegment.kt:9-10 | every 32-bit integer, rendered in decimal, parses back to itself as an integer result |
| Segments.NumberSegmentRejectsOutOfRange | src/main/java/com/augustl/pathtravelagent/segment/NumberSegment.kt:9-13 | every integer outside the 32-bit signed range, rendered in decimal, is rejected |
| Segments.NumberSegmentSignedExamples | src/main/java/com/augustl/pathtravelagent/segment/NumberSegment.kt:9-13 | "123", "+7" and "-007" parse to 123, 7 and -7 |
| Segments.NumberSegmentMalformedExamples | src/main/java/com/augustl/pathtravelagent/segment/NumberSegment.kt:9-13 | "12a", "", "+" and "-" are rejected |
| Segments.NumberSegmentMaxExamples | src/main/java/com/augustl/pathtravelagent/segment/NumberSegment.kt:9-13 | "2147483647" parses to the largest 32-bit integer and "2147483648" is rejected |
| Segments.NumberSegmentMinExamples | src/main/java/com/augustl/pathtravelagent/segment/NumberSegment.kt:9-13 | "-2147483648" parses to the smallest 32-bit integer and "-2147483649" is rejected |
| Segments.StringSegmentAccepts | src/main/java/com/augustl/pathtravelagent/segment/StringSegment.kt:5-9 | a string segment accepts every raw value, the empty one included, carries it unchanged, and keeps the constructor's name |
| RouteTree.EmptyNode | src/main/java/com/augustl/pathtravelagent/RouteTreeNode.kt:35-41 | the no-argument node has no handler, no literal children, no parametric and no wildcard child |
| RouteTree.NewParametricChild | src/main/java/com/augustl/pathtravelagent/ParametricChild.kt:12-17 | construction fails with an illegal argument exactly when one of descriptor and subtree is absent; both present stores both as given; both absent is accepted and pairs nothing |
| RouteTree.ChildAccessors | src/main/java/com/augustl/pathtravelagent/RouteTreeNode.kt:61-82 | the literal-child test holds exactly when the lookup finds a child, and that child is the stored one; the parametric accessors, defined only when a parametric child exists, return its two parts |
| RouteTree.Mergeable | src/main/java/com/augustl/pathtravelagent/RouteTreeNode.kt:117-174 | the merge does not throw: at every pair of positions it visits, a left wildcard child has a right counterpart |
| RouteTree.MergedHandler | src/main/java/com/augustl/pathtravelagent/RouteTreeNode.kt:130-140 | the handler of a merged node: the left one if the right is absent, the right one if the left is absent, else the handler merge of both |
| RouteTree.Merged | src/main/java/com/augustl/pathtravelagent/RouteTreeNode.kt:117-128 | the tree a non-throwing merge builds: right label, merged handler, merged literal, parametric and wildcard children |
| RouteTree.MergedChildren | src/main/java/com/augustl/pathtravelagent/RouteTreeNode.kt:142-154 | literal children of a merge: the union of keys, the merge of both subtrees on shared keys |
| RouteTree.MergedParametric | src/main/java/com/augustl/pathtravelagent/RouteTreeNode.kt:156-166 | parametric child of a merge: the one present, or the right descriptor over the merged subtrees |
| RouteTree.MergedWildcard | src/main/java/com/augustl/pathtravelagent/RouteTreeNode.kt:168-174 | wildcard child of a merge: the right one when the left has none, else the merge of both |
| RouteTree.MergeSpec | src/main/java/com/augustl/pathtravelagent/RouteTreeNode.kt:112-128 | the merged tree, or the null-pointer error the merge throws when it is not mergeable |
| RouteTree.Merge | src/main/java/com/augustl/pathtravelagent/RouteTreeNode.kt:112-115 | a missing operand fails with a null-pointer error; otherwise the result is the specified merge |
| RouteTree.MergeNodes | src/main/java/com/augustl/pathtravelagent/RouteTreeNode.kt:117-128 | the recursive merge returns exactly the specified result: the merged tree when no wildcard dereference fails, a null-pointer error otherwise |
| RouteTree.MergedPathSegmentChildNodes | src/main/java/com/augustl/pathtravelagent/RouteTreeNode.kt:142-154 | the copy-then-put loop succeeds exactly when every shared key's subtrees merge, and then yields the specified union of children |
| RouteTree.MergedParametricChild | src/main/java/com/augustl/pathtravelagent/RouteTreeNode.kt:156-166 | succeeds unless both sides have a parametric child whose subtrees fail to merge; on mergeable trees it yields the specified parametric child |
| RouteTree.MergedWildcardChild | src/main/java/com/augustl/pathtravelagent/RouteTreeNode.kt:168-174 | succeeds exactly when the left side has no wildcard child, or both have one and their subtrees merge; on mergeable trees it yields the specified wildcard child |
| RouteTree.MergeHandlerLaw | src/main/java/com/augustl/pathtravelagent/RouteTreeNode.kt:122-140 | the merged node takes the right operand's label; its handler is the left one when the right has none, the right one when only the right has one, and the handler merge of left with right when both do |
| RouteTree.MergeChildrenLaw | src/main/java/com/augustl/pathtravelagent/RouteTreeNode.kt:142-154 | the merged literal keys are the union of both key sets; a shared key maps to the merge of its two subtrees; a one-sided key keeps its subtree unchanged |
| RouteTree.MergeParametricLaw | src/main/java/com/augustl/pathtravelagent/RouteTreeNode.kt:156-166 | a one-sided parametric child is adopted; for two, the right descriptor wins over the merge of both subtrees |
| RouteTree.MergeWildcardLaw | src/main/java/com/augustl/pathtravelagent/RouteTreeNode.kt:168-174 | a left wildcard child without a right one makes the merge fail; with no left one the right one, or none, is taken; with both, the result is the merge of the two |
| RouteTree.MergeLeftEmpty | src/main/java/com/augustl/pathtravelagent/RouteTreeNode.kt:35-41 | merging any tree into the empty node yields that tree unchanged |
| RouteTree.WildcardFreeMergeable | src/main/java/com/augustl/pathtravelagent/RouteTreeNode.kt:168-174 | a left tree with no wildcard child at any depth merges with every right tree without failing |
| RouteTree.SelfMergeable | src/main/java/com/augustl/pathtravelagent/RouteTreeNode.kt:117-174 | merging a tree with itself never fails |
| RouteTree.MergeKeepsLiteralRoutes | src/main/java/com/augustl/pathtravelagent/RouteTreeNode.kt:142-154 | along any literal path, the merged tree holds the merge of both operands' nodes, or the one node that exists, or nothing when neither has the path |
| RouteTree.MergeRightEmpty | src/main/java/com/augustl/pathtravelagent/RouteTreeNode.kt:117-174 | as written, merging the empty node into a tree succeeds exactly when the tree has no root wildcard child, and then changes nothing but the root label |
| RouteTree.MergeRightEmptyFails | src/main/java/com/augustl/pathtravelagent/RouteTreeNode.kt:168-174 | as written, merging the empty node into a tree with a wildcard child fails |
| RouteTree.MergedIntended | src/main/java/com/augustl/pathtravelagent/RouteTreeNode.kt:117-174 | the merge with a one-sided wildcard child adopted as one-sided literal and parametric children are; it never throws |
| RouteTree.MergedIntendedRightEmpty | src/main/java/com/augustl/pathtravelagent/RouteTreeNode.kt:168-174 | with a one-sided wildcard child adopted, merging the empty node into any tree changes nothing but the root label |
| RouteTree.MergedIntendedAgrees | src/main/java/com/augustl/pathtravelagent/RouteTreeNode.kt:117-174 | the adopting merge equals the code's merge wherever the code does not fail |
| MatchResults.MatchData.GetWildCardMatches | src/main/java/com/augustl/pathtravelagent/RouteMatchResult.kt:43-45 | the wildcard segments gathered so far, in order |
| MatchResults.WithValue | src/main/java/com/augustl/pathtravelagent/RouteMatchResult.kt:60-83 | storing a typed value: an integer result is put in the integer store, a string result in the string store, under the parameter name |
| MatchResults.AddParametric | src/main/java/com/augustl/pathtravelagent/RouteMatchResult.kt:16-21 | parse the raw value with the segment and store it, or report the rejection |
| MatchResults.RouteMatchResult.Data | src/main/java/com/augustl/pathtravelagent/RouteMatchResult.kt:11-14 | the accumulator's three stores as one value |
| MatchResults.MatchData.GetIntegerMatch | src/main/java/com/augustl/pathtravelagent/RouteMatchResult.kt:27-29 | finds a value exactly when the name is in the integer store, and returns that stored value |
| MatchResults.MatchData.GetStringMatch | src/main/java/com/augustl/pathtravelagent/RouteMatchResult.kt:35-37 | finds a value exactly when the name is in the string store, and returns that stored value |
| MatchResults.WithValueStores | src/main/java/com/augustl/pathtravelagent/RouteMatchResult.kt:60-83 | an integer result lands only in the integer store and a string result only in the string store, under the parameter name; other names and the wildcard list are untouched |
| MatchResults.AddParametricOutcome | src/main/java/com/augustl/pathtravelagent/RouteMatchResult.kt:16-21 | adding fails exactly when the segment rejects the raw value; a string segment stores the raw text, and a number segment stores the parsed integer |
| MatchResults.RouteMatchResult.constructor | src/main/java/com/augustl/pathtravelagent/RouteMatchResult.kt:11-14 | a fresh result has empty integer, string and wildcard stores |
| MatchResults.RouteMatchResult.AddParametricSegment | src/main/java/com/augustl/pathtravelagent/RouteMatchResult.kt:16-21 | returns false and leaves every store unchanged when the parser rejects the value; otherwise returns true with the parsed value stored |
| MatchResults.RouteMatchResult.AddToIntegerMatches | src/main/java/com/augustl/pathtravelagent/RouteMatchResult.kt:23-25 | overwrites the name in the integer store, so the getter then returns the value; the other stores are unchanged |
| MatchResults.RouteMatchResult.AddToStringMatches | src/main/java/com/augustl/pathtravelagent/RouteMatchResult.kt:31-33 | overwrites the name in the string store, so the getter then returns the value; the other stores are unchanged |
| MatchResults.RouteMatchResult.AddToWildcardMatches | src/main/java/com/augustl/pathtravelagent/RouteMatchResult.kt:39-41 | the wildcard list becomes the old list with the segment appended; the maps are unchanged |
| MatchResults.AddToMatchResult | src/main/java/com/augustl/pathtravelagent/RouteMatchResult.kt:50-53 | storing a result updates the stores as the typed store rule says |
| RouteMatches.RouteMatch.GetIntegerRouteMatchResult | src/main/java/com/augustl/pathtravelagent/RouteMatch.kt:24-26 | returns the result's integer value for the name, present exactly when stored |
| RouteMatches.RouteMatch.GetStringRouteMatchResult | src/main/java/com/augustl/pathtravelagent/RouteMatch.kt:32-34 | returns the result's string value for the name, present exactly when stored |
| RouteMatches.RouteMatch.WildcardRouteMatchResult | src/main/java/com/augustl/pathtravelagent/RouteMatch.kt:36-37 | returns the result's wildcard list |
| NodeBuilder.IsSegmentChar | src/main/java/com/augustl/pathtravelagent/RouteTreeNodeBuilder.kt:9 | a character of the key class `[\w\-._~]` over ASCII |
| NodeBuilder.IsValidSegment | src/main/java/com/augustl/pathtravelagent/RouteTreeNodeBuilder.kt:9 | a key the pattern matches in full: non-empty, every character in the key class |
| NodeBuilder.ValidSegmentShape | src/main/java/com/augustl/pathtravelagent/RouteTreeNodeBuilder.kt:9 | a valid literal key is non-empty and contains neither `/` nor `?` |
| NodeBuilder.ValidSegmentExamples | src/main/java/com/augustl/pathtravelagent/RouteTreeNodeBuilder.kt:50-55 | "projects" and "a-b.c_d~9" are valid keys; "", "a/b" and "a b" are not |
| NodeBuilder.RouteTreeNodeBuilder.constructor | src/main/java/com/augustl/pathtravelagent/RouteTreeNodeBuilder.kt:11-14 | a fresh builder has no handler, no children and both slots empty |
| NodeBuilder.RouteTreeNodeBuilder.SetHandler | src/main/java/com/augustl/pathtravelagent/RouteTreeNodeBuilder.kt:16-18 | the handler becomes the given one, whatever it was, so the last call wins; nothing else changes |
| NodeBuilder.RouteTreeNodeBuilder.AddPathSegmentChild | src/main/java/com/augustl/pathtravelagent/RouteTreeNodeBuilder.kt:20-23 | succeeds exactly for a valid key and then puts the child, replacing any earlier one under the key; an invalid key fails with an illegal argument and changes nothing |
| NodeBuilder.RouteTreeNodeBuilder.SetParametricChild | src/main/java/com/augustl/pathtravelagent/RouteTreeNodeBuilder.kt:25-31 | succeeds exactly when the slot is empty and then fills it; a second call fails with an illegal state and keeps the first pairing |
| NodeBuilder.RouteTreeNodeBuilder.SetWildcardChild | src/main/java/com/augustl/pathtravelagent/RouteTreeNodeBuilder.kt:33-39 | succeeds exactly when the slot is empty and then fills it; a second call fails with an illegal state and keeps the first child |
| NodeBuilder.RouteTreeNodeBuilder.CreateNode | src/main/java/com/augustl/pathtravelagent/RouteTreeNodeBuilder.kt:41-48 | the node has the given label, and its handler, literal children, parametric child and wildcard child are the builder's current ones |
| NodeBuilder.TwoParametricChildrenRefused | src/main/java/com/augustl/pathtravelagent/RouteTreeNodeBuilder.kt:25-31 | on one builder, the first parametric child is accepted and the second refused with an illegal state |
| TreeBuilder.NormalizePath | src/main/java/com/augustl/pathtravelagent/RouteTreeBuilder.kt:39 | a path with one leading `/` removed, if there is one |
| TreeBuilder.NormalizeParam | src/main/java/com/augustl/pathtravelagent/RouteTreeBuilder.kt:45 | a parameter name with one leading `/:` removed, if there is one |
| TreeBuilder.ParamLabel | src/main/java/com/augustl/pathtravelagent/RouteTreeBuilder.kt:45-52 | the label `::PARAM:name::` of a parametric child's node |
| TreeBuilder.WildcardLabel | src/main/java/com/augustl/pathtravelagent/RouteTreeBuilder.kt:56 | the label `::WILDCARD::` of a wildcard child's node |
| TreeBuilder.PathAccepted | src/main/java/com/augustl/pathtravelagent/RouteTreeBuilder.kt:38-42 | a literal path is accepted exactly when it is a valid key with or without one leading `/`, so a nested path such as "/a/b" is refused |
| TreeBuilder.NormalizeExamples | src/main/java/com/augustl/pathtravelagent/RouteTreeBuilder.kt:39-45 | exactly one leading `/` is stripped from a path, and exactly one leading `/:` from a parameter name; "/a/b" normalises to an invalid key |
| TreeBuilder.RouteTreeBuilder.constructor | src/main/java/com/augustl/pathtravelagent/RouteTreeBuilder.kt:31 | a new builder wraps a fresh, empty node builder |
| TreeBuilder.RouteTreeBuilder.BuildLabelled | src/main/java/com/augustl/pathtravelagent/RouteTreeBuilder.kt:64-66 | the labelled build is the node builder's frozen state under that label |
| TreeBuilder.RouteTreeBuilder.Build | src/main/java/com/augustl/pathtravelagent/RouteTreeBuilder.kt:60-62 | the build is a root-labelled node holding the accumulated handler, literal children, parametric child and wildcard child |
| TreeBuilder.RouteTreeBuilder.Handler | src/main/java/com/augustl/pathtravelagent/RouteTreeBuilder.kt:33-36 | sets the handler and leaves the children as they were |
| TreeBuilder.RouteTreeBuilder.Path | src/main/java/com/augustl/pathtravelagent/RouteTreeBuilder.kt:38-42 | installs the child builder's tree, labelled by the normalised path, under the normalised path exactly when that path is a valid key; otherwise fails with an illegal argument and changes nothing |
| TreeBuilder.RouteTreeBuilder.Param | src/main/java/com/augustl/pathtravelagent/RouteTreeBuilder.kt:44-48 | when the slot is empty, installs a string segment named by the normalised name over the child builder's tree; a second parametric child fails with an illegal state; literal children and the wildcard slot are untouched |
| TreeBuilder.RouteTreeBuilder.ParamWithSegment | src/main/java/com/augustl/pathtravelagent/RouteTreeBuilder.kt:50-53 | when the slot is empty, installs the given descriptor unchanged over the child builder's tree; otherwise fails with an illegal state |
| TreeBuilder.RouteTreeBuilder.Wildcard | src/main/java/com/augustl/pathtravelagent/RouteTreeBuilder.kt:55-58 | when the slot is empty, installs the child builder's tree as the wildcard child; a second one fails with an illegal state; the other slots are untouched |
| SingleRoute.SegmentNode | src/main/java/com/augustl/pathtravelagent/SingleRouteBuilder.kt:52-66 | the node `getNode` makes for one segment over a child: the child under the literal key or behind the descriptor, or the illegal argument of an invalid key |
| SingleRoute.HandlerNode | src/main/java/com/augustl/pathtravelagent/SingleRouteBuilder.kt:32-40 | the node holding only the handler, under the given label |
| SingleRoute.ChainFrom | src/main/java/com/augustl/pathtravelagent/SingleRouteBuilder.kt:41-43 | the reversed loop: wrap the node in the last segment's node, then the one before, and so on, stopping at the first exception |
| SingleRoute.BuildSpec | src/main/java/com/augustl/pathtravelagent/SingleRouteBuilder.kt:31-46 | what `build` returns: a root node with the handler for no segments, else the chain over a bottom node with the handler |
| SingleRoute.IsChain | src/main/java/com/augustl/pathtravelagent/SingleRouteBuilder.kt:34-45 | the shape of a built route: one child per node, a literal or a descriptor per segment, the handler only at the bottom |
| SingleRoute.SegmentNodeShape | src/main/java/com/augustl/pathtravelagent/SingleRouteBuilder.kt:52-66 | one segment's node has no handler and exactly one child, the given chain, under a literal key or behind a descriptor; an invalid literal key fails with an illegal argument |
| SingleRoute.GetNode | src/main/java/com/augustl/pathtravelagent/SingleRouteBuilder.kt:52-66 | going through a fresh node builder yields that segment node, or the exception the builder throws |
| SingleRoute.ChainFromShape | src/main/java/com/augustl/pathtravelagent/SingleRouteBuilder.kt:39-45 | wrapping a chain in the nodes of a segment list, last segment first, yields the chain for the concatenation, and fails with an illegal argument exactly when some literal of the list is invalid |
| SingleRoute.BuildShape | src/main/java/com/augustl/pathtravelagent/SingleRouteBuilder.kt:31-46 | the build succeeds exactly when every literal segment is a valid key; it then yields a chain whose node for segment i has one child, a literal or a string-typed parameter, with only the bottom node holding the handler; with no segments it is one root node with the handler and no children |
| SingleRoute.SingleRouteBuilder.constructor | src/main/java/com/augustl/pathtravelagent/SingleRouteBuilder.kt:19 | a new builder has no segments |
| SingleRoute.SingleRouteBuilder.Path | src/main/java/com/augustl/pathtravelagent/SingleRouteBuilder.kt:21-24 | appends a literal segment without validating it |
| SingleRoute.SingleRouteBuilder.Param | src/main/java/com/augustl/pathtravelagent/SingleRouteBuilder.kt:26-29 | appends a string-typed parameter segment with the given name |
| SingleRoute.SingleRouteBuilder.Build | src/main/java/com/augustl/pathtravelagent/SingleRouteBuilder.kt:31-46 | the reversed loop builds exactly the specified chain, or reports the exception |
| SingleRoute.ProjectsIdRoute | src/main/java/com/augustl/pathtravelagent/SingleRouteBuilder.kt:21-46 | `/projects/:id` builds a literal node over a string-parameter node over the handler |
| Matcher.Step | src/main/java/com/augustl/pathtravelagent/DefaultRouteMatcher.kt:18-45 | one step of the walk: the literal child, else the parametric child if it accepts the segment, else the wildcard child taking every remaining segment; it consumes one segment, or all the rest for a wildcard |
| Matcher.Walk | src/main/java/com/augustl/pathtravelagent/DefaultRouteMatcher.kt:15-46 | the walk step after step until the segments run out or a step fails |
| Matcher.MatchSpec | src/main/java/com/augustl/pathtravelagent/DefaultRouteMatcher.kt:10-53 | the walk from the root with empty match data, then the final node's handler called on the request and the gathered data |
| Matcher.Match | src/main/java/com/augustl/pathtravelagent/DefaultRouteMatcher.kt:10-53 | the loop over a mutable accumulator returns exactly the specified match outcome |
| Matcher.MatchOutcome | src/main/java/com/augustl/pathtravelagent/DefaultRouteMatcher.kt:48-52 | a match yields a result exactly when the walk succeeds at a node with a handler, and that result is the handler called on the request and the gathered data |
| Matcher.LiteralWins | src/main/java/com/augustl/pathtravelagent/DefaultRouteMatcher.kt:20-24 | when a literal child matches the segment, the walk goes on there, whatever parametric and wildcard children the node has |
| Matcher.RejectedParameterAborts | src/main/java/com/augustl/pathtravelagent/DefaultRouteMatcher.kt:26-29 | with no literal match, a parametric child that rejects the segment ends the walk in failure, whatever wildcard child the node has |
| Matcher.DeadEnd | src/main/java/com/augustl/pathtravelagent/DefaultRouteMatcher.kt:45 | a node with no child of any kind for the segment ends the walk in failure |
| Matcher.WildcardFires | src/main/java/com/augustl/pathtravelagent/DefaultRouteMatcher.kt:35-43 | with no literal child for the segment and no parametric child, a wildcard child takes this and every later segment, in order, and the walk ends at that child |
| Matcher.WildcardSuffix | src/main/java/com/augustl/pathtravelagent/DefaultRouteMatcher.kt:35-43 | the wildcard list either stays as it was, or the walk reaches, with the list untouched, a node and position where the wildcard fires and ends with exactly the request's suffix from that position appended |
| Matcher.KeysKept | src/main/java/com/augustl/pathtravelagent/DefaultRouteMatcher.kt:26-33 | parameter names gathered earlier in the walk are never lost; their values may be overwritten by a later parameter of the same name |
| Matcher.TrailBound | src/main/java/com/augustl/pathtravelagent/DefaultRouteMatcher.kt:17-46 | the walk visits at most as many nodes as there are segments left, and a successful walk stops at the last node it moved to |
| Matcher.LiteralRouteWalk | src/main/java/com/augustl/pathtravelagent/DefaultRouteMatcher.kt:20-24 | a request that is a literal path of the tree reaches that path's node with no parameters and no wildcard matches |
| Matcher.EmptyRequest | src/main/java/com/augustl/pathtravelagent/DefaultRouteMatcher.kt:48-52 | with no segments, the root's handler is called with empty match data if present, and there is no match otherwise |
| Matcher.WildcardNeedsASegment | src/main/java/com/augustl/pathtravelagent/DefaultRouteMatcher.kt:12-52 | when the request's literal path ends exactly at a node with a wildcard child, the match is that node's own handler with no parameters and no wildcard segments, or no match; the wildcard child is not entered |
| PathSegments.ExtractPath | src/main/java/com/augustl/pathtravelagent/DefaultPathToPathSegments.kt:13-15 | the path before the first `?`, or the empty path unchanged |
| PathSegments.Parse | src/main/java/com/augustl/pathtravelagent/DefaultPathToPathSegments.kt:8-11 | split the extracted path at `/`, drop trailing empty parts, then drop the first part |
| PathSegments.Split | src/main/java/com/augustl/pathtravelagent/DefaultPathToPathSegments.kt:9 | a split always has at least one part |
| PathSegments.SplitPartsFree | src/main/java/com/augustl/pathtravelagent/DefaultPathToPathSegments.kt:9 | no part of a split contains the separator |
| PathSegments.JoinSplit | src/main/java/com/augustl/pathtravelagent/DefaultPathToPathSegments.kt:9 | joining the parts of a split with the separator rebuilds the text |
| PathSegments.SplitJoin | src/main/java/com/augustl/pathtravelagent/DefaultPathToPathSegments.kt:9 | splitting a join of separator-free parts gives back those parts |
| PathSegments.SplitHead | src/main/java/com/augustl/pathtravelagent/DefaultPathToPathSegments.kt:14 | the first part of a split is the whole text when the separator is absent, otherwise the text before its first occurrence |
| PathSegments.DropLastWhileEmpty | src/main/java/com/augustl/pathtravelagent/DefaultPathToPathSegments.kt:9 | the result is a prefix of the input whose last part, if any, is non-empty, and every part dropped is empty |
| PathSegments.ExtractPathPrefix | src/main/java/com/augustl/pathtravelagent/DefaultPathToPathSegments.kt:13-15 | the extracted path has no `?`; it is the whole path when there is none, and otherwise the prefix before the first `?` |
| PathSegments.ParseSegments | src/main/java/com/augustl/pathtravelagent/DefaultPathToPathSegments.kt:8-11 | no parsed segment contains `/` or `?`, and the last one, if any, is non-empty |
| PathSegments.ParseRender | src/main/java/com/augustl/pathtravelagent/DefaultPathToPathSegments.kt:8-15 | a list of segments free of `/` and `?` whose last element is not empty parses back from its `/`-joined path, with or without a query appended |
| PathSegments.ParseRenderTrailingSlash | src/main/java/com/augustl/pathtravelagent/DefaultPathToPathSegments.kt:9-10 | a trailing `/` after such a rendered path adds no segment |
| PathSegments.ParseQueryExample | src/main/java/com/augustl/pathtravelagent/DefaultPathToPathSegments.kt:4 | "/projects/123?test" parses to "projects", "123" |
| PathSegments.ParseRootExamples | src/main/java/com/augustl/pathtravelagent/DefaultPathToPathSegments.kt:8-15 | "" and "/" both parse to no segments |
| PathSegments.ParseInnerEmptyExample | src/main/java/com/augustl/pathtravelagent/DefaultPathToPathSegments.kt:9-10 | "/a//b" parses to "a", "", "b" |
| PathSegments.ParseTrailingSlashExample | src/main/java/com/augustl/pathtravelagent/DefaultPathToPathSegments.kt:9-10 | "/projects/" parses to "projects" alone |
| EndToEnd.ProjectsBuilder | src/main/java/com/augustl/pathtravelagent/RouteTreeBuilder.kt:38-58 | a builder with a number parameter and the literal `/new` builds the `projects` subtree, and a second `param` on it is refused with an illegal state |
| EndToEnd.BuildProjectsTree | src/main/java/com/augustl/pathtravelagent/RouteTreeBuilder.kt:33-62 | the fluent builder makes the projects tree, and a second `param` on the same builder is refused with an illegal state |
| EndToEnd.ProjectsNumber | src/main/java/com/augustl/pathtravelagent/DefaultRouteMatcher.kt:26-33 | `/projects/42` calls the parameter handler with `id` bound to the integer 42 |
| EndToEnd.ProjectsLiteral | src/main/java/com/augustl/pathtravelagent/DefaultRouteMatcher.kt:20-24 | `/projects/new` calls the literal handler with no parameters |
| EndToEnd.ProjectsRejected | src/main/java/com/augustl/pathtravelagent/DefaultRouteMatcher.kt:26-29 | `/projects/abc` and `/projects/12a` find no match |
| EndToEnd.ProjectsRootAndUnknown | src/main/java/com/augustl/pathtravelagent/DefaultRouteMatcher.kt:45-52 | "/" calls the root handler; an unknown first segment finds no match |
| EndToEnd.ProjectsUrl | src/main/java/com/augustl/pathtravelagent/DefaultPathToPathSegments.kt:8-15 | "/projects/42?x=1" parses to "projects", "42" |
| EndToEnd.FilesCapture | src/main/java/com/augustl/pathtravelagent/DefaultRouteMatcher.kt:35-43 | `/files/a/b/c` calls the wildcard handler with the wildcard list "a", "b", "c" |
| EndToEnd.FilesAlone | src/main/java/com/augustl/pathtravelagent/DefaultRouteMatcher.kt:17-52 | `/files` alone is decided by the files node's own handler, with an empty wildcard list |
| EndToEnd.ChainWalk | src/main/java/com/augustl/pathtravelagent/DefaultRouteMatcher.kt:17-52 | a chain serves exactly the requests of its length whose segments are each accepted at their position, and reaches the chain's one handler |
| EndToEnd.BuiltRouteMatches | src/main/java/com/augustl/pathtravelagent/SingleRouteBuilder.kt:31-46 | a route from the single-route builder matches exactly the requests of its length that agree with every literal and pass every parameter's parser, and calls the route's handler |
| EndToEnd.MergedServesOneSidedRoutes | src/main/java/com/augustl/pathtravelagent/RouteTreeNode.kt:142-154 | a literal route of one operand only is matched in the merged tree exactly as in that operand |
| EndToEnd.MergedServesSharedRoutes | src/main/java/com/augustl/pathtravelagent/RouteTreeNode.kt:130-154 | a literal route of both operands is served by the merged handler: the left merged with the right, or whichever exists |
| EndToEnd.MergeOrderSwapsHandlers | src/main/java/com/augustl/pathtravelagent/RouteTreeNode.kt:130-140 | with handlers on both roots, swapping the operands swaps the arguments of the handler merge |
| EndToEnd.MergeOrderSwapsDescriptors | src/main/java/com/augustl/pathtravelagent/RouteTreeNode.kt:156-166 | with parametric children on both roots, swapping the operands swaps which descriptor wins: always the right operand's |

## Left out

- Node labels are kept as plain strings but play no part in any property. The merge `context` list (`RouteTreeNode.kt:117-120`) only feeds diagnostics and is not modelled.
- `@Synchronized` on the two set-once setters is a concurrency annotation. The model is sequential.
- The regular-expression engine and `Integer.parseInt` internals are not modelled. The key class `[\w\-._~]+` and the radix-10 parse are stated directly over ASCII. `parseInt` also accepts non-ASCII Unicode digits; the model does not.
- NodeBuilder.RouteTreeNodeBuilder.CreateNode: returns a snapshot of the builder's map. In the original the node keeps an unmodifiable view of the builder's live `HashMap`, which later builder calls could still change; builders are used once, so the model does not capture that aliasing.
- HashMap iteration order is not modelled. The merge puts keys in an arbitrary order, and its result does not depend on that order.
- `RouteMatchResult.java` and `RouteTreeBuilder.java` duplicate the Kotlin classes; the Kotlin versions are the ones modelled. `IRouteHandler.kt`, `IRequest.kt` and `IParametricSegment.kt` are interfaces with no logic. They become the type parameter `H` with the `hm` and `call` function values, `seq<string>`, and the two-variant `ParametricSegment` datatype. User-defined parametric segment kinds are not modelled.
- RouteTree.RouteTreeNode.ParametricChildSegment and RouteTree.RouteTreeNode.ParametricChildNode: require a parametric child, where the original's `!!` would throw a NullPointerException. The matcher only calls them after `hasParametricChild()`, so no caller reaches that case.
- RouteTree.NewParametricChild: a pairing built with both arguments `null` is accepted by the original, but no caller ever stores one. The model returns "no pairing" for it instead of a pairing object with two null fields.
- RouteMatches.RouteMatch: holds the accumulator's final contents as a value. The original holds a reference to the live accumulator, which the matcher no longer changes once the handler is called.
- TreeBuilder.RouteTreeBuilder.Handler: the original's parameter is declared nullable, but it is passed to a setter that takes a non-null handler. The model only sets present handlers.
- `RouteTreeBuilderFactory.kt` and `package-info.kt` hold only a one-line constructor and documentation.
- Determinism of `match` holds because `MatchSpec` is a function of the tree, the request and `call`; there is no separate lemma for it.

## Findings

| source | as written | input that shows it | evidently intended | confidence | as-written member | corrected member |
|---|---|---|---|---|---|---|
| src/main/java/com/augustl/pathtravelagent/RouteTreeNode.kt:168-174 | a left wildcard child is merged with `other.wildcardChildNode!!`, so a right operand without a wildcard child throws a NullPointerException | any tree with a wildcard child merged with the empty node `RouteTreeNode()` | a one-sided wildcard child is adopted, as one-sided literal and parametric children are, so `T.merge(empty)` keeps `T` | not executed; medium | RouteTree.MergeRightEmptyFails | RouteTree.MergedIntendedRightEmpty |

`RouteTree.MergedIntended` is the merge with the adopting wildcard rule. `RouteTree.MergedIntendedAgrees` proves it equals the code's `Merged` on every pair of trees where the code does not throw. So the merge laws above, `MergeKeepsLiteralRoutes` and the merged-tree matching lemmas hold for the corrected merge on every pair where the code does not throw. Two laws do not carry over, because they describe the throwing case itself: the first clause of `RouteTree.MergeWildcardLaw` (a left-only wildcard child makes the merge fail) and `RouteTree.MergeRightEmpty` (the merge with an empty right operand succeeds only without a root wildcard child). The corrected merge adopts that child and does not fail there; with an empty right operand it gives the left tree back with the root label (`RouteTree.MergedIntendedRightEmpty`).
