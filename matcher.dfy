/**
 * The route matcher (DefaultRouteMatcher): one deterministic walk down the
 * tree, one request segment per step, trying the literal child, then the
 * parametric child, then the wildcard child, without backtracking.
 *
 * `Walk` is the walk as a function from a position to the node where it
 * stops and the match data gathered on the way; `Match` is the original's
 * loop over a mutable accumulator, proved to follow `Walk`.
 */
module Matcher {
  import opened Wrappers
  import opened Segments
  import opened RouteTree
  import opened MatchResults
  import opened RouteMatches

  /**
   * One step of the walk from node `n` at request position `i`: the node
   * moved to, the next position and the match data, or `None` where the
   * original returns null in the middle of the loop (a rejected parameter
   * value, or no child for the segment). A literal child comes first, then
   * the parametric child, then the wildcard child, which takes every
   * remaining segment.
   */
  function Step<H>(n: RouteTreeNode<H>, segs: seq<string>, i: nat, acc: MatchData)
    : (r: Option<(RouteTreeNode<H>, nat, MatchData)>)
    requires i < |segs|
    ensures r.Some? ==> r.value.1 == i + 1 || (r.value.1 == |segs| && n.wildcardChildNode.Some?)
    ensures r.Some? ==> i < r.value.1 <= |segs|
  {
    if segs[i] in n.pathSegmentChildNodes then
      Some((n.pathSegmentChildNodes[segs[i]], i + 1, acc))
    else if n.parametricChild.Some? then
      match AddParametric(acc, n.parametricChild.value.parametricSegment, segs[i])
      case None => None
      case Some(acc') => Some((n.parametricChild.value.childNode, i + 1, acc'))
    else if n.wildcardChildNode.Some? then
      Some((n.wildcardChildNode.value, |segs|, acc.(wildcardMatches := acc.wildcardMatches + segs[i..])))
    else None
  }

  /**
   * The walk from node `n` at request position `i` with match data `acc`,
   * step after step: the node it ends at and the data gathered, or `None`
   * where a step fails.
   */
  function Walk<H>(n: RouteTreeNode<H>, segs: seq<string>, i: nat, acc: MatchData)
    : Option<(RouteTreeNode<H>, MatchData)>
    requires i <= |segs|
    decreases |segs| - i
  {
    if i == |segs| then Some((n, acc))
    else
      match Step(n, segs, i, acc)
      case None => None
      case Some((m, j, acc')) => Walk(m, segs, j, acc')
  }

  /** `match(root, req)`: the handler of the node the walk ends at, called on the gathered data. */
  function MatchSpec<H, R>(rootNode: RouteTreeNode<H>, req: seq<string>, call: (H, RouteMatch) -> R): Option<R> {
    match Walk(rootNode, req, 0, EmptyMatchData)
    case None => None
    case Some((n, d)) =>
      if n.handler.Some? then Some(call(n.handler.value, RouteMatch(req, d))) else None
  }

  /** The original's loop, with the accumulator updated in place. */
  method Match<H, R>(rootNode: RouteTreeNode<H>, req: seq<string>, call: (H, RouteMatch) -> R)
    returns (r: Option<R>)
    ensures r == MatchSpec(rootNode, req, call)
  {
    var pathSegments := req;
    var targetNode := rootNode;
    var routeMatchResult := new RouteMatchResult();
    var i := 0;
    while i < |pathSegments|
      invariant 0 <= i <= |pathSegments|
      invariant Walk(rootNode, req, 0, EmptyMatchData) == Walk(targetNode, req, i, routeMatchResult.Data())
      decreases |pathSegments| - i
    {
      var pathSegment := pathSegments[i];

      if targetNode.ContainsPathSegmentChildNodes(pathSegment) {
        targetNode := targetNode.GetPathSegmentChildNode(pathSegment).value;
        i := i + 1;
        continue;
      }

      if targetNode.HasParametricChild() {
        var ok := routeMatchResult.AddParametricSegment(targetNode.ParametricChildSegment(), pathSegment);
        if !ok {
          return None;
        }
        targetNode := targetNode.ParametricChildNode();
        i := i + 1;
        continue;
      }

      if targetNode.HasWildcardChild() {
        ghost var start, before := i, routeMatchResult.Data();
        while i < |pathSegments|
          invariant start <= i <= |pathSegments|
          invariant routeMatchResult.Data() == before.(wildcardMatches := before.wildcardMatches + req[start..i])
          decreases |pathSegments| - i
        {
          pathSegment := pathSegments[i];
          routeMatchResult.AddToWildcardMatches(pathSegment);
          assert req[start..i + 1] == req[start..i] + [req[i]];
          i := i + 1;
        }
        assert req[start..i] == req[start..];
        targetNode := targetNode.wildcardChildNode.value;
        assert Walk(rootNode, req, 0, EmptyMatchData) == Some((targetNode, routeMatchResult.Data()));
        break;
      }

      return None;
    }

    assert Walk(rootNode, req, 0, EmptyMatchData) == Some((targetNode, routeMatchResult.Data()));
    if targetNode.handler.Some? {
      return Some(call(targetNode.handler.value, RouteMatch(req, routeMatchResult.Data())));
    }
    return None;
  }

  // ---------------------------------------------------------------------------
  // Properties of the walk.

  /**
   * Literal first: with a literal child for the current segment, the
   * parametric and wildcard children have no say, whatever they are.
   */
  lemma LiteralWins<H>(n: RouteTreeNode<H>, pc: Option<ParametricChild<H>>, wc: Option<RouteTreeNode<H>>,
                       segs: seq<string>, i: nat, acc: MatchData)
    requires i < |segs| && segs[i] in n.pathSegmentChildNodes
    ensures Walk(n.(parametricChild := pc, wildcardChildNode := wc), segs, i, acc)
         == Walk(n.pathSegmentChildNodes[segs[i]], segs, i + 1, acc)
  {
  }

  /**
   * Parametric before wildcard, and no backtracking: once a parametric child
   * rejects the segment, the walk fails whatever wildcard child the node has.
   */
  lemma RejectedParameterAborts<H>(n: RouteTreeNode<H>, wc: Option<RouteTreeNode<H>>,
                                   segs: seq<string>, i: nat, acc: MatchData)
    requires i < |segs| && segs[i] !in n.pathSegmentChildNodes && n.parametricChild.Some?
    requires GetValue(n.parametricChild.value.parametricSegment, segs[i]).None?
    ensures Walk(n.(wildcardChildNode := wc), segs, i, acc).None?
  {
  }

  /** A node with no child for the current segment ends the walk in failure. */
  lemma DeadEnd<H>(n: RouteTreeNode<H>, segs: seq<string>, i: nat, acc: MatchData)
    requires i < |segs| && segs[i] !in n.pathSegmentChildNodes
    requires n.parametricChild.None? && n.wildcardChildNode.None?
    ensures Walk(n, segs, i, acc).None?
  {
  }

  /** At node `m` and position `j` the wildcard child is the one that applies. */
  predicate WildcardFiresAt<H>(m: RouteTreeNode<H>, segs: seq<string>, j: nat) {
    && j < |segs|
    && segs[j] !in m.pathSegmentChildNodes
    && m.parametricChild.None?
    && m.wildcardChildNode.Some?
  }

  /**
   * Wildcard last: with no literal child for the segment and no parametric
   * child, a wildcard child takes the segment and every one after it, in
   * order, and the walk stops at that child.
   */
  lemma WildcardFires<H>(n: RouteTreeNode<H>, segs: seq<string>, i: nat, acc: MatchData)
    requires i <= |segs| && WildcardFiresAt(n, segs, i)
    ensures Walk(n, segs, i, acc)
         == Some((n.wildcardChildNode.value, acc.(wildcardMatches := acc.wildcardMatches + segs[i..])))
  {
  }

  /**
   * The wildcard list only ever grows by one whole suffix of the request:
   * either it is untouched, or the walk reaches, with the list untouched so
   * far, a node `m` at a position `j` where the wildcard fires, and then it
   * ends with `segs[j..]` appended.
   */
  lemma {:induction false} WildcardSuffix<H>(n: RouteTreeNode<H>, segs: seq<string>, i: nat, acc: MatchData)
    requires i <= |segs|
    ensures Walk(n, segs, i, acc).Some? ==>
      var d := Walk(n, segs, i, acc).value.1;
      || d.wildcardMatches == acc.wildcardMatches
      || exists j: nat, m: RouteTreeNode<H>, a: MatchData :: i <= j < |segs| && WildcardFiresAt(m, segs, j)
           && a.wildcardMatches == acc.wildcardMatches
           && Walk(n, segs, i, acc) == Walk(m, segs, j, a)
           && d.wildcardMatches == acc.wildcardMatches + segs[j..]
    decreases |segs| - i
  {
    if i < |segs| {
      if segs[i] in n.pathSegmentChildNodes {
        WildcardSuffix(n.pathSegmentChildNodes[segs[i]], segs, i + 1, acc);
      } else if n.parametricChild.Some? {
        var next := AddParametric(acc, n.parametricChild.value.parametricSegment, segs[i]);
        if next.Some? {
          AddParametricOutcome(acc, n.parametricChild.value.parametricSegment, segs[i]);
          assert next.value.wildcardMatches == acc.wildcardMatches;
          WildcardSuffix(n.parametricChild.value.childNode, segs, i + 1, next.value);
        }
      } else if n.wildcardChildNode.Some? {
        WildcardFires(n, segs, i, acc);
        assert WildcardFiresAt(n, segs, i);
      }
    }
  }

  /**
   * Parameter names are only added, never dropped: every key gathered so
   * far stays. Values are not kept: a later parameter of the same name
   * overwrites the earlier value, as a map put does.
   */
  lemma {:induction false} KeysKept<H>(n: RouteTreeNode<H>, segs: seq<string>, i: nat, acc: MatchData)
    requires i <= |segs|
    ensures Walk(n, segs, i, acc).Some? ==>
      var d := Walk(n, segs, i, acc).value.1;
      && acc.integerMatches.Keys <= d.integerMatches.Keys
      && acc.stringMatches.Keys <= d.stringMatches.Keys
    decreases |segs| - i
  {
    if i < |segs| {
      if segs[i] in n.pathSegmentChildNodes {
        KeysKept(n.pathSegmentChildNodes[segs[i]], segs, i + 1, acc);
      } else if n.parametricChild.Some? {
        var next := AddParametric(acc, n.parametricChild.value.parametricSegment, segs[i]);
        if next.Some? {
          KeysKept(n.parametricChild.value.childNode, segs, i + 1, next.value);
        }
      }
    }
  }

  /** The nodes the walk moves to, one per step. */
  function Trail<H>(n: RouteTreeNode<H>, segs: seq<string>, i: nat, acc: MatchData): seq<RouteTreeNode<H>>
    requires i <= |segs|
    decreases |segs| - i
  {
    if i == |segs| then []
    else
      match Step(n, segs, i, acc)
      case None => []
      case Some((m, j, acc')) => [m] + Trail(m, segs, j, acc')
  }

  /**
   * Each step consumes at least one segment, so the walk visits at most as
   * many nodes as there are segments left, and a successful walk stops at
   * the last node it moved to.
   */
  lemma {:induction false} TrailBound<H>(n: RouteTreeNode<H>, segs: seq<string>, i: nat, acc: MatchData)
    requires i <= |segs|
    ensures |Trail(n, segs, i, acc)| <= |segs| - i
    ensures Walk(n, segs, i, acc).Some? ==>
      Walk(n, segs, i, acc).value.0 ==
        if Trail(n, segs, i, acc) == [] then n else Trail(n, segs, i, acc)[|Trail(n, segs, i, acc)| - 1]
    decreases |segs| - i
  {
    if i < |segs| {
      if segs[i] in n.pathSegmentChildNodes {
        TrailBound(n.pathSegmentChildNodes[segs[i]], segs, i + 1, acc);
      } else if n.parametricChild.Some? {
        var next := AddParametric(acc, n.parametricChild.value.parametricSegment, segs[i]);
        if next.Some? {
          TrailBound(n.parametricChild.value.childNode, segs, i + 1, next.value);
        }
      }
    }
  }

  /** A literal route is found with no parameter values and no wildcard matches. */
  lemma {:induction false} LiteralRouteWalk<H>(n: RouteTreeNode<H>, segs: seq<string>, i: nat, acc: MatchData)
    requires i <= |segs| && LiteralPath(n, segs[i..]).Some?
    ensures Walk(n, segs, i, acc) == Some((LiteralPath(n, segs[i..]).value, acc))
    decreases |segs| - i
  {
    if i < |segs| {
      assert segs[i..][0] == segs[i] && segs[i..][1..] == segs[i + 1..];
      LiteralRouteWalk(n.pathSegmentChildNodes[segs[i]], segs, i + 1, acc);
    }
  }

  /**
   * The outcome of a match: a call of the final node's handler when the walk
   * succeeds and that node has one, null otherwise.
   */
  lemma MatchOutcome<H, R>(rootNode: RouteTreeNode<H>, req: seq<string>, call: (H, RouteMatch) -> R)
    ensures MatchSpec(rootNode, req, call).Some? <==>
      Walk(rootNode, req, 0, EmptyMatchData).Some? && Walk(rootNode, req, 0, EmptyMatchData).value.0.handler.Some?
    ensures MatchSpec(rootNode, req, call).Some? ==>
      var (n, d) := Walk(rootNode, req, 0, EmptyMatchData).value;
      MatchSpec(rootNode, req, call).value == call(n.handler.value, RouteMatch(req, d))
  {
  }

  /** With no segments, the root's own handler decides, called with empty match data. */
  lemma EmptyRequest<H, R>(rootNode: RouteTreeNode<H>, call: (H, RouteMatch) -> R)
    ensures MatchSpec(rootNode, [], call) ==
      if rootNode.handler.Some? then Some(call(rootNode.handler.value, RouteMatch([], EmptyMatchData))) else None
  {
  }

  /**
   * A wildcard child needs at least one remaining segment: a request whose
   * literal path ends exactly at a node with a wildcard child is served by
   * that node's own handler, with an empty wildcard list, or not at all;
   * the wildcard child's handler is never called for it.
   */
  lemma WildcardNeedsASegment<H, R>(rootNode: RouteTreeNode<H>, req: seq<string>, call: (H, RouteMatch) -> R)
    requires LiteralPath(rootNode, req).Some? && LiteralPath(rootNode, req).value.wildcardChildNode.Some?
    ensures var n := LiteralPath(rootNode, req).value;
      MatchSpec(rootNode, req, call) ==
        if n.handler.Some? then Some(call(n.handler.value, RouteMatch(req, EmptyMatchData))) else None
  {
    assert req[0..] == req;
    LiteralRouteWalk(rootNode, req, 0, EmptyMatchData);
  }
}
