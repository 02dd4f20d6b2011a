/**
 * The single-route builder (SingleRouteBuilder): a list of literal and
 * parametric segments, turned by `build` into a linear chain of one-child
 * nodes that ends in one handler.
 *
 * `ChainFrom` is the chain that the reversed loop of `build` assembles;
 * `IsChain` is the shape the chain is promised to have, read from the top.
 */
module SingleRoute {
  import opened Wrappers
  import opened Segments
  import opened RouteTree
  import opened NodeBuilder

  /** One queued segment: a literal path or a parametric descriptor. */
  datatype RouteSegment =
    | PathSegment(path: string)
    | ParamSegment(parametricSegment: ParametricSegment)

  const BottomLabel := "::BOTTOM::"

  function SegmentLabel(seg: RouteSegment): string {
    match seg
    case PathSegment(p) => "::PATH:" + p + "::"
    case ParamSegment(ps) => "::PARAM:" + ps.paramName + "::"
  }

  /**
   * `getNode` of one segment over a child: a node whose only child is
   * `child`, under the literal key or behind the descriptor. An invalid
   * literal key makes the node builder throw.
   */
  function SegmentNode<H>(seg: RouteSegment, child: RouteTreeNode<H>): (r: Result<RouteTreeNode<H>>) {
    match seg
    case PathSegment(p) =>
      if IsValidSegment(p) then Ok(RouteTreeNode(SegmentLabel(seg), None, map[p := child], None, None))
      else Err(IllegalArgument)
    case ParamSegment(ps) =>
      Ok(RouteTreeNode(SegmentLabel(seg), None, map[], Some(ParametricChild(ps, child)), None))
  }

  /** The loop of `build`: wrap `res` in the node of the last segment, then of the one before, and so on. */
  function ChainFrom<H>(segs: seq<RouteSegment>, res: RouteTreeNode<H>): Result<RouteTreeNode<H>>
    decreases |segs|
  {
    if segs == [] then Ok(res)
    else
      match SegmentNode(segs[|segs| - 1], res)
      case Err(e) => Err(e)
      case Ok(n) => ChainFrom(segs[..|segs| - 1], n)
  }

  /** The node `build(h)` starts from: it carries the handler and nothing else. */
  function HandlerNode<H>(nodeLabel: string, h: H): RouteTreeNode<H> {
    RouteTreeNode(nodeLabel, Some(h), map[], None, None)
  }

  /** What `build(h)` returns, or the exception it throws. */
  function BuildSpec<H>(segs: seq<RouteSegment>, h: H): Result<RouteTreeNode<H>> {
    if |segs| == 0 then Ok(HandlerNode(RootLabel, h))
    else ChainFrom(segs, HandlerNode(BottomLabel, h))
  }

  /** Every literal segment of the route passes key validation. */
  predicate AllPathsValid(segs: seq<RouteSegment>) {
    forall i :: 0 <= i < |segs| && segs[i].PathSegment? ==> IsValidSegment(segs[i].path)
  }

  /**
   * `n` is the top of a chain for `route` ending in handler `h`: each node
   * down the chain has no handler and exactly one child, a literal keyed by
   * the segment's path or the segment's descriptor; the last node has `h`
   * and no child.
   */
  ghost predicate IsChain<H>(n: RouteTreeNode<H>, route: seq<RouteSegment>, h: H)
    decreases |route|
  {
    && n.wildcardChildNode.None?
    && if route == [] then
         n.handler == Some(h) && n.pathSegmentChildNodes == map[] && n.parametricChild.None?
       else
         && n.handler.None?
         && match route[0]
            case PathSegment(p) =>
              && n.parametricChild.None?
              && n.pathSegmentChildNodes.Keys == {p}
              && IsChain(n.pathSegmentChildNodes[p], route[1..], h)
            case ParamSegment(ps) =>
              && n.pathSegmentChildNodes == map[]
              && n.parametricChild.Some?
              && n.parametricChild.value.parametricSegment == ps
              && IsChain(n.parametricChild.value.childNode, route[1..], h)
  }

  /** One `getNode` step puts a chain for `rest` under the node of `seg`. */
  lemma SegmentNodeShape<H>(seg: RouteSegment, res: RouteTreeNode<H>, rest: seq<RouteSegment>, h: H)
    requires IsChain(res, rest, h)
    ensures SegmentNode(seg, res).Ok? <==> (seg.PathSegment? ==> IsValidSegment(seg.path))
    ensures SegmentNode(seg, res).Err? ==> SegmentNode(seg, res).error == IllegalArgument
    ensures SegmentNode(seg, res).Ok? ==> IsChain(SegmentNode(seg, res).value, [seg] + rest, h)
  {
    assert ([seg] + rest)[0] == seg && ([seg] + rest)[1..] == rest;
  }

  lemma AllPathsValidSnoc(init: seq<RouteSegment>, last: RouteSegment)
    ensures AllPathsValid(init + [last]) <==>
      AllPathsValid(init) && (last.PathSegment? ==> IsValidSegment(last.path))
  {
    var segs := init + [last];
    assert forall i :: 0 <= i < |init| ==> segs[i] == init[i];
    assert segs[|init|] == last;
  }

  /**
   * Wrapping a chain for `rest` in the nodes of `segs` gives a chain for
   * `segs + rest`, and fails exactly when some literal of `segs` is invalid.
   */
  lemma {:induction false} ChainFromShape<H>(segs: seq<RouteSegment>, res: RouteTreeNode<H>, rest: seq<RouteSegment>, h: H)
    requires IsChain(res, rest, h)
    ensures ChainFrom(segs, res).Ok? <==> AllPathsValid(segs)
    ensures ChainFrom(segs, res).Err? ==> ChainFrom(segs, res).error == IllegalArgument
    ensures ChainFrom(segs, res).Ok? ==> IsChain(ChainFrom(segs, res).value, segs + rest, h)
    decreases |segs|
  {
    if segs != [] {
      var last := segs[|segs| - 1];
      var init := segs[..|segs| - 1];
      assert init + [last] == segs;
      AllPathsValidSnoc(init, last);
      SegmentNodeShape(last, res, rest, h);
      if SegmentNode(last, res).Ok? {
        var n := SegmentNode(last, res).value;
        ChainFromShape(init, n, [last] + rest, h);
        assert init + ([last] + rest) == segs + rest;
      }
    } else {
      assert segs + rest == rest;
    }
  }

  /**
   * `build(h)` succeeds exactly when every literal is a valid key, and then
   * yields the chain for the queued segments, with `h` at the bottom only;
   * with no segments it is a single root-labelled node.
   */
  lemma BuildShape<H>(segs: seq<RouteSegment>, h: H)
    ensures BuildSpec(segs, h).Ok? <==> AllPathsValid(segs)
    ensures BuildSpec(segs, h).Err? ==> BuildSpec(segs, h).error == IllegalArgument
    ensures BuildSpec(segs, h).Ok? ==> IsChain(BuildSpec(segs, h).value, segs, h)
    ensures |segs| == 0 ==> BuildSpec(segs, h) == Ok(RouteTreeNode(RootLabel, Some(h), map[], None, None))
  {
    if |segs| > 0 {
      ChainFromShape(segs, HandlerNode(BottomLabel, h), [], h);
      assert segs + [] == segs;
    }
  }

  /** `getNode` with a fresh node builder, as the private segment classes do it. */
  method GetNode<H>(seg: RouteSegment, childNode: RouteTreeNode<H>) returns (r: Result<RouteTreeNode<H>>)
    ensures r == SegmentNode(seg, childNode)
  {
    var builder := new RouteTreeNodeBuilder<H>();
    match seg
    case PathSegment(p) =>
      var o := builder.AddPathSegmentChild(p, childNode);
      if o.Fail? {
        return Err(o.error);
      }
      r := Ok(builder.CreateNode(SegmentLabel(seg)));
    case ParamSegment(ps) =>
      var o := builder.SetParametricChild(ps, childNode);
      r := Ok(builder.CreateNode(SegmentLabel(seg)));
  }

  class SingleRouteBuilder {
    var segments: seq<RouteSegment>

    constructor ()
      ensures segments == []
    {
      segments := [];
    }

    /** Queues a literal; validation waits until `build`. */
    method Path(path: string)
      modifies this
      ensures segments == old(segments) + [PathSegment(path)]
    {
      segments := segments + [PathSegment(path)];
    }

    /** Queues a string-typed parameter. */
    method Param(name: string)
      modifies this
      ensures segments == old(segments) + [ParamSegment(StringSegment(name))]
    {
      segments := segments + [ParamSegment(StringSegment(name))];
    }

    /** Builds the chain bottom-up, from the last queued segment to the first. */
    method Build<H>(handler: H) returns (r: Result<RouteTreeNode<H>>)
      ensures r == BuildSpec(segments, handler)
    {
      var bottomNodeBuilder := new RouteTreeNodeBuilder<H>();
      if |segments| == 0 {
        bottomNodeBuilder.SetHandler(handler);
        return Ok(bottomNodeBuilder.CreateNode(RootLabel));
      }
      bottomNodeBuilder.SetHandler(handler);
      var res := bottomNodeBuilder.CreateNode(BottomLabel);
      assert res == HandlerNode(BottomLabel, handler);
      var i := |segments|;
      assert segments[..i] == segments;
      while i > 0
        invariant 0 <= i <= |segments|
        invariant BuildSpec(segments, handler) == ChainFrom(segments[..i], res)
        decreases i
      {
        assert segments[..i][..i - 1] == segments[..i - 1];
        var n := GetNode(segments[i - 1], res);
        if n.Err? {
          return Err(n.error);
        }
        res := n.value;
        i := i - 1;
      }
      return Ok(res);
    }
  }

  /** A client: `/projects/:id` becomes a literal node over a string-parameter node over the handler. */
  method ProjectsIdRoute<H>(h: H) returns (r: Result<RouteTreeNode<H>>)
    ensures r.Ok?
    ensures var top := r.value;
      && top.handler.None? && top.pathSegmentChildNodes.Keys == {"projects"}
      && var mid := top.pathSegmentChildNodes["projects"];
      && mid.handler.None? && mid.parametricChild.Some?
      && mid.parametricChild.value.parametricSegment == StringSegment("id")
      && mid.parametricChild.value.childNode.handler == Some(h)
  {
    var b := new SingleRouteBuilder();
    b.Path("projects");
    b.Param("id");
    r := b.Build(h);
    var route := [PathSegment("projects"), ParamSegment(StringSegment("id"))];
    assert b.segments == route;
    assert IsValidSegment("projects");
    BuildShape(route, h);
    assert route[1..] == [ParamSegment(StringSegment("id"))] && route[1..][1..] == [];
  }
}
