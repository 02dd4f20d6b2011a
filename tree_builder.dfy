/**
 * The fluent tree builder (RouteTreeBuilder): each call stages something on
 * the wrapped node builder; literal paths and parameter names lose one
 * leading prefix first.
 */
module TreeBuilder {
  import opened Wrappers
  import opened Segments
  import opened RouteTree
  import opened NodeBuilder

  const WildcardLabel := "::WILDCARD::"

  /** The literal key under which `path` is installed: one leading `/` removed. */
  function NormalizePath(path: string): string {
    if |path| >= 1 && path[0] == '/' then path[1..] else path
  }

  /** The parameter name of `param(name, ...)`: one leading `/:` removed. */
  function NormalizeParam(paramName: string): string {
    if |paramName| >= 2 && paramName[0] == '/' && paramName[1] == ':' then paramName[2..] else paramName
  }

  function ParamLabel(paramName: string): string {
    "::PARAM:" + paramName + "::"
  }

  /**
   * `path` accepts exactly one nesting level: a valid key, with or without a
   * single leading `/`.
   */
  lemma PathAccepted(path: string)
    ensures IsValidSegment(NormalizePath(path)) <==>
      IsValidSegment(path) || (|path| > 0 && path[0] == '/' && IsValidSegment(path[1..]))
    ensures IsValidSegment(NormalizePath(path)) ==> '/' !in NormalizePath(path)
  {
    if |path| > 0 && path[0] == '/' {
      assert !IsSegmentChar(path[0]);
    }
  }

  /** Normalisation on concrete inputs: a nested path is refused, `"/:id"` names `id`. */
  lemma NormalizeExamples()
    ensures NormalizePath("/foo") == "foo" && NormalizePath("foo") == "foo" && NormalizePath("//a") == "/a"
    ensures NormalizePath("/a/b") == "a/b" && !IsValidSegment(NormalizePath("/a/b"))
    ensures NormalizeParam("/:id") == "id" && NormalizeParam("id") == "id" && NormalizeParam(":id") == ":id"
  {
    assert !IsSegmentChar("a/b"[1]);
  }

  class RouteTreeBuilder<H> {
    const nodeBuilder: RouteTreeNodeBuilder<H>

    constructor ()
      ensures fresh(nodeBuilder)
      ensures nodeBuilder.handler == None && nodeBuilder.pathSegmentChildNodes == map[]
      ensures nodeBuilder.parametricChild == None && nodeBuilder.wildcardChild == None
    {
      nodeBuilder := new RouteTreeNodeBuilder<H>();
    }

    /** The current state frozen under a label. */
    function BuildLabelled(nodeLabel: string): (n: RouteTreeNode<H>)
      reads nodeBuilder
      ensures n == nodeBuilder.CreateNode(nodeLabel)
    {
      nodeBuilder.CreateNode(nodeLabel)
    }

    /** The current state frozen as a root node. */
    function Build(): (n: RouteTreeNode<H>)
      reads nodeBuilder
      ensures n.nodeLabel == RootLabel && n.handler == nodeBuilder.handler
      ensures n.pathSegmentChildNodes == nodeBuilder.pathSegmentChildNodes
      ensures n.parametricChild == nodeBuilder.parametricChild && n.wildcardChildNode == nodeBuilder.wildcardChild
    {
      nodeBuilder.CreateNode(RootLabel)
    }

    method Handler(h: H)
      modifies nodeBuilder
      ensures nodeBuilder.handler == Some(h)
      ensures nodeBuilder.pathSegmentChildNodes == old(nodeBuilder.pathSegmentChildNodes)
      ensures nodeBuilder.parametricChild == old(nodeBuilder.parametricChild)
      ensures nodeBuilder.wildcardChild == old(nodeBuilder.wildcardChild)
    {
      nodeBuilder.SetHandler(h);
    }

    /** Installs the child builder's tree as a literal child under the normalised path. */
    method Path(path: string, childBuilder: RouteTreeBuilder<H>) returns (o: Outcome)
      modifies nodeBuilder
      ensures o.Pass? <==> IsValidSegment(NormalizePath(path))
      ensures o.Fail? ==> o.error == IllegalArgument
      ensures nodeBuilder.pathSegmentChildNodes ==
        if o.Pass?
        then old(nodeBuilder.pathSegmentChildNodes)[NormalizePath(path) := old(childBuilder.BuildLabelled(NormalizePath(path)))]
        else old(nodeBuilder.pathSegmentChildNodes)
      ensures nodeBuilder.handler == old(nodeBuilder.handler)
      ensures nodeBuilder.parametricChild == old(nodeBuilder.parametricChild)
      ensures nodeBuilder.wildcardChild == old(nodeBuilder.wildcardChild)
    {
      var normalizedPath := NormalizePath(path);
      var child := childBuilder.BuildLabelled(normalizedPath);
      o := nodeBuilder.AddPathSegmentChild(normalizedPath, child);
    }

    /** Installs a string parameter named by the normalised name; set-once. */
    method Param(paramName: string, childBuilder: RouteTreeBuilder<H>) returns (o: Outcome)
      modifies nodeBuilder
      ensures o.Pass? <==> old(nodeBuilder.parametricChild).None?
      ensures o.Fail? ==> o.error == IllegalState
      ensures nodeBuilder.parametricChild ==
        if o.Pass?
        then Some(ParametricChild(
          StringSegment(NormalizeParam(paramName)),
          old(childBuilder.BuildLabelled(ParamLabel(NormalizeParam(paramName))))))
        else old(nodeBuilder.parametricChild)
      ensures nodeBuilder.handler == old(nodeBuilder.handler)
      ensures nodeBuilder.pathSegmentChildNodes == old(nodeBuilder.pathSegmentChildNodes)
      ensures nodeBuilder.wildcardChild == old(nodeBuilder.wildcardChild)
    {
      var normalizedParam := NormalizeParam(paramName);
      var child := childBuilder.BuildLabelled(ParamLabel(normalizedParam));
      o := nodeBuilder.SetParametricChild(StringSegment(normalizedParam), child);
    }

    /** The overload taking a descriptor: installed as given; set-once. */
    method ParamWithSegment(segment: ParametricSegment, childBuilder: RouteTreeBuilder<H>) returns (o: Outcome)
      modifies nodeBuilder
      ensures o.Pass? <==> old(nodeBuilder.parametricChild).None?
      ensures o.Fail? ==> o.error == IllegalState
      ensures nodeBuilder.parametricChild ==
        if o.Pass?
        then Some(ParametricChild(segment, old(childBuilder.BuildLabelled(ParamLabel(segment.paramName)))))
        else old(nodeBuilder.parametricChild)
      ensures nodeBuilder.handler == old(nodeBuilder.handler)
      ensures nodeBuilder.pathSegmentChildNodes == old(nodeBuilder.pathSegmentChildNodes)
      ensures nodeBuilder.wildcardChild == old(nodeBuilder.wildcardChild)
    {
      var child := childBuilder.BuildLabelled(ParamLabel(segment.paramName));
      o := nodeBuilder.SetParametricChild(segment, child);
    }

    /** Installs the child builder's tree as the wildcard child; set-once. */
    method Wildcard(childBuilder: RouteTreeBuilder<H>) returns (o: Outcome)
      modifies nodeBuilder
      ensures o.Pass? <==> old(nodeBuilder.wildcardChild).None?
      ensures o.Fail? ==> o.error == IllegalState
      ensures nodeBuilder.wildcardChild ==
        if o.Pass? then Some(old(childBuilder.BuildLabelled(WildcardLabel))) else old(nodeBuilder.wildcardChild)
      ensures nodeBuilder.handler == old(nodeBuilder.handler)
      ensures nodeBuilder.pathSegmentChildNodes == old(nodeBuilder.pathSegmentChildNodes)
      ensures nodeBuilder.parametricChild == old(nodeBuilder.parametricChild)
    {
      var child := childBuilder.BuildLabelled(WildcardLabel);
      o := nodeBuilder.SetWildcardChild(child);
    }
  }
}
