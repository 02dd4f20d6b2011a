/**
 * The pieces together: trees built by the two builders, merged, and matched
 * against parsed URL paths.
 */
module EndToEnd {
  import opened Wrappers
  import opened Segments
  import opened RouteTree
  import opened MatchResults
  import opened RouteMatches
  import opened NodeBuilder
  import opened TreeBuilder
  import opened SingleRoute
  import opened Matcher
  import opened PathSegments

  // ---------------------------------------------------------------------------
  // The projects tree: a root handler, `/projects/:id` with a number
  // parameter, and the literal `/projects/new` beside it.

  function ProjectsExample<H>(h0: H, h1: H, h2: H): RouteTreeNode<H> {
    var idNode := RouteTreeNode(ParamLabel("id"), Some(h1), map[], None, None);
    var newNode := RouteTreeNode("new", Some(h2), map[], None, None);
    var projects := RouteTreeNode("projects", None, map["new" := newNode],
                                  Some(ParametricChild(NumberSegment("id"), idNode)), None);
    RouteTreeNode(RootLabel, Some(h0), map["projects" := projects], None, None)
  }

  /** The `/projects` builder: a number parameter and the literal `new`; a second `param` is refused. */
  method ProjectsBuilder<H>(h1: H, h2: H) returns (projectsBuilder: RouteTreeBuilder<H>, second: Outcome)
    ensures fresh(projectsBuilder.nodeBuilder)
    ensures projectsBuilder.BuildLabelled("projects") == ProjectsExample(h1, h1, h2).pathSegmentChildNodes["projects"]
    ensures second == Fail(IllegalState)
  {
    var idBuilder := new RouteTreeBuilder<H>();
    idBuilder.Handler(h1);
    var newBuilder := new RouteTreeBuilder<H>();
    newBuilder.Handler(h2);
    projectsBuilder := new RouteTreeBuilder<H>();
    var o := projectsBuilder.ParamWithSegment(NumberSegment("id"), idBuilder);
    second := projectsBuilder.Param("/:other", idBuilder);
    assert NormalizePath("/new") == "new" && IsValidSegment("new");
    o := projectsBuilder.Path("/new", newBuilder);
  }

  /** The fluent builder produces that tree; a second `param` on one builder is refused. */
  method BuildProjectsTree<H>(h0: H, h1: H, h2: H) returns (root: RouteTreeNode<H>, second: Outcome)
    ensures root == ProjectsExample(h0, h1, h2)
    ensures second == Fail(IllegalState)
  {
    var projectsBuilder;
    projectsBuilder, second := ProjectsBuilder(h1, h2);
    ghost var projects := projectsBuilder.BuildLabelled("projects");
    var rootBuilder := new RouteTreeBuilder<H>();
    rootBuilder.Handler(h0);
    assert NormalizePath("projects") == "projects" && IsValidSegment("projects");
    var o := rootBuilder.Path("projects", projectsBuilder);
    root := rootBuilder.Build();
    assert root.pathSegmentChildNodes == map["projects" := projects];
  }

  /** `/projects/42` reaches the parameter handler with `id = 42` as an integer. */
  lemma ProjectsNumber<H, R>(h0: H, h1: H, h2: H, call: (H, RouteMatch) -> R)
    ensures MatchSpec(ProjectsExample(h0, h1, h2), ["projects", "42"], call)
      == Some(call(h1, RouteMatch(["projects", "42"], MatchData(map["id" := 42], map[], []))))
  {
    NumberSegmentRoundTrip("id", 42);
    assert DecimalString(42) == "42";
    var projects := ProjectsExample(h0, h1, h2).pathSegmentChildNodes["projects"];
    assert "42" !in projects.pathSegmentChildNodes;
    var d := MatchData(map["id" := 42], map[], []);
    assert AddParametric(EmptyMatchData, NumberSegment("id"), "42") == Some(d);
    assert Step(projects, ["projects", "42"], 1, EmptyMatchData)
      == Some((projects.parametricChild.value.childNode, 2, d));
  }

  /** `/projects/new` takes the literal child and gathers no parameter. */
  lemma ProjectsLiteral<H, R>(h0: H, h1: H, h2: H, call: (H, RouteMatch) -> R)
    ensures MatchSpec(ProjectsExample(h0, h1, h2), ["projects", "new"], call)
      == Some(call(h2, RouteMatch(["projects", "new"], EmptyMatchData)))
  {
    var projects := ProjectsExample(h0, h1, h2).pathSegmentChildNodes["projects"];
    assert Step(projects, ["projects", "new"], 1, EmptyMatchData)
      == Some((projects.pathSegmentChildNodes["new"], 2, EmptyMatchData));
  }

  /** `/projects/abc` and `/projects/12a` are rejected by the number parameter: no match. */
  lemma ProjectsRejected<H, R>(h0: H, h1: H, h2: H, call: (H, RouteMatch) -> R)
    ensures MatchSpec(ProjectsExample(h0, h1, h2), ["projects", "abc"], call).None?
    ensures MatchSpec(ProjectsExample(h0, h1, h2), ["projects", "12a"], call).None?
  {
    assert !IsDecimalLiteral("abc") by { assert !IsSign("abc"[0]) && !IsDigit("abc"[0]); }
    assert !IsDecimalLiteral("12a") by { assert !IsSign("12a"[0]) && !IsDigit("12a"[2]); }
    assert "abc" !in ProjectsExample(h0, h1, h2).pathSegmentChildNodes["projects"].pathSegmentChildNodes;
    assert "12a" !in ProjectsExample(h0, h1, h2).pathSegmentChildNodes["projects"].pathSegmentChildNodes;
  }

  /** The root path reaches the root handler; an unknown first segment matches nothing. */
  lemma ProjectsRootAndUnknown<H, R>(h0: H, h1: H, h2: H, call: (H, RouteMatch) -> R)
    ensures MatchSpec(ProjectsExample(h0, h1, h2), Parse("/"), call)
      == Some(call(h0, RouteMatch([], EmptyMatchData)))
    ensures MatchSpec(ProjectsExample(h0, h1, h2), ["users"], call).None?
  {
    ParseRootExamples();
  }

  /** From URL text: `/projects/42?x=1` is the segments `projects`, `42`. */
  lemma ProjectsUrl()
    ensures Parse("/projects/42?x=1") == ["projects", "42"]
  {
    var r := ["projects", "42"];
    assert r[1..] == ["42"];
    assert Join(r, '/') == "projects" + ['/'] + "42" == "projects/42";
    var p := [""] + r;
    assert p[1..] == r;
    assert Render(r) == "" + ['/'] + "projects/42" == "/projects/42";
    assert Render(r) + "?" + "x=1" == "/projects/42?x=1";
    ParseRender(r, "x=1");
  }

  // ---------------------------------------------------------------------------
  // The files tree: `/files` with a wildcard child below it.

  function FilesExample<H>(filesHandler: Option<H>, hw: H): RouteTreeNode<H> {
    var wild := RouteTreeNode(WildcardLabel, Some(hw), map[], None, None);
    var files := RouteTreeNode("files", filesHandler, map[], None, Some(wild));
    RouteTreeNode(RootLabel, None, map["files" := files], None, None)
  }

  /** `/files/a/b/c`: the wildcard handler, with the captured segments in order. */
  lemma FilesCapture<H, R>(filesHandler: Option<H>, hw: H, call: (H, RouteMatch) -> R)
    ensures MatchSpec(FilesExample(filesHandler, hw), ["files", "a", "b", "c"], call)
      == Some(call(hw, RouteMatch(["files", "a", "b", "c"], MatchData(map[], map[], ["a", "b", "c"]))))
  {
    assert ["files", "a", "b", "c"][1..] == ["a", "b", "c"];
    assert [] + ["a", "b", "c"] == ["a", "b", "c"];
  }

  /**
   * `/files` alone: the wildcard does not fire on no segments, so the files
   * node's own handler decides, with an empty wildcard list.
   */
  lemma FilesAlone<H, R>(filesHandler: Option<H>, hw: H, call: (H, RouteMatch) -> R)
    ensures MatchSpec(FilesExample(filesHandler, hw), ["files"], call)
      == if filesHandler.Some? then Some(call(filesHandler.value, RouteMatch(["files"], EmptyMatchData))) else None
  {
  }

  // ---------------------------------------------------------------------------
  // Single routes and merged trees under the matcher.

  /** A request segment that a queued route segment lets through. */
  predicate Accepts(seg: RouteSegment, x: string) {
    match seg
    case PathSegment(p) => x == p
    case ParamSegment(ps) => GetValue(ps, x).Some?
  }

  predicate AcceptsFrom(route: seq<RouteSegment>, req: seq<string>, i: nat)
    requires i + |route| <= |req|
  {
    forall j :: 0 <= j < |route| ==> Accepts(route[j], req[i + j])
  }

  lemma AcceptsFromCons(route: seq<RouteSegment>, req: seq<string>, i: nat)
    requires |route| > 0 && i + |route| <= |req|
    ensures AcceptsFrom(route, req, i) <==> Accepts(route[0], req[i]) && AcceptsFrom(route[1..], req, i + 1)
  {
    if Accepts(route[0], req[i]) && AcceptsFrom(route[1..], req, i + 1) {
      forall j | 0 <= j < |route| ensures Accepts(route[j], req[i + j]) {
        if j > 0 {
          assert route[j] == route[1..][j - 1];
        }
      }
    }
    if AcceptsFrom(route, req, i) {
      forall j | 0 <= j < |route| - 1 ensures Accepts(route[1..][j], req[i + 1 + j]) {
        assert route[1..][j] == route[j + 1];
      }
    }
  }

  /**
   * A chain for `route` serves exactly the requests of its length whose
   * segments each equal the literal, or pass the parameter's parser, at the
   * same position; the handler reached is the chain's one handler.
   */
  lemma {:induction false} ChainWalk<H>(c: RouteTreeNode<H>, route: seq<RouteSegment>, h: H,
                                        req: seq<string>, i: nat, acc: MatchData)
    requires IsChain(c, route, h) && i <= |req|
    ensures var w := Walk(c, req, i, acc);
      (w.Some? && w.value.0.handler.Some?) <==> (i + |route| == |req| && AcceptsFrom(route, req, i))
    ensures var w := Walk(c, req, i, acc);
      w.Some? && w.value.0.handler.Some? ==> w.value.0.handler == Some(h)
    decreases |route|
  {
    if route != [] && i < |req| {
      if i + |route| <= |req| {
        AcceptsFromCons(route, req, i);
      }
      match route[0]
      case PathSegment(p) =>
        if req[i] == p {
          ChainWalk(c.pathSegmentChildNodes[p], route[1..], h, req, i + 1, acc);
        }
      case ParamSegment(ps) =>
        var next := AddParametric(acc, ps, req[i]);
        if next.Some? {
          ChainWalk(c.parametricChild.value.childNode, route[1..], h, req, i + 1, next.value);
        }
    }
  }

  /**
   * A route built by the single-route builder matches a request exactly when
   * the request has as many segments as the route and each one is accepted
   * at its position; the route's handler is the one called.
   */
  lemma BuiltRouteMatches<H, R>(segs: seq<RouteSegment>, h: H, req: seq<string>, call: (H, RouteMatch) -> R)
    requires AllPathsValid(segs)
    ensures BuildSpec(segs, h).Ok?
    ensures MatchSpec(BuildSpec(segs, h).value, req, call).Some? <==>
      |req| == |segs| && AcceptsFrom(segs, req, 0)
    ensures MatchSpec(BuildSpec(segs, h).value, req, call).Some? ==>
      MatchSpec(BuildSpec(segs, h).value, req, call).value
        == call(h, RouteMatch(req, Walk(BuildSpec(segs, h).value, req, 0, EmptyMatchData).value.1))
  {
    BuildShape(segs, h);
    ChainWalk(BuildSpec(segs, h).value, segs, h, req, 0, EmptyMatchData);
  }

  /**
   * A literal route of one operand only is served by the merged tree just as
   * by that operand.
   */
  lemma MergedServesOneSidedRoutes<H, R>(a: RouteTreeNode<H>, b: RouteTreeNode<H>, hm: (H, H) -> H,
                                         req: seq<string>, call: (H, RouteMatch) -> R)
    requires Mergeable(a, b)
    ensures LiteralPath(a, req).Some? && LiteralPath(b, req).None? ==>
      MatchSpec(Merged(a, b, hm), req, call) == MatchSpec(a, req, call)
    ensures LiteralPath(a, req).None? && LiteralPath(b, req).Some? ==>
      MatchSpec(Merged(a, b, hm), req, call) == MatchSpec(b, req, call)
  {
    var m := Merged(a, b, hm);
    MergeKeepsLiteralRoutes(a, b, hm, req);
    assert req[0..] == req;
    if LiteralPath(a, req).Some? && LiteralPath(b, req).None? {
      LiteralRouteWalk(m, req, 0, EmptyMatchData);
      LiteralRouteWalk(a, req, 0, EmptyMatchData);
    }
    if LiteralPath(a, req).None? && LiteralPath(b, req).Some? {
      LiteralRouteWalk(m, req, 0, EmptyMatchData);
      LiteralRouteWalk(b, req, 0, EmptyMatchData);
    }
  }

  /**
   * A literal route of both operands is served by the merged handler: the
   * left one merged with the right one, or whichever of the two exists.
   */
  lemma MergedServesSharedRoutes<H, R>(a: RouteTreeNode<H>, b: RouteTreeNode<H>, hm: (H, H) -> H,
                                       req: seq<string>, call: (H, RouteMatch) -> R)
    requires Mergeable(a, b)
    requires LiteralPath(a, req).Some? && LiteralPath(b, req).Some?
    ensures var mh := MergedHandler(LiteralPath(a, req).value.handler, LiteralPath(b, req).value.handler, hm);
      MatchSpec(Merged(a, b, hm), req, call)
      == if mh.Some? then Some(call(mh.value, RouteMatch(req, EmptyMatchData))) else None
  {
    var m := Merged(a, b, hm);
    MergeKeepsLiteralRoutes(a, b, hm, req);
    assert req[0..] == req;
    LiteralRouteWalk(m, req, 0, EmptyMatchData);
  }

  /** Swapping the operands of a merge swaps the arguments of the handler merge. */
  lemma MergeOrderSwapsHandlers<H>(a: RouteTreeNode<H>, b: RouteTreeNode<H>, hm: (H, H) -> H)
    requires Mergeable(a, b) && Mergeable(b, a)
    requires a.handler.Some? && b.handler.Some?
    ensures MergeSpec(a, b, hm).value.handler == Some(hm(a.handler.value, b.handler.value))
    ensures MergeSpec(b, a, hm).value.handler == Some(hm(b.handler.value, a.handler.value))
  {
    MergeHandlerLaw(a, b, hm);
    MergeHandlerLaw(b, a, hm);
  }

  /** Swapping the operands of a merge swaps which parametric descriptor wins: always the right one. */
  lemma MergeOrderSwapsDescriptors<H>(a: RouteTreeNode<H>, b: RouteTreeNode<H>, hm: (H, H) -> H)
    requires Mergeable(a, b) && Mergeable(b, a)
    requires a.parametricChild.Some? && b.parametricChild.Some?
    ensures MergeSpec(a, b, hm).value.parametricChild.Some? && MergeSpec(b, a, hm).value.parametricChild.Some?
    ensures MergeSpec(a, b, hm).value.parametricChild.value.parametricSegment == b.parametricChild.value.parametricSegment
    ensures MergeSpec(b, a, hm).value.parametricChild.value.parametricSegment == a.parametricChild.value.parametricSegment
  {
    MergeParametricLaw(a, b, hm);
    MergeParametricLaw(b, a, hm);
  }
}
