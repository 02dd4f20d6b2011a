/**
 * The immutable route tree (RouteTreeNode, ParametricChild) and the deep
 * left-to-right merge of two trees.
 *
 * The merge is specified by `Mergeable` (it does not throw) and `Merged`
 * (the tree it builds); `MergeNodes` is the original's recursive merge with
 * its map-copying loop, proved to compute `MergeSpec`.
 */
module RouteTree {
  import opened Wrappers
  import opened Segments

  /** A parametric segment descriptor paired with the subtree it leads to. */
  datatype ParametricChild<H> = ParametricChild(parametricSegment: ParametricSegment, childNode: RouteTreeNode<H>)

  /** One node: an optional handler and up to three kinds of children. */
  datatype RouteTreeNode<H> = RouteTreeNode(
    nodeLabel: string,
    handler: Option<H>,
    pathSegmentChildNodes: map<string, RouteTreeNode<H>>,
    parametricChild: Option<ParametricChild<H>>,
    wildcardChildNode: Option<RouteTreeNode<H>>)
  {
    predicate ContainsPathSegmentChildNodes(pathSegment: string) {
      pathSegment in pathSegmentChildNodes
    }

    function GetPathSegmentChildNode(pathSegment: string): Option<RouteTreeNode<H>> {
      if pathSegment in pathSegmentChildNodes then Some(pathSegmentChildNodes[pathSegment]) else None
    }

    predicate HasParametricChild() {
      parametricChild.Some?
    }

    function ParametricChildSegment(): ParametricSegment
      requires HasParametricChild()
    {
      parametricChild.value.parametricSegment
    }

    function ParametricChildNode(): RouteTreeNode<H>
      requires HasParametricChild()
    {
      parametricChild.value.childNode
    }

    predicate HasWildcardChild() {
      wildcardChildNode.Some?
    }
  }

  const RootLabel := "::ROOT::"

  /** The node of the no-argument constructor: no handler and no children. */
  function EmptyNode<H>(): (n: RouteTreeNode<H>)
    ensures n.handler == None && n.pathSegmentChildNodes == map[]
    ensures !n.HasParametricChild() && !n.HasWildcardChild()
  {
    RouteTreeNode(RootLabel, None, map[], None, None)
  }

  /**
   * The ParametricChild constructor over nullable arguments: exactly one of
   * the two present is an IllegalArgument; both absent is accepted and pairs
   * nothing.
   */
  function NewParametricChild<H>(segment: Option<ParametricSegment>, childNode: Option<RouteTreeNode<H>>)
    : (r: Result<Option<ParametricChild<H>>>)
    ensures r.Err? <==> segment.Some? != childNode.Some?
    ensures r.Err? ==> r.error == IllegalArgument
    ensures r.Ok? && segment.Some? ==>
      r.value.Some? && r.value.value.parametricSegment == segment.value && r.value.value.childNode == childNode.value
    ensures r.Ok? && segment.None? ==> r.value.None?
  {
    match (segment, childNode)
    case (Some(s), Some(c)) => Ok(Some(ParametricChild(s, c)))
    case (None, None) => Ok(None)
    case _ => Err(IllegalArgument)
  }

  /** A literal-child lookup succeeds exactly when the key is present. */
  lemma ChildAccessors<H>(n: RouteTreeNode<H>, pathSegment: string)
    ensures n.ContainsPathSegmentChildNodes(pathSegment) <==> n.GetPathSegmentChildNode(pathSegment).Some?
    ensures n.ContainsPathSegmentChildNodes(pathSegment) ==>
      n.GetPathSegmentChildNode(pathSegment).value == n.pathSegmentChildNodes[pathSegment]
    ensures n.HasParametricChild() ==>
      n.parametricChild == Some(ParametricChild(n.ParametricChildSegment(), n.ParametricChildNode()))
  {
  }

  // ---------------------------------------------------------------------------
  // Specification of merge.

  /**
   * The merge does not throw: wherever the left tree has a wildcard child the
   * right one has one too (the `!!` of getMergedWildcardChild), at every pair
   * of positions that the merge visits.
   */
  predicate Mergeable<H>(a: RouteTreeNode<H>, b: RouteTreeNode<H>)
    decreases a
  {
    && (forall k :: k in a.pathSegmentChildNodes && k in b.pathSegmentChildNodes ==>
          Mergeable(a.pathSegmentChildNodes[k], b.pathSegmentChildNodes[k]))
    && (a.parametricChild.Some? && b.parametricChild.Some? ==>
          Mergeable(a.parametricChild.value.childNode, b.parametricChild.value.childNode))
    && (a.wildcardChildNode.Some? ==>
          b.wildcardChildNode.Some? && Mergeable(a.wildcardChildNode.value, b.wildcardChildNode.value))
  }

  /** getMergedHandler: the right handler merged into the left one, or whichever exists. */
  function MergedHandler<H>(left: Option<H>, right: Option<H>, hm: (H, H) -> H): Option<H> {
    if right.None? then left
    else if left.None? then right
    else Some(hm(left.value, right.value))
  }

  /** The tree that a non-throwing merge of `a` with `b` builds. */
  function Merged<H>(a: RouteTreeNode<H>, b: RouteTreeNode<H>, hm: (H, H) -> H): RouteTreeNode<H>
    requires Mergeable(a, b)
    decreases a, 1
  {
    RouteTreeNode(
      b.nodeLabel,
      MergedHandler(a.handler, b.handler, hm),
      MergedChildren(a, b, hm),
      MergedParametric(a, b, hm),
      MergedWildcard(a, b, hm))
  }

  /** Literal children: the union of both key sets, merging the subtrees of shared keys. */
  function MergedChildren<H>(a: RouteTreeNode<H>, b: RouteTreeNode<H>, hm: (H, H) -> H)
    : map<string, RouteTreeNode<H>>
    requires Mergeable(a, b)
    decreases a, 0
  {
    var ac := a.pathSegmentChildNodes;
    var bc := b.pathSegmentChildNodes;
    map k | k in ac.Keys + bc.Keys ::
      if k in ac && k in bc then Merged(ac[k], bc[k], hm)
      else if k in ac then ac[k]
      else bc[k]
  }

  /** Parametric child: whichever exists; for two, the right descriptor over the merged subtrees. */
  function MergedParametric<H>(a: RouteTreeNode<H>, b: RouteTreeNode<H>, hm: (H, H) -> H)
    : Option<ParametricChild<H>>
    requires Mergeable(a, b)
    decreases a, 0
  {
    if a.parametricChild.None? then b.parametricChild
    else if b.parametricChild.None? then a.parametricChild
    else Some(ParametricChild(
      b.parametricChild.value.parametricSegment,
      Merged(a.parametricChild.value.childNode, b.parametricChild.value.childNode, hm)))
  }

  /** Wildcard child: the right one if the left has none, else the merge of both. */
  function MergedWildcard<H>(a: RouteTreeNode<H>, b: RouteTreeNode<H>, hm: (H, H) -> H)
    : Option<RouteTreeNode<H>>
    requires Mergeable(a, b)
    decreases a, 0
  {
    if a.wildcardChildNode.None? then b.wildcardChildNode
    else Some(Merged(a.wildcardChildNode.value, b.wildcardChildNode.value, hm))
  }

  /** `a.merge(b)`: the merged tree, or the NullPointerException it throws. */
  function MergeSpec<H>(a: RouteTreeNode<H>, b: RouteTreeNode<H>, hm: (H, H) -> H): Result<RouteTreeNode<H>> {
    if Mergeable(a, b) then Ok(Merged(a, b, hm)) else Err(NullPointer)
  }

  // ---------------------------------------------------------------------------
  // The merge as the original computes it.

  /** The public `merge(other)`: a missing operand fails fast. */
  method Merge<H>(a: RouteTreeNode<H>, other: Option<RouteTreeNode<H>>, hm: (H, H) -> H)
    returns (r: Result<RouteTreeNode<H>>)
    ensures other.None? ==> r == Err(NullPointer)
    ensures other.Some? ==> r == MergeSpec(a, other.value, hm)
  {
    if other.None? {
      return Err(NullPointer);
    }
    r := MergeNodes(a, other.value, hm);
  }

  /** The private recursive merge; the result takes the right operand's label. */
  method MergeNodes<H>(a: RouteTreeNode<H>, b: RouteTreeNode<H>, hm: (H, H) -> H)
    returns (r: Result<RouteTreeNode<H>>)
    ensures r == MergeSpec(a, b, hm)
    decreases a, 1
  {
    var handler := MergedHandler(a.handler, b.handler, hm);
    var children := MergedPathSegmentChildNodes(a, b, hm);
    if children.Err? {
      return Err(NullPointer);
    }
    var parametric := MergedParametricChild(a, b, hm);
    if parametric.Err? {
      return Err(NullPointer);
    }
    var wildcard := MergedWildcardChild(a, b, hm);
    if wildcard.Err? {
      return Err(NullPointer);
    }
    r := Ok(RouteTreeNode(b.nodeLabel, handler, children.value, parametric.value, wildcard.value));
    assert r.value == Merged(a, b, hm);
  }

  /**
   * The state of the copying loop with the right keys in `todo` still to
   * put: `res` holds every left child, every right child already put, and
   * the merge of the two on every shared key already put.
   */
  ghost predicate ChildrenPutSoFar<H>(ac: map<string, RouteTreeNode<H>>, bc: map<string, RouteTreeNode<H>>,
                                      todo: set<string>, res: map<string, RouteTreeNode<H>>, hm: (H, H) -> H)
  {
    && todo <= bc.Keys
    && res.Keys == ac.Keys + (bc.Keys - todo)
    && (forall k :: k in ac && k in bc && k !in todo ==>
          Mergeable(ac[k], bc[k]) && res[k] == Merged(ac[k], bc[k], hm))
    && (forall k :: k in ac && (k !in bc || k in todo) ==> res[k] == ac[k])
    && (forall k :: k !in ac && k in bc && k !in todo ==> res[k] == bc[k])
  }

  /** Putting right key `k` with value `v` (the merge on a shared key, else the right child) keeps the loop state. */
  lemma ChildrenPutStep<H>(ac: map<string, RouteTreeNode<H>>, bc: map<string, RouteTreeNode<H>>,
                           todo: set<string>, res: map<string, RouteTreeNode<H>>, hm: (H, H) -> H,
                           k: string, v: RouteTreeNode<H>)
    requires ChildrenPutSoFar(ac, bc, todo, res, hm) && k in todo
    requires k in ac ==> Mergeable(ac[k], bc[k]) && v == Merged(ac[k], bc[k], hm)
    requires k !in ac ==> v == bc[k]
    ensures ChildrenPutSoFar(ac, bc, todo - {k}, res[k := v], hm)
  {
  }

  /** Once every right key is put, the loop has built `MergedChildren`. */
  lemma ChildrenPutDone<H>(a: RouteTreeNode<H>, b: RouteTreeNode<H>, res: map<string, RouteTreeNode<H>>, hm: (H, H) -> H)
    requires ChildrenPutSoFar(a.pathSegmentChildNodes, b.pathSegmentChildNodes, {}, res, hm)
    ensures forall k :: k in a.pathSegmentChildNodes && k in b.pathSegmentChildNodes ==>
      Mergeable(a.pathSegmentChildNodes[k], b.pathSegmentChildNodes[k])
    ensures Mergeable(a, b) ==> res == MergedChildren(a, b, hm)
  {
    if Mergeable(a, b) {
      var want := MergedChildren(a, b, hm);
      assert res.Keys == want.Keys;
      assert forall k | k in res :: res[k] == want[k];
    }
  }

  /** Copy the left children, then put every right child, merging on shared keys. */
  method MergedPathSegmentChildNodes<H>(a: RouteTreeNode<H>, b: RouteTreeNode<H>, hm: (H, H) -> H)
    returns (r: Result<map<string, RouteTreeNode<H>>>)
    ensures r.Ok? <==> forall k :: k in a.pathSegmentChildNodes && k in b.pathSegmentChildNodes ==>
      Mergeable(a.pathSegmentChildNodes[k], b.pathSegmentChildNodes[k])
    ensures Mergeable(a, b) ==> r.Ok? && r.value == MergedChildren(a, b, hm)
    decreases a, 0
  {
    var ac, bc := a.pathSegmentChildNodes, b.pathSegmentChildNodes;
    var res := ac;
    var todo := bc.Keys;
    while todo != {}
      invariant ChildrenPutSoFar(ac, bc, todo, res, hm)
      decreases todo
    {
      var k :| k in todo;
      var v;
      if k in ac {
        var m := MergeNodes(ac[k], bc[k], hm);
        if m.Err? {
          return Err(NullPointer);
        }
        v := m.value;
      } else {
        v := bc[k];
      }
      ChildrenPutStep(ac, bc, todo, res, hm, k, v);
      res := res[k := v];
      todo := todo - {k};
    }
    ChildrenPutDone(a, b, res, hm);
    return Ok(res);
  }

  /** Either side's parametric child; when both have one, the right descriptor wins. */
  method MergedParametricChild<H>(a: RouteTreeNode<H>, b: RouteTreeNode<H>, hm: (H, H) -> H)
    returns (r: Result<Option<ParametricChild<H>>>)
    ensures r.Ok? <==> (a.parametricChild.Some? && b.parametricChild.Some? ==>
      Mergeable(a.parametricChild.value.childNode, b.parametricChild.value.childNode))
    ensures Mergeable(a, b) ==> r.Ok? && r.value == MergedParametric(a, b, hm)
    decreases a, 0
  {
    if a.parametricChild.None? {
      return Ok(b.parametricChild);
    }
    if b.parametricChild.None? {
      return Ok(a.parametricChild);
    }
    var m := MergeNodes(a.parametricChild.value.childNode, b.parametricChild.value.childNode, hm);
    if m.Err? {
      return Err(NullPointer);
    }
    return Ok(Some(ParametricChild(b.parametricChild.value.parametricSegment, m.value)));
  }

  /** The right wildcard child if the left has none; otherwise both must exist and are merged. */
  method MergedWildcardChild<H>(a: RouteTreeNode<H>, b: RouteTreeNode<H>, hm: (H, H) -> H)
    returns (r: Result<Option<RouteTreeNode<H>>>)
    ensures r.Ok? <==> (a.wildcardChildNode.Some? ==>
      b.wildcardChildNode.Some? && Mergeable(a.wildcardChildNode.value, b.wildcardChildNode.value))
    ensures Mergeable(a, b) ==> r.Ok? && r.value == MergedWildcard(a, b, hm)
    decreases a, 0
  {
    if a.wildcardChildNode.None? {
      return Ok(b.wildcardChildNode);
    }
    if b.wildcardChildNode.None? {
      return Err(NullPointer);
    }
    var m := MergeNodes(a.wildcardChildNode.value, b.wildcardChildNode.value, hm);
    if m.Err? {
      return Err(NullPointer);
    }
    return Ok(Some(m.value));
  }

  // ---------------------------------------------------------------------------
  // Merge laws.

  /** The merged node takes the right label and resolves the handlers as getMergedHandler does. */
  lemma MergeHandlerLaw<H>(a: RouteTreeNode<H>, b: RouteTreeNode<H>, hm: (H, H) -> H)
    requires Mergeable(a, b)
    ensures MergeSpec(a, b, hm).Ok?
    ensures MergeSpec(a, b, hm).value.nodeLabel == b.nodeLabel
    ensures b.handler.None? ==> MergeSpec(a, b, hm).value.handler == a.handler
    ensures b.handler.Some? && a.handler.None? ==> MergeSpec(a, b, hm).value.handler == b.handler
    ensures b.handler.Some? && a.handler.Some? ==>
      MergeSpec(a, b, hm).value.handler == Some(hm(a.handler.value, b.handler.value))
  {
  }

  /** Literal children: union of keys; shared keys merged, one-sided ones adopted unchanged. */
  lemma MergeChildrenLaw<H>(a: RouteTreeNode<H>, b: RouteTreeNode<H>, hm: (H, H) -> H, k: string)
    requires Mergeable(a, b)
    ensures var m := MergeSpec(a, b, hm).value.pathSegmentChildNodes;
      && m.Keys == a.pathSegmentChildNodes.Keys + b.pathSegmentChildNodes.Keys
      && (k in a.pathSegmentChildNodes && k in b.pathSegmentChildNodes ==>
            MergeSpec(a.pathSegmentChildNodes[k], b.pathSegmentChildNodes[k], hm) == Ok(m[k]))
      && (k in a.pathSegmentChildNodes && k !in b.pathSegmentChildNodes ==> m[k] == a.pathSegmentChildNodes[k])
      && (k !in a.pathSegmentChildNodes && k in b.pathSegmentChildNodes ==> m[k] == b.pathSegmentChildNodes[k])
  {
    var ac, bc := a.pathSegmentChildNodes, b.pathSegmentChildNodes;
    var m := MergedChildren(a, b, hm);
    assert MergeSpec(a, b, hm).value.pathSegmentChildNodes == m;
    if k in ac && k in bc {
      assert Mergeable(ac[k], bc[k]);
      assert m[k] == Merged(ac[k], bc[k], hm);
    }
  }

  /** Parametric child: one side's is adopted; for two, the right descriptor wins. */
  lemma MergeParametricLaw<H>(a: RouteTreeNode<H>, b: RouteTreeNode<H>, hm: (H, H) -> H)
    requires Mergeable(a, b)
    ensures var pc := MergeSpec(a, b, hm).value.parametricChild;
      && (a.parametricChild.None? ==> pc == b.parametricChild)
      && (b.parametricChild.None? ==> pc == a.parametricChild)
      && (a.parametricChild.Some? && b.parametricChild.Some? ==>
            && pc.Some?
            && pc.value.parametricSegment == b.parametricChild.value.parametricSegment
            && MergeSpec(a.parametricChild.value.childNode, b.parametricChild.value.childNode, hm)
               == Ok(pc.value.childNode))
  {
    assert MergeSpec(a, b, hm).value.parametricChild == MergedParametric(a, b, hm);
  }

  /** Wildcard child: the right one if the left has none; a left one without a right one throws. */
  lemma MergeWildcardLaw<H>(a: RouteTreeNode<H>, b: RouteTreeNode<H>, hm: (H, H) -> H)
    ensures a.wildcardChildNode.Some? && b.wildcardChildNode.None? ==> MergeSpec(a, b, hm) == Err(NullPointer)
    ensures MergeSpec(a, b, hm).Ok? && a.wildcardChildNode.None? ==>
      MergeSpec(a, b, hm).value.wildcardChildNode == b.wildcardChildNode
    ensures MergeSpec(a, b, hm).Ok? && a.wildcardChildNode.Some? ==>
      && b.wildcardChildNode.Some?
      && MergeSpec(a, b, hm).value.wildcardChildNode.Some?
      && MergeSpec(a.wildcardChildNode.value, b.wildcardChildNode.value, hm)
         == Ok(MergeSpec(a, b, hm).value.wildcardChildNode.value)
  {
    if Mergeable(a, b) {
      assert MergeSpec(a, b, hm).value.wildcardChildNode == MergedWildcard(a, b, hm);
    }
  }

  /** Merging into an empty node yields the right operand itself. */
  lemma MergeLeftEmpty<H>(t: RouteTreeNode<H>, hm: (H, H) -> H)
    ensures MergeSpec(EmptyNode(), t, hm) == Ok(t)
  {
    var m := Merged(EmptyNode(), t, hm);
    assert m.pathSegmentChildNodes == t.pathSegmentChildNodes;
  }

  /** A tree with no wildcard child at any depth. */
  predicate WildcardFree<H>(n: RouteTreeNode<H>)
    decreases n
  {
    && n.wildcardChildNode.None?
    && (forall k :: k in n.pathSegmentChildNodes ==> WildcardFree(n.pathSegmentChildNodes[k]))
    && (n.parametricChild.Some? ==> WildcardFree(n.parametricChild.value.childNode))
  }

  /** The wildcard dereference is the only way merge can throw. */
  lemma {:induction false} WildcardFreeMergeable<H>(a: RouteTreeNode<H>, b: RouteTreeNode<H>)
    requires WildcardFree(a)
    ensures Mergeable(a, b)
    decreases a
  {
    forall k | k in a.pathSegmentChildNodes && k in b.pathSegmentChildNodes
      ensures Mergeable(a.pathSegmentChildNodes[k], b.pathSegmentChildNodes[k])
    {
      WildcardFreeMergeable(a.pathSegmentChildNodes[k], b.pathSegmentChildNodes[k]);
    }
    if a.parametricChild.Some? && b.parametricChild.Some? {
      WildcardFreeMergeable(a.parametricChild.value.childNode, b.parametricChild.value.childNode);
    }
  }

  /** Merging a tree with itself never throws. */
  lemma {:induction false} SelfMergeable<H>(t: RouteTreeNode<H>)
    ensures Mergeable(t, t)
    decreases t
  {
    forall k | k in t.pathSegmentChildNodes
      ensures Mergeable(t.pathSegmentChildNodes[k], t.pathSegmentChildNodes[k])
    {
      SelfMergeable(t.pathSegmentChildNodes[k]);
    }
    if t.parametricChild.Some? {
      SelfMergeable(t.parametricChild.value.childNode);
    }
    if t.wildcardChildNode.Some? {
      SelfMergeable(t.wildcardChildNode.value);
    }
  }

  /** The node reached from `n` by following literal children along `path`. */
  function LiteralPath<H>(n: RouteTreeNode<H>, path: seq<string>): Option<RouteTreeNode<H>>
    decreases |path|
  {
    if path == [] then Some(n)
    else if path[0] in n.pathSegmentChildNodes then LiteralPath(n.pathSegmentChildNodes[path[0]], path[1..])
    else None
  }

  /**
   * Merge keeps every literal route of both trees: along a literal path the
   * merged tree holds the merge of both nodes, or the one node that exists.
   */
  lemma {:induction false} MergeKeepsLiteralRoutes<H>(a: RouteTreeNode<H>, b: RouteTreeNode<H>, hm: (H, H) -> H, path: seq<string>)
    requires Mergeable(a, b)
    ensures var m := Merged(a, b, hm);
      && (LiteralPath(a, path).Some? && LiteralPath(b, path).Some? ==>
            MergeSpec(LiteralPath(a, path).value, LiteralPath(b, path).value, hm).Ok? &&
            LiteralPath(m, path) == Some(Merged(LiteralPath(a, path).value, LiteralPath(b, path).value, hm)))
      && (LiteralPath(a, path).Some? && LiteralPath(b, path).None? ==> LiteralPath(m, path) == LiteralPath(a, path))
      && (LiteralPath(a, path).None? && LiteralPath(b, path).Some? ==> LiteralPath(m, path) == LiteralPath(b, path))
      && (LiteralPath(a, path).None? && LiteralPath(b, path).None? ==> LiteralPath(m, path).None?)
    decreases |path|
  {
    if path != [] {
      var k := path[0];
      var ac, bc := a.pathSegmentChildNodes, b.pathSegmentChildNodes;
      var mc := MergedChildren(a, b, hm);
      assert Merged(a, b, hm).pathSegmentChildNodes == mc;
      assert k in ac || k in bc ==> k in mc;
      if k in ac && k in bc {
        assert mc[k] == Merged(ac[k], bc[k], hm);
        MergeKeepsLiteralRoutes(ac[k], bc[k], hm, path[1..]);
      } else if k in ac {
        assert mc[k] == ac[k];
      } else if k in bc {
        assert mc[k] == bc[k];
      }
    }
  }

  // ---------------------------------------------------------------------------
  // Right identity: the code as written, and the merge that adopts a
  // one-sided wildcard child as it adopts one-sided literal and parametric ones.

  /**
   * As written, `t.merge(empty)` throws whenever `t` has a wildcard child, since
   * the empty right operand has no wildcard child to dereference.
   */
  lemma MergeRightEmptyFails<H>(t: RouteTreeNode<H>, hm: (H, H) -> H)
    requires t.wildcardChildNode.Some?
    ensures MergeSpec(t, EmptyNode(), hm) == Err(NullPointer)
  {
  }

  /**
   * As written, the empty node is a right identity of the merge, up to the
   * root label, exactly for the trees with no wildcard child at the root.
   */
  lemma MergeRightEmpty<H>(t: RouteTreeNode<H>, hm: (H, H) -> H)
    ensures MergeSpec(t, EmptyNode(), hm).Ok? <==> t.wildcardChildNode.None?
    ensures t.wildcardChildNode.None? ==> MergeSpec(t, EmptyNode(), hm) == Ok(t.(nodeLabel := RootLabel))
  {
    if t.wildcardChildNode.None? {
      assert Mergeable(t, EmptyNode());
      MergedIntendedRightEmpty(t, hm);
      MergedIntendedAgrees(t, EmptyNode(), hm);
    }
  }

  /** The merge with the adopting wildcard rule: a one-sided wildcard child is taken as it is. */
  function MergedIntended<H>(a: RouteTreeNode<H>, b: RouteTreeNode<H>, hm: (H, H) -> H): RouteTreeNode<H>
    decreases a
  {
    var ac := a.pathSegmentChildNodes;
    var bc := b.pathSegmentChildNodes;
    RouteTreeNode(
      b.nodeLabel,
      MergedHandler(a.handler, b.handler, hm),
      map k | k in ac.Keys + bc.Keys ::
        if k in ac && k in bc then MergedIntended(ac[k], bc[k], hm)
        else if k in ac then ac[k]
        else bc[k],
      if a.parametricChild.None? then b.parametricChild
      else if b.parametricChild.None? then a.parametricChild
      else Some(ParametricChild(
        b.parametricChild.value.parametricSegment,
        MergedIntended(a.parametricChild.value.childNode, b.parametricChild.value.childNode, hm))),
      if a.wildcardChildNode.None? then b.wildcardChildNode
      else if b.wildcardChildNode.None? then a.wildcardChildNode
      else Some(MergedIntended(a.wildcardChildNode.value, b.wildcardChildNode.value, hm)))
  }

  /** With the intended rule, merging in an empty tree changes nothing but the root label. */
  lemma MergedIntendedRightEmpty<H>(t: RouteTreeNode<H>, hm: (H, H) -> H)
    ensures MergedIntended(t, EmptyNode(), hm) == t.(nodeLabel := RootLabel)
  {
    var m := MergedIntended(t, EmptyNode(), hm);
    assert m.pathSegmentChildNodes == t.pathSegmentChildNodes;
  }

  /** The intended rule differs from the code only where the code throws. */
  lemma {:induction false} MergedIntendedAgrees<H>(a: RouteTreeNode<H>, b: RouteTreeNode<H>, hm: (H, H) -> H)
    requires Mergeable(a, b)
    ensures MergedIntended(a, b, hm) == Merged(a, b, hm)
    decreases a
  {
    var ac, bc := a.pathSegmentChildNodes, b.pathSegmentChildNodes;
    forall k | k in ac && k in bc
      ensures MergedIntended(ac[k], bc[k], hm) == Merged(ac[k], bc[k], hm)
    {
      MergedIntendedAgrees(ac[k], bc[k], hm);
    }
    assert MergedIntended(a, b, hm).pathSegmentChildNodes == Merged(a, b, hm).pathSegmentChildNodes;
    if a.parametricChild.Some? && b.parametricChild.Some? {
      MergedIntendedAgrees(a.parametricChild.value.childNode, b.parametricChild.value.childNode, hm);
    }
    if a.wildcardChildNode.Some? {
      MergedIntendedAgrees(a.wildcardChildNode.value, b.wildcardChildNode.value, hm);
    }
  }
}
