/**
 * The staging builder of one node (RouteTreeNodeBuilder): a handler that can
 * be replaced, literal children keyed by validated text, and set-once
 * parametric and wildcard slots; `CreateNode` freezes the current state.
 */
module NodeBuilder {
  import opened Wrappers
  import opened Segments
  import opened RouteTree

  /** One character of the class `[\w\-._~]`: ASCII letters, digits, `_`, `-`, `.` and `~`. */
  predicate IsSegmentChar(c: char) {
    || 'a' <= c <= 'z'
    || 'A' <= c <= 'Z'
    || '0' <= c <= '9'
    || c == '_' || c == '-' || c == '.' || c == '~'
  }

  /** The whole key matches `[\w\-._~]+`. */
  predicate IsValidSegment(s: string) {
    |s| > 0 && forall i :: 0 <= i < |s| ==> IsSegmentChar(s[i])
  }

  /** A valid key is non-empty and holds neither a path separator nor a query mark. */
  lemma ValidSegmentShape(s: string)
    requires IsValidSegment(s)
    ensures s != "" && '/' !in s && '?' !in s
  {
  }

  /** Some keys the validation accepts and some it refuses. */
  lemma ValidSegmentExamples()
    ensures IsValidSegment("projects") && IsValidSegment("a-b.c_d~9")
    ensures !IsValidSegment("") && !IsValidSegment("a/b") && !IsValidSegment("a b")
  {
    assert !IsSegmentChar("a/b"[1]);
    assert !IsSegmentChar("a b"[1]);
  }

  class RouteTreeNodeBuilder<H> {
    var handler: Option<H>
    var pathSegmentChildNodes: map<string, RouteTreeNode<H>>
    var parametricChild: Option<ParametricChild<H>>
    var wildcardChild: Option<RouteTreeNode<H>>

    constructor ()
      ensures handler == None && pathSegmentChildNodes == map[]
      ensures parametricChild == None && wildcardChild == None
    {
      handler := None;
      pathSegmentChildNodes := map[];
      parametricChild := None;
      wildcardChild := None;
    }

    /** May be called any number of times: the last handler wins. */
    method SetHandler(h: H)
      modifies this
      ensures handler == Some(h)
      ensures pathSegmentChildNodes == old(pathSegmentChildNodes)
      ensures parametricChild == old(parametricChild) && wildcardChild == old(wildcardChild)
    {
      handler := Some(h);
    }

    /** Validates the key, then puts the child, replacing any child under the same key. */
    method AddPathSegmentChild(pathSegment: string, childNode: RouteTreeNode<H>) returns (o: Outcome)
      modifies this
      ensures o.Pass? <==> IsValidSegment(pathSegment)
      ensures o.Fail? ==> o.error == IllegalArgument
      ensures pathSegmentChildNodes ==
        if o.Pass? then old(pathSegmentChildNodes)[pathSegment := childNode] else old(pathSegmentChildNodes)
      ensures handler == old(handler)
      ensures parametricChild == old(parametricChild) && wildcardChild == old(wildcardChild)
    {
      if !IsValidSegment(pathSegment) {
        return Fail(IllegalArgument);
      }
      pathSegmentChildNodes := pathSegmentChildNodes[pathSegment := childNode];
      return Pass;
    }

    /** Set-once: a second call fails and keeps the first pairing. */
    method SetParametricChild(parametricSegment: ParametricSegment, childNode: RouteTreeNode<H>) returns (o: Outcome)
      modifies this
      ensures o.Pass? <==> old(parametricChild).None?
      ensures o.Fail? ==> o.error == IllegalState
      ensures parametricChild ==
        if o.Pass? then Some(ParametricChild(parametricSegment, childNode)) else old(parametricChild)
      ensures handler == old(handler) && pathSegmentChildNodes == old(pathSegmentChildNodes)
      ensures wildcardChild == old(wildcardChild)
    {
      if parametricChild.Some? {
        return Fail(IllegalState);
      }
      parametricChild := Some(ParametricChild(parametricSegment, childNode));
      return Pass;
    }

    /** Set-once: a second call fails and keeps the first child. */
    method SetWildcardChild(childNode: RouteTreeNode<H>) returns (o: Outcome)
      modifies this
      ensures o.Pass? <==> old(wildcardChild).None?
      ensures o.Fail? ==> o.error == IllegalState
      ensures wildcardChild == if o.Pass? then Some(childNode) else old(wildcardChild)
      ensures handler == old(handler) && pathSegmentChildNodes == old(pathSegmentChildNodes)
      ensures parametricChild == old(parametricChild)
    {
      if wildcardChild.Some? {
        return Fail(IllegalState);
      }
      wildcardChild := Some(childNode);
      return Pass;
    }

    /** Freezes the builder's current state into a node with the given label. */
    function CreateNode(nodeLabel: string): (n: RouteTreeNode<H>)
      reads this
      ensures n.nodeLabel == nodeLabel && n.handler == handler
      ensures forall k :: n.ContainsPathSegmentChildNodes(k) <==> k in pathSegmentChildNodes
      ensures forall k :: k in pathSegmentChildNodes ==> n.GetPathSegmentChildNode(k) == Some(pathSegmentChildNodes[k])
      ensures n.HasParametricChild() <==> parametricChild.Some?
      ensures n.HasParametricChild() ==>
        n.ParametricChildSegment() == parametricChild.value.parametricSegment &&
        n.ParametricChildNode() == parametricChild.value.childNode
      ensures n.wildcardChildNode == wildcardChild
    {
      RouteTreeNode(nodeLabel, handler, pathSegmentChildNodes, parametricChild, wildcardChild)
    }
  }

  /** Two parametric children on one builder: the second attempt is refused. */
  method TwoParametricChildrenRefused<H>(first: ParametricSegment, second: ParametricSegment, child: RouteTreeNode<H>)
    returns (o1: Outcome, o2: Outcome)
    ensures o1 == Pass && o2 == Fail(IllegalState)
  {
    var b := new RouteTreeNodeBuilder<H>();
    o1 := b.SetParametricChild(first, child);
    o2 := b.SetParametricChild(second, child);
    assert b.parametricChild == Some(ParametricChild(first, child));
  }
}
