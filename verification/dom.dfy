/**
 * The DOM tree `RepnXML` walks (W3C DOM Level 2 Core, section 1.2): each
 * node has a type code, a name, a namespace URI, a value, attributes and
 * children. DOM compares nodes by identity, so a node here is identified by
 * its path of child indices from the document node.
 */
module Dom {
  import opened JavaText

  /** The `Node.getNodeType()` codes the code distinguishes (section 1.2, interface Node). */
  const ElementNode: int := 1
  const AttributeNode: int := 2
  const TextNode: int := 3
  const CDataSectionNode: int := 4
  const DocumentNode: int := 9

  /**
   * A node and everything below it. `namespace` and `value` are `null`
   * (`None`) where DOM says so; attributes are not children, and only
   * elements have any.
   */
  datatype Node = Node(kind: int, name: string, namespace: Option<string>, value: Option<string>,
                       attributes: seq<Node>, children: seq<Node>)

  /** The child indices leading from a node down to one of its descendants. */
  type NodePath = seq<nat>

  predicate IsElement(n: Node) {
    n.kind == ElementNode
  }

  /** The node at the end of `p` below `n`, if every index is in range. */
  function NodeAt(n: Node, p: NodePath): Option<Node>
    decreases |p|
  {
    if |p| == 0 then Some(n)
    else if p[0] < |n.children| then NodeAt(n.children[p[0]], p[1..])
    else None
  }

  predicate IsElementPath(n: Node, p: NodePath) {
    |p| > 0 && NodeAt(n, p).Some? && IsElement(NodeAt(n, p).value)
  }

  function Parent(p: NodePath): NodePath
    requires |p| > 0
  {
    p[..|p| - 1]
  }

  function Last(p: NodePath): nat
    requires |p| > 0
  {
    p[|p| - 1]
  }

  /** Following a path then another is following their concatenation. */
  lemma {:induction false} NodeAtAppend(n: Node, p: NodePath, q: NodePath)
    ensures NodeAt(n, p + q) == if NodeAt(n, p).None? then None else NodeAt(NodeAt(n, p).value, q)
    decreases |p|
  {
    if |p| > 0 {
      assert (p + q)[0] == p[0] && (p + q)[1..] == p[1..] + q;
      if p[0] < |n.children| {
        NodeAtAppend(n.children[p[0]], p[1..], q);
      }
    } else {
      assert p + q == q;
    }
  }

  /** The node at a non-empty path is a child of the node at its parent path. */
  lemma NodeAtParent(n: Node, p: NodePath)
    requires |p| > 0
    ensures NodeAt(n, p).Some? ==> NodeAt(n, Parent(p)).Some?
    ensures NodeAt(n, Parent(p)).Some? ==>
              NodeAt(n, p) == if Last(p) < |NodeAt(n, Parent(p)).value.children|
                              then Some(NodeAt(n, Parent(p)).value.children[Last(p)]) else None
  {
    assert p == Parent(p) + [Last(p)];
    NodeAtAppend(n, Parent(p), [Last(p)]);
    if NodeAt(n, Parent(p)).Some? {
      var m := NodeAt(n, Parent(p)).value;
      assert [Last(p)][1..] == [];
      if Last(p) < |m.children| {
        assert NodeAt(m, [Last(p)]) == NodeAt(m.children[Last(p)], []);
      }
    }
  }

  // ---------------------------------------------------------------------
  // getElementsByTagNameNS("*", "*"): every element, in document order
  // ---------------------------------------------------------------------

  function Prefixed(i: nat, ps: seq<NodePath>): (r: seq<NodePath>)
    ensures |r| == |ps| && forall k :: 0 <= k < |ps| ==> r[k] == [i] + ps[k]
  {
    seq(|ps|, k requires 0 <= k < |ps| => [i] + ps[k])
  }

  /** The paths, relative to `n`, of the elements strictly below `n`, in preorder. */
  function Elements(n: Node): seq<NodePath>
    decreases n, 1, 0
  {
    ElementsFrom(n, 0)
  }

  /** The same for the children of `n` from index `i` on and their descendants. */
  function ElementsFrom(n: Node, i: nat): seq<NodePath>
    requires i <= |n.children|
    decreases n, 0, |n.children| - i
  {
    if i == |n.children| then []
    else
      var c := n.children[i];
      (if IsElement(c) then [[i]] else []) + Prefixed(i, Elements(c)) + ElementsFrom(n, i + 1)
  }

  lemma InPrefixed(i: nat, ps: seq<NodePath>, p: NodePath)
    ensures p in Prefixed(i, ps) <==> |p| > 0 && p[0] == i && p[1..] in ps
  {
    if p in Prefixed(i, ps) {
      var k :| 0 <= k < |ps| && Prefixed(i, ps)[k] == p;
      assert p[1..] == ps[k];
    }
    if |p| > 0 && p[0] == i && p[1..] in ps {
      var k :| 0 <= k < |ps| && ps[k] == p[1..];
      assert Prefixed(i, ps)[k] == p;
    }
  }

  /** Under the child `i`, the element paths are those of the child, extended by `i`. */
  lemma ElementPathUnderChild(n: Node, p: NodePath)
    requires |p| > 0 && p[0] < |n.children|
    ensures IsElementPath(n, p) <==>
              (|p| == 1 && IsElement(n.children[p[0]])) || (|p| > 1 && IsElementPath(n.children[p[0]], p[1..]))
  {
    assert NodeAt(n, p) == NodeAt(n.children[p[0]], p[1..]);
    if |p| == 1 {
      assert p[1..] == [];
    }
  }

  lemma {:induction false} InElementsFrom(n: Node, i: nat, p: NodePath)
    requires i <= |n.children|
    ensures p in ElementsFrom(n, i) <==> IsElementPath(n, p) && i <= p[0]
    decreases n, 0, |n.children| - i
  {
    if i < |n.children| {
      var c := n.children[i];
      var here: seq<NodePath> := if IsElement(c) then [[i]] else [];
      InElementsFrom(n, i + 1, p);
      InPrefixed(i, Elements(c), p);
      assert ElementsFrom(n, i) == here + Prefixed(i, Elements(c)) + ElementsFrom(n, i + 1);
      if |p| > 1 && p[0] == i {
        InElements(c, p[1..]);
        ElementPathUnderChild(n, p);
      } else if |p| == 1 && p[0] == i {
        assert p == [i];
        ElementPathUnderChild(n, p);
        assert p[1..] == [];
        InElements(c, []);
      }
    }
  }

  /** `Elements` lists exactly the element nodes below `n`. */
  lemma {:induction false} InElements(n: Node, p: NodePath)
    ensures p in Elements(n) <==> IsElementPath(n, p)
    decreases n, 1, 0
  {
    InElementsFrom(n, 0, p);
  }

  // ---------------------------------------------------------------------
  // Document order
  // ---------------------------------------------------------------------

  /** `p` comes strictly before `q` in document order: an ancestor before its descendants, left before right. */
  predicate Before(p: NodePath, q: NodePath)
    decreases |p|
  {
    |q| > 0 && (|p| == 0 || p[0] < q[0] || (p[0] == q[0] && Before(p[1..], q[1..])))
  }

  lemma {:induction false} BeforeIrreflexive(p: NodePath)
    ensures !Before(p, p)
    decreases |p|
  {
    if |p| > 0 {
      BeforeIrreflexive(p[1..]);
    }
  }

  lemma {:induction false} BeforeTransitive(p: NodePath, q: NodePath, r: NodePath)
    requires Before(p, q) && Before(q, r)
    ensures Before(p, r)
    decreases |p|
  {
    if |p| > 0 && p[0] == q[0] && q[0] == r[0] {
      BeforeTransitive(p[1..], q[1..], r[1..]);
    }
  }

  lemma BeforeUnderSameIndex(i: nat, p: NodePath, q: NodePath)
    ensures Before([i] + p, [i] + q) <==> Before(p, q)
  {
    assert ([i] + p)[1..] == p && ([i] + q)[1..] == q;
  }

  predicate Sorted(ps: seq<NodePath>) {
    forall i, j :: 0 <= i < j < |ps| ==> Before(ps[i], ps[j])
  }

  lemma SortedPrefixed(i: nat, ps: seq<NodePath>)
    requires Sorted(ps)
    ensures Sorted(Prefixed(i, ps))
  {
    forall a, b | 0 <= a < b < |ps| ensures Before(Prefixed(i, ps)[a], Prefixed(i, ps)[b]) {
      BeforeUnderSameIndex(i, ps[a], ps[b]);
    }
  }

  lemma SortedAppend(a: seq<NodePath>, b: seq<NodePath>)
    requires Sorted(a) && Sorted(b)
    requires forall i, j :: 0 <= i < |a| && 0 <= j < |b| ==> Before(a[i], b[j])
    ensures Sorted(a + b)
  {
    forall i, j | 0 <= i < j < |a + b| ensures Before((a + b)[i], (a + b)[j]) {
      if j < |a| {
      } else if i >= |a| {
        assert (a + b)[i] == b[i - |a|] && (a + b)[j] == b[j - |a|];
      } else {
        assert (a + b)[j] == b[j - |a|];
      }
    }
  }

  /** Every path in the list starts with an index in `lo..hi`. */
  predicate StartsWithin(ps: seq<NodePath>, lo: nat, hi: nat) {
    forall k :: 0 <= k < |ps| ==> |ps[k]| > 0 && lo <= ps[k][0] < hi
  }

  lemma {:induction false} ElementsFromSorted(n: Node, i: nat)
    requires i <= |n.children|
    ensures Sorted(ElementsFrom(n, i)) && StartsWithin(ElementsFrom(n, i), i, |n.children|)
    decreases n, 0, |n.children| - i
  {
    if i < |n.children| {
      var c := n.children[i];
      var here: seq<NodePath> := if IsElement(c) then [[i]] else [];
      var below := Prefixed(i, Elements(c));
      var rest := ElementsFrom(n, i + 1);
      ElementsSorted(c);
      ElementsFromSorted(n, i + 1);
      SortedPrefixed(i, Elements(c));
      forall a, b | 0 <= a < |here| && 0 <= b < |below| ensures Before(here[a], below[b]) {
        assert below[b] == [i] + Elements(c)[b];
        assert |Elements(c)[b]| > 0;
        assert ([i] + Elements(c)[b])[1..] == Elements(c)[b];
      }
      SortedAppend(here, below);
      forall a, b | 0 <= a < |here + below| && 0 <= b < |rest| ensures Before((here + below)[a], rest[b]) {
        if a < |here| {
          assert (here + below)[a] == [i];
        } else {
          assert (here + below)[a] == below[a - |here|];
        }
      }
      SortedAppend(here + below, rest);
      assert ElementsFrom(n, i) == here + below + rest;
      forall k | 0 <= k < |here + below + rest|
        ensures |(here + below + rest)[k]| > 0 && i <= (here + below + rest)[k][0] < |n.children|
      {
        if k < |here| {
        } else if k < |here + below| {
          assert (here + below + rest)[k] == below[k - |here|];
        } else {
          assert (here + below + rest)[k] == rest[k - |here + below|];
        }
      }
    }
  }

  /** The element list is in strict document order, so in particular it has no duplicates. */
  lemma {:induction false} ElementsSorted(n: Node)
    ensures Sorted(Elements(n)) && StartsWithin(Elements(n), 0, |n.children|)
    decreases n, 1, 0
  {
    ElementsFromSorted(n, 0);
  }

  /** In a list in strict document order, positions follow document order. */
  lemma SortedPositions(ps: seq<NodePath>, i: nat, j: nat)
    requires Sorted(ps) && i < |ps| && j < |ps|
    ensures Before(ps[i], ps[j]) <==> i < j
  {
    if j < i {
      if Before(ps[i], ps[j]) {
        BeforeTransitive(ps[j], ps[i], ps[j]);
        BeforeIrreflexive(ps[j]);
      }
    } else if i == j {
      BeforeIrreflexive(ps[i]);
    }
  }

  /** The position of a path in a list that holds it. */
  function IndexOf(ps: seq<NodePath>, p: NodePath): (k: nat)
    requires p in ps
    ensures k < |ps| && ps[k] == p && forall j :: 0 <= j < k ==> ps[j] != p
  {
    if ps[0] == p then 0 else 1 + IndexOf(ps[1..], p)
  }

  /** A node comes after its ancestors and after the following siblings of its ancestors' earlier siblings. */
  lemma BeforeLaterSibling(parent: NodePath, k: nat, j: nat, rest: NodePath)
    requires k < j
    ensures Before(parent + [k] + rest, parent + [j])
    decreases |parent|
  {
    if |parent| == 0 {
      assert ([] + [k] + rest)[0] == k && ([] + [j])[0] == j;
    } else {
      assert (parent + [k] + rest)[0] == parent[0] && (parent + [j])[0] == parent[0];
      assert (parent + [k] + rest)[1..] == parent[1..] + [k] + rest;
      assert (parent + [j])[1..] == parent[1..] + [j];
      BeforeLaterSibling(parent[1..], k, j, rest);
    }
  }

  // ---------------------------------------------------------------------
  // Sibling search
  // ---------------------------------------------------------------------

  /** The first element among `cs[k..]`. */
  function FirstElementFrom(cs: seq<Node>, k: nat): (r: Option<nat>)
    ensures r.Some? ==> k <= r.value < |cs| && IsElement(cs[r.value])
    ensures r.Some? ==> forall j :: k <= j < r.value ==> !IsElement(cs[j])
    ensures r.None? ==> forall j :: k <= j < |cs| ==> !IsElement(cs[j])
    decreases |cs| - k
  {
    if k >= |cs| then None
    else if IsElement(cs[k]) then Some(k)
    else FirstElementFrom(cs, k + 1)
  }

  /** The first element after the node at `p` among its siblings. */
  function SiblingElement(doc: Node, p: NodePath): (r: Option<NodePath>)
    requires |p| > 0 && NodeAt(doc, Parent(p)).Some?
  {
    match FirstElementFrom(NodeAt(doc, Parent(p)).value.children, Last(p) + 1)
    case None => None
    case Some(j) => Some(Parent(p) + [j])
  }

  /**
   * The first element after the node at `q` among its siblings, or else
   * among its parent's following siblings, and so on up the tree; the
   * document node has no siblings.
   */
  function AncestorSiblingElement(doc: Node, q: NodePath): Option<NodePath>
    requires NodeAt(doc, q).Some?
    decreases |q|
  {
    if |q| == 0 then None
    else
      NodeAtParent(doc, q);
      match SiblingElement(doc, q)
      case Some(t) => Some(t)
      case None => AncestorSiblingElement(doc, Parent(q))
  }

  /** The sibling found is an element, after `p` in document order. */
  lemma SiblingElementIsLater(doc: Node, p: NodePath, rest: NodePath)
    requires |p| > 0 && NodeAt(doc, Parent(p)).Some?
    ensures var t := SiblingElement(doc, p);
            t.Some? ==> IsElementPath(doc, t.value) && Before(p + rest, t.value) && Parent(t.value) == Parent(p)
  {
    var t := SiblingElement(doc, p);
    if t.Some? {
      var j := FirstElementFrom(NodeAt(doc, Parent(p)).value.children, Last(p) + 1).value;
      assert p == Parent(p) + [Last(p)];
      assert p + rest == Parent(p) + [Last(p)] + rest;
      BeforeLaterSibling(Parent(p), Last(p), j, rest);
      var u := Parent(p) + [j];
      assert Parent(u) == Parent(p) && Last(u) == j;
      NodeAtParent(doc, u);
    }
  }

  /** The element the ancestor search finds comes after every node below `q`. */
  lemma {:induction false} AncestorSiblingElementIsLater(doc: Node, q: NodePath, rest: NodePath)
    requires NodeAt(doc, q).Some?
    ensures var t := AncestorSiblingElement(doc, q);
            t.Some? ==> IsElementPath(doc, t.value) && Before(q + rest, t.value)
    decreases |q|
  {
    if |q| > 0 {
      NodeAtParent(doc, q);
      SiblingElementIsLater(doc, q, rest);
      if SiblingElement(doc, q).None? {
        var r := [Last(q)] + rest;
        assert q + rest == Parent(q) + r by {
          assert q == Parent(q) + [Last(q)];
        }
        AncestorSiblingElementIsLater(doc, Parent(q), r);
      }
    }
  }
}
