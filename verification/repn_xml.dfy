/**
 * `RepnXML`'s life cycle and element cursor: `parse` fills in the document
 * and the list of all its elements in document order, a cursor steps
 * through that list, and two searches move it to the next sibling element
 * of the current element or of one of its ancestors.
 */
module RepnXml {
  import opened JavaText
  import opened Dom

  /** What a successful `parse` keeps: the document and `getElementsByTagNameNS("*", "*")` on it. */
  datatype Content = Content(doc: Node, elements: seq<NodePath>)

  /**
   * A `RepnXML`: the document and element list (`null` until a parse
   * succeeds, and again after `abandon`), the `currentElement` cursor (a
   * Java `int`), the `contentsAvailable` flag, how many errors have been
   * recorded, and whether the instance still holds the `parser` (and `dbf`)
   * the constructor made and `abandon` drops.
   */
  datatype Repn = Repn(content: Option<Content>, current: int, contentsAvailable: bool, errors: nat, hasParser: bool)

  /** The object invariant every operation keeps: contents only come from the parser. */
  predicate Consistent(r: Repn) {
    (r.contentsAvailable <==> r.content.Some?)
    && (r.contentsAvailable ==> r.hasParser)
    && (r.content.Some? ==> r.content.value.elements == Elements(r.content.value.doc)
                            && |r.content.value.elements| <= IntMax)
    && InIntRange(r.current)
  }

  /** The constructor: a parser, no contents yet. */
  function Fresh(): (r: Repn)
    ensures Consistent(r) && !r.contentsAvailable && r.errors == 0 && r.hasParser
  {
    Repn(None, 0, false, 0, true)
  }

  // ---------------------------------------------------------------------
  // parse and abandon
  // ---------------------------------------------------------------------

  /**
   * What the file system, the schema, the parser and the validator make of
   * the file: it does not exist, it is not a regular file, the schema does
   * not parse, parsing or validating the document stops with an error, or
   * the document is accepted. `reported` counts the errors recorded on the
   * way without stopping the parse: the parser's `error` callbacks and a
   * root element that does not declare `xmlns:vers`.
   */
  datatype Source = Missing | NotRegular | BadSchema | Rejected(reported: nat) | Accepted(doc: Node, reported: nat)

  /**
   * The end of a `parse`: its result and the instance, or the
   * `NullPointerException` of `parser.setErrorHandler` once `abandon` has
   * dropped the parser.
   */
  datatype Parsed = Parsed(repn: Repn, ok: bool) | ParseNullPointer

  /** The file gets past the existence, regularity and schema checks, so the parser is used. */
  predicate ReachesParser(src: Source) {
    src.Rejected? || src.Accepted?
  }

  /** `parse` returned `true`. */
  predicate Succeeded(p: Parsed) {
    p.Parsed? && p.ok
  }

  /**
   * `parse`: refuses to run twice; the file and schema checks record one
   * error each; without a parser the first use of it fails; a later failure
   * records its own error after those reported on the way and leaves no
   * contents; success keeps the errors reported on the way, lists the
   * elements and resets the cursor. A returning `parse` never changes
   * whether there is a parser.
   */
  function Parse(r: Repn, src: Source): (p: Parsed)
    ensures r.contentsAvailable ==> p == Parsed(r, false)
    ensures p.ParseNullPointer? <==> !r.contentsAvailable && !r.hasParser && ReachesParser(src)
    ensures Succeeded(p) <==> !r.contentsAvailable && r.hasParser && src.Accepted?
    ensures !r.contentsAvailable && !ReachesParser(src) ==> p == Parsed(r.(errors := r.errors + 1), false)
    ensures !r.contentsAvailable && r.hasParser && src.Rejected?
            ==> p == Parsed(r.(errors := r.errors + src.reported + 1), false)
    ensures p.Parsed? && !r.contentsAvailable && !p.ok ==> p.repn.errors > r.errors && !p.repn.contentsAvailable
    ensures p.Parsed? ==> p.repn.hasParser == r.hasParser
    ensures Succeeded(p) ==> p.repn.contentsAvailable && p.repn.current == 0 && p.repn.errors == r.errors + src.reported
                             && p.repn.content == Some(Content(src.doc, Elements(src.doc)))
    ensures p.Parsed? && Consistent(r) && (src.Accepted? ==> |Elements(src.doc)| <= IntMax) ==> Consistent(p.repn)
  {
    if r.contentsAvailable then Parsed(r, false)
    else match src
      case Missing => Parsed(r.(errors := r.errors + 1), false)
      case NotRegular => Parsed(r.(errors := r.errors + 1), false)
      case BadSchema => Parsed(r.(errors := r.errors + 1), false)
      case Rejected(k) =>
        if !r.hasParser then ParseNullPointer
        else Parsed(r.(errors := r.errors + k + 1), false)
      case Accepted(doc, k) =>
        if !r.hasParser then ParseNullPointer
        else Parsed(r.(content := Some(Content(doc, Elements(doc))), current := 0, contentsAvailable := true,
                       errors := r.errors + k), true)
  }

  /**
   * `abandon`: the document, element list, parser and factory are dropped
   * and no contents are available. The errors are kept, on the assumption
   * that `AnalysisBase.abandon` keeps them.
   */
  function Abandon(r: Repn): (a: Repn)
    ensures !a.contentsAvailable && a.content.None? && !a.hasParser
    ensures a.current == r.current && a.errors == r.errors
    ensures Consistent(r) ==> Consistent(a)
  {
    r.(content := None, contentsAvailable := false, hasParser := false)
  }

  /**
   * An abandoned instance is not to be used again: no `parse` of it
   * succeeds, a file that fails the file or schema checks still only
   * records its error, and one that gets further fails on the dropped parser.
   */
  lemma ParseAfterAbandon(r: Repn, src: Source)
    ensures !Succeeded(Parse(Abandon(r), src))
    ensures Parse(Abandon(r), src).ParseNullPointer? <==> ReachesParser(src)
    ensures !ReachesParser(src) ==> Parse(Abandon(r), src) == Parsed(Abandon(r).(errors := r.errors + 1), false)
  {
  }

  /**
   * A second `parse` after one that succeeded changes nothing, whatever the
   * file; after `abandon` no parse succeeds again.
   */
  lemma ParseOnce(r: Repn, first: Source, second: Source)
    requires Succeeded(Parse(r, first))
    ensures var p := Parse(r, first).repn;
            Parse(p, second) == Parsed(p, false)
            && !Succeeded(Parse(Abandon(p), second))
  {
    ParseAfterAbandon(Parse(r, first).repn, second);
  }

  // ---------------------------------------------------------------------
  // The cursor
  // ---------------------------------------------------------------------

  function GotoRootElement(r: Repn): (g: Repn)
    ensures g == r.(current := 0)
  {
    r.(current := 0)
  }

  /** `currentElement++` on a Java `int`: wraps from the largest value to the smallest. */
  function GotoNextElement(r: Repn): (g: Repn)
    ensures InIntRange(r.current) ==> InIntRange(g.current)
    ensures r.current < IntMax ==> g == r.(current := r.current + 1)
    ensures r.current == IntMax ==> g == r.(current := IntMin)
  {
    r.(current := if r.current == IntMax then IntMin else r.current + 1)
  }

  function CurrentElementIndex(r: Repn): int {
    r.current
  }

  function ElementCount(r: Repn): nat {
    if r.content.None? then 0 else |r.content.value.elements|
  }

  /** `atEnd`: no element list, or the cursor at or past its end. */
  function AtEnd(r: Repn): (e: bool)
    ensures e <==> r.content.None? || r.current >= ElementCount(r)
  {
    r.content.None? || r.current >= |r.content.value.elements|
  }

  function Advance(r: Repn, k: nat): Repn
    decreases k
  {
    if k == 0 then r else GotoNextElement(Advance(r, k - 1))
  }

  /**
   * From the root, `k` steps of `gotoNextElement` put the cursor on index
   * `k`, the `k`-th element in document order; `atEnd` first holds after
   * as many steps as there are elements.
   */
  lemma {:induction false} CursorWalk(r: Repn, k: nat)
    requires k <= IntMax
    ensures var w := Advance(GotoRootElement(r), k);
            CurrentElementIndex(w) == k && w.content == r.content
            && (AtEnd(w) <==> r.content.None? || k >= ElementCount(r))
    decreases k
  {
    if k > 0 {
      CursorWalk(r, k - 1);
    }
  }

  /** The `int` wrap: one step past the largest index lands on a negative one, which is not at the end. */
  lemma NextWrapsAround(r: Repn)
    requires r.current == IntMax && r.content.Some?
    ensures GotoNextElement(r).current == IntMin && !AtEnd(GotoNextElement(r))
  {
  }

  // ---------------------------------------------------------------------
  // Moving to a sibling
  // ---------------------------------------------------------------------

  /** The result of a cursor move, or the `NullPointerException` raised when there is no current element. */
  datatype Moved = Moved(repn: Repn, found: bool) | NullPointer

  /** The current element exists: an element list and a cursor within it. */
  predicate HasCurrent(r: Repn) {
    r.content.Some? && 0 <= r.current < |r.content.value.elements|
  }

  function CurrentPath(r: Repn): NodePath
    requires HasCurrent(r)
  {
    r.content.value.elements[r.current]
  }

  /** The current element's path is an element of the document. */
  lemma CurrentIsElement(r: Repn)
    requires Consistent(r) && HasCurrent(r)
    ensures IsElementPath(r.content.value.doc, CurrentPath(r))
    ensures NodeAt(r.content.value.doc, Parent(CurrentPath(r))).Some?
  {
    InElements(r.content.value.doc, CurrentPath(r));
    NodeAtParent(r.content.value.doc, CurrentPath(r));
  }

  /** The target of `gotoSibling`: the current element's next sibling that is an element. */
  function SiblingOfCurrent(r: Repn): Option<NodePath>
    requires Consistent(r) && HasCurrent(r)
  {
    CurrentIsElement(r);
    SiblingElement(r.content.value.doc, CurrentPath(r))
  }

  /** The target of `gotoParentSibling`: the search that starts at the current element's parent. */
  function ParentSiblingOfCurrent(r: Repn): Option<NodePath>
    requires Consistent(r) && HasCurrent(r)
  {
    CurrentIsElement(r);
    AncestorSiblingElement(r.content.value.doc, Parent(CurrentPath(r)))
  }

  /** `node.getNextSibling()` for a node other than the document. */
  function NextSibling(doc: Node, q: NodePath): (s: Option<NodePath>)
    requires |q| > 0 && NodeAt(doc, q).Some?
    ensures NodeAt(doc, Parent(q)).Some?
    ensures s.Some? ==> |s.value| == |q| && Parent(s.value) == Parent(q) && Last(s.value) == Last(q) + 1
                        && NodeAt(doc, s.value).Some?
    ensures s.None? <==> Last(q) + 1 >= |NodeAt(doc, Parent(q)).value.children|
  {
    NodeAtParent(doc, q);
    var kids := NodeAt(doc, Parent(q)).value.children;
    if Last(q) + 1 < |kids| then
      var s := Parent(q) + [Last(q) + 1];
      assert Parent(s) == Parent(q) && Last(s) == Last(q) + 1;
      NodeAtParent(doc, s);
      Some(s)
    else None
  }

  /** How many siblings lie after `q`. */
  function Remaining(doc: Node, q: NodePath): nat
    requires |q| > 0 && NodeAt(doc, q).Some?
  {
    NodeAtParent(doc, q);
    |NodeAt(doc, Parent(q)).value.children| - Last(q)
  }

  /**
   * The `do { currentElement++; } while (...)` loop both moves share: step
   * forward from `from` until the list ends or holds `target`.
   */
  method ScanForward(elements: seq<NodePath>, from: int, target: NodePath) returns (k: int)
    requires 0 <= from < |elements|
    ensures from < k <= |elements|
    ensures k < |elements| ==> elements[k] == target
    ensures forall j :: from < j < k ==> elements[j] != target
  {
    k := from + 1;
    while k < |elements| && elements[k] != target
      invariant from < k <= |elements|
      invariant forall j :: from < j < k ==> elements[j] != target
      decreases |elements| - k
    {
      k := k + 1;
    }
  }

  /** In the element list, a scan from an element finds any later element at its own index. */
  lemma ScanLandsOn(doc: Node, from: nat, k: int, t: NodePath)
    requires var els := Elements(doc);
             from < |els| && from < k <= |els| && (k < |els| ==> els[k] == t)
             && (forall j :: from < j < k ==> els[j] != t)
    requires IsElementPath(doc, t) && Before(Elements(doc)[from], t)
    ensures t in Elements(doc) && k == IndexOf(Elements(doc), t) && k > from
  {
    var els := Elements(doc);
    InElements(doc, t);
    ElementsSorted(doc);
    var i := IndexOf(els, t);
    SortedPositions(els, from, i);
  }

  /**
   * The loop of `gotoSibling`: step through the following siblings of the
   * node at `p` until one is an element; it is the first element after `p`
   * among its siblings.
   */
  method NextElementSibling(doc: Node, p: NodePath) returns (next: Option<NodePath>)
    requires |p| > 0 && NodeAt(doc, p).Some?
    ensures NodeAt(doc, Parent(p)).Some? && next == SiblingElement(doc, p)
  {
    NodeAtParent(doc, p);
    var kids := NodeAt(doc, Parent(p)).value.children;
    next := NextSibling(doc, p);
    while next.Some? && !IsElement(NodeAt(doc, next.value).value)
      invariant next.Some? ==> |next.value| == |p| && Parent(next.value) == Parent(p) && Last(p) < Last(next.value)
      invariant next.Some? ==> NodeAt(doc, next.value).Some?
      invariant next.Some? ==> FirstElementFrom(kids, Last(p) + 1) == FirstElementFrom(kids, Last(next.value))
      invariant next.None? ==> FirstElementFrom(kids, Last(p) + 1).None?
      decreases if next.Some? then |kids| - Last(next.value) else 0
    {
      var q := next.value;
      NodeAtParent(doc, q);
      next := NextSibling(doc, q);
    }
    if next.Some? {
      var t := next.value;
      NodeAtParent(doc, t);
      assert t == Parent(p) + [Last(t)];
    }
  }

  /**
   * `gotoSibling`: find the current element's next sibling that is an
   * element; if there is none, return false and leave the cursor; else
   * scan forward to it and return `!atEnd()`.
   */
  method GotoSibling(r: Repn) returns (m: Moved)
    requires Consistent(r)
    ensures m.NullPointer? <==> !HasCurrent(r)
    ensures m.Moved? ==> Consistent(m.repn) && m.repn == r.(current := m.repn.current)
    ensures m.Moved? && SiblingOfCurrent(r).None? ==> m == Moved(r, false)
    ensures m.Moved? && SiblingOfCurrent(r).Some? ==>
              var t := SiblingOfCurrent(r).value;
              t in r.content.value.elements && m.found && m.repn.current > r.current
              && m.repn.current == IndexOf(r.content.value.elements, t)
  {
    if !HasCurrent(r) {
      return NullPointer;
    }
    var doc := r.content.value.doc;
    var elements := r.content.value.elements;
    var p := elements[r.current];
    CurrentIsElement(r);
    var next := NextElementSibling(doc, p);
    if next.None? {
      return Moved(r, false);
    }
    var t := next.value;
    SiblingElementIsLater(doc, p, []);
    assert p + [] == p;
    var k := ScanForward(elements, r.current, t);
    ScanLandsOn(doc, r.current, k, t);
    var moved := r.(current := k);
    return Moved(moved, !AtEnd(moved));
  }

  /**
   * `gotoParentSibling`: from the current element's parent, find the next
   * sibling element, climbing to the parent whenever a node has no next
   * sibling; reaching the top puts the cursor at the end and returns false.
   * Otherwise scan forward to it and return `!atEnd()`.
   */
  method GotoParentSibling(r: Repn) returns (m: Moved)
    requires Consistent(r)
    ensures m.NullPointer? <==> !HasCurrent(r)
    ensures m.Moved? ==> Consistent(m.repn) && m.repn == r.(current := m.repn.current)
    ensures m.Moved? ==> m.found == !AtEnd(m.repn)
    ensures m.Moved? && ParentSiblingOfCurrent(r).None? ==> m == Moved(r.(current := ElementCount(r)), false)
    ensures m.Moved? && ParentSiblingOfCurrent(r).Some? ==>
              var t := ParentSiblingOfCurrent(r).value;
              t in r.content.value.elements && m.found && m.repn.current > r.current
              && m.repn.current == IndexOf(r.content.value.elements, t)
  {
    if !HasCurrent(r) {
      return NullPointer;
    }
    var doc := r.content.value.doc;
    var elements := r.content.value.elements;
    var p := elements[r.current];
    CurrentIsElement(r);
    var goal := AncestorSiblingElement(doc, Parent(p));
    var next := Parent(p);
    var done := false;
    while !done
      invariant NodeAt(doc, next).Some?
      invariant !done ==> AncestorSiblingElement(doc, next) == goal
      invariant done ==> |next| > 0 && goal == Some(next)
      decreases if done then 0 else 1, |next|, if |next| > 0 then Remaining(doc, next) else 0
    {
      ghost var start := next;
      while |next| == 0 || NextSibling(doc, next).None?
        invariant NodeAt(doc, next).Some?
        invariant AncestorSiblingElement(doc, next) == goal
        invariant next == start || |next| < |start|
        decreases |next|
      {
        if |next| == 0 {
          assert goal.None?;
          var ended := r.(current := |elements|);
          return Moved(ended, false);
        }
        NodeAtParent(doc, next);
        next := Parent(next);
      }
      NodeAtParent(doc, next);
      var s := NextSibling(doc, next).value;
      AncestorStep(doc, next);
      next := s;
      done := IsElement(NodeAt(doc, next).value);
    }
    AncestorSiblingElementIsLater(doc, Parent(p), [Last(p)]);
    assert Parent(p) + [Last(p)] == p;
    var k := ScanForward(elements, r.current, next);
    ScanLandsOn(doc, r.current, k, next);
    var moved := r.(current := k);
    return Moved(moved, !AtEnd(moved));
  }

  /** One step of the climbing search: moving to the next sibling keeps what the search will find. */
  lemma AncestorStep(doc: Node, q: NodePath)
    requires |q| > 0 && NodeAt(doc, q).Some?
    requires NodeAt(doc, Parent(q)).Some? && NextSibling(doc, q).Some?
    ensures var s := NextSibling(doc, q).value;
            if IsElement(NodeAt(doc, s).value) then AncestorSiblingElement(doc, q) == Some(s)
            else AncestorSiblingElement(doc, s) == AncestorSiblingElement(doc, q)
  {
    var s := NextSibling(doc, q).value;
    var kids := NodeAt(doc, Parent(q)).value.children;
    NodeAtParent(doc, s);
    assert s == Parent(q) + [Last(q) + 1];
    NodeAtParent(doc, q);
  }

  // ---------------------------------------------------------------------
  // getTextValue
  // ---------------------------------------------------------------------

  /** A node `getWholeText` gathers: a Text or CDATA section node. */
  predicate IsTextual(n: Node) {
    n.kind == TextNode || n.kind == CDataSectionNode
  }

  /** A text node's value; DOM never leaves it `null`, and `""` stands in if it is. */
  function TextOf(n: Node): string {
    if n.value.Some? then n.value.value else ""
  }

  /** Where the run of text nodes starting at `i` ends. */
  function TextRunEnd(cs: seq<Node>, i: nat): (k: nat)
    requires i <= |cs|
    ensures i <= k <= |cs|
    ensures forall j :: i <= j < k ==> IsTextual(cs[j])
    ensures k == |cs| || !IsTextual(cs[k])
    decreases |cs| - i
  {
    if i < |cs| && IsTextual(cs[i]) then TextRunEnd(cs, i + 1) else i
  }

  /** The values of a list of nodes, one after the other. */
  function Texts(cs: seq<Node>): string
    decreases |cs|
  {
    if |cs| == 0 then "" else TextOf(cs[0]) + Texts(cs[1..])
  }

  /** `getWholeText()` of the node at `i`: its text and that of the text nodes right after it. */
  function WholeText(cs: seq<Node>, i: nat): string
    requires i <= |cs|
    decreases |cs| - i
  {
    if i < |cs| && IsTextual(cs[i]) then TextOf(cs[i]) + WholeText(cs, i + 1) else ""
  }

  /** The whole text from `i` is the text of exactly the run of text nodes from `i`. */
  lemma {:induction false} WholeTextIsRun(cs: seq<Node>, i: nat)
    requires i <= |cs|
    ensures WholeText(cs, i) == Texts(cs[i..TextRunEnd(cs, i)])
    decreases |cs| - i
  {
    var k := TextRunEnd(cs, i);
    if i < |cs| && IsTextual(cs[i]) {
      WholeTextIsRun(cs, i + 1);
      assert cs[i..k][0] == cs[i] && cs[i..k][1..] == cs[i + 1..k];
    } else {
      assert cs[i..k] == [];
    }
  }

  datatype TextValue = TextValue(text: Option<string>) | TextNullPointer

  /** The element the cursor is on. */
  function CurrentNode(r: Repn): Node
    requires Consistent(r) && HasCurrent(r)
  {
    CurrentIsElement(r);
    NodeAt(r.content.value.doc, CurrentPath(r)).value
  }

  /**
   * `getTextValue`: when the current element's first child is a Text node,
   * its whole text, trimmed; otherwise `null`. Without a current element
   * `elements.item(...)` is `null` and the call fails.
   */
  function GetTextValue(r: Repn): (v: TextValue)
    requires Consistent(r)
    ensures v.TextNullPointer? <==> !HasCurrent(r)
    ensures v.TextValue? ==>
              var kids := CurrentNode(r).children;
              (v.text.Some? <==> |kids| > 0 && kids[0].kind == TextNode)
              && (v.text.Some? ==> v.text.value == Trim(Texts(kids[..TextRunEnd(kids, 0)])))
  {
    if !HasCurrent(r) then TextNullPointer
    else
      var kids := CurrentNode(r).children;
      if |kids| > 0 && kids[0].kind == TextNode then
        WholeTextIsRun(kids, 0);
        assert kids[0..TextRunEnd(kids, 0)] == kids[..TextRunEnd(kids, 0)];
        TextValue(Some(Trim(WholeText(kids, 0))))
      else TextValue(None)
  }

  /** The text returned is already trimmed: trimming it again changes nothing. */
  lemma TextValueIsTrimmed(r: Repn)
    requires Consistent(r)
    ensures var v := GetTextValue(r);
            v.TextValue? && v.text.Some? ==> Trim(v.text.value) == v.text.value
  {
    if HasCurrent(r) {
      var kids := CurrentNode(r).children;
      if |kids| > 0 && kids[0].kind == TextNode {
        TrimIdempotent(WholeText(kids, 0));
      }
    }
  }
}
