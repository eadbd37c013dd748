/**
 * `RepnXML.prettyPrintNode` and `RepnXML.dumpNode`: the two diagnostic
 * renderings of a DOM node and the nodes below it, one line per node,
 * children indented one space further than their parent.
 */
module DomRender {
  import opened JavaText
  import opened Dom

  /** `depth` spaces; a negative depth gives none, as the `for` loops do. */
  function Spaces(depth: int): (s: string)
    ensures |s| == (if depth > 0 then depth else 0)
    ensures forall k :: 0 <= k < |s| ==> s[k] == ' '
    decreases depth
  {
    if depth <= 0 then "" else Spaces(depth - 1) + " "
  }

  function Concat(ss: seq<string>): string
    decreases |ss|
  {
    if |ss| == 0 then "" else ss[0] + Concat(ss[1..])
  }

  /** `StringBuffer.append(String)`: a `null` string appends `null`. */
  function AppendText(v: Option<string>): string {
    if v.Some? then v.value else "null"
  }

  /** A text or attribute value `prettyPrintNode` skips: `null`, or blank once trimmed. */
  predicate IsBlankValue(v: Option<string>) {
    v.None? || Trim(v.value) == ""
  }

  // ---------------------------------------------------------------------
  // prettyPrintNode
  // ---------------------------------------------------------------------

  /**
   * `prettyPrintNode(n, depth)`: an element prints its name and then its
   * children one level deeper; a text or attribute node prints its trimmed
   * value unless that is blank; any other node prints its type code and its
   * untrimmed value, without indentation.
   */
  function PrettyPrintNode(n: Option<Node>, depth: int): (s: string)
    ensures n.None? ==> s == ""
    ensures n.Some? && (n.value.kind == TextNode || n.value.kind == AttributeNode) && IsBlankValue(n.value.value) ==> s == ""
  {
    if n.None? then "" else PrettyNode(n.value, depth)
  }

  function PrettyNode(n: Node, depth: int): string
    decreases n
  {
    if n.kind == ElementNode then
      Spaces(depth) + "Element: " + n.name + "\n"
      + Concat(seq(|n.children|, i requires 0 <= i < |n.children| => PrettyNode(n.children[i], depth + 1)))
    else if n.kind == TextNode then
      if IsBlankValue(n.value) then "" else Spaces(depth) + "Text: '" + Trim(n.value.value) + "'\n"
    else if n.kind == AttributeNode then
      if IsBlankValue(n.value) then ""
      else Spaces(depth) + "Name: '" + n.name + "' Value: '" + Trim(n.value.value) + "'\n"
    else
      ShowInt(n.kind) + " " + AppendText(n.value) + "\n"
  }

  // ---------------------------------------------------------------------
  // dumpNode
  // ---------------------------------------------------------------------

  /** The `NamedNodeMap` loop of `dumpNode`: one line per attribute, in order. */
  function AttributeLines(attrs: seq<Node>, depth: int): string
    decreases |attrs|
  {
    if |attrs| == 0 then "" else AttributeLine(attrs[0], depth) + AttributeLines(attrs[1..], depth)
  }

  /** A value as `dumpNode` writes it: quoted and trimmed, or `<null>`. */
  function DumpValue(v: Option<string>): string {
    if v.Some? then "'" + Trim(v.value) + "'" else "<null>"
  }

  /** The line `dumpNode` writes for one attribute of an element. */
  function AttributeLine(a: Node, depth: int): string {
    Spaces(depth) + "Attribute: " + a.name + "(Type: " + ShowInt(a.kind) + ") " + DumpValue(a.value) + "\n"
  }

  /**
   * `dumpNode(n, depth)`: a line for the node with its name, type code,
   * namespace URI and value; a line for each attribute (only elements have
   * a `NamedNodeMap`), one level deeper; then every child, one level deeper.
   */
  function DumpNode(n: Option<Node>, depth: int): (s: string)
    ensures n.None? ==> s == ""
  {
    if n.None? then "" else DumpTree(n.value, depth)
  }

  function DumpTree(n: Node, depth: int): string
    decreases n
  {
    Spaces(depth) + "Node: " + n.name + "(Type: " + ShowInt(n.kind) + ") " + AppendText(n.namespace)
    + DumpValue(n.value) + "\n"
    + (if IsElement(n)
       then AttributeLines(n.attributes, depth + 1)
       else "")
    + Concat(seq(|n.children|, i requires 0 <= i < |n.children| => DumpTree(n.children[i], depth + 1)))
  }

  // ---------------------------------------------------------------------
  // Reference definition: the list of lines, in document order
  // ---------------------------------------------------------------------

  /** One line of output: a node, or an attribute of an element, with its indentation. */
  datatype Entry = NodeEntry(node: Node, depth: int) | AttributeEntry(attr: Node, depth: int)

  function Flatten<T>(xss: seq<seq<T>>): seq<T>
    decreases |xss|
  {
    if |xss| == 0 then [] else xss[0] + Flatten(xss[1..])
  }

  /**
   * The entries `prettyPrintNode` visits: the node, then, for an element,
   * the entries of each child one level deeper.
   */
  function PrettyEntries(n: Node, depth: int): (es: seq<Entry>)
    ensures |es| > 0 && es[0] == NodeEntry(n, depth)
    decreases n
  {
    [NodeEntry(n, depth)]
    + if IsElement(n)
      then Flatten(seq(|n.children|, i requires 0 <= i < |n.children| => PrettyEntries(n.children[i], depth + 1)))
      else []
  }

  /**
   * The entries `dumpNode` visits: the node, its attributes if it is an
   * element, then the entries of every child, all one level deeper.
   */
  function DumpEntries(n: Node, depth: int): (es: seq<Entry>)
    ensures |es| > 0 && es[0] == NodeEntry(n, depth)
    decreases n
  {
    [NodeEntry(n, depth)] + AttributeEntries(n, depth + 1)
    + Flatten(seq(|n.children|, i requires 0 <= i < |n.children| => DumpEntries(n.children[i], depth + 1)))
  }

  /** What `prettyPrintNode` writes for one entry alone, ignoring children. */
  function PrettyLine(e: Entry): string {
    match e
    case AttributeEntry(_, _) => ""
    case NodeEntry(n, depth) =>
      if n.kind == ElementNode then Spaces(depth) + "Element: " + n.name + "\n"
      else PrettyNode(n, depth)
  }

  /** What `dumpNode` writes for one entry alone. */
  function DumpLine(e: Entry): string {
    match e
    case AttributeEntry(a, depth) => AttributeLine(a, depth)
    case NodeEntry(n, depth) =>
      Spaces(depth) + "Node: " + n.name + "(Type: " + ShowInt(n.kind) + ") " + AppendText(n.namespace)
      + DumpValue(n.value) + "\n"
  }

  function PrettyLines(es: seq<Entry>): string
    decreases |es|
  {
    if |es| == 0 then "" else PrettyLine(es[0]) + PrettyLines(es[1..])
  }

  function DumpLines(es: seq<Entry>): string
    decreases |es|
  {
    if |es| == 0 then "" else DumpLine(es[0]) + DumpLines(es[1..])
  }

  lemma {:induction false} PrettyLinesAppend(a: seq<Entry>, b: seq<Entry>)
    ensures PrettyLines(a + b) == PrettyLines(a) + PrettyLines(b)
    decreases |a|
  {
    if |a| == 0 {
      assert a + b == b;
    } else {
      assert (a + b)[0] == a[0] && (a + b)[1..] == a[1..] + b;
      PrettyLinesAppend(a[1..], b);
    }
  }

  lemma {:induction false} DumpLinesAppend(a: seq<Entry>, b: seq<Entry>)
    ensures DumpLines(a + b) == DumpLines(a) + DumpLines(b)
    decreases |a|
  {
    if |a| == 0 {
      assert a + b == b;
    } else {
      assert (a + b)[0] == a[0] && (a + b)[1..] == a[1..] + b;
      DumpLinesAppend(a[1..], b);
    }
  }

  /** Writing the flattened lists one after the other is writing each list in turn. */
  lemma {:induction false} PrettyLinesFlatten(xss: seq<seq<Entry>>, outs: seq<string>)
    requires |outs| == |xss| && forall i :: 0 <= i < |xss| ==> outs[i] == PrettyLines(xss[i])
    ensures PrettyLines(Flatten(xss)) == Concat(outs)
    decreases |xss|
  {
    if |xss| > 0 {
      PrettyLinesAppend(xss[0], Flatten(xss[1..]));
      PrettyLinesFlatten(xss[1..], outs[1..]);
    }
  }

  lemma {:induction false} DumpLinesFlatten(xss: seq<seq<Entry>>, outs: seq<string>)
    requires |outs| == |xss| && forall i :: 0 <= i < |xss| ==> outs[i] == DumpLines(xss[i])
    ensures DumpLines(Flatten(xss)) == Concat(outs)
    decreases |xss|
  {
    if |xss| > 0 {
      DumpLinesAppend(xss[0], Flatten(xss[1..]));
      DumpLinesFlatten(xss[1..], outs[1..]);
    }
  }

  /** The attribute lines of an element are its attribute entries, written in order. */
  lemma {:induction false} AttributeEntriesAsLines(attrs: seq<Node>, depth: int)
    ensures DumpLines(AttributeEntryList(attrs, depth)) == AttributeLines(attrs, depth)
    decreases |attrs|
  {
    if |attrs| > 0 {
      var es := AttributeEntryList(attrs, depth);
      assert es[0] == AttributeEntry(attrs[0], depth);
      assert es[1..] == AttributeEntryList(attrs[1..], depth);
      AttributeEntriesAsLines(attrs[1..], depth);
    }
  }

  /** `prettyPrintNode` writes its entries' lines in document order, and nothing else. */
  lemma {:induction false} PrettyPrintIsPreorder(n: Node, depth: int)
    ensures PrettyNode(n, depth) == PrettyLines(PrettyEntries(n, depth))
    decreases n
  {
    var head := [NodeEntry(n, depth)];
    assert PrettyLines(head) == PrettyLine(NodeEntry(n, depth)) by {
      assert head[1..] == [];
    }
    if IsElement(n) {
      var xss := seq(|n.children|, i requires 0 <= i < |n.children| => PrettyEntries(n.children[i], depth + 1));
      var outs := seq(|n.children|, i requires 0 <= i < |n.children| => PrettyNode(n.children[i], depth + 1));
      forall i | 0 <= i < |n.children| ensures outs[i] == PrettyLines(xss[i]) {
        PrettyPrintIsPreorder(n.children[i], depth + 1);
      }
      PrettyLinesFlatten(xss, outs);
      PrettyLinesAppend(head, Flatten(xss));
    } else {
      assert PrettyEntries(n, depth) == head;
    }
  }

  function AttributeEntryList(attrs: seq<Node>, depth: int): (es: seq<Entry>)
    ensures |es| == |attrs|
    decreases |attrs|
  {
    if |attrs| == 0 then [] else [AttributeEntry(attrs[0], depth)] + AttributeEntryList(attrs[1..], depth)
  }

  /** The attribute entries of a node: only an element has attributes to list. */
  function AttributeEntries(n: Node, depth: int): seq<Entry> {
    if IsElement(n) then AttributeEntryList(n.attributes, depth) else []
  }

  lemma {:induction false} DumpChildrenAsLines(n: Node, depth: int)
    ensures DumpLines(Flatten(seq(|n.children|, i requires 0 <= i < |n.children| => DumpEntries(n.children[i], depth))))
         == Concat(seq(|n.children|, i requires 0 <= i < |n.children| => DumpTree(n.children[i], depth)))
    decreases n, 0
  {
    var xss := seq(|n.children|, i requires 0 <= i < |n.children| => DumpEntries(n.children[i], depth));
    var outs := seq(|n.children|, i requires 0 <= i < |n.children| => DumpTree(n.children[i], depth));
    forall i | 0 <= i < |n.children| ensures outs[i] == DumpLines(xss[i]) {
      DumpIsPreorder(n.children[i], depth);
    }
    DumpLinesFlatten(xss, outs);
  }

  /** `dumpNode` writes its entries' lines in document order, and nothing else. */
  lemma {:induction false} DumpIsPreorder(n: Node, depth: int)
    ensures DumpTree(n, depth) == DumpLines(DumpEntries(n, depth))
    decreases n, 1
  {
    var head := [NodeEntry(n, depth)];
    assert DumpLines(head) == DumpLine(NodeEntry(n, depth)) by {
      assert head[1..] == [];
    }
    var attrs := AttributeEntries(n, depth + 1);
    var rest := Flatten(seq(|n.children|, i requires 0 <= i < |n.children| => DumpEntries(n.children[i], depth + 1)));
    if IsElement(n) {
      AttributeEntriesAsLines(n.attributes, depth + 1);
    }
    DumpChildrenAsLines(n, depth + 1);
    DumpLinesAppend(head + attrs, rest);
    DumpLinesAppend(head, attrs);
    assert DumpEntries(n, depth) == head + attrs + rest;
  }

  lemma {:induction false} InFlatten<T>(xss: seq<seq<T>>, x: T)
    requires x in Flatten(xss)
    ensures exists i :: 0 <= i < |xss| && x in xss[i]
    decreases |xss|
  {
    if x !in xss[0] {
      InFlatten(xss[1..], x);
      var i :| 0 <= i < |xss[1..]| && x in xss[1..][i];
      assert x in xss[i + 1];
    }
  }

  /**
   * `prettyPrintNode` lists only nodes, never attributes of an element,
   * and everything after the node itself is indented further.
   */
  lemma {:induction false} PrettyEntriesIndent(n: Node, depth: int)
    ensures forall e :: e in PrettyEntries(n, depth) ==> e.NodeEntry? && e.depth >= depth
    ensures forall k :: 1 <= k < |PrettyEntries(n, depth)| ==> PrettyEntries(n, depth)[k].depth > depth
    ensures !IsElement(n) ==> PrettyEntries(n, depth) == [NodeEntry(n, depth)]
    decreases n
  {
    var es := PrettyEntries(n, depth);
    if IsElement(n) {
      var xss := seq(|n.children|, i requires 0 <= i < |n.children| => PrettyEntries(n.children[i], depth + 1));
      assert es == [NodeEntry(n, depth)] + Flatten(xss);
      forall k | 1 <= k < |es| ensures es[k].NodeEntry? && es[k].depth > depth {
        assert es[k] in Flatten(xss);
        InFlatten(xss, es[k]);
        var i :| 0 <= i < |xss| && es[k] in xss[i];
        PrettyEntriesIndent(n.children[i], depth + 1);
      }
      forall e | e in es ensures e.NodeEntry? && e.depth >= depth {
        var k :| 0 <= k < |es| && es[k] == e;
      }
    }
  }

  /**
   * `dumpNode` lists its attributes and children one level deeper than
   * the node itself, and lists attributes only for elements.
   */
  lemma {:induction false} DumpEntriesIndent(n: Node, depth: int)
    ensures forall k :: 1 <= k < |DumpEntries(n, depth)| ==> DumpEntries(n, depth)[k].depth > depth
    ensures IsElement(n) ==> forall j :: 0 <= j < |n.attributes| ==>
              DumpEntries(n, depth)[1 + j] == AttributeEntry(n.attributes[j], depth + 1)
    ensures !IsElement(n) && |n.children| == 0 ==> DumpEntries(n, depth) == [NodeEntry(n, depth)]
    decreases n
  {
    var es := DumpEntries(n, depth);
    var attrs := AttributeEntries(n, depth + 1);
    var xss := seq(|n.children|, i requires 0 <= i < |n.children| => DumpEntries(n.children[i], depth + 1));
    assert es == [NodeEntry(n, depth)] + attrs + Flatten(xss);
    if IsElement(n) {
      AttributeEntryListAt(n.attributes, depth + 1);
    }
    forall k | 1 <= k < |es| ensures es[k].depth > depth {
      if k < 1 + |attrs| {
        assert es[k] == attrs[k - 1];
        if IsElement(n) {
          AttributeEntryListAt(n.attributes, depth + 1);
        }
      } else {
        assert es[k] == Flatten(xss)[k - 1 - |attrs|];
        assert es[k] in Flatten(xss);
        InFlatten(xss, es[k]);
        var i :| 0 <= i < |xss| && es[k] in xss[i];
        DumpEntriesIndent(n.children[i], depth + 1);
        var m :| 0 <= m < |xss[i]| && xss[i][m] == es[k];
        assert xss[i][0].depth == depth + 1;
      }
    }
  }

  lemma {:induction false} AttributeEntryListAt(attrs: seq<Node>, depth: int)
    ensures forall j :: 0 <= j < |attrs| ==> AttributeEntryList(attrs, depth)[j] == AttributeEntry(attrs[j], depth)
    decreases |attrs|
  {
    if |attrs| > 0 {
      AttributeEntryListAt(attrs[1..], depth);
    }
  }
}
