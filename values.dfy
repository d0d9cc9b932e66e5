/** Values that flow through the importer: the XML nodes it reads, the PHP
    values it binds to statement parameters, and PHP's truthiness test. */
module Values {

  datatype Option<+T> = None | Some(value: T)

  /** A value bound to a statement parameter. `Key` is an id returned by
      the store's auto-increment; `False` is PHP `false`, which `lookup`
      returns when the side-table insert fails. */
  datatype Value = Null | Str(s: string) | Key(id: nat) | False

  /** The parameter array of one insert: destination column -> value. */
  type Row = map<string, Value>

  /** The node types XMLReader reports while it walks a document. */
  datatype NodeKind =
    | Element
    | EndElement
    | Text
    | CData
    | Whitespace
    | SignificantWhitespace
    | Comment
    | ProcessingInstruction
    | DocumentType
    | Other

  /** One position of the XMLReader cursor: its node type, local name and
      the attributes of the node (empty for anything but an element). */
  datatype Node = Node(kind: NodeKind, localName: string, attributes: map<string, string>)

  /** XMLReader::getAttribute: the attribute's text, or null when absent. */
  function GetAttribute(n: Node, name: string): (r: Option<string>)
  {
    if name in n.attributes then Some(n.attributes[name]) else None
  }

  /** PHP's `(string)` cast of what getAttribute returns: null becomes "". */
  function AsString(a: Option<string>): (r: string)
  {
    match a
    case None => ""
    case Some(s) => s
  }

  /** PHP truthiness of getAttribute's result: null, "" and "0" are false. */
  predicate Truthy(a: Option<string>) {
    a.Some? && a.value != "" && a.value != "0"
  }

  /** The filter of the read loop: only `row` elements are records. */
  predicate IsRow(n: Node) {
    n.kind == Element && n.localName == "row"
  }

  /** The number of record nodes in a node sequence. */
  function CountRows(nodes: seq<Node>): (r: nat)
    ensures r <= |nodes|
  {
    if nodes == [] then 0
    else CountRows(nodes[..|nodes| - 1]) + (if IsRow(nodes[|nodes| - 1]) then 1 else 0)
  }

  /** The record nodes of a node sequence, in order. */
  function RowsOf(nodes: seq<Node>): (r: seq<Node>)
    ensures |r| == CountRows(nodes)
    ensures forall k :: 0 <= k < |r| ==> IsRow(r[k])
    ensures forall k :: 0 <= k < |nodes| && IsRow(nodes[k]) ==>
      CountRows(nodes[..k]) < |r| && r[CountRows(nodes[..k])] == nodes[k]
  {
    if nodes == [] then []
    else
      var init := nodes[..|nodes| - 1];
      assert forall k :: 0 <= k < |init| ==> init[..k] == nodes[..k];
      assert init == nodes[..|nodes| - 1];
      RowsOf(init) + (if IsRow(nodes[|nodes| - 1]) then [nodes[|nodes| - 1]] else [])
  }
}
