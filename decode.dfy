/**
 * The tree-to-value decoder.  The parser's syntax tree is walked depth first
 * against a destination value; record fields are selected by exact tag, and a
 * block becomes a record's fields, a list of fresh elements, or a map of fresh
 * elements, depending on the destination's kind.  Each function returns the
 * updated destination.
 */
module Decode {

  import opened Wrappers
  import opened Dest
  import opened IntParse
  import Lex

  datatype NodeKind = LtmNode | StructNode | KeyNode | ScalarNode

  /**
   * A syntax-tree node.  An entity node (the root) has the entity's component
   * and name, and the body block as its first child; a block has its entries as
   * children; a key node has the key text and zero or one child; a scalar has
   * the text of its value.
   */
  datatype Node = Node(kind: NodeKind, value: string, component: string, children: seq<Node>)

  /** No entity node anywhere in the subtree: the grammar makes entity nodes only at the root. */
  predicate Plain(n: Node) {
    n.kind != LtmNode && forall k | 0 <= k < |n.children| :: Plain(n.children[k])
  }

  /**
   * What decoding `n` into `out` needs in order not to panic: an entity node is
   * decoded into a record, and has a body.
   */
  predicate Decodable(n: Node, out: Value) {
    if n.kind == LtmNode then out.VStruct? && |n.children| > 0 && Plain(n.children[0]) else Plain(n)
  }

  /** Go's error result: nil, or the single parse error. */
  datatype Error = ParseError(msg: string)

  /**
   * Decode field-fmt text into `out`.  The text is trimmed of newlines at both
   * ends and scanned; `parse` stands for the grammar-driven parser that turns
   * the token stream into a tree.  On a parse failure the destination is left
   * as it was.
   */
  function Unmarshal(data: string, parse: seq<Lex.Token> -> Option<Node>, out: Value): (r: (Option<Error>, Value))
    requires var tree := parse(Lex.Tokens(TrimNewlines(data), 0)); tree.Some? ==> Decodable(tree.value, out)
    ensures var tree := parse(Lex.Tokens(TrimNewlines(data), 0));
            && (tree.None? ==> r == (Some(ParseError("Parse error")), out))
            && (tree.Some? ==> r.0 == None && TypeOf(r.1) == TypeOf(out))
  {
    var trimmed := TrimNewlines(data);
    match parse(Lex.Tokens(trimmed, 0))
    case None => (Some(ParseError("Parse error")), out)
    case Some(root) => (None, UnmarshalNode(root, out))
  }

  /** The index of the first character from `b` on, below `e`, that is not a newline (or `e`). */
  function TrimStart(s: string, b: nat, e: nat): (r: nat)
    requires b <= e <= |s|
    ensures b <= r <= e
    ensures forall j | b <= j < r :: s[j] == '\n'
    ensures r == e || s[r] != '\n'
    decreases e - b
  {
    if b < e && s[b] == '\n' then TrimStart(s, b + 1, e) else b
  }

  /** The end of `s[b..e]` once its trailing newlines are dropped. */
  function TrimEnd(s: string, b: nat, e: nat): (r: nat)
    requires b <= e <= |s|
    ensures b <= r <= e
    ensures forall j | r <= j < e :: s[j] == '\n'
    ensures r == b || s[r - 1] != '\n'
    decreases e - b
  {
    if b < e && s[e - 1] == '\n' then TrimEnd(s, b, e - 1) else e
  }

  /** strings.Trim(s, "\n"): leading newlines dropped first, then trailing ones. */
  function TrimNewlines(s: string): (r: string)
    ensures |r| <= |s|
    ensures r == [] || (r[0] != '\n' && r[|r| - 1] != '\n')
  {
    var b := TrimStart(s, 0, |s|);
    var e := TrimEnd(s, b, |s|);
    s[b..e]
  }

  /** The first field, in declaration order, whose tag is exactly `tag`. */
  function LookupField(tag: string, fs: seq<Field>): (r: Option<nat>)
    ensures r.Some? ==> r.value < |fs| && fs[r.value].tag == tag
    ensures r.Some? ==> forall j | 0 <= j < r.value :: fs[j].tag != tag
    ensures r.None? <==> forall j | 0 <= j < |fs| :: fs[j].tag != tag
  {
    if fs == [] then None
    else if fs[0].tag == tag then Some(0)
    else
      match LookupField(tag, fs[1..])
      case Some(k) => Some(k + 1)
      case None => None
  }

  /**
   * lookupField as the Go code runs it: a scan of the fields in declaration
   * order that stops at the first one carrying the tag.
   */
  method FindField(tag: string, fs: seq<Field>) returns (r: Option<nat>)
    ensures r == LookupField(tag, fs)
  {
    var i := 0;
    while i < |fs|
      invariant 0 <= i <= |fs|
      invariant forall j | 0 <= j < i :: fs[j].tag != tag
    {
      if fs[i].tag == tag {
        return Some(i);
      }
      i := i + 1;
    }
    return None;
  }

  /** unmarshal: dispatch on the node's kind. */
  function UnmarshalNode(n: Node, out: Value): (r: Value)
    requires Decodable(n, out)
    ensures TypeOf(r) == TypeOf(out)
    ensures WellTyped(out) ==> WellTyped(r)
    decreases n, 4
  {
    match n.kind
    case LtmNode => DecodeEntityNode(n, out)
    case StructNode => DecodeStructNode(n, out)
    case KeyNode => DecodeKeyNode(n, out)
    case ScalarNode => DecodeScalarNode(n, out)
  }

  /**
   * An entity: the body fills the record's record-kind fields and then the
   * record itself; then the name and component slots are set where still empty.
   */
  function DecodeEntityNode(n: Node, out: Value): (r: Value)
    requires n.kind == LtmNode && Decodable(n, out)
    ensures TypeOf(r) == TypeOf(out)
    ensures WellTyped(out) ==> WellTyped(r)
    decreases n, 3
  {
    var filled := FillFromBody(n, out);
    var named := SetIfEmpty(filled, "name", n.value);
    SetIfEmpty(named, "component", n.component)
  }

  /** The two passes of the body over an entity's destination. */
  function FillFromBody(n: Node, out: Value): (r: Value)
    requires n.kind == LtmNode && Decodable(n, out)
    ensures r.VStruct? && TypeOf(r) == TypeOf(out)
    ensures WellTyped(out) ==> WellTyped(r)
    decreases n, 2
  {
    var embedded := VStruct(FillEmbedded(n, out.fields, 0));
    var r := UnmarshalNode(n.children[0], embedded);
    StructTypeIsStruct(r, embedded);
    r
  }

  /** Decode the entity's body into every record-kind field from index `i` on. */
  function FillEmbedded(n: Node, fs: seq<Field>, i: nat): (r: seq<Field>)
    requires n.kind == LtmNode && |n.children| > 0 && Plain(n.children[0]) && i <= |fs|
    ensures TypeOf(VStruct(r)) == TypeOf(VStruct(fs))
    ensures WellTyped(VStruct(fs)) ==> WellTyped(VStruct(r))
    decreases n, 1, |fs| - i
  {
    if i == |fs| then fs
    else
      var f := fs[i];
      var v := if f.val.VStruct? then UnmarshalNode(n.children[0], f.val) else f.val;
      UpdateKeepsType(fs, i, v);
      FillEmbedded(n, fs[i := Field(f.tag, v)], i + 1)
  }

  /** Set the first field tagged `tag` to `s` if it is a string field holding "". */
  function SetIfEmpty(out: Value, tag: string, s: string): (r: Value)
    requires out.VStruct?
    ensures r.VStruct? && TypeOf(r) == TypeOf(out)
    ensures WellTyped(out) ==> WellTyped(r)
  {
    match LookupField(tag, out.fields)
    case Some(k) =>
      if out.fields[k].val == VString("") then
        UpdateKeepsType(out.fields, k, VString(s));
        VStruct(out.fields[k := Field(tag, VString(s))])
      else out
    case None => out
  }

  /**
   * A block: into a record, a list, a map; into anything else it does nothing.
   * What it computes is stated by LastKeyWins, SliceBlock, MapBlock and
   * BlockIntoScalarIsNoOp in DecodeProperties.
   */
  function DecodeStructNode(n: Node, out: Value): (r: Value)
    requires Plain(n)
    ensures TypeOf(r) == TypeOf(out)
    ensures WellTyped(out) ==> WellTyped(r)
    decreases n, 3
  {
    match out
    case VStruct(_) => DecodeChildren(n, 0, out)
    case VSlice(et, _) => VSlice(et, SliceItems(n, 0, et))
    case VMap(et, _) => VMap(et, MapEntries(n, 0, et, map[]))
    case _ => out
  }

  /** Decode the children of `n` from index `i` on, in order, into the same destination. */
  function DecodeChildren(n: Node, i: nat, out: Value): (r: Value)
    requires Plain(n) && i <= |n.children|
    ensures TypeOf(r) == TypeOf(out)
    ensures WellTyped(out) ==> WellTyped(r)
    decreases n, 1, |n.children| - i
  {
    if i == |n.children| then out
    else
      assert Plain(n.children[i]);
      DecodeChildren(n, i + 1, UnmarshalNode(n.children[i], out))
  }

  /** List elements for the children from index `i` on: each a zero element filled from that child's children. */
  function SliceItems(n: Node, i: nat, et: Type): (r: seq<Value>)
    requires Plain(n) && i <= |n.children|
    ensures |r| == |n.children| - i
    ensures forall k | 0 <= k < |r| :: TypeOf(r[k]) == et && WellTyped(r[k])
    decreases n, 2, |n.children| - i
  {
    if i == |n.children| then []
    else [DecodeChildren(n.children[i], 0, Zero(et))] + SliceItems(n, i + 1, et)
  }

  /** Map entries for the children from index `i` on, each under the child's text, added to `acc`. */
  function MapEntries(n: Node, i: nat, et: Type, acc: map<string, Value>): (r: map<string, Value>)
    requires Plain(n) && i <= |n.children|
    requires forall key | key in acc :: TypeOf(acc[key]) == et && WellTyped(acc[key])
    ensures forall key | key in r :: TypeOf(r[key]) == et && WellTyped(r[key])
    decreases n, 2, |n.children| - i
  {
    if i == |n.children| then acc
    else
      var c := n.children[i];
      MapEntries(n, i + 1, et, acc[c.value := DecodeChildren(c, 0, Zero(et))])
  }

  /**
   * A key: decode its child into the first field with that exact tag, if any.
   * What it computes is stated by KeyNodeSelectsFirstMatch in DecodeProperties.
   */
  function DecodeKeyNode(n: Node, out: Value): (r: Value)
    requires Plain(n)
    ensures TypeOf(r) == TypeOf(out)
    ensures WellTyped(out) ==> WellTyped(r)
    decreases n, 3
  {
    match out
    case VStruct(fs) =>
      (match LookupField(n.value, fs)
       case Some(k) =>
         if |n.children| > 0 then
           assert Plain(n.children[0]);
           var v := UnmarshalNode(n.children[0], fs[k].val);
           UpdateKeepsType(fs, k, v);
           VStruct(fs[k := Field(fs[k].tag, v)])
         else out
       case None => out)
    case _ => out
  }

  /**
   * A scalar: parsed into an int field, copied into a string field, ignored
   * otherwise.  What it computes is stated by ScalarIntoField,
   * UnparsableIntIsZero and ScalarIntoOtherKind in DecodeProperties, and by
   * SyntaxErrorIsZero and Saturates in IntParse.
   */
  function DecodeScalarNode(n: Node, out: Value): (r: Value)
    ensures TypeOf(r) == TypeOf(out)
    ensures WellTyped(out) ==> WellTyped(r)
    decreases n, 3
  {
    match out
    case VInt(_) => VInt(ParseInt(n.value))
    case VString(_) => VString(n.value)
    case _ => out
  }
}
