/** The CSG readers of the scene file (`CSGOperandReader`,
    `CSGOperationReader` and `CSGTreeReader` in
    src/frontend/sceneserializable.cpp) and the names of light-source
    kinds. The document is a tree of elements; reading a leaf's shape
    (`CSGValueReader` and the shape readers) is a parameter. */
module SceneReading {
  import opened Shapes
  import opened Csg
  import Scenes

  /** An element of the scene document: its tag, its `type` attribute
      when present, and its child elements in order. */
  datatype Element = Element(tag: string, typeAttr: Option<string>, children: seq<Element>)

  /** The `k`-th child (`firstChild()` and then `nextSibling()`); `None`
      is the null node. */
  function Child(node: Element, k: nat): Option<Element>
  {
    if k < |node.children| then Some(node.children[k]) else None
  }

  /** The `type` attribute; a missing one leaves the string empty. */
  function TypeOf(node: Element): string
  {
    if node.typeAttr.Some? then node.typeAttr.value else ""
  }

  /** The operator names and the node kinds they build. */
  function OperationKind(name: string): Option<OpKind>
  {
    if name == "union" then Some(UnionOp)
    else if name == "intersection" then Some(IntersectionOp)
    else if name == "difference" then Some(DifferenceOp)
    else None
  }

  function KindName(k: OpKind): string
  {
    match k
    case UnionOp => "union"
    case IntersectionOp => "intersection"
    case DifferenceOp => "difference"
  }

  /** The three names are the only ones accepted, and each names its own
      kind. */
  lemma OperationNames(name: string, k: OpKind)
    ensures OperationKind(KindName(k)) == Some(k)
    ensures OperationKind(name).Some? ==> KindName(OperationKind(name).value) == name
    ensures OperationKind(name).Some? <==> name in {"union", "intersection", "difference"}
  {
  }

  /** `CSGOperandReader::read` on the `k`-th child of `parent`: the
      operand element must hold a `value` or an `operation` element
      first, which is read as such; anything else fails. */
  function ReadOperand(parent: Element, k: nat, readValue: Element -> Option<Shape>): (r: Option<Node>)
    ensures r.Some? ==> Child(parent, k).Some? && Child(Child(parent, k).value, 0).Some?
    ensures r.Some? ==> var inner := Child(Child(parent, k).value, 0).value;
                        (inner.tag == "value" && readValue(inner).Some? && r.value == Value(readValue(inner).value)) ||
                        (inner.tag == "operation" && Some(r.value) == ReadOperation(inner, readValue))
    decreases parent, 0
  {
    var node := Child(parent, k);
    if node.None? then None
    else
      var first := Child(node.value, 0);
      if first.None? then None
      else if first.value.tag == "value" then
        (var shape := readValue(first.value); if shape.None? then None else Some(Value(shape.value)))
      else if first.value.tag == "operation" then ReadOperation(first.value, readValue)
      else None
  }

  /** `CSGOperationReader::read`: both operands must be read (a missing
      one fails), then the `type` attribute names the operator; an
      unknown name fails. */
  function ReadOperation(node: Element, readValue: Element -> Option<Shape>): (r: Option<Node>)
    ensures r.Some? <==> ReadOperand(node, 0, readValue).Some? && ReadOperand(node, 1, readValue).Some? &&
                         OperationKind(TypeOf(node)).Some?
    ensures r.Some? ==> r.value == Operation(OperationKind(TypeOf(node)).value, ReadOperand(node, 0, readValue),
                                             ReadOperand(node, 1, readValue))
    decreases node, 1
  {
    var lHand := ReadOperand(node, 0, readValue);
    if lHand.None? then None
    else
      var rHand := ReadOperand(node, 1, readValue);
      if rHand.None? then None
      else
        var kind := OperationKind(TypeOf(node));
        if kind.None? then None else Some(Operation(kind.value, lHand, rHand))
  }

  /** An operation element with fewer than two operand elements is
      refused. */
  lemma MissingOperandFails(node: Element, readValue: Element -> Option<Shape>)
    requires |node.children| < 2
    ensures ReadOperation(node, readValue).None?
  {
    assert Child(node, 1).None?;
  }

  /** `CSGTreeReader::read`: the first element must be an `operation` or
      a `value`, which becomes the root. */
  function ReadTree(node: Element, readValue: Element -> Option<Shape>): (t: Option<Tree>)
    ensures t.Some? ==> Child(node, 0).Some? && Child(node, 0).value.tag in {"operation", "value"}
    ensures t.Some? && Child(node, 0).value.tag == "operation" ==>
              Some(t.value.root) == ReadOperation(Child(node, 0).value, readValue)
    ensures t.Some? && Child(node, 0).value.tag == "value" ==>
              readValue(Child(node, 0).value).Some? && t.value.root == Value(readValue(Child(node, 0).value).value)
  {
    var first := Child(node, 0);
    if first.None? then None
    else if first.value.tag == "operation" then
      (var op := ReadOperation(first.value, readValue); if op.None? then None else Some(Tree(op.value)))
    else if first.value.tag == "value" then
      (var shape := readValue(first.value); if shape.None? then None else Some(Tree(Value(shape.value))))
    else None
  }

  /** Every operation the readers build has both children, all the way
      down, so evaluating the tree never meets a null child. */
  lemma {:induction false} ReadOperandWired(parent: Element, k: nat, readValue: Element -> Option<Shape>)
    ensures ReadOperand(parent, k, readValue).Some? ==> Wired(ReadOperand(parent, k, readValue).value)
    decreases parent, 0
  {
    var node := Child(parent, k);
    if node.Some? {
      var first := Child(node.value, 0);
      if first.Some? && first.value.tag == "operation" {
        ReadOperationWired(first.value, readValue);
      }
    }
  }

  lemma {:induction false} ReadOperationWired(node: Element, readValue: Element -> Option<Shape>)
    ensures ReadOperation(node, readValue).Some? ==> Wired(ReadOperation(node, readValue).value)
    decreases node, 1
  {
    ReadOperandWired(node, 0, readValue);
    ReadOperandWired(node, 1, readValue);
  }

  lemma ReadTreeWired(node: Element, readValue: Element -> Option<Shape>)
    ensures ReadTree(node, readValue).Some? ==> Wired(ReadTree(node, readValue).value.root)
  {
    if Child(node, 0).Some? && Child(node, 0).value.tag == "operation" {
      ReadOperationWired(Child(node, 0).value, readValue);
    }
  }

  // ---------------------------------------------------------------
  // Light-source kinds
  // ---------------------------------------------------------------

  /** `GLightSourceTypeToString`: each kind has its own name. */
  function LightTypeName(t: Scenes.LightSourceType): (s: string)
    ensures t == Scenes.Point <==> s == "Point"
    ensures t == Scenes.Directional <==> s == "Diral"
    ensures t == Scenes.Spot <==> s == "Spotlight"
  {
    match t
    case Point => "Point"
    case Directional => "Diral"
    case Spot => "Spotlight"
  }
}
