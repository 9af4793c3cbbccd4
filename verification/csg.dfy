/** CSG trees: operand nodes with two child pointers
    (src/csg/csgoperand.h), leaves wrapping a scene shape
    (src/csg/csgvalue.cpp), the three operation nodes and the root wrapper
    that makes a tree a scene object (src/csg/csgtree.cpp). */
module Csg {
  import opened Vector3D
  import opened Rays
  import opened Intersection
  import opened Shapes
  import CsgUnion
  import CsgIntersection
  import CsgDifference

  datatype OpKind = UnionOp | IntersectionOp | DifferenceOp

  /** A node: a leaf (`CSGValue`, built with two null children) or an
      operation whose child pointers may be null. */
  datatype Node = Value(shape: Shape) | Operation(kind: OpKind, lh: Option<Node>, rh: Option<Node>)

  /** The left child pointer (`l()`). */
  function L(n: Node): Option<Node>
  {
    if n.Value? then None else n.lh
  }

  /** The right child pointer (`r()`). */
  function R(n: Node): Option<Node>
  {
    if n.Value? then None else n.rh
  }

  predicate HasL(n: Node) { L(n).Some? }

  predicate HasR(n: Node) { R(n).Some? }

  /** The accessors return the pointers given at construction, and test
      them against null. */
  lemma OperandAccessors(k: OpKind, a: Option<Node>, b: Option<Node>)
    ensures L(Operation(k, a, b)) == a && R(Operation(k, a, b)) == b
    ensures HasL(Operation(k, a, b)) <==> a.Some?
    ensures HasR(Operation(k, a, b)) <==> b.Some?
  {
  }

  lemma ValueHasNoChildren(s: Shape)
    ensures !HasL(Value(s)) && !HasR(Value(s))
  {
  }

  // ---------------------------------------------------------------
  // Surface queries of the nodes
  // ---------------------------------------------------------------

  /** `getMtrl`: a leaf's shape's material; operations have none. */
  function NodeMtrl(n: Node): (m: Option<Mtrl>)
    ensures n.Operation? ==> m.None?
    ensures n.Value? ==> m == n.shape.mtrl
  {
    match n
    case Value(s) => s.mtrl
    case Operation(_, _, _) => None
  }

  /** `getNormal`: a leaf asks its shape; an operation returns the normal
      stored in the record, whatever the ray and distance. */
  function NodeNormal(n: Node, ray: Ray, distance: real, isect: CIsect): (v: Vec3D)
    ensures n.Operation? ==> v == isect.normal
    ensures n.Value? ==> v == n.shape.normal(ray, distance, isect)
  {
    match n
    case Value(s) => s.normal(ray, distance, isect)
    case Operation(_, _, _) => isect.normal
  }

  /** `isLight`: a leaf reports its shape's flag; operations are never
      lights. */
  function NodeIsLight(n: Node): (b: bool)
    ensures b <==> n.Value? && n.shape.light
  {
    match n
    case Value(s) => s.light
    case Operation(_, _, _) => false
  }

  /** `setIsLight`: a leaf forwards the flag to its shape; operations
      ignore it. */
  function SetIsLight(n: Node, light: bool): (m: Node)
    ensures m.Value? == n.Value?
    ensures NodeMtrl(m) == NodeMtrl(n)
  {
    match n
    case Value(s) => Value(s.(light := light))
    case Operation(_, _, _) => n
  }

  /** Setting the flag and reading it back gives the flag on a leaf and
      false on an operation; nothing else about a leaf's shape changes. */
  lemma SetThenIsLight(n: Node, light: bool)
    ensures NodeIsLight(SetIsLight(n, light)) == (n.Value? && light)
    ensures n.Value? ==> SetIsLight(n, light).shape == n.shape.(light := light)
    ensures n.Operation? ==> SetIsLight(n, light) == n
  {
  }

  /** The colour and texture queries an operation node or a tree answers
      by asking the object recorded in the hit (null is not a valid
      object there). */
  function ObjectAmbColor(world: nat -> Shape, pnt: Vec3D, isect: CIsect): Vec3D
    requires isect.obj.Ref?
  {
    world(isect.obj.id).ambColor(pnt, isect)
  }

  function ObjectDifColor(world: nat -> Shape, pnt: Vec3D, isect: CIsect): Vec3D
    requires isect.obj.Ref?
  {
    world(isect.obj.id).difColor(pnt, isect)
  }

  function ObjectSpcColor(world: nat -> Shape, pnt: Vec3D, isect: CIsect): Vec3D
    requires isect.obj.Ref?
  {
    world(isect.obj.id).spcColor(pnt, isect)
  }

  /** Texture coordinates are asked for without passing the record on:
      the object sees a default-constructed one. */
  function ObjectTexCoords(world: nat -> Shape, pnt: Vec3D, isect: CIsect): Vec3D
    requires isect.obj.Ref?
  {
    world(isect.obj.id).texCoords(pnt, Absent())
  }

  /** The colour queries of a node: a leaf delegates to its shape with the
      same point and record, an operation to the recorded object. */
  function NodeAmbColor(n: Node, world: nat -> Shape, pnt: Vec3D, isect: CIsect): (c: Vec3D)
    requires n.Operation? ==> isect.obj.Ref?
    ensures n.Value? ==> c == n.shape.ambColor(pnt, isect)
    ensures n.Operation? ==> c == world(isect.obj.id).ambColor(pnt, isect)
  {
    if n.Value? then n.shape.ambColor(pnt, isect) else ObjectAmbColor(world, pnt, isect)
  }

  function NodeDifColor(n: Node, world: nat -> Shape, pnt: Vec3D, isect: CIsect): (c: Vec3D)
    requires n.Operation? ==> isect.obj.Ref?
    ensures n.Value? ==> c == n.shape.difColor(pnt, isect)
    ensures n.Operation? ==> c == world(isect.obj.id).difColor(pnt, isect)
  {
    if n.Value? then n.shape.difColor(pnt, isect) else ObjectDifColor(world, pnt, isect)
  }

  function NodeSpcColor(n: Node, world: nat -> Shape, pnt: Vec3D, isect: CIsect): (c: Vec3D)
    requires n.Operation? ==> isect.obj.Ref?
    ensures n.Value? ==> c == n.shape.spcColor(pnt, isect)
    ensures n.Operation? ==> c == world(isect.obj.id).spcColor(pnt, isect)
  {
    if n.Value? then n.shape.spcColor(pnt, isect) else ObjectSpcColor(world, pnt, isect)
  }

  function NodeTexCoords(n: Node, world: nat -> Shape, pnt: Vec3D, isect: CIsect): (c: Vec3D)
    requires n.Operation? ==> isect.obj.Ref?
    ensures n.Value? ==> c == n.shape.texCoords(pnt, isect)
    ensures n.Operation? ==> c == world(isect.obj.id).texCoords(pnt, Absent())
  {
    if n.Value? then n.shape.texCoords(pnt, isect) else ObjectTexCoords(world, pnt, isect)
  }

  // ---------------------------------------------------------------
  // Evaluation
  // ---------------------------------------------------------------

  /** Every operation below `n` has both children (the reader refuses a
      missing operand; traversing one would dereference null). */
  predicate Wired(n: Node)
  {
    match n
    case Value(_) => true
    case Operation(_, a, b) => a.Some? && b.Some? && Wired(a.value) && Wired(b.value)
  }

  /** Every leaf's hit for `ray` lists its crossings. */
  predicate LeavesReady(n: Node, ray: Ray)
  {
    match n
    case Value(s) => DstReady(s.intersect(ray))
    case Operation(_, a, b) =>
      (a.Some? ==> LeavesReady(a.value, ray)) && (b.Some? ==> LeavesReady(b.value, ray))
  }

  /** Every leaf's hit for `ray` is nearer than `TOO_FAR_AWAY`. */
  predicate LeavesNear(n: Node, ray: Ray)
  {
    match n
    case Value(s) => Near(s.intersect(ray))
    case Operation(_, a, b) =>
      (a.Some? ==> LeavesNear(a.value, ray)) && (b.Some? ==> LeavesNear(b.value, ray))
  }

  /** The objects recorded in the leaves' hits for `ray`. */
  function LeafObjects(n: Node, ray: Ray): set<ShapeRef>
  {
    match n
    case Value(s) => {s.intersect(ray).obj}
    case Operation(_, a, b) =>
      (if a.Some? then LeafObjects(a.value, ray) else {}) +
      (if b.Some? then LeafObjects(b.value, ray) else {})
  }

  /** One operation on its children's records. */
  function Combine(kind: OpKind, l: CIsect, r: CIsect): (c: CIsect)
    requires DstReady(l) && DstReady(r)
    ensures DstReady(c)
    ensures c.obj == l.obj || c.obj == r.obj || c.obj == Null
  {
    match kind
    case UnionOp => CsgUnion.UnionOf(l, r)
    case IntersectionOp => CsgIntersection.IntersectionOf(l, r)
    case DifferenceOp => CsgDifference.DifferenceOf(l, r)
  }

  /** Post-order evaluation of the record a node returns for a ray. */
  function Eval(n: Node, ray: Ray): (c: CIsect)
    requires Wired(n) && LeavesReady(n, ray)
    ensures DstReady(c)
  {
    match n
    case Value(s) => s.intersect(ray)
    case Operation(k, a, b) => Combine(k, Eval(a.value, ray), Eval(b.value, ray))
  }

  /** The object a node reports was recorded by one of its leaves: an
      operation node never names itself. */
  lemma {:induction false} EvalObjectFromLeaf(n: Node, ray: Ray)
    requires Wired(n) && LeavesReady(n, ray)
    ensures Eval(n, ray).obj in LeafObjects(n, ray) || Eval(n, ray).obj == Null
  {
    match n
    case Value(s) =>
    case Operation(k, a, b) =>
      EvalObjectFromLeaf(a.value, ray);
      EvalObjectFromLeaf(b.value, ray);
  }

  /** Leaves nearer than `TOO_FAR_AWAY` make the whole tree's hit nearer. */
  lemma {:induction false} EvalNear(n: Node, ray: Ray)
    requires Wired(n) && LeavesReady(n, ray) && LeavesNear(n, ray)
    ensures Near(Eval(n, ray))
  {
    match n
    case Value(s) =>
    case Operation(k, a, b) =>
      EvalNear(a.value, ray);
      EvalNear(b.value, ray);
      var l, r := Eval(a.value, ray), Eval(b.value, ray);
      if k.DifferenceOp? {
        CsgDifference.DifferenceOfNear(l, r);
      }
  }

  /** `intersect` of a node: evaluates both children, then combines. */
  method Intersect(n: Node, ray: Ray) returns (c: CIsect)
    requires Wired(n) && LeavesReady(n, ray)
    ensures c == Eval(n, ray)
  {
    match n
    case Value(s) =>
      c := s.intersect(ray);
    case Operation(k, a, b) =>
      var l := Intersect(a.value, ray);
      var r := Intersect(b.value, ray);
      match k
      case UnionOp => c := CsgUnion.Intersect(l, r);
      case IntersectionOp => c := CsgIntersection.Intersect(l, r);
      case DifferenceOp => c := CsgDifference.Intersect(l, r);
  }

  // ---------------------------------------------------------------
  // The tree as a scene object
  // ---------------------------------------------------------------

  /** `CSGTree`, the wrapper that holds the root. */
  datatype Tree = Tree(root: Node)

  /** `CSGTree::intersect` is the root's `intersect`. */
  method TreeIntersect(t: Tree, ray: Ray) returns (c: CIsect)
    requires Wired(t.root) && LeavesReady(t.root, ray)
    ensures c == Eval(t.root, ray)
  {
    c := Intersect(t.root, ray);
  }

  /** The tree seen through the shape interface: no material, never a
      light, the stored normal, and colour and texture queries answered
      by the object recorded in the hit. */
  function TreeShape(t: Tree, world: nat -> Shape): (s: Shape)
    requires Wired(t.root) && forall ray :: LeavesReady(t.root, ray)
    ensures s.mtrl.None? && !s.light
    ensures forall ray :: s.intersect(ray) == Eval(t.root, ray)
    ensures forall ray, d, isect :: s.normal(ray, d, isect) == isect.normal
  {
    Shape(
      (ray: Ray) => Eval(t.root, ray),
      None,
      (ray: Ray, d: real, isect: CIsect) => isect.normal,
      false,
      (pnt, isect: CIsect) => if isect.obj.Ref? then ObjectAmbColor(world, pnt, isect) else Zero(),
      (pnt, isect: CIsect) => if isect.obj.Ref? then ObjectDifColor(world, pnt, isect) else Zero(),
      (pnt, isect: CIsect) => if isect.obj.Ref? then ObjectSpcColor(world, pnt, isect) else Zero(),
      (pnt, isect: CIsect) => if isect.obj.Ref? then ObjectTexCoords(world, pnt, isect) else Zero())
  }

  /** `setIsLight` on a tree changes nothing. */
  function TreeSetIsLight(t: Tree, light: bool): (u: Tree)
    ensures u == t
  {
    t
  }
}
