# A verified model of a Whitted ray tracer with CSG and OBJ models

This project models the core of the C++ ray tracer DimkoChurinov/raytracing
in Dafny:

- the vector algebra of `Vec3D` and rays;
- parameter spans along a ray and their union, intersection and
  difference;
- the hit record `CIsect`;
- the three CSG operations (union, intersection, difference), the CSG tree
  and its leaves;
- the scene, with its closest-hit query and the sum of its lights;
- the triangle-mesh model and its nearest-triangle scan;
- nearest-texel lookup with repeat wrapping;
- the tracer's recursive colour computation (reflection, refraction,
  Fresnel factor, Beer's law) and the conversion of a colour to a packed
  RGBA word;
- the OBJ loader, and the CSG readers of the scene file.

Floats are modelled as reals. The tolerances `FLOAT_ZERO` and `EPSILON`
come from a header that is not part of this model, so they are a
parameter (`Precision`), known only to be positive. `TOO_FAR_AWAY` is
1000000. The library functions `sqrtf`, `expf` and `powf`, and the exact
Fresnel reflectance, are function-valued parameters (`Maths`). The
analytic intersection of the primitive shapes, the camera projection and
the Phong and shadow computation of a light source are parameters too:
a shape is a bundle of its `IShape` queries.

Each C++ algorithm that works step by step is a Dafny method with its
loops. The method is proved equal to a specification function, and the
properties are proved about that function:

- a CSG operation (`CsgUnion.Intersect`) against its declarative result
  (`CsgUnion.UnionOf`);
- `Scene::intersect` against "the nearest accepted hit, the first one at
  that distance";
- `Tracer::compute` against the recursive `Radiance`;
- `render` against the packed word of every pixel;
- the OBJ reading loop against a fold of its line handler over the lines.

Classes whose fields the C++ code updates in place are Dafny classes:
`Vec`, `Scene`, `Model`, `Tracer` and `ObjLoader`.

Two places where the code does not do what it evidently means are under
"## Findings". The model keeps the code as written beside the corrected
version, and the rest of the model uses the corrected one. When a union
node's children are hit at the same distance, the right child supplies
the surface, because the comparison at `src/csg/csgunion.cpp:51` is a
strict `<` (`CsgUnion.UnionOf`).

Undefined behaviour in the C++ code is either a precondition or an
explicit `None`:

- dereferencing a null material, object or background;
- indexing outside a vector;
- dividing by a zero density;
- converting an out-of-range float to `unsigned`, or a texture coordinate
  whose truncation does not fit in an `int` to `int`.

## Model

| member | source | states |
|---|---|---|
| `Vector3D.Add` | src/geometry/vector3d.h:141-144 | subtracting `a` from the sum gives `b`, component by component |
| `Vector3D.Sub` | src/geometry/vector3d.h:146-149 | the difference is the inverse of addition: adding `b` back gives `a` |
| `Vector3D.Mul` | src/geometry/vector3d.h:151-159 | scaling by one leaves the vector, and scaling by zero gives the zero vector |
| `Vector3D.MulScalesLength2` | src/geometry/vector3d.h:151-154 | scaling by `s` multiplies the squared length by `s * s` |
| `Vector3D.DotLinear` | src/geometry/vector3d.h:171-174 | the dot product is linear in its first operand: it distributes over a sum and commutes with scaling |
| `Vector3D.Scale3D` | src/geometry/vector3d.h:200-203 | the componentwise product, with the all-ones vector as identity on either side and the zero vector absorbing |
| `Vector3D.Div` | src/geometry/vector3d.h:161-164 | for a non-zero divisor, multiplying the quotient back gives the vector |
| `Vector3D.Neg` | src/geometry/vector3d.h:166-169 | the negation is the additive inverse |
| `Vector3D.Cross` | src/geometry/vector3d.h:176-181 | the cross product is orthogonal to both operands |
| `Vector3D.Length2` | src/geometry/vector3d.h:195-198 | the squared length is never negative |
| `Vector3D.Length` | src/geometry/vector3d.h:183-193 | zero below `FLOAT_ZERO`; exactly 1 for a unit squared length; otherwise the square root of the squared length |
| `Vector3D.Normalized` | src/geometry/vector3d.h:114-119 | a vector of zero length is left alone, and so is a unit vector |
| `Vector3D.AddZero` | src/geometry/vector3d.h:141-144 | the zero vector is a two-sided identity of addition |
| `Vector3D.NegInvolution` | src/geometry/vector3d.h:166-169 | negating twice gives the vector back |
| `Vector3D.DotCommutes` | src/geometry/vector3d.h:171-174 | the dot product is symmetric |
| `Vector3D.Scale3DCommutes` | src/geometry/vector3d.h:200-203 | the componentwise product is symmetric |
| `Vector3D.CrossAnticommutes` | src/geometry/vector3d.h:176-181 | swapping the operands negates the cross product |
| `Vector3D.Vec.constructor` | src/geometry/vector3d.h:41-45 | the new vector holds the given components |
| `Vector3D.Vec.SetX` | src/geometry/vector3d.h:62-65 | only the x component changes, to the given value |
| `Vector3D.Vec.SetY` | src/geometry/vector3d.h:67-70 | only the y component changes, to the given value |
| `Vector3D.Vec.SetZ` | src/geometry/vector3d.h:72-75 | only the z component changes, to the given value |
| `Vector3D.Vec.SetXYZ` | src/geometry/vector3d.h:77-80 | the vector becomes the given three components |
| `Vector3D.Vec.AddAssign` | src/geometry/vector3d.h:82-88 | `+=` leaves the sum of the old value and the operand |
| `Vector3D.Vec.SubAssign` | src/geometry/vector3d.h:90-96 | `-=` leaves the difference |
| `Vector3D.Vec.MulAssign` | src/geometry/vector3d.h:98-104 | `*=` leaves the scaled vector |
| `Vector3D.Vec.DivAssign` | src/geometry/vector3d.h:106-112 | `/=` by a non-zero value leaves the quotient |
| `Vector3D.Vec.Normalize` | src/geometry/vector3d.h:114-119 | the vector becomes its normalized value: divided by its length unless that length is zero |
| `Rays.MakeRay` | src/geometry/ray.h:9-14 | a ray keeps its origin and stores its direction normalized |
| `Rays.Apply` | src/geometry/ray.h:26-29 | the point at `t` lies `t` times the direction away from the origin |
| `Spans.DefaultSpan` | src/geometry/span.h:8-13 | the default span is [-1, -1] |
| `Spans.RightIsMirroredLeft` | src/geometry/span.h:20-28 | `a` lies right of `b` exactly when `b` lies left of `a` |
| `Spans.LessIsReflexive` | src/geometry/span.h:30-38 | `operator<` holds of a span and itself, so it is not a strict order; `operator>` is its exact negation |
| `Spans.UniteAsWritten` | src/geometry/span.cpp:15-32 | the union as written: the two spans when `lh` is left of `rh`; `rh`, `lh` and then the covering span when `lh` is right of `rh`; otherwise the covering span alone |
| `Spans.UniteAsWrittenCoversGap` | src/geometry/span.cpp:24-30 | for [2, 3] united with [0, 1], the as-written union covers 1.5, which lies in neither span |
| `Spans.Unite` | src/geometry/span.cpp:15-32 | the corrected union returns one or two spans, and for well-formed spans covers exactly the points of either span |
| `Spans.UniteMatchesAsWrittenExceptRightCase` | src/geometry/span.cpp:18-30 | the corrected and the as-written union agree except when `lh` lies right of `rh`; there the as-written one has the covering span appended |
| `Spans.Intersect` | src/geometry/span.cpp:51-61 | empty exactly when the spans are disjoint; otherwise the single span [max start, min end]; covers exactly the points in both spans |
| `Spans.Difference` | src/geometry/span.cpp:80-101 | `lh` alone when disjoint from `rh`; otherwise ends with [min end, lh end] and has a leading piece exactly when it is longer than `FLOAT_ZERO`; covers only points of `lh` outside the open `rh` (and the end point); covers every point of `lh` outside `rh` that is past `rh` or after a long enough lead |
| `Spans.CombineAll` | src/geometry/span.cpp:34-49 | the nested loops append the per-pair results over `lh` x `rh`, lh-major |
| `Spans.PairwiseCovers` | src/geometry/span.cpp:63-78 | the pairwise results cover a point exactly when some pair's result covers it |
| `Spans.UniteLists` | src/geometry/span.cpp:34-49 | the union of every pair, in lh-major order; empty when a list is empty |
| `Spans.IntersectLists` | src/geometry/span.cpp:63-78 | at most one span per pair; covers a point exactly when both lists cover it; empty when a list is empty |
| `Spans.DifferenceLists` | src/geometry/span.cpp:114-129 | the difference of every pair, at most two spans per pair; empty when a list is empty |
| `Textures.MakeTexture` | src/illumination/texture.cpp:14-19 | the texture keeps its data, width and height; data of width x height texels with positive sides make a texture that can be sampled |
| `Textures.Trunc` | src/illumination/texture.cpp:66-67 | `static_cast<int>` truncates toward zero: the result is within one of `x`, on the side of zero |
| `Textures.CppRem` | src/illumination/texture.cpp:66-67 | C++ `%` has the sign of the dividend and a magnitude below the divisor |
| `Textures.CppRemIsRemainder` | src/illumination/texture.cpp:66-67 | the C++ remainder differs from the dividend by a multiple of the divisor |
| `Textures.WrapIndex` | src/illumination/texture.cpp:66-70 | the wrapped coordinate `(n + t % n) % n` lies in 0..n-1, so the asserts hold |
| `Textures.WrapIsEuclidean` | src/illumination/texture.cpp:66-67 | the wrap equals the Euclidean remainder for every coordinate, negative ones included |
| `Textures.WrapIdentity` | src/illumination/texture.cpp:66-67 | a coordinate already inside the texture is not moved |
| `Textures.WrapPeriodic` | src/illumination/texture.cpp:66-67 | shifting a coordinate by whole periods selects the same texel |
| `Textures.TexelIndex` | src/illumination/texture.cpp:66-72 | the buffer index lies inside the data; its column is the wrapped x and its row the wrapped y |
| `Textures.TexelIndexInside` | src/illumination/texture.cpp:66-72 | coordinates inside the texture read the row-major index y * width + x |
| `Textures.SampleNearestRepeat` | src/illumination/texture.cpp:64-73 | for coordinates whose truncation fits in an `int`, the sampled colour is one of the texture's texels |
| `Intersection.NewIsect` | src/geometry/intersection.h:13-19 | the record keeps its four arguments; texture coordinates zero; U and V unset; both lists empty |
| `Intersection.Absent` | src/geometry/intersection.h:13-19 | the miss record: not found, distance -1, null object, zero normal, empty lists |
| `Sorting.Insert` | src/csg/csgintersection.cpp:43-44 | inserting into a sorted list keeps it sorted and adds exactly the element |
| `Sorting.Sort` | src/csg/csgintersection.cpp:43-44 | `std::sort` gives a sorted permutation of the list |
| `Sorting.Least` | src/csg/csgintersection.cpp:46-47 | the least element is in the list and no greater than any element |
| `Sorting.Greatest` | src/csg/csgintersection.cpp:46-47 | the greatest element is in the list and no less than any element |
| `Sorting.SortedEnds` | src/csg/csgintersection.cpp:43-47 | after sorting, `front()` is the least and `back()` the greatest element of the original list |
| `CsgUnion.UnionOf` | src/csg/csgunion.cpp:26-86 | a hit exactly when a child is hit, at the nearer child's distance (a miss counting as `TOO_FAR_AWAY`); the strictly nearer child, or the right one on a tie, supplies the surface; the crossings of both hit children, left first; keeps crossings ready and hits near |
| `CsgUnion.UnionOfSingleHit` | src/csg/csgunion.cpp:33-83 | a single hit child nearer than `TOO_FAR_AWAY` passes its distance, surface and crossings through |
| `CsgUnion.Intersect` | src/csg/csgunion.cpp:26-86 | the node's step-by-step computation gives exactly `UnionOf` of its children's records |
| `CsgIntersection.IntersectionOf` | src/csg/csgintersection.cpp:26-85 | a miss when a child misses; otherwise a hit exactly when the crossing ranges overlap with distinct starts; the region starts at the later entry, which supplies the surface, and ends at the earlier exit |
| `CsgIntersection.IntersectionOfNear` | src/csg/csgintersection.cpp:49-72 | children nearer than `TOO_FAR_AWAY` give a nearer result |
| `CsgIntersection.IntersectionCommutes` | src/csg/csgintersection.cpp:51-76 | the result does not depend on the order of the children |
| `CsgIntersection.EqualStartsMiss` | src/csg/csgintersection.cpp:51-76 | children entered at the same distance never intersect |
| `CsgIntersection.Intersect` | src/csg/csgintersection.cpp:26-85 | sorting both crossing lists and reading their ends gives exactly `IntersectionOf` |
| `CsgDifference.DifferenceOf` | src/csg/csgdifference.cpp:26-101 | a miss when the left child misses; the left record when the right misses; a hit only when the left is hit; a hit's crossings start with the sorted left crossings |
| `CsgDifference.DifferenceOfNear` | src/csg/csgdifference.cpp:26-101 | children nearer than `TOO_FAR_AWAY` give a nearer result |
| `CsgDifference.DifferenceOfDisjoint` | src/csg/csgdifference.cpp:60-69 | disjoint ranges leave the left record with its crossings sorted |
| `CsgDifference.DifferenceOfLeftFirst` | src/csg/csgdifference.cpp:72-98 | overlapping ranges with the left entered first start at the left entry, with the left surface and both sorted crossing lists |
| `CsgDifference.DifferenceOfRightFirst` | src/csg/csgdifference.cpp:81-98 | overlapping ranges with the right entered no later and left earlier start at the right exit, on the right object with its normal inverted and the left texture data |
| `CsgDifference.DifferenceOfCovered` | src/csg/csgdifference.cpp:90-93 | a left range covered by the right one leaves a miss |
| `CsgDifference.Intersect` | src/csg/csgdifference.cpp:26-101 | the node's step-by-step computation gives exactly `DifferenceOf` |
| `Csg.OperandAccessors` | src/csg/csgoperand.h:12-27 | `l()` and `r()` return the pointers given at construction; `hasL()` and `hasR()` test them against null |
| `Csg.ValueHasNoChildren` | src/csg/csgvalue.cpp:13-17 | a leaf has neither child |
| `Csg.NodeMtrl` | src/csg/csgvalue.cpp:30-33 | a leaf has its shape's material and an operation none |
| `Csg.NodeNormal` | src/csg/csgvalue.cpp:35-38 | a leaf asks its shape; an operation returns the stored normal |
| `Csg.NodeIsLight` | src/csg/csgvalue.cpp:45-48 | a node is a light exactly when it is a leaf whose shape is a light |
| `Csg.SetIsLight` | src/csg/csgvalue.cpp:40-43 | the node stays a leaf or an operation and keeps its material |
| `Csg.SetThenIsLight` | src/csg/csgvalue.cpp:40-48 | a leaf reads back the flag it was given, with nothing else about its shape changed; an operation is unchanged and never a light |
| `Csg.NodeAmbColor` | src/csg/csgvalue.cpp:50-53 | a leaf delegates to its shape, an operation to the object recorded in the hit |
| `Csg.NodeDifColor` | src/csg/csgvalue.cpp:56-59 | a leaf delegates to its shape, an operation to the object recorded in the hit |
| `Csg.NodeSpcColor` | src/csg/csgvalue.cpp:62-65 | a leaf delegates to its shape, an operation to the object recorded in the hit |
| `Csg.NodeTexCoords` | src/csg/csgvalue.cpp:67-70 | a leaf delegates to its shape; an operation asks the recorded object with a default record |
| `Csg.Eval` | src/csg/csgvalue.cpp:25-28 | evaluating a wired tree bottom-up, when every leaf hit lists its crossings, gives a record whose hit lists its crossings too |
| `Csg.EvalObjectFromLeaf` | src/csg/csgunion.cpp:50-69 | the object a tree reports was recorded by one of its leaves, or is null |
| `Csg.EvalNear` | src/csg/csgunion.cpp:32-40 | leaves nearer than `TOO_FAR_AWAY` make the whole tree's hit nearer |
| `Csg.Intersect` | src/csg/csgvalue.cpp:25-28 | a node's `intersect` evaluates both children and combines them, giving exactly `Eval` |
| `Csg.TreeIntersect` | src/csg/csgtree.cpp:30-34 | a tree's `intersect` is its root's evaluation |
| `Csg.TreeShape` | src/csg/csgtree.cpp:36-56 | a tree seen as a shape has no material, is never a light, intersects as its root does, and returns the stored normal |
| `Csg.TreeSetIsLight` | src/csg/csgtree.cpp:47-50 | `setIsLight` leaves a tree unchanged |
| `Scenes.AirMaterial` | src/tracer/scene.cpp:19-28 | air has refraction 1, reflection 0 and density 1, with zero colours and no texture |
| `Scenes.HitsOf` | src/tracer/scene.cpp:50-52 | one record per object, in object order |
| `Scenes.ClosestIsUnique` | src/tracer/scene.cpp:64-69 | at most one hit is the closest |
| `Scenes.NearestAcceptedIsClosest` | src/tracer/scene.cpp:50-77 | without `stopIfFound`, the scan gives a miss when nothing is accepted and otherwise the nearest accepted hit, the first at that distance |
| `Scenes.FirstAcceptedIsFirst` | src/tracer/scene.cpp:71-74 | with `stopIfFound`, the scan gives the first accepted hit |
| `Scenes.ClosestResultIsSceneHit` | src/tracer/scene.cpp:43-78 | the closest-hit property determines the result uniquely |
| `Scenes.LightSumSnoc` | src/tracer/scene.cpp:83-89 | a light appended last adds its own colour to the sum |
| `Scenes.Scene.constructor` | src/tracer/scene.cpp:30-36 | a new scene has no objects or lights, null pointers and the depth filter off |
| `Scenes.Scene.Intersect` | src/tracer/scene.cpp:43-78 | a miss when no hit exists within the depth filter; otherwise the nearest such hit, the first at that distance, or the first such hit with `stopIfFound` |
| `Scenes.Scene.Illuminate` | src/tracer/scene.cpp:80-91 | the sum, in light order, of the colour each light contributes at the hit |
| `Scenes.Scene.AddObject` | src/tracer/scene.cpp:93-96 | the object is appended and nothing else changes |
| `Scenes.Scene.AddLightSource` | src/tracer/scene.cpp:98-101 | the light is appended and nothing else changes |
| `Scenes.Scene.SetBackground` | src/tracer/scene.cpp:103-111 | the background is replaced and nothing else changes |
| `Scenes.Scene.SetupCamera` | src/tracer/scene.cpp:113-121 | a camera with the given properties replaces the old one and nothing else changes |
| `Scenes.Scene.SetTracerProperties` | src/tracer/scene.cpp:123-131 | the tracer properties are replaced and nothing else changes |
| `Scenes.Scene.SetImagePlaneRes` | src/tracer/scene.cpp:133-141 | the scene stores the resolution, and so does the camera when there is one; the other fields are unchanged |
| `Scenes.Scene.Clear` | src/tracer/scene.cpp:143-164 | objects and lights are emptied and the pointers nulled; the depth filter and resolution stay |
| `Scenes.Scene.SetTracerDepth` | src/tracer/scene.cpp:166-169 | the depth filter is replaced and nothing else changes |
| `Models.FoundDistancesMembers` | src/geometry/model.cpp:44-49 | exactly the distances of the existing triangle hits are recorded |
| `Models.FoundDistancesStep` | src/geometry/model.cpp:47-49 | one more triangle adds its distance when it was hit |
| `Models.NearestKept` | src/geometry/model.cpp:50-58 | a hit no nearer than the nearest so far leaves that one nearest |
| `Models.NearestTaken` | src/geometry/model.cpp:50-58 | a hit strictly nearer than every earlier hit and than `TOO_FAR_AWAY` becomes the nearest |
| `Models.NoNearHitStep` | src/geometry/model.cpp:50-58 | with no near hit so far, a record that is not near adds none |
| `Models.NearestStep` | src/geometry/model.cpp:46-58 | one pass of the triangle loop keeps the scan invariant over one more record |
| `Models.Model.constructor` | src/geometry/model.cpp:16-23 | the model keeps its triangles, box and material and is not a light |
| `Models.Model.Intersect` | src/geometry/model.cpp:35-63 | a miss outside the bounding box; inside, every existing triangle hit's distance is recorded, and the result is a hit exactly when a triangle is hit nearer than `TOO_FAR_AWAY`, then with the first nearest triangle's distance and normal and the model as object |
| `Models.Model.GetNormal` | src/geometry/model.cpp:66-69 | the normal already stored in the hit record, whatever the ray and distance |
| `Models.Model.GetAmbColor` | src/geometry/model.cpp:71-74 | the material's ambient colour, the same at every point |
| `Models.Model.GetSpcColor` | src/geometry/model.cpp:86-89 | the material's specular colour, the same at every point |
| `Models.Model.GetTexCoords` | src/geometry/model.cpp:91-94 | the texture coordinates already stored in the hit record |
| `Models.Model.GetDifColor` | src/geometry/model.cpp:76-84 | the diffuse colour, modulated by the texture sample at the recorded texture coordinates when the material has a texture |
| `Models.Model.SetIsLight` | src/geometry/model.h:24-27 | the flag is set and nothing else changes |
| `Models.HitsOn` | src/geometry/model.cpp:44-46 | one record per triangle, in mesh order |
| `Tracing.Orient` | src/tracer/tracer.cpp:248-255 | the normal turned to face the ray: the normal or its negation, with a non-positive dot product with the ray's direction, and unchanged when it already faces the ray |
| `Tracing.ReflectFlipsNormalComponent` | src/tracer/tracer.cpp:265 | mirroring about a unit normal flips the direction's normal component |
| `Tracing.NoTotalReflectionIntoDenser` | src/tracer/tracer.cpp:41-45 | entering a medium at least as dense never reflects totally |
| `Tracing.RefractRay` | src/tracer/tracer.cpp:35-52 | the flag afterwards is the old flag or total internal reflection; on total reflection the direction is zero |
| `Tracing.FresnelFactor` | src/tracer/tracer.cpp:54-86 | the flag afterwards is the old flag or total internal reflection; on total reflection the factor is zero |
| `Tracing.RefractionFlagIsCondition` | src/tracer/tracer.cpp:257-285 | the flag tested before refracting, starting from false, is exactly the total-internal-reflection condition |
| `Tracing.PrimaryHitResolves` | src/tracer/tracer.cpp:216-240 | a hit the scene returns names an object with a material of non-zero density |
| `Tracing.TransmitsIffNoTotalReflection` | src/tracer/tracer.cpp:276-285 | a refracted ray is traced exactly when the material refracts and there is no total internal reflection |
| `Tracing.BounceAt` | src/tracer/tracer.cpp:256-285 | the material is the hit object's; reflection recurses exactly when the material reflects and the intensity exceeds `EPSILON`; refraction exactly when `Transmits` holds |
| `Tracing.Radiance` | src/tracer/tracer.cpp:199-305 | the colour `compute` returns: black past the depth ceiling and for a secondary ray that misses; the background's ambient colour for a primary ray that misses |
| `Tracing.LightPolicy` | src/tracer/tracer.cpp:227-237 | a hit on a light source before the ceiling gives black for a secondary ray and ambient + diffuse + specular colour of its material for a primary ray |
| `Tracing.Saturate` | src/tracer/tracer.cpp:314-319 | each component is capped at 1 and unchanged below it |
| `Tracing.ChannelByte` | src/tracer/tracer.cpp:170-172 | the byte lies in 0..255, is 255 from 1 on, and for `f` in [0, 1) is the truncation of `f * 255` |
| `Tracing.Pack` | src/tracer/tracer.cpp:28 | the packed word fits in 32 bits |
| `Tracing.PackUnpack` | src/tracer/tracer.cpp:28 | the packed word gives back alpha, red, green and blue from its four bytes |
| `Tracing.Expose` | src/tracer/tracer.cpp:307-312 | with a positive exponential every exposed channel is below one; a zero exposure factor gives black |
| `Tracing.Gamma` | src/tracer/tracer.cpp:321-331 | the sRGB curve is linear with slope 12.92 below 0.0031308, so it brightens the darkest values and keeps them below 0.0405 |
| `Tracing.ToneMap` | src/tracer/tracer.cpp:149-166 | without gamma correction the channels are the saturated colour (each at most one) or, with exposure, the exposed colour |
| `Tracing.PixelWord` | src/tracer/tracer.cpp:149-175 | the word stored for a pixel fits in 32 bits and has alpha 0xFF |
| `Tracers.RadianceIgnoresFuel` | src/tracer/tracer.cpp:206-211 | with a non-negative maximum depth the recursion bound plays no part, so the model's colour is the C++ colour |
| `Tracers.SecondaryIgnoreFuel` | src/tracer/tracer.cpp:256-304 | at a lit surface before the ceiling, the colour does not depend on the recursion bound, because its secondary rays' colours do not |
| `Tracers.BareIgnoresFuel` | src/tracer/tracer.cpp:216-237 | a miss or a light source before the depth ceiling does not depend on the recursion bound |
| `Tracers.SurfaceIgnoresFuel` | src/tracer/tracer.cpp:239-304 | a lit surface's colour does not depend on the recursion bound when its secondary rays' colours do not |
| `Tracers.RadianceAtSurface` | src/tracer/tracer.cpp:239-304 | the colour at a lit, non-emitting surface is the direct light plus the reflected and the refracted terms of the secondary rays |
| `Tracers.NoRecursionIsDirectLight` | src/tracer/tracer.cpp:246-302 | a material that neither reflects a ray with intensity left nor refracts gives only the scene's direct light |
| `Tracers.Tracer.constructor` | src/tracer/tracer.cpp:106-109 | the exposure factor starts at -1 |
| `Tracers.Tracer.Compute` | src/tracer/tracer.cpp:199-305 | the colour is `Radiance` of the ray; the record left behind is the caller's beyond the ceiling and otherwise the scene's closest hit |
| `Tracers.Tracer.Shade` | src/tracer/tracer.cpp:239-304 | for a hit on an object that is not a light, direct light plus the reflected and refracted contributions equal `Radiance` |
| `Tracers.Tracer.Render` | src/tracer/tracer.cpp:115-197 | every pixel (x, y) gets, at word y * W + x, the packed colour of the primary ray through it; the rest of the buffer is untouched |
| `Tracers.PixelIndex` | src/tracer/tracer.cpp:174 | the index lies inside the image; its column is x and its row y |
| `Tracers.RenderedStep` | src/tracer/tracer.cpp:174-175 | writing a pixel's word at its index extends the rendered prefix by one |
| `Tracers.RenderedAt` | src/tracer/tracer.cpp:135-175 | once every row is rendered, each pixel's word is at its index |
| `ObjLoading.ClassifyPrefixes` | src/frontend/sceneserializable.cpp:1005-1026 | a line is a position (`v `), texture (`vt `), normal (`vn `) or face (`f `) line exactly when it starts with that prefix and holds no `#` |
| `ObjLoading.FanLength` | src/frontend/sceneserializable.cpp:1051-1064 | a face of n >= 3 corners gives 3(n - 2) indices; a shorter face gives one index per corner |
| `ObjLoading.FanBounds` | src/frontend/sceneserializable.cpp:1053-1064 | every index of a face's fan names one of that face's vertices |
| `ObjLoading.FanTriangles` | src/frontend/sceneserializable.cpp:1053-1064 | the fan's triangle t is (first, t + 1-th, t + 2-th vertex) of the face |
| `ObjLoading.FoldPrefix` | src/frontend/sceneserializable.cpp:997-1068 | a file that can be read can be read up to any line |
| `ObjLoading.FoldIndicesBounded` | src/frontend/sceneserializable.cpp:1051-1064 | every stored index names a stored vertex |
| `ObjLoading.TrianglesOfTriples` | src/frontend/sceneserializable.cpp:1071-1082 | there are `indices.size() / 3` triangles, one per consecutive index triple, in order |
| `ObjLoading.BoxEncloses` | src/frontend/sceneserializable.cpp:1084-1106 | the box encloses the origin and every position |
| `ObjLoading.BoxTight` | src/frontend/sceneserializable.cpp:1084-1106 | each box component is zero or the component of some position |
| `ObjLoading.FaceVertices` | src/frontend/sceneserializable.cpp:1031-1050 | one vertex per face corner, looked up 1-based in each non-empty list |
| `ObjLoading.AppendFan` | src/frontend/sceneserializable.cpp:1051-1064 | the face's vertices are appended and the fan indices are appended after the old indices |
| `ObjLoading.HandleLine` | src/frontend/sceneserializable.cpp:1005-1068 | handling one line gives exactly the line handler `Step` |
| `ObjLoading.ReadCommands` | src/frontend/sceneserializable.cpp:997-1068 | the corrected reading loop handles every line in order |
| `ObjLoading.ReadCommandsAsWritten` | src/frontend/sceneserializable.cpp:997-1003 | the loop as written handles every line but the last one read |
| `ObjLoading.FaceLine` | src/frontend/sceneserializable.cpp:1026 | the line `f 1 2 3` is a face line |
| `ObjLoading.LastFaceDropped` | src/frontend/sceneserializable.cpp:999-1003 | a readable file ending in a face line with corners loses vertices and indices when read as written |
| `ObjLoading.ObjLoader.constructor` | src/frontend/sceneserializable.cpp:966-970 | the loader keeps its translation and scale, with no triangles and a zero box |
| `ObjLoading.ObjLoader.AppendTriangles` | src/frontend/sceneserializable.cpp:1071-1082 | one triangle per consecutive index triple is appended; the box is unchanged |
| `ObjLoading.ObjLoader.Read` | src/frontend/sceneserializable.cpp:972-1111 | an unopened file fails and changes nothing; otherwise it succeeds, every stored index is bounded, the triangles of all faces are appended, and the box becomes the componentwise minimum and maximum of zero and the positions |
| `ObjLoading.ScanBox` | src/frontend/sceneserializable.cpp:1085-1106 | the scan with the setters gives the running minimum and maximum corners |
| `SceneReading.OperationNames` | src/frontend/sceneserializable.cpp:1460-1477 | exactly the names union, intersection and difference are accepted, and each builds its own kind |
| `SceneReading.ReadOperand` | src/frontend/sceneserializable.cpp:1390-1417 | success needs an operand element holding a first element, which is either a `value` whose shape is read into a leaf, or an `operation` whose result is exactly what the operation reader builds from that element |
| `SceneReading.ReadOperation` | src/frontend/sceneserializable.cpp:1419-1480 | success exactly when both operands are read and the type names an operator; the result combines the two operands with that operator |
| `SceneReading.MissingOperandFails` | src/frontend/sceneserializable.cpp:1443-1449 | an operation element with fewer than two operands is refused |
| `SceneReading.ReadTree` | src/frontend/sceneserializable.cpp:1492-1529 | success needs a first element tagged `operation` or `value`, which becomes the root |
| `SceneReading.ReadOperandWired` | src/frontend/sceneserializable.cpp:1390-1417 | every operation an operand reader builds has both children, all the way down |
| `SceneReading.ReadOperationWired` | src/frontend/sceneserializable.cpp:1453-1471 | every operation the operation reader builds has both children, all the way down |
| `SceneReading.ReadTreeWired` | src/frontend/sceneserializable.cpp:1504-1524 | the root of a read tree is wired, so evaluating it never meets a null child |
| `SceneReading.LightTypeName` | src/frontend/sceneserializable.cpp:58-70 | each light kind has its own name: Point, Diral, Spotlight |

## Left out

- File, console and progress output, timing, the Qt DOM and string classes are not modelled. The scene document is a tree of `Element` values. The OBJ string helpers (`fromObjLine`, `toIndicesDescriptor`, `toIndices`) are the parameter `ObjSyntax`. Whether the file opened is the parameter `isOpen`.
- `CSGValueReader` and the shape readers of the scene file are the parameter `readValue`. The other scene-file readers (materials, lights, camera, `ModelLoader`) are not part of this model.
- `Texture::sample` (bilinear filtering over four nearest texels) is a parameter of `Models.Model.GetDifColor`; only `sampleNearestRepeat` is modelled.
- `Tracer::calculateExposure` is not modelled: it is commented out of `render`, so the exposure factor stays at its initial -1. The Schlick approximation `GGetFresnelFactorShlick` is not modelled: `compute` never calls it. `reflectRay` is not modelled either: it is never called.
- `sqrtf`, `expf`, `powf` and the exact Fresnel formula are parameters. Floating-point rounding is not modelled.
- The primitive shapes' intersection formulas, the bounding-box slab test, the camera projection and the light sources' Phong and shadow colour are parameters.
- Tracing.Radiance: when the maximum recursion depth is negative, the C++ recursion has no ceiling. There the model bounds it by a `fuel` argument, so it does not model a reflection chain deeper than the fuel. With a non-negative maximum the fuel plays no part (`Tracers.RadianceIgnoresFuel`).
- Tracers.Tracer.Compute: for every call at depth 0 or below it requires a background, whether or not the ray can miss, because `getBackgroundColor` dereferences it. It also requires a material with non-zero density on every object a hit can name: the code dereferences `getMtrl()` and divides by the density. The colour computation after the light test is the separate method `Shade`.
- Tracers.Tracer.Render: it requires a non-negative image plane size, where the C++ loops simply write nothing for a negative one. It also requires every channel's `f * 255` to convert to `unsigned` (its truncation below 2^32 and the value above -1), because the conversion is undefined otherwise. The `RGBA` shift of alpha into the sign bit of an `int` is modelled as the unsigned word the buffer ends up holding.
- Tracing.HitResolves: the `Object` pointer of a hit record is a `ShapeRef` id, and `world` maps each id to the shape it stands for. `world` is a parameter. It is not tied to the scene's `objects` nor to the shape that reported the hit. So the model does not capture that `Models.Model.SetIsLight` or any other update to a scene's shape changes what `Tracers.Tracer.Compute` treats as a light or reads as a material.
- Textures.SampleNearestRepeat requires both texture coordinates to truncate into the range of `int`, because `static_cast<int>` is undefined otherwise.
- SceneReading.ReadOperand: reading a leaf's shape is the parameter `readValue`, which returns a shape or fails. `CSGValueReader` also succeeds on an unknown `type` with a leaf whose shape is null (`sceneserializable.cpp:1262-1357`). That case is not modelled, because a `Shape` value cannot be null.
- Csg.TreeShape: the colour queries on a record whose object is null return zero. The C++ code dereferences null there.
- Csg.Eval requires a wired tree, that is, both children present under every operation. `SceneReading.ReadTreeWired` proves that every tree the reader builds is wired. The reader's null check of the operands (`sceneserializable.cpp:1453-1457`) is unreachable in the model, because the operand reader only succeeds with a node.
- Csg.SetIsLight forwards to a leaf's shape as a new value. The aliasing of a shape shared between a tree and the scene is not modelled.
- ObjLoading.Step: a face corner whose index is 0 or past the end of a non-empty list makes the whole read `None`, because the C++ indexing is undefined there. `ObjLoader.Read` requires a defined read, and an index count that is a multiple of three (otherwise the triangle loop reads past the end).
- ObjLoading: the `faceVerticesIndices` list is filled but never read, so it is not modelled. The accessors `getTriangles` and `getBoundingBox` are the fields `triangles`, `bboxMin` and `bboxMax` themselves.
- ObjLoading.ObjLoader.Read: it reads the file with the corrected loop `ReadCommands`, so it also appends the triangles of the file's last line, which the C++ loop (`sceneserializable.cpp:999-1003`) never handles. The loop as written is `ObjLoading.ReadCommandsAsWritten`.
- Spans.UniteLists uses the corrected single-span union `Spans.Unite`. The as-written one is `Spans.UniteAsWritten`.
- Scenes.Scene: the image plane size is left uninitialised by the C++ constructor, and the model states nothing about it. The deletion of owned objects in `clear`, `setBackground`, `setupCamera` and `setTracerProperties` is memory management only.

## Findings

| source | as written | input that shows it | evidently intended | confidence | as-written member | corrected member |
|---|---|---|---|---|---|---|
| src/geometry/span.cpp:24-30 | when `lh` lies right of `rh` the two spans are pushed but there is no `return`, so the covering span is appended too and the union covers the gap between them | `SpanUnite(Span(2, 3), Span(0, 1))` gives [0,1], [2,3], [0,3], which covers 1.5 | return [rh, lh] like the left case: the union covers exactly the points of either span | not executed | `Spans.UniteAsWritten`, `Spans.UniteAsWrittenCoversGap` | `Spans.Unite` |
| src/frontend/sceneserializable.cpp:999-1003 | the loop calls `readLine` and then breaks as soon as `atEnd()` holds, before handling the line it just read, so the file's last line is never handled | an OBJ file whose last line is `f 1 2 3` (after three `v` lines) loses its only triangle | handle every line, and stop when no line is left | not executed | `ObjLoading.ReadCommandsAsWritten`, `ObjLoading.LastFaceDropped` | `ObjLoading.ReadCommands` |
