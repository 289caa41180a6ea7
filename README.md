# A verified model of the ray tracer's core

This project models the core of a small C++ path tracer in Dafny and proves properties of
that model. The tracer is a "Ray Tracing in One Weekend / The Next Week" renderer. The parts
modelled are:

- **Vectors and helpers:** the vector algebra and the helpers of `rtweekend.h`.
- **Geometry:** the axis-aligned box and its slab test, and the hit record with its face
  orientation.
- **Primitives:** spheres, moving spheres, the xy rectangle, boxes, translations and
  y-rotations.
- **List and BVH:** the closest-hit list, and the bounding volume hierarchy with its in-place
  sort and split.
- **Noise:** the Perlin noise tables.
- **Textures and materials:** the solid, checker, noise and image textures, and the five
  materials.
- **Integrator:** the recursive `RayColor` path integrator.
- **Output:** the `write_color` quantiser.

`double` is modelled as `real`. `sqrt`, `sin` and `cos` are fields of an oracle
`Elementary.Funcs`. The predicate `Elementary.Lawful` grants only three facts:

- `sqrt(x) >= 0` and `sqrt(x)^2 = x` for `x >= 0`;
- `sin` lies in `[-1, 1]`;
- `sin^2 + cos^2 = 1`.

Every random draw is a parameter.

The modules follow the program's structure. Some hold one header; others gather several
headers, or one concept that the C++ code spreads over several classes. Each entry names its
files.

**Vectors, rays and helpers**
- `Vectors` (vec3.dfy): vec3.h, with the in-place operators on the class `MVec3`.
- `Rays` (ray.dfy): ray.h.
- `RtWeekend` (rtweekend.dfy): rtweekend.h.

**Geometry and primitives**
- `Boxes` (aabb.dfy): aabb.h.
- `Records` (hittable.dfy): the `hit_record` of hittable.h. It has the value `Record` and the class `HitRecord`, whose `SetFaceNormal` updates fields in place.
- `Spheres` (spheres.dfy): two headers, sphere.h and moving_sphere.h.
- `Rectangles` (rectangles.dfy): aa_rectangle.h.

**Scene, list and BVH**
- `Scene` and `SceneFacts` (scene.dfy, scene_facts.dfy): the `Hittable` interface of hittable.h with every subclass as one datatype. Their `Hit` and `BoundingBox` are gathered here: hittable_list.h, translate.h, the `Hit` and `BoundingBox` of `RotateY` in rotate.h, and the `Hit` and `BoundingBox` of `BvhNode` in bvh.h. The primitives' own tests stay in `Spheres` and `Rectangles`. `Hit` and `BoundingBox` are specification functions, and their properties are lemmas in `SceneFacts`.
- `Objects` (objects.dfy): the same operations as methods writing into a `HitRecord` object. Each method is proved equal to the function. It also holds the class `HittableList` of hittable_list.h, whose `Add` appends to its `objects` field.
- `Sorting` and `Bvh` (sorting.dfy, bvh.dfy): the `BvhNode` constructor and box comparators of bvh.h, over an `array`, sorting a range in place and recursing on the halves.
- `BoxObject` (box.dfy): box.h.
- `Rotation` (rotate.dfy): the `RotateY` constructor's corner loops in rotate.h.

**Noise and textures**
- `PerlinNoise` (perlin.dfy): perlin.h. It has the class `Perlin`, which holds its gradient and permutation arrays.
- `Textures` (textures.dfy): the `Texture` interface of texture.h and the `Value` of four subclasses, from solid_color.h, checker_texture.h, noise_texture.h and image_texture.h.
- `NoiseTextures` (noise_texture.dfy): the class `NoiseTexture` of noise_texture.h, which owns a `Perlin` generator.

**Materials, integrator and output**
- `Materials` (materials.dfy): the `Material` interface of material.h and five headers, lambertian.h, metal.h, dielectric.h, diffuse_light.h and isotropic.h, with the `Scatter` and `Emitted` dispatch over them.
- `Integrator` (integrator.dfy): `RayColor` of main.cpp.
- `PixelOutput` (color.dfy): `write_color` of color.h.
- `RealArith` and `Elementary` (arith.dfy, elementary.dfy): small arithmetic facts and the oracle. They model no source file.

C++ out-parameters are rendered in two ways:

- The functional model returns the flag together with what the call leaves in the
  out-parameter. "Not written" is then "returned as given".
- The imperative model writes into a `HitRecord` object, and its `ensures` ties the new state
  to the function.

## Model

| member | source | states |
|---|---|---|
| Vectors.With | src/utility/vec3.h:31 | writing component i sets exactly that component and keeps the other two |
| Vectors.Add | src/utility/vec3.h:83-85 | componentwise sum; `AddFacts` proves it commutative with `Neg` as its inverse, and `Sub` is the sum with the negation |
| Vectors.Neg | src/utility/vec3.h:29 | the negation is the additive inverse: added on either side it gives the zero vector |
| Vectors.AddFacts | src/utility/vec3.h:83-85 | `+` is commutative, zero is its unit and `Neg` its inverse |
| Vectors.Sub | src/utility/vec3.h:87-89 | `u - v` is the vector that added to v gives u, i.e. `u + (-v)` |
| Vectors.MulFacts | src/utility/vec3.h:91-93 | the componentwise product is commutative, with unit (1,1,1) and absorbing zero |
| Vectors.Scale | src/utility/vec3.h:95-97 | scaling by one is the identity, by zero (or of zero) gives zero |
| Vectors.ScaleRight | src/utility/vec3.h:99 | `v * t`, defined through `t * v`, multiplies each component by t |
| Vectors.Div | src/utility/vec3.h:101 | `v / t` scaled back by t gives v |
| Vectors.Dot | src/utility/vec3.h:103-105 | the sum of componentwise products; `DotSymmetric` and `DotNeg` state its symmetry and sign under negation, and `LengthSquared` is the dot product with itself |
| Vectors.DotSymmetric | src/utility/vec3.h:103-105 | the dot product is symmetric |
| Vectors.DotNeg | src/utility/vec3.h:103-105 | negating one argument negates the dot product |
| Vectors.Cross | src/utility/vec3.h:107-111 | the cross product is orthogonal to both arguments |
| Vectors.CrossAntiCommutative | src/utility/vec3.h:107-111 | swapping the arguments negates the cross product |
| Vectors.LengthSquared | src/utility/vec3.h:49-51 | the squared length is non-negative and equals `Dot(v, v)` |
| Vectors.LengthSquaredNeg | src/utility/vec3.h:49-51 | negation keeps the squared length |
| Vectors.LengthFacts | src/utility/vec3.h:53 | the length is non-negative, squares to the squared length, and is positive for a non-zero squared length |
| Vectors.NearZero | src/utility/vec3.h:25-27 | true iff the squared length is below 1e-8; then every component is within 1e-4 of zero, and zero is near zero |
| Vectors.UnitVector | src/utility/vec3.h:113 | the unit vector scaled by the length gives the vector back |
| Vectors.UnitVectorLength | src/utility/vec3.h:113 | a non-zero vector divided by its length has squared length one |
| Vectors.Reflect | src/utility/vec3.h:117 | for a unit normal, the reflection negates the component along the normal |
| Vectors.ReflectInvolution | src/utility/vec3.h:117 | for a unit normal, reflecting twice gives the vector back and reflecting keeps the length |
| Vectors.RefractCos | src/utility/vec3.h:120 | `cos_theta` is `fmin(Dot(-uv, n), 1)`: at most both, and equal to one of them |
| Vectors.RefractTangentOrthogonal | src/utility/vec3.h:121 | for a unit normal, the parallel part of the refracted ray is orthogonal to the normal |
| Vectors.Refract | src/utility/vec3.h:119-124 | the tangential part plus the normal part; `RefractTangentOrthogonal` proves the first orthogonal to a unit normal, `RefractHeadOn` the head-on case |
| Vectors.RefractHeadOn | src/utility/vec3.h:119-124 | a ray along the negated unit normal leaves unbent, for every index ratio |
| Vectors.HeadOnTangent | src/utility/vec3.h:120-121 | head-on along a unit normal, `cos_theta` is one and `r_out_parallel` is the zero vector |
| Vectors.Abs | src/utility/vec3.h:122 | `fabs` is non-negative and is x or -x |
| Vectors.RandomVec | src/utility/vec3.h:17-20 | with min <= max and draws in [0, 1), each component lies in [min, max], and strictly below max when min < max |
| Vectors.RandomInUnitSphere | src/utility/vec3.h:63-69 | the rejection loop returns the first candidate with squared length below one; every earlier candidate had squared length at least one |
| Vectors.RandomInUnitDisk | src/utility/vec3.h:71-77 | the same loop on the disk: the point returned has z = 0 and squared length below one, and all earlier candidates were rejected |
| Vectors.MVec3.constructor | src/utility/vec3.h:11 | the vector holds the given components |
| Vectors.MVec3.AddAssign | src/utility/vec3.h:33-38 | `+=` leaves the same components as binary `+` |
| Vectors.MVec3.MulAssign | src/utility/vec3.h:40-45 | `*=` leaves the same components as scalar `*` |
| Vectors.MVec3.DivAssign | src/utility/vec3.h:47 | `/=` leaves the same components as `/` |
| Vectors.MVec3.SetAt | src/utility/vec3.h:31 | writing through `operator[]` changes exactly one component |
| Rays.At | utility/ray.h:14 | `At(0)` is the origin and `At(t) - origin` is `t * direction` |
| RtWeekend.Trunc | utility/rtweekend.h:35 | `static_cast<int>` truncates toward zero: the result is within one of x on x's side of zero |
| RtWeekend.Clamp | utility/rtweekend.h:40-42 | min below the range, max above it, x inside; the result lies in [min, max] when min <= max |
| RtWeekend.ClampIdempotent | utility/rtweekend.h:40-42 | clamping twice to one range is clamping once |
| RtWeekend.ClampMonotone | utility/rtweekend.h:40-42 | clamping keeps the order of its first argument |
| RtWeekend.RandomDouble | utility/rtweekend.h:30-32 | a zero draw gives min |
| RtWeekend.RandomDoubleRange | utility/rtweekend.h:30-32 | a draw in [0, 1) lands in [min, max], and strictly below max when min < max |
| RtWeekend.RandomInt | utility/rtweekend.h:34-36 | a zero draw gives the truncation of min |
| RtWeekend.RandomIntRange | utility/rtweekend.h:34-36 | with 0 <= min <= max, every draw in [0, 1) gives an integer of [min, max] |
| RtWeekend.DegreesToRadians | utility/rtweekend.h:38 | 180 degrees is pi, 0 is 0 and -180 is -pi |
| RtWeekend.DegreesToRadiansAdditive | utility/rtweekend.h:38 | the conversion is additive |
| RtWeekend.Fmin | src/utility/aabb.h:21-26 | `fmin` is the smaller argument |
| RtWeekend.Fmax | src/utility/aabb.h:21-26 | `fmax` is the larger argument |
| Boxes.Shifted | src/object/translate.h:41-42 | both corners move by the offset, so the extent is unchanged |
| Boxes.SurroundingBox | src/utility/aabb.h:34-42 | the surrounding box encloses both inputs |
| Boxes.SurroundingBoxLeast | src/utility/aabb.h:34-42 | every box enclosing both inputs encloses the surrounding box: it is the least one |
| Boxes.SurroundingBoxAlgebra | src/utility/aabb.h:34-42 | the union is commutative, associative and idempotent (`SurroundingBox(b, b) = b`) |
| Boxes.EnclosesIffAbsorbs | src/utility/aabb.h:34-42 | a box encloses another exactly when their union is the first box |
| Boxes.SlabHit | src/utility/aabb.h:19-32 | the slab decision over axes a..2; `SlabHitOverlap` proves it true iff the latest entry lies before the earliest exit, and `Boxes.Hit` that the loop computes it |
| Boxes.SlabOrdered | src/utility/aabb.h:21-24 | on every axis the entry time t0 is at most the exit time t1 |
| Boxes.LatestEntry | src/utility/aabb.h:25 | `t_min` only grows across the axes |
| Boxes.EarliestExit | src/utility/aabb.h:26 | `t_max` only shrinks across the axes |
| Boxes.SlabHitOverlap | src/utility/aabb.h:19-32 | the loop with its early `return false` accepts exactly when the latest entry is strictly before the earliest exit |
| Boxes.Hit | src/utility/aabb.h:19-32 | the three-axis loop returns the slab decision: true iff the narrowed interval stays non-empty |
| Records.WithFaceNormal | object/hittable.h:19-22 | `front_face` iff the ray runs against the outward normal; the normal is the outward normal on a front face and its negation otherwise; p, t, u, v and material are kept |
| Records.FaceNormalAgainstRay | object/hittable.h:20-21 | the stored normal never points along the ray and has the outward normal's squared length |
| Records.ReorientOwnNormal | object/hittable.h:19-22 | orienting again by the oriented normal keeps it and marks a front face, unless the ray grazes |
| Records.HitRecord.constructor | object/hittable.h:10-17 | the record holds the given fields |
| Records.HitRecord.Assign | object/hittable_list.h:31 | `*hit_record = temp_record` copies every field |
| Records.HitRecord.SetFaceNormal | object/hittable.h:19-22 | the new record is the old one oriented as `WithFaceNormal` states |
| Spheres.ChosenRoot | src/object/sphere.h:41-51 | no root for a negative discriminant; the near root when it is in [t_min, t_max], else the far root when that is; a chosen root lies in [t_min, t_max] |
| Spheres.NearRootFirst | src/object/sphere.h:45-47 | the near root is never after the far root |
| Spheres.SphereRecord | src/object/sphere.h:52-57 | the record holds t, `p = r.At(t)`, the face normal from `(p - center) / radius`, u/v of that normal and the material |
| Spheres.SphereHit | src/object/sphere.h:35-62 | a hit iff a root was chosen, never with a negative discriminant; on a hit the record is exactly the sphere record of the chosen root, with t in [t_min, t_max] and `p = r.At(t)`; on a miss the record is returned unwritten |
| Spheres.SphereBox | src/object/sphere.h:64-68 | the box is center -/+ (r, r, r): the corners lie exactly r from the center on each axis, the extent is 2r and the center is inside |
| Spheres.BallInSphereBox | src/object/sphere.h:64-68 | every point within distance r of the center lies in the box, so the box encloses the ball |
| Spheres.CenterEndpoints | src/object/moving_sphere.h:36-39 | the center is `center0_` at `time0_`, `center1_` at `time1_`, and their midpoint at the middle time |
| Spheres.MovingSphereHit | src/object/moving_sphere.h:41-67 | the sphere hit at `Center(r.Time())`: a hit iff a root of the quadratic at that center is chosen, and t is that root; t in range, `p = r.At(t)`, u and v never written, the record of a sphere at that center; on a miss nothing written |
| Spheres.MovingSphereBox | src/object/moving_sphere.h:69-77 | the box encloses the radius boxes at both queried times and is enclosed by every box that encloses both: their least enclosing box |
| Rectangles.PlaneT | src/object/aa_rectangle.h:32 | the parameter at which the ray meets the plane z = k; `XyHitOnRectangle` proves the hit point lies at z = k |
| Rectangles.XyRecord | src/object/aa_rectangle.h:41-47 | the record holds u and v as fractions of the rectangle, t, `p = r.At(t)`, the face normal of (0, 0, 1) and the material |
| Rectangles.XyHit | src/object/aa_rectangle.h:30-49 | a hit iff t is in [t_min, t_max] and the point is inside [x0, x1] x [y0, y1]; then the record of `XyRecord`, otherwise nothing written |
| Rectangles.XyHitOnRectangle | src/object/aa_rectangle.h:41-47 | the hit point lies at z = k, and u and v lie in [0, 1] when x0 < x1 and y0 < y1 |
| Rectangles.XyBox | src/object/aa_rectangle.h:16-23 | the box spans [x0, x1] x [y0, y1] and is exactly [k - 0.0001, k + 0.0001] in z, a non-zero width around k |
| Scene.Admissible | object/hittable.h:27-28 | where every division of `Hit` is defined: non-zero direction and radius for spheres, `time0_ != time1_` for the moving sphere, a non-zero z direction for the xy rectangle, the slab divisions for a BVH node, and so on through lists, transforms and boxes |
| Scene.Hit | object/hittable.h:27-28 | `Hit` of every subclass; `SceneFacts.HitHonest` proves that every object reports hits only in [t_min, t_max] at `r.At(t)`, and the `SceneFacts` lemmas below state each case |
| Scene.ScanAfter | object/hittable_list.h:26-31 | the list's loop after j children; `ScanHitIffSomeChild`, `ScanClosestShrinks`, `ScanHonest` and `ScanNearest` state what it keeps |
| Scene.BoundingBox | object/hittable.h:29-30 | `BoundingBox` of every subclass; `SceneFacts.BoxCases` and `BoxFlagStable` state when it succeeds, and `ListBoundingBox` the list case |
| Scene.FoldAfter | object/hittable_list.h:42-51 | the list's box loop after j children; `FoldStable`, `FoldEncloses`, `FoldLeast` and `FoldStopsEarly` state what it keeps |
| Scene.MovedRay | src/object/translate.h:24 | the moved ray has origin - offset and the same direction and time |
| Scene.RotateInto | src/object/rotate.h:63-67 | the rotation into object space keeps y |
| Scene.RotateOut | src/object/rotate.h:78-82 | the rotation back keeps y |
| Scene.RotateRoundTrip | src/object/rotate.h:63-82 | with sin^2 + cos^2 = 1 the two rotations undo each other |
| Scene.RotatedRay | src/object/rotate.h:60-69 | the rotated ray keeps the y of origin and direction, and the time |
| SceneFacts.MovedPoint | src/object/translate.h:24-29 | the point at t on the moved ray, shifted by the offset, is the point at t on the ray |
| SceneFacts.RotatedPoint | src/object/rotate.h:69-84 | the point at t on the rotated ray, rotated back, is the point at t on the ray |
| SceneFacts.HitHonest | object/hittable.h:27-28 | every object, nested to any depth, reports hits in [t_min, t_max] at `r.At(t)` and writes nothing on a miss |
| SceneFacts.ScanHonest | object/hittable_list.h:26-31 | `closest_so_far` starts at t_max and stays at most t_max; once something was hit it is the t of the copied record; until then the record is untouched |
| SceneFacts.ScanHitIffSomeChild | object/hittable_list.h:25-34 | `hit_anything` is true iff some child reported a hit |
| SceneFacts.ScanClosestShrinks | object/hittable_list.h:26-31 | `closest_so_far` never increases along the scan |
| SceneFacts.ScanNearest | object/hittable_list.h:27-33 | after the scan, the copied record is no farther than any hit a child reported |
| SceneFacts.ListHitNearest | object/hittable_list.h:22-35 | the list hits iff a child hit; the record is then in range and nearest among all reported hits; otherwise it is unwritten |
| SceneFacts.BvhHitTightens | src/object/bvh.h:53-63 | a ray missing the box reports nothing and writes nothing; otherwise the right child is asked up to the left hit's t, and the result is true iff either child hit |
| SceneFacts.TranslateHitFacts | src/object/translate.h:22-33 | the translation hits iff the child hits the moved ray; then t, u, v and material are the child's, p is shifted by the offset and the normal is re-oriented against the moved ray |
| SceneFacts.RotateHitFacts | src/object/rotate.h:58-88 | the rotation hits iff the child hits the rotated ray; then t is the child's, p is rotated back and the rotated-back normal is oriented against the rotated ray |
| SceneFacts.BoxCases | src/object/translate.h:35-44 | sphere, moving sphere, rectangle and BVH node always have a box, the moving sphere's being `MovingSphereBox` of the queried times; a translation has one iff its child has, shifted with the same extent; a rotation returns its stored flag and box |
| SceneFacts.BoxFlagStable | object/hittable.h:29-30 | whether `BoundingBox` succeeds depends neither on the times nor on the prior box, and a successful box does not depend on the prior box |
| SceneFacts.FoldStable | object/hittable_list.h:42-51 | whether the fold stops does not depend on the times or the prior box, and `first_box` holds only before the first child |
| SceneFacts.FoldOutStable | object/hittable_list.h:48-50 | after one child the fold's output does not depend on the prior box |
| SceneFacts.FoldEncloses | object/hittable_list.h:42-52 | the fold is still running iff every child so far had a box, and its output then encloses each of those boxes |
| SceneFacts.FoldLeast | object/hittable_list.h:48-49 | every box enclosing the children's boxes encloses the fold's output |
| SceneFacts.FoldStopsEarly | object/hittable_list.h:45-47 | once a child without a box stopped the fold, later children change nothing |
| SceneFacts.ListBoundingBox | object/hittable_list.h:37-53 | false for an empty list with the output untouched; false iff some child has no box; otherwise the output encloses every child box and is the least such box |
| Objects.HitInto | object/hittable.h:27-28 | the virtual `Hit` leaves in the record object exactly what `Scene.Hit` states |
| Objects.BvhInto | src/object/bvh.h:53-63 | `BvhNode::Hit` written statement by statement equals `Scene.Hit` |
| Objects.TranslateInto | src/object/translate.h:22-33 | `Translate::Hit`, with `p += offset` and `SetFaceNormal` on the record object, equals `Scene.Hit` |
| Objects.RotateYInto | src/object/rotate.h:58-88 | `RotateY::Hit`, editing copies component by component, equals `Scene.Hit` |
| Objects.SphereInto | src/object/sphere.h:35-62 | `Sphere::Hit` field by field equals `SphereHit` |
| Objects.MovingSphereInto | src/object/moving_sphere.h:41-67 | `MovingSphere::Hit` field by field equals `MovingSphereHit` |
| Objects.XyInto | src/object/aa_rectangle.h:30-49 | `XyRectangle::Hit` with its early returns equals `XyHit` |
| Objects.WriteXy | src/object/aa_rectangle.h:41-47 | the field writes after acceptance leave the record of `XyRecord` |
| Objects.ScanInto | object/hittable_list.h:22-35 | the closest-hit loop over the children leaves the flag and record `Scene.Hit` states |
| Objects.BoxInto | object/hittable.h:29-30 | the virtual `BoundingBox` returns the flag and box `Scene.BoundingBox` states |
| Objects.FoldInto | object/hittable_list.h:37-53 | the fold loop with its early returns equals `Scene.BoundingBox` of the list |
| Objects.FoldStopped | object/hittable_list.h:45-47 | an early return gives what the whole fold gives |
| Objects.HittableList.constructor | object/hittable_list.h:13 | a new list has no objects |
| Objects.HittableList.Single | object/hittable_list.h:14 | the one-object constructor holds exactly that object |
| Objects.HittableList.Add | object/hittable_list.h:15 | `Add` appends at the end and keeps the earlier entries in order |
| Objects.HittableList.Hit | object/hittable_list.h:22-35 | the list's `Hit` equals `Scene.Hit` of the list value |
| Objects.HittableList.BoundingBox | object/hittable_list.h:37-53 | the list's `BoundingBox` equals `Scene.BoundingBox` of the list value |
| Sorting.SortRange | src/object/bvh.h:89-90 | sorting `[start, end)` in place leaves a permutation of the range, ordered by the key, with nothing outside it changed |
| Sorting.InsertAt | src/object/bvh.h:89-90 | one insertion step extends the ordered prefix by one and permutes the range |
| Sorting.Swap | src/object/bvh.h:89-90 | an exchange keeps the range's multiset and touches only the two positions |
| Sorting.SplitOrdered | src/object/bvh.h:89-93 | cutting an ordered range puts every key of the front at or below every key of the back |
| Sorting.BelowPermuted | src/object/bvh.h:89-93 | permuting either half keeps the lower half below the upper |
| Bvh.KeyOn | src/object/bvh.h:25-33 | the sort key on an axis: the minimum of the box `BoundingBox(0, 0, &box)` leaves, which `BoxCompare` compares when both objects have a box; `BuildSplit` states the halves ordered by it |
| Bvh.BoxCompare | src/object/bvh.h:25-33 | with both boxes, less iff a's box minimum on the axis is below b's; without a's box, b is not asked and a default box is compared |
| Bvh.ChosenAxis | src/object/bvh.h:72-75 | `RandomInt(0, 2)` picks an axis of 0, 1, 2 |
| Bvh.Build | src/object/bvh.h:70-104 | only `[start, end)` is reordered, into a permutation of itself (not at all for one or two objects); the leaves are the range's objects; the box is the children's union and encloses every leaf's box |
| Bvh.BuildLeaves | src/object/bvh.h:78-87 | one object becomes both children; two objects are ordered by `BoxCompare`, so the smaller-or-equal box minimum is on the left |
| Bvh.BuildSplit | src/object/bvh.h:88-94 | three or more objects are sorted on the axis and split at `start + span / 2`; both halves are non-empty, cover the range, and build the two children |
| Bvh.SplitProgress | src/object/bvh.h:88-94 | a non-empty range is cut into a strictly shorter lower half; an empty range is cut at its start, so the lower half is the same range |
| Bvh.BuildHalves | src/object/bvh.h:91-103 | the two halves are built below the node in place, keeping the split's order between them |
| Bvh.ChildrenBox | src/object/bvh.h:96-103 | the union of the children's boxes, the right child not asked when the left has none; `HalvesEnclosed` proves it encloses every leaf's box |
| Bvh.SortedFacts | src/object/bvh.h:89-91 | after the sort every key of the lower half is at most every key of the upper |
| Bvh.SpannedHalves | src/object/bvh.h:91-93 | the node's leaves are those of the lower half followed by the upper's |
| Bvh.HalvesEnclosed | src/object/bvh.h:96-103 | the union of the children's boxes encloses the box of every object of both halves |
| Bvh.FromList | src/object/bvh.h:15-17 | building over a list reorders the list's own objects into a permutation and covers all of them |
| BoxObject.Axes | src/object/box.h:32-45 | a plane's rectangle spans two distinct axes and is fixed on the third |
| BoxObject.NewBox | src/object/box.h:28-46 | the corners are stored; exactly six rectangles are added, two per plane, at p1 and p0 on the fixed axis, each spanning [p0, p1] on the other two |
| BoxObject.BoxBoundingBox | src/object/box.h:16-20 | the box is exactly (p0, p1) and always true |
| BoxObject.BoxHitIsListHit | src/object/box.h:11-14 | `Box::Hit` is the `Hit` of the list of its sides |
| BoxObject.BoxScanIsListScan | src/object/box.h:11-14 | the scan over the sides is the list's scan |
| Rotation.CornerSelects | src/object/rotate.h:39-41 | the 0/1 selectors pick the minimum or the maximum on each axis |
| Rotation.Corners | src/object/rotate.h:36-46 | the loops visit eight turned corners |
| Rotation.Envelope | src/object/rotate.h:48-55 | the box of a sequence of points; `EnvelopeContains` and `EnvelopeLeast` prove it the least box containing them |
| Rotation.EnvelopeContains | src/object/rotate.h:48-51 | the envelope contains every visited point |
| Rotation.EnvelopeLeast | src/object/rotate.h:48-55 | every box containing the points encloses the envelope |
| Rotation.RotatedBoxFacts | src/object/rotate.h:33-55 | `bbox_` contains all eight rotated corners, is the least such box, and keeps the child's y extent |
| Rotation.RotatedYExtent | src/object/rotate.h:39-46 | only x and z are turned, so the y extent of `bbox_` is the child's |
| Rotation.Widen | src/object/rotate.h:48-51 | the loop over the three components widens the box by the tester, or starts it there before the first corner |
| Rotation.VisitCorner | src/object/rotate.h:39-51 | one pass turns corner (i, j, k) into the tester and widens the box by it |
| Rotation.EnvelopeStep | src/object/rotate.h:48-51 | widening the envelope of n corners by corner n gives that of n + 1 |
| Rotation.TurnedBox | src/object/rotate.h:36-55 | the nested loops leave the envelope of the eight turned corners |
| Rotation.NewRotateY | src/object/rotate.h:26-56 | sine and cosine of the angle in radians, the child's `BoundingBox(0, 1)` flag, and `bbox_` the envelope of the turned corners of the child box |
| PerlinNoise.Identity | src/utility/perlin.h:69-71 | `p[i] = i` for every i below n |
| PerlinNoise.IdentityOnce | src/utility/perlin.h:69-71 | each of 0..n-1 occurs once in the identity |
| PerlinNoise.PermutationEntries | src/utility/perlin.h:67-74 | a permutation of 0..n-1 has n distinct entries in range and misses none |
| PerlinNoise.Target | src/utility/perlin.h:78 | the swap target of step i lies in [0, i] |
| PerlinNoise.Shuffle | src/utility/perlin.h:76-83 | the countdown keeps the length |
| PerlinNoise.ShufflePermutes | src/utility/perlin.h:76-83 | the countdown only exchanges entries, so it keeps the multiset |
| PerlinNoise.ShuffleKeepsTail | src/utility/perlin.h:77-81 | entries past the starting index are not touched |
| PerlinNoise.GeneratedTable | src/utility/perlin.h:67-74 | whatever the draws, a shuffled identity on 256 entries is a permutation of 0..255 |
| PerlinNoise.Permute | src/utility/perlin.h:76-83 | the swap loop leaves `p[0..n)` as `Shuffle` states, a permutation of its previous contents, and nothing beyond n changed |
| PerlinNoise.PerlinGeneratePerm | src/utility/perlin.h:67-74 | a fresh array of 256 entries holding a permutation of 0..255 |
| PerlinNoise.Gradient | src/utility/perlin.h:10 | each gradient has length one |
| PerlinNoise.RandomGradients | src/utility/perlin.h:8-11 | the loop fills all 256 slots with unit gradients from the draws |
| PerlinNoise.AndLowBits | src/utility/perlin.h:52-53 | masking with 2^k - 1 is the remainder by 2^k |
| PerlinNoise.XorBelow | src/utility/perlin.h:52-53 | the XOR of two numbers below 2^k is below 2^k |
| PerlinNoise.Low8 | src/utility/perlin.h:52-53 | `n & 255` lies in 0..255, negative n included |
| PerlinNoise.Low8IsMask | src/utility/perlin.h:52-53 | `Low8` is the mask on the 32-bit two's-complement pattern of n |
| PerlinNoise.Xor3 | src/utility/perlin.h:51-53 | the XOR of three permuted indices is an index of 0..255, so every `ran_vec_` read is in bounds |
| PerlinNoise.Frac | src/utility/perlin.h:38-40 | the offsets u, v, w are fractional parts in [0, 1) |
| PerlinNoise.Cell | src/utility/perlin.h:46-56 | a cell holds eight gradients |
| PerlinNoise.Lattice | src/utility/perlin.h:42-56 | the gradients gathered for p are eight, those of p's cell |
| PerlinNoise.TermAtOrigin | src/utility/perlin.h:94-97 | at offset zero every corner term vanishes |
| PerlinNoise.BlendAtCorner | src/utility/perlin.h:85-102 | at a cell corner the blend is zero |
| PerlinNoise.NoiseAt | src/utility/perlin.h:37-58 | the noise at a point: the lattice cell's trilinear blend at the fractional offsets; `NoiseAtLatticePoint` proves it vanishes at every lattice point, and `Perlin.Noise` that the method computes it |
| PerlinNoise.NoiseAtLatticePoint | src/utility/perlin.h:37-58 | the noise vanishes at every lattice point, whatever the tables |
| PerlinNoise.Flat | src/utility/perlin.h:46 | `c[2][2][2]` flattens into eight corners |
| PerlinNoise.FlatIndex | src/utility/perlin.h:51 | corner (i, j, k) sits at position 4i + 2j + k |
| PerlinNoise.GatheredCell | src/utility/perlin.h:48-56 | an array filled with the cell's corners flattens to the cell |
| PerlinNoise.InterpStep | src/utility/perlin.h:91-98 | visiting (i, j, k) adds the corner term of position 4i + 2j + k |
| PerlinNoise.TrilinearInterp | src/utility/perlin.h:85-102 | the method computes the eight-term blend of the smoothed offsets |
| PerlinNoise.BlendCorners | src/utility/perlin.h:89-101 | the nested loops sum all eight corner terms in order |
| PerlinNoise.Weight | src/utility/perlin.h:26-30 | the octave weights lie in (0, 1] |
| PerlinNoise.Samples | src/utility/perlin.h:28-32 | `Terb` samples one noise value per octave |
| PerlinNoise.Turbulence | src/utility/perlin.h:23-35 | `Terb` is non-negative |
| PerlinNoise.OctaveOfLatticePoint | src/utility/perlin.h:31 | doubling keeps a lattice point on the lattice |
| PerlinNoise.LatticeSamplesSum | src/utility/perlin.h:28-32 | at a lattice point every octave's sample is zero |
| PerlinNoise.TurbulenceAtLatticePoint | src/utility/perlin.h:23-35 | the turbulence vanishes at lattice points, for every depth |
| PerlinNoise.AccumulateStep | src/utility/perlin.h:29-31 | one pass adds the sample with weights 1, 1/2, 1/4, ... |
| PerlinNoise.Perlin.constructor | src/utility/perlin.h:7-15 | 256 unit gradients and three independently shuffled permutation tables, in distinct arrays |
| PerlinNoise.Perlin.Noise | src/utility/perlin.h:37-58 | `Noise(p)` is the blend of p's cell at p's offsets |
| PerlinNoise.Perlin.Gather | src/utility/perlin.h:46-56 | the gathering loops fill `c` with the cell's gradients, all reads in bounds |
| PerlinNoise.Perlin.NextOctave | src/utility/perlin.h:29-31 | one pass keeps `accum`, `weight` and `temp_p` equal to the sum, weight and point of the next octave |
| PerlinNoise.Perlin.Terb | src/utility/perlin.h:23-35 | `Terb(p, depth)` is the absolute weighted sum of depth octaves, non-negative |
| Textures.EmptyImage | material/image_texture.h:16-17 | the default texture has no data and a zero size |
| Textures.LoadedImage | material/image_texture.h:19-31 | a failed load leaves no data and width = height = 0; `bytes_per_scanline_` is 3 * width |
| Textures.PixelIndex | material/image_texture.h:42-50 | u is clamped, v is clamped and flipped; the column lies in [0, width - 1] and the row in [0, height - 1], the truncation except at the upper edge |
| Textures.ScaledIndex | material/image_texture.h:45-50 | the truncated scaled fraction, lowered to n - 1 at one, is an index below n |
| Textures.ScaledUnit | material/image_texture.h:45-46 | a fraction of [0, 1] scales into [0, n] |
| Textures.PixelOffset | material/image_texture.h:53 | the byte offset plus two lies inside the decoded data |
| Textures.ImageValue | material/image_texture.h:35-57 | without data the value is cyan (0, 1, 1) |
| Textures.ImageValueInUnitRange | material/image_texture.h:52-56 | each channel is a byte over 255 and lies in [0, 1] |
| Textures.ByteIntensity | material/image_texture.h:52-55 | a byte over 255 lies in [0, 1] |
| Textures.FailedLoadIsCyan | material/image_texture.h:37-39 | after a failed load, or with no image, the value is (0, 1, 1) for every input |
| Textures.CheckerOfColors | src/material/texture/checker_texture.h:10-11 | the colour constructor wraps both colours in solid textures |
| Textures.Value | src/material/texture/texture.h:7-8 | `Value` of every texture; `SolidIsConstant`, `CheckerDelegates` and `NoiseValueFacts` state each case, and `ValueInUnitCube` bounds every channel in [0, 1] |
| Textures.SolidIsConstant | material/solid_color.h:14-17 | a solid colour is the same everywhere |
| Textures.CheckerDelegates | src/material/texture/checker_texture.h:13-21 | the odd half where the sine product is negative, the even half elsewhere (zero included), with the same (u, v, p) |
| Textures.CheckerOfColorsValue | src/material/texture/checker_texture.h:10-21 | a checker of two colours shows one of them at every point |
| Textures.NoiseValueFacts | src/material/texture/noise_texture.h:11-15 | the marble is grey, ignores u and v, and lies in [0, 1] |
| Textures.MarbleIsGrey | src/material/texture/noise_texture.h:13-14 | the marble colour has three equal channels, each in [0, 1] for a lawful sine |
| Textures.ValueInUnitCube | src/material/texture/checker_texture.h:13-21 | a texture whose solid colours lie in [0, 1] yields only colours in [0, 1] |
| NoiseTextures.NoiseTexture.constructor | src/material/texture/noise_texture.h:9 | the scale is stored and the generator is valid |
| NoiseTextures.NoiseTexture.Value | src/material/texture/noise_texture.h:11-15 | the value is the noise texture of the generator's tables, with `Terb` at depth 7 |
| Materials.Scatter | src/material/material.h:12-13 | `Scatter` of every material; `ScatterKeepsPointAndTime` and the per-material lemmas below state each case, and `Integrator.MaterialFactors` bounds the attenuation |
| Materials.Emitted | src/material/material.h:9-11 | every material but the light emits black |
| Materials.RefractionRatio | material/dielectric.h:16-18 | 1/ior on a front face and ior otherwise |
| Materials.CosTheta | material/dielectric.h:21 | `cos_theta` is `fmin(Dot(-unit, normal), 1)`: at most both, and equal to one of them |
| Materials.ScatterKeepsPointAndTime | src/material/material.h:12-13 | every material but the light scatters from the hit point at the incoming time; the light returns false and writes neither out-parameter |
| Materials.LambertianScatter | src/material/lambertian.h:16-28 | always true; attenuation is the texture value; the direction is normal + sample, or the normal when that is near zero |
| Materials.LambertianOfColorAttenuation | src/material/lambertian.h:13 | the colour constructor attenuates by that colour everywhere |
| Materials.MetalScatter | src/material/metal.h:12-19 | attenuation is the albedo; true iff the new direction leaves on the normal's side; without fuzz the direction is the reflection |
| Materials.PolishedMetalScattersFromFront | src/material/metal.h:14-18 | a polished metal hit from the front against a unit normal always scatters |
| Materials.DielectricScatter | material/dielectric.h:13-36 | always true with attenuation (1, 1, 1) from the hit point at the incoming time; reflects when it cannot refract, reflects when Schlick's reflectance exceeds the draw, and refracts otherwise |
| Materials.EnteringCanRefract | material/dielectric.h:16-24 | entering through a front face with ior >= 1 the ray can always refract |
| Materials.Reflectance | material/dielectric.h:41-45 | Schlick's approximation; `ReflectanceEnds` and `ReflectanceBounds` prove its values at the ends and its range |
| Materials.ReflectanceEnds | material/dielectric.h:41-45 | Schlick's reflectance is r0 head-on and one at grazing incidence |
| Materials.ReflectanceBounds | material/dielectric.h:41-45 | for a positive ratio and a cosine in [0, 1] the reflectance lies in [r0, 1], with r0 in [0, 1) |
| Materials.NormalIncidenceBounds | material/dielectric.h:42-43 | for a positive ratio r0 lies in [0, 1) |
| Materials.Pow5Unit | material/dielectric.h:44 | a fifth power of [0, 1] stays in [0, 1] |
| Materials.DiffuseLightEmits | src/material/diffuse_light.h:16-18 | the light emits its texture's value, and the colour constructor that colour everywhere |
| Materials.IsotropicScatter | src/material/isotropic.h:13-18 | always true, along the sphere sample, with the texture value as attenuation; the colour constructor gives a constant attenuation |
| Integrator.RayColor | src/main.cpp:25-49 | the recursive integrator; `RayColorCases` states its four cases and `RayColorBounded` bounds every channel by the depth |
| Integrator.RayColorCases | src/main.cpp:25-49 | black at depth <= 0 for every ray and world; the background on a miss; the emitted colour when the material absorbs; otherwise emitted + attenuation * the colour of the scattered ray at depth - 1, with the same background and world |
| Integrator.LastBounce | src/main.cpp:30-48 | with one bounce left the colour is the background on a miss and the emitted light on a hit |
| Integrator.OnlyRemainingDepthsMatter | src/main.cpp:47-48 | the recursion ends after depth levels: only the samples of depths 1..depth matter |
| Integrator.DarkWorldIsBlack | src/main.cpp:25-49 | without lights and with a black background every path gathers black |
| Integrator.MaterialFactors | src/main.cpp:40-48 | with colours in [0, 1], emitted light and attenuation lie in [0, 1] |
| Integrator.RayColorBounded | src/main.cpp:25-49 | with colours in [0, 1] everywhere, each channel of the colour gathered with depth bounces lies in [0, depth] |
| Integrator.AttenuatedWithin | src/main.cpp:47-48 | e + a * c with e, a in [0, 1] and c in [0, hi] lies in [0, hi + 1] |
| PixelOutput.Channel | utility/color.h:14-22 | every written channel lies in 0..255 |
| PixelOutput.Quantise | utility/color.h:20-22 | `static_cast<int>(256 * clamp(g, 0, 0.999f))` lies in 0..255 |
| PixelOutput.WriteColor | utility/color.h:8-23 | all three written channels lie in 0..255 |
| PixelOutput.AverageMonotone | utility/color.h:14-17 | dividing by the samples keeps non-negative channels ordered |
| PixelOutput.ChannelQuantises | utility/color.h:14-22 | below the clamp bound, n/256 <= sqrt(c / samples) < (n + 1)/256 |
| PixelOutput.BlackIsZero | utility/color.h:14-22 | a zero channel is written as 0 |
| PixelOutput.FullIntensityIs255 | utility/color.h:20-22 | a channel averaging at least one is written as 255 |
| PixelOutput.WhiteIs255 | utility/color.h:8-23 | (1, 1, 1) over one sample is written as 255 255 255 |
| PixelOutput.ChannelMonotone | utility/color.h:14-22 | for non-negative inputs a larger channel never gives a smaller output |
| PixelOutput.QuantiseMonotone | utility/color.h:20-22 | clamping and truncating keep the order |
| PixelOutput.Decimal | utility/color.h:20-22 | `operator<<` on a non-negative int writes at least one decimal digit, and only digits |
| PixelOutput.DecimalRoundTrip | utility/color.h:20-22 | reading the written digits back gives the number |
| PixelOutput.Field | utility/color.h:20-22 | a line splits at its first space into a space-free field and the rest |
| PixelOutput.FieldOfDigits | utility/color.h:20-22 | a field of digits followed by a space splits off exactly, leaving the rest of the line |
| PixelOutput.LineRoundTrip | utility/color.h:20-22 | the written line `r g b\n` reads back as the three channels |

## Left out

- Stream output: the `<<` of `write_color` is modelled as the string of the line, without the stream.
- `stbi_load` and the `delete` of its buffer: the decoder's answer is a parameter of `Textures.LoadedImage`.
- `GetSphereUV`: acos and atan2 are not modelled. The sphere's u and v come from the caller-supplied `sphereUV` of `Scene.Env`.
- The camera, `ConstantMedium`, the scene builders and drivers of `main.cpp`, and the Monte Carlo demos are not part of this model.
- The parallel render of the tutorial drivers is not part of this model.
- The global `mt19937` generator: every draw is a parameter. `Materials.Draws` holds the samples of one `Scatter` call, and `RayColor` takes the samples of each remaining depth.
- Vectors.RandomInUnitSphere: the C++ `while (true)` loop draws until it finds a point. The model loop is bounded by a finite sequence of supplied draws. Its `found == false` exit, taken when the draws run out, has no counterpart in the source.
- Vectors.RandomInUnitDisk: the same bounded loop over supplied pairs of draws, with the same extra `found == false` exit.
- `RandomUnitVector` is not derived from `RandomInUnitSphere` inside `Scatter`: the Lambertian takes the unit sample itself as its draw.
- IEEE infinities and NaN:
  - division by zero is excluded by preconditions (non-zero direction components for the slab test and the xy rectangle, non-zero direction and radius for spheres, `time0_ != time1_` for the moving sphere, x0 != x1 and y0 != y1 for rectangles);
  - `infinity` in `RotateY`'s start corners is replaced by starting the envelope at the first corner, which gives the same box after eight corners.
- Spheres.MovingSphereHit: requires `time0_ != time1_`. The scene builder of `src/main.cpp:59-62` passes equal times when motion is off, and the C++ `Center` then divides by zero.
- Floating-point rounding: `real` is exact, so the `2.0f` factor of the sphere and the `1.0f` of `Refract` are the reals 2 and 1. The `float` index of refraction of the dielectric is also an exact real.
- PixelOutput.Quantise: utility/color.h:20-22 calls a lower-case `clamp`, which the utility/rtweekend.h of this tree does not declare. The model reads it as `RtWeekend.Clamp` (utility/rtweekend.h:40-42). The bound `0.999f` is taken as the single-precision value 16760439 / 2^24.
- PixelOutput.Channel: requires `samples_per_pixel != 0`. The C++ division by zero gives infinity, which is not modelled.
- Materials.RefractionRatio: requires an index other than 0 and -1, so that `1 / ior` and `1 + ratio` are defined.
- Materials.Scatter: requires a non-zero incoming direction for the metal and the dielectric, which divide by its length.
- PerlinNoise.RandomGradients: requires that no triple of draws yields the zero vector, whose `UnitVector` is 0/0.
- PerlinNoise.Low8: models `n & 255` as the remainder by 256, which matches the 32-bit two's-complement mask. `Low8IsMask` proves the match for every `int`. The cast of `floor(x)` outside the 32-bit range is not modelled.
- Bvh.BuildSplit: the model sorts a range by the key `KeyOn`, the minimum of the box `BoundingBox(0, 0, &box)` leaves behind. That key order is `BoxCompare` only when every object of the range has a time-0 box. For an object `a` without one, the C++ comparator compares `a`'s key with the default box's 0 instead of with `b`'s key, and is then not a strict weak order. For example, take a boxless `a` with key 0 and objects with keys 5 and 7: `a` is equivalent to both of them while 5 < 7. `std::sort` is then undefined, and the source only reports "No bounding box" (src/object/bvh.h:29-31). The model's ordered permutation describes the C++ result only for ranges where every object has a time-0 box.
- Sorting.SortRange: the BVH sorts with an insertion sort by adjacent swaps, not the algorithm of `std::sort`. Only the contract is shared, and only when every object of the range has a time-0 box (see `Bvh.BuildSplit`): the range becomes an ordered permutation of itself and nothing else changes.
- Bvh.Build: requires a non-empty range. In the C++ code an empty range recurses without end when it reaches the branch for three or more objects (see "## Findings").
- The XZ and YZ rectangles used by `Box`: their `Hit` and `BoundingBox` are the caller-supplied `rectHit` and `rectBox` of `Scene.Env`. `Scene.LawfulEnv` assumes they keep the `Hit` contract.
- Scene.Env: the field `scratch` is one fixed record standing for the uninitialised `HitRecord temp_record` of every `HittableList::Hit` call, nested calls included (object/hittable_list.h:24). In C++ each call's record holds whatever its storage held, which may differ from call to call. The model gives every call the same indeterminate contents. This matters only for fields a child's hit leaves unwritten, such as u and v of the moving sphere.
- Integrator.RayColor: the world is the function `World` giving the flag and record of `world.Hit(r, 0.001, infinity, &rec)`. It is any hittable, and is not tied to `Scene.Hit`.
- `Refract` is modelled as written. Only its orthogonal parallel part and the head-on case are proved; Snell's law is not proved.
- `Aabb`'s constructor and its `Minimum()` and `Maximum()` accessors are the fields of the datatype `Boxes.Aabb`. The default constructor is `Boxes.DefaultBox`, the zero box.
- `Dielectric` overrides `scatter`, in lower case, of the older interface in material/material.h. The model treats it as the `Scatter` of the same material family.

## Findings

| source | as written | input that shows it | evidently intended | confidence | as-written member | corrected member |
|---|---|---|---|---|---|---|
| src/object/bvh.h:76-94 | a span other than one or two takes the splitting branch, and an empty span is no exception | `BvhNode(list, time0, time1)` over an empty `HittableList`: start = end = 0, so `mid = 0` and the left child is built over the same empty range, which recurses without end | a non-empty range, or an empty list rejected before the constructor recurses | not executed; follows from the branch conditions | Bvh.SplitProgress | Bvh.Build |

`Bvh.SplitProgress` shows that the cut makes progress exactly for a non-empty range, and that an
empty range is cut at its own start. `Bvh.Build` requires `start < end`. Its recursion through
`BuildSplit`, whose contract gives `start < Mid(start, end) < end`, is proved to terminate.
