# SceneRenderer ray tracer — a Dafny model of its core

This project models the core of the SceneRenderer ray tracer: a Whitted-style renderer that
shades hits with a Phong or a stylised model, follows reflected and refracted rays to a
configured depth, and accelerates hit queries with a KD tree. It turns pixels into bytes
with optional jittered and adaptive supersampling. The model covers:

- **the KD tree** (`kdtree.dfy`, `kdtree_build.dfy`):
  - node accumulation and the build-once guard;
  - recursive splitting with the median heuristic and axis choice;
  - the partition of objects into the two children;
  - the explicit-stack traversal.
- **the tracer session** (`session.dfy`, `tracing.dfy`, `sampling.dfy`):
  - buffer setup and the pixel byte layout;
  - the sub-pixel grid, full and adaptive supersampling;
  - the recursion of `traceRay` with its refraction gate and total internal reflection;
  - scene loading with its one-time KD rebuild;
  - the stochastic and windowing helpers.
- **triangle meshes** (`trimesh.dfy`): list appends, face validation, the consistency check, the
  nearest-hit scan, the triangle test and per-vertex normal averaging.
- **shading, lights and spheres** (`shading.dfy`, `lights.dfy`, `materials.dfy`, `sphere.dfy`):
  - Phong and stylised shading, and the bump sentinel;
  - distance and shadow attenuation;
  - texel lookup, bilinear weights and the PNG row flip;
  - sphere root selection.

Colours and vectors are triples of `real`. The numeric primitives the model cannot compute
are carried as function values of a `Math` record: `sqrt`, `pow`, `normalize`, `atan2`,
`asin`, the 3x3 solve, the dropped-axis choice and IEEE division. The proofs use only three
facts about them, collected in `Vectors.Lawful`:

- `sqrt` of a non-negative value is non-negative;
- `sqrt` of 0 is 0;
- division by a non-zero value is exact.

The settings the C++ code reads from the global user interface object are an immutable
`Settings.Config` parameter. The scene's camera, linear intersection query, lights and
ambient colour are parameters too, as are each primitive's own hit test and box test.

Where the code departs from what one might expect, the model follows the code:

- `loadScene` deletes the old scene before parsing (src/RayTracer.cpp:325-327), so a failed
  parse leaves no scene loaded rather than the previous one.
- `tracePixel` computes its supersampled colour and then overwrites it with a fresh trace of
  the pixel's own coordinates (src/RayTracer.cpp:150). The bytes written never depend on the
  sampling mode, and `Session.RayTracer.TracePixel` states exactly that.
- The adaptive deviation test first runs after the fourth sample, not the second
  (src/RayTracer.cpp:121-143).
- `traceSetup` does not rebuild the KD tree; only `loadScene` builds it.
- The tree is consulted by `traceRay` when the stored acceleration switch is *off*
  (src/RayTracer.cpp:168). It is built by `loadScene` when `acceleration()`, the switch's
  negation, is on (src/ui/TraceUI.h:43). The two agree, and the model keeps both as written.

## Model

| member | source | states |
|---|---|---|
| KdBuild.MergeBoxCovers | src/kdtree.h:85-88 | `MergeBox` with an empty box yields the other box, and the merge of two boxes contains every point of either |
| KdBuild.Classify | src/kdtree.h:282-288 | `d2 <= split` sends an object to the negative child only, else `d1 >= split` to the positive child only, else to both; the three cases are exclusive and exhaustive |
| KdBuild.NegPart | src/kdtree.h:276-289 | the negative child never receives more objects than the node holds; `PartsMembers` states exactly which |
| KdBuild.PosPart | src/kdtree.h:276-289 | the positive child never receives more objects than the node holds; `PartsMembers` states exactly which |
| KdBuild.PartsMembers | src/kdtree.h:276-289 | the negative child receives exactly the objects not wholly beyond the plane, the positive child exactly those not wholly before it |
| KdBuild.PartsCover | src/kdtree.h:276-289 | every object reaches at least one child |
| KdBuild.PartsCount | src/kdtree.h:276-289 | the children together hold at least as many objects as the parent |
| KdBuild.CollectContents | src/kdtree.h:85-91 | `Collect`, a fresh node after adding objects in order with `Added`, holds exactly those objects and the sum of their areas; its box is empty only without objects and contains every point of every object's box |
| KdBuild.Node.constructor | src/kdtree.h:51-55 | a new node has no objects, an empty box and zero area |
| KdBuild.Node.AddObject | src/kdtree.h:85-91 | one more object, its box merged into the node's box, its area added; the count grows by one |
| KdBuild.Insert | src/kdtree.h:163 | inserting into a sorted list keeps it sorted and adds exactly the inserted value |
| KdBuild.SortReals | src/kdtree.h:163 | the sorted endpoints are ascending and a permutation of the input |
| KdBuild.SortedUnique | src/kdtree.h:163 | two ascending arrangements of the same values are equal, so the value at index n does not depend on how the sort orders ties |
| KdBuild.Endpoints | src/kdtree.h:153-161 | the endpoint list has 2n entries, d1 then d2 for each object |
| KdBuild.MedianCost | src/kdtree.h:182 | `-max(pos, neg) / (pos + neg)` lies in [-1, -1/2] |
| KdBuild.FractionsSum | src/kdtree.h:182 | the two fractions of the median cost are in [0, 1] and sum to 1 |
| KdBuild.MedianSplit | src/kdtree.h:144-184 | an empty node costs -1 with the split distance left at 0; a non-empty node's cost lies in [-1, -1/2] |
| KdBuild.MedianSplitNonEmpty | src/kdtree.h:163-182 | on a non-empty node the split is the sorted endpoint at index n, and the cost is the median cost of the counts on each side |
| KdBuild.Cost | src/kdtree.h:249-256 | an empty node costs -1; otherwise the median or the surface-area heuristic, as the settings choose |
| KdBuild.ChooseAxis | src/kdtree.h:258-274 | x is kept unless y or z is strictly cheaper; y is kept unless z is strictly cheaper than it; the three outcomes are characterised exactly |
| KdBuild.Plane | src/kdtree.h:258-274 | the chosen axis has the least cost of the three, is x unless strictly cheaper, is z only if strictly cheaper than y, and carries its own split distance |
| KdBuild.Chooser | src/kdtree.h:249-274 | the plane chooser of a heuristic picks the plane `Plane` picks for every set of objects |
| KdBuild.Build | src/kdtree.h:238-293 | the root of the built tree holds the data collected from all the objects it was given |
| KdBuild.LeafExactly | src/kdtree.h:239-241 | a node stays a leaf exactly when it holds at most minObjs objects or the depth is negative |
| KdBuild.HeightBound | src/kdtree.h:291-292 | the tree is at most depth + 1 levels high (one level for a negative depth) |
| KdBuild.Coverage | src/kdtree.h:276-292 | an object is stored in some leaf exactly when it was handed to the build |
| KdBuild.ChildrenRespectPlane | src/kdtree.h:282-288 | positive-child objects end beyond the plane; negative-child objects start before it or end at it |
| KdBuild.ComputeHMedian | src/kdtree.h:144-184 | the loop computes exactly the median cost and split distance |
| KdBuild.CollectEndpoints | src/kdtree.h:153-161 | the loop produces the endpoint list |
| KdBuild.CountSides | src/kdtree.h:170-181 | the counting loop counts exactly the objects each child would receive |
| KdBuild.Partition | src/kdtree.h:276-289 | two fresh nodes receive, through addObject, exactly the two parts of the partition, and hold the boxes and areas collected from them |
| KdBuild.Distribute | src/kdtree.h:282-288 | one object is added to the positive node exactly when it does not lie wholly before the plane, and to the negative node exactly when it does not lie wholly beyond it |
| KdBuild.DistributeAt | src/kdtree.h:276-289 | after object k both nodes hold the data collected from the parts of the first k + 1 objects |
| KdBuild.SplitNode | src/kdtree.h:238-293 | splitting a node yields the tree `Build` describes |
| KdBuild.SplitChildren | src/kdtree.h:276-292 | above the limits, the partition followed by the two recursive splits yields the internal node `Build` describes |
| KdBuild.ComputeH | src/kdtree.h:186-189 | an empty node costs -1 with the split left at 0; otherwise the surface-area heuristic's answer |
| KdBuild.ChoosePlane | src/kdtree.h:245-274 | the axis selection returns the plane of the heuristic's chooser |
| KdTrees.Step | src/kdtree.h:345-382 | a descent step goes to a child; a pushed far frame has 0 < tMin < tMax, starts where the near frame ends and ends at the parent's tMax; the near and far children are the two children |
| KdTrees.Descend | src/kdtree.h:344-382 | the descent from a popped frame ends at a leaf |
| KdTrees.PushedFramesValid | src/kdtree.h:379-380 | every frame pushed during a descent has 0 < tMin < tMax |
| KdTrees.DescendSize | src/kdtree.h:338-382 | the leaf reached and the frames pushed are disjoint parts of the popped node, so the loop terminates |
| KdTrees.SubtreeTrans | src/kdtree.h:344-382 | a subtree of a subtree is a subtree |
| KdTrees.LeafOfSubtree | src/kdtree.h:344-382 | a leaf of a subtree is a leaf of the whole tree |
| KdTrees.DescendWithin | src/kdtree.h:344-382 | the leaf reached is a leaf of the popped node, and every node pushed on the way is one of its subtrees |
| KdTrees.Candidate | src/kdtree.h:394-396 | a leaf object counts only when its own test hits and the hit point lies in the object's own box |
| KdTrees.Candidates | src/kdtree.h:390-406 | the candidate list has one entry per leaf object, in order |
| KdTrees.LeafHitSpec | src/kdtree.h:386-409 | the leaf scan `LeafHit` finds nothing exactly when no object has a hit inside its own box; otherwise it reports such a hit, the first of the nearest |
| KdTrees.Traverse | src/kdtree.h:329-330 | a ray missing the root box finds nothing |
| KdTrees.RunFirstLeafWithHit | src/kdtree.h:338-410 | started from subtrees of the root, the loop scans only leaves of the tree; each leaf it scans before the last finds nothing; it reports nothing exactly when no scanned leaf has a hit, and otherwise the last scanned leaf's result |
| KdTrees.RunStep | src/kdtree.h:338-410 | after a pass whose leaf finds nothing, the loop goes on with the remaining and the pushed frames, which are smaller in total; a leaf with a hit ends it with that leaf's result |
| KdTrees.NextWithin | src/kdtree.h:338-382 | the leaf reached is a leaf of the tree, and the frames left after a pass are subtrees of the tree |
| KdTrees.PrependNoHit | src/kdtree.h:338-410 | a leaf without a hit scanned ahead of the rest leaves the answer unchanged |
| KdTrees.TraverseFirstLeafWithHit | src/kdtree.h:327-410 | `rayTreeTraversal` (`Traverse`, through the stack loop `Run`) answers the nearest hit of the first leaf, in visiting order, whose scan finds one: every scanned leaf is a leaf of the tree and every earlier one found nothing; no hit exactly when no scanned leaf has one |
| KdTrees.LeafOfWithin | src/kdtree.h:344-382 | the objects of a leaf reached are stored in the tree |
| KdTrees.HitInOwnBox | src/kdtree.h:327-410 | a reported hit is the first nearest candidate of a leaf of the tree: some stored object's own hit, whose point lies in that object's own box, not the leaf's |
| KdTrees.KdTree.constructor | src/kdtree.h:301 | defaults ti = 1, tt = 80, depth 15, minObjs 3, and no root |
| KdTrees.KdTree.BuildTree | src/kdtree.h:306-318 | refused with nothing changed when a root exists; otherwise the root becomes the tree built over exactly the given objects |
| KdTrees.KdTree.DeleteTree | src/kdtree.h:320-324 | afterwards there is no root, so the next build is accepted |
| KdTrees.KdTree.RayTreeTraversal | src/kdtree.h:327-410 | the stack loop answers exactly what `Traverse` describes |
| KdTrees.DescendLoop | src/kdtree.h:344-382 | the inner loop reaches the leaf `Descend` reaches and pushes exactly its frames |
| KdTrees.ScanLeaf | src/kdtree.h:383-406 | the leaf loop keeps the first nearest candidate |
| Rays.NearestHit | src/SceneObjects/trimesh.cpp:68-78 | the scan's answer, when there is one, is one of the candidates |
| Rays.NearestHitIsFirstNearest | src/SceneObjects/trimesh.cpp:68-78 | the scan finds nothing exactly when no candidate hits; otherwise it reports the nearest candidate, the earliest among equally near ones |
| Rays.FirstNearestUnique | src/SceneObjects/trimesh.cpp:72 | at most one candidate is the first nearest, so the scan's answer is determined |
| Meshes.FaceIntersect | src/SceneObjects/trimesh.cpp:95-155 | a hit lies beyond RAY_EPSILON with non-negative weights that are not all zero, carries the face's material and keeps the record's texture coordinates and object; its normal is the blended vertex normal with per-vertex normals, else the plane normal |
| Meshes.FaceIntersectRejects | src/SceneObjects/trimesh.cpp:95-155 | a face reports a hit exactly when the ray is not parallel to its plane, t > RAY_EPSILON, the weights are not all zero and none is negative |
| Meshes.FaceHits | src/SceneObjects/trimesh.cpp:68-78 | one candidate per face; `FaceHitsAt` states each one |
| Meshes.FaceHitsAt | src/SceneObjects/trimesh.cpp:68-71 | candidate k is the face test of face k on a fresh record |
| Meshes.Resize | src/SceneObjects/trimesh.cpp:162 | the normal list is cut or padded with zero vectors to the vertex count |
| Meshes.UnusedReceivesNothing | src/SceneObjects/trimesh.cpp:166-175 | a vertex in no face receives no face normal |
| Meshes.ScanFaces | src/SceneObjects/trimesh.cpp:68-78 | the face loop keeps the first nearest hit |
| Meshes.ScanFindsNearest | src/SceneObjects/trimesh.cpp:59-81 | the linear scan hits exactly when some face is hit, and reports the first nearest face hit |
| Meshes.Trimesh.AddVertex | src/SceneObjects/trimesh.cpp:18-21 | appends exactly the vertex; nothing else changes |
| Meshes.Trimesh.AddMaterial | src/SceneObjects/trimesh.cpp:23-26 | appends exactly the material; nothing else changes |
| Meshes.Trimesh.AddNormal | src/SceneObjects/trimesh.cpp:28-31 | appends exactly the normal; nothing else changes |
| Meshes.Trimesh.AddFace | src/SceneObjects/trimesh.cpp:34-44 | accepted exactly when every index is below the vertex count, appending one face with a copy of the material; refused with nothing added otherwise; negative indices are not refused |
| Meshes.Trimesh.DoubleCheck | src/SceneObjects/trimesh.cpp:46-57 | the materials message when per-vertex materials miscount, else the normals message when per-vertex normals miscount, else none; both directions |
| Meshes.Trimesh.IntersectLocal | src/SceneObjects/trimesh.cpp:59-81 | the tree's answer when acceleration is reported on, else the first nearest face hit; on a miss the record's t becomes 1000 |
| Meshes.Trimesh.GenerateNormals | src/SceneObjects/trimesh.cpp:157-185 | normals take the vertex count; a vertex at k >= 1 face corners gets (previous value + sum of those face normals) / k; other vertices keep the resized value; vertex normals are switched on |
| Meshes.Trimesh.AccumulateFace | src/SceneObjects/trimesh.cpp:166-175 | one face adds its normal to each of its corners and counts them |
| Sphere.FarRoot | src/SceneObjects/Sphere.cpp:19-20 | with an exact root of a non-negative discriminant, the far root b + sqrt(disc) is at least b |
| Sphere.NearRoot | src/SceneObjects/Sphere.cpp:19-28 | with an exact root of a non-negative discriminant, the near root b - sqrt(disc) is the nearer one, and both roots coincide for a zero discriminant |
| Sphere.Intersect | src/SceneObjects/Sphere.cpp:9-37 | a miss exactly when the discriminant is negative or the far root is at most RAY_EPSILON; otherwise the near root when it exceeds RAY_EPSILON, else the far root, so t > RAY_EPSILON and t <= far root; the normal is the normalised hit point |
| Sphere.HitOnSphere | src/SceneObjects/Sphere.cpp:11-37 | with an exact root and a unit direction the reported point lies on the unit sphere |
| Sphere.RootOnSphere | src/SceneObjects/Sphere.cpp:11-20 | either root of the quadratic is a point of the unit sphere |
| Lights.Direction | src/scene/light.cpp:44-47 | a directional light's direction is the negated orientation; a point light's is the normalised offset to it (lines 60-65) |
| Lights.Falloff | src/scene/light.cpp:52 | `min(1, 1 / (c0 + c1 d + c2 d^2))` is at most 1, positive when the divisor is, and exactly 1 when the divisor is in (0, 1] |
| Lights.DistanceAttenuation | src/scene/light.cpp:7-10 | 1 for a directional light, the falloff at the distance for a point light (lines 49-53), never above 1 |
| Lights.Occluder | src/scene/light.cpp:68-77 | a directional light is shadowed by any hit towards it; a point light only by a hit nearer than the light |
| Lights.Transmitted | src/scene/light.cpp:28-33 | an opaque occluder lets nothing through; a transmissive one lets through the light colour times kt, scaled by a fraction of at most 1 that is positive when the falloff's divisor is and is exactly 1 when the divisor lies in (0, 1] |
| Lights.Transmission | src/scene/light.cpp:28-33 | the falloff uses the fixed coefficients 0.2, 0.2, 0.6 for a directional light and the light's own constant, linear and quadratic terms for a point light (lines 87-90); a directional light always lets a positive fraction through |
| Lights.DirectionalDivisorPositive | src/scene/light.cpp:28 | the directional divisor 0.2 + 0.2 d + 0.6 d^2 is positive at every distance |
| Lights.ShadowAttenuation | src/scene/light.cpp:14-37 | white when unoccluded; black for an opaque occluder; otherwise the occluder's transmission at the distance the second shadow ray from the occluding point gives, 1 when that ray hits nothing (point light: lines 68-94) |
| Materials.PixelOffsetInRange | src/scene/material.cpp:149 | the offset of an in-range pixel and the two bytes after it lie inside the image |
| Materials.ByteUnit | src/scene/material.cpp:150-152 | a byte over 255 lies in [0, 1] |
| Materials.PixelAt | src/scene/material.cpp:136-153 | white without data; every channel in [0, 1] |
| Materials.PixelAtReadsOffset | src/scene/material.cpp:143-152 | coordinates past the edge are clamped to width - 1 and height - 1, and the three bytes at (y * width + x) * 3 are read |
| Materials.BilinearWeights | src/scene/material.cpp:114-115 | the four weights sum to exactly 1 and are non-negative for fractional parts in [0, 1] |
| Materials.BlendInUnit | src/scene/material.cpp:116 | a convex blend of four colours in [0, 1] stays in [0, 1] |
| Materials.MappedValue | src/scene/material.cpp:106-117 | the bilinear texture lookup lies in [0, 1] |
| Materials.Value | src/scene/material.cpp:174-180 | the texture lookup iff a texture is bound, else the constant |
| Materials.BumpValue | src/scene/material.cpp:182-188 | the bump perturbation iff a bump map is bound, else the sentinel (2, 2, 2) |
| Materials.Luminance | src/scene/material.cpp:195 | a grey is its own luminance, and the luminance of a colour in [0, 1] is in [0, 1] |
| Materials.IntensityValue | src/scene/material.cpp:190-199 | the luminance of the constant without a texture; in [0, 1] with one |
| TextureLoading.LastIndexOf | src/scene/material.cpp:68 | the last position of the character, or -1 when it does not occur |
| TextureLoading.Extension | src/scene/material.cpp:68-71 | an extension exists exactly when the last dot is before the final character; it is the substring the loader compares |
| TextureLoading.FlipRows | src/scene/material.cpp:78-83 | a fresh buffer whose row j is input row height - 1 - j, byte for byte |
| TextureLoading.CopyRow | src/scene/material.cpp:81-83 | one row copied channel by channel; the rest of the buffer unchanged |
| TextureLoading.LoadTextureMap | src/scene/material.cpp:66-98 | a decoded PNG loads flipped, a BMP as read; any other outcome fails with the loader's message |
| TextureLoading.PngTextureValid | src/scene/material.cpp:66-85 | a PNG of at least one pixel loads into an image the lookup can address |
| Shading.Stylised | src/scene/material.cpp:39-46 | a surface facing the light head on (N.L = 1) shows exactly the warm tone (0.4, 0.4, 0) + 0.6 kd; one facing straight away (N.L = -1) exactly the cool tone (0, 0, 0.4) + 0.2 kd; for any N.L in [-1, 1] each channel lies between the two tones' channels |
| Shading.BlendBetween | src/scene/material.cpp:43-45 | a blend whose weights c and 1 - c lie in [0, 1] lies between its two ends |
| Shading.MixBetween | src/scene/material.cpp:43-45 | the same, channel by channel, for colours |
| Shading.DiffuseCosine | src/scene/material.cpp:49-53 | N.L, or the perturbed normal's cosine when the bump value's first component is not 2 |
| Shading.LightTerm | src/scene/material.cpp:28-61 | the stylised term, or the shadowed Phong term, times the distance attenuation |
| Shading.Shade | src/scene/material.cpp:15-64 | the light loop returns the sum of the light terms plus the emissive and ambient terms |
| Shading.ShadedWithoutLights | src/scene/material.cpp:17-20 | without lights a hit shows ke + ka * ambient |
| Shading.LightSumConcat | src/scene/material.cpp:27-62 | `LightSum` over two concatenated light lists is the sum of the two `LightSum`s |
| Shading.ShadedAddLight | src/scene/material.cpp:27-63 | in `Shaded`, one more light adds exactly its own term; the emissive and ambient terms are added once |
| Shading.LightTermIgnoresLights | src/scene/material.cpp:28-61 | one light's term does not depend on the other lights |
| Shading.LightSumIgnoresLights | src/scene/material.cpp:27-62 | the light sum depends only on the lights it is given |
| Shading.StylisedIgnoresShadows | src/scene/material.cpp:39-46 | the stylised path casts no shadow rays |
| Shading.BumpScaleIrrelevantWithoutBumpMap | src/scene/material.cpp:49-53 | without a bump map the bump scale has no effect |
| Shading.LightBehindAddsNoDiffuse | src/scene/material.cpp:59 | a light behind the surface adds no diffuse term |
| Shading.PhongWithoutDiffuse | src/scene/material.cpp:59 | in `Phong`, with N.L <= 0 the diffuse colour does not matter |
| Sampling.Jitter | src/RayTracer.h:66-81 | the jittered value lies within the magnitude of jitterMax of the base; for a non-negative jitterMax it is at or above the base exactly when the sign draw exceeds one half, unless it equals the base |
| Sampling.UFRand | src/RayTracer.h:83-91 | the rounded draw lies in [0, val] and within one half of u * val |
| Sampling.SwapIndices | src/RayTracer.h:96-100 | one index per draw, each below the range size |
| Sampling.Swap | src/RayTracer.h:107-110 | the two elements are exchanged and the others are kept |
| Sampling.SwapPermutes | src/RayTracer.h:107-110 | a swap keeps the same elements |
| Sampling.ShufflePermutes | src/RayTracer.h:105-114 | the swap walk is a permutation of its input |
| Sampling.Shuffle | src/RayTracer.h:105-114 | the swap walk keeps the length of its input; `ShufflePermutes` states that it is a permutation |
| Sampling.FillRandomIdx | src/RayTracer.h:93-115 | the array becomes the swap walk of its old contents with indices drawn in range, hence a permutation of them |
| Sampling.SwapAt | src/RayTracer.h:107-110 | the three assignments through a temporary exchange two cells |
| Sampling.ZeroMean | src/RayTracer.h:117-123 | the squared deviation is never negative and is zero at the mean |
| Sampling.WindowSpan | src/RayTracer.h:127-136 | a window of k >= 1 cells spans exactly k offsets, the high side one shorter for even k |
| Sampling.RowScanMembers | src/RayTracer.h:142-147 | `RowScan` emits an index exactly when some kept offset of that row yields it |
| Sampling.WindowScanMembers | src/RayTracer.h:141-147 | `WindowScan` emits an index exactly when some kept offset yields it |
| Sampling.CellInBuffer | src/RayTracer.h:143-147 | a kept cell's index lies in [0, w * h) |
| Sampling.NeighboursInBuffer | src/RayTracer.h:141-147 | every emitted index lies in the buffer and, for a centre inside it, is not the centre's |
| Sampling.DistinctCells | src/RayTracer.h:145 | inside the buffer, a cell other than the centre has another index |
| Sampling.LoadNeighbours | src/RayTracer.h:125-147 | the nested loops emit exactly the window scan with bounds -k/2 and k/2 (one less for even k) |
| Sampling.ScanRow | src/RayTracer.h:142-147 | the inner loop emits exactly one row of the scan |
| Sampling.AccumulatorsCarry | src/RayTracer.h:150-158 | `AccumulatePoints` and `AccumulateAngles` do not reset the accumulators: their starting values are carried into the sums |
| Sampling.AccumulateSame | src/RayTracer.h:150-158 | n copies of one descriptor add up to n times it |
| Sampling.LoadAvgVals | src/RayTracer.h:149-160 | both outputs are the accumulated sums, from the caller's starting values, divided by the count |
| Sampling.AverageOfSame | src/RayTracer.h:149-160 | averaging n >= 1 copies of a descriptor into zeroed accumulators gives it back |
| Tracing.TreeQueryShadeable | src/kdtree.h:394-409 | the tree only reports hits of stored objects, so its hits can be shaded |
| Tracing.FindHit | src/RayTracer.cpp:168-181 | the tree is asked first only when the stored acceleration switch is off; the linear query answers on any tree miss |
| Tracing.MirrorParts | src/RayTracer.cpp:200-202 | dirA + dirB, the reflected direction before normalisation, is the mirror image d - 2 (d.N) N |
| Tracing.ReflectDir | src/RayTracer.cpp:200-203 | the reflected direction is the normalised mirror image of the incoming direction |
| Tracing.TotalInternal | src/RayTracer.cpp:270-277 | reported exactly when N.d > 0 and 1 - index^2 (1 - (N.d)^2) < 0 |
| Tracing.TotalInternalNeedsDenserMedium | src/RayTracer.cpp:270-277 | for a cosine of at most 1, total internal reflection needs index^2 > 1 |
| Tracing.ClipKeepsRootDefined | src/RayTracer.cpp:252-255 | after the `temp > 1` reset the refraction's square root is taken of a value in [0, 1] |
| Tracing.RefractDir | src/RayTracer.cpp:244-267 | a refracted direction exists exactly when some kt channel is positive and there is no total internal reflection |
| Tracing.TraceRay | src/RayTracer.cpp:160-242 | a ray that hits nothing shows `Backdrop`, the cube map's colour, else black; a hit below depth 0, or on a surface with kr = 0 and no positive kt, shows its shading alone at any depth |
| Tracing.TraceHit | src/RayTracer.cpp:185-225 | a hit's colour is its shading alone below depth 0 or when the surface neither reflects nor transmits |
| Tracing.Reflected | src/RayTracer.cpp:196-217 | the reflected term vanishes when kr = 0 |
| Tracing.Refracted | src/RayTracer.cpp:205-223 | the refracted term vanishes when no kt channel is positive, because the refraction gate is then closed |
| Tracing.MatteSceneIgnoresDepth | src/RayTracer.cpp:193-224 | where no surface reflects or transmits, the depth does not change the colour |
| Tracing.Trace | src/RayTracer.cpp:37-45 | each channel of the result is in [0, 1], and a colour already in range is returned unchanged |
| Session.Offsets | src/RayTracer.cpp:76-86 | exactly `samples` coordinates |
| Session.SampleList | src/RayTracer.cpp:80-86 | the list holds min + t * resample for t from samples - 1 down to 0 |
| Session.OffsetsWithinPixel | src/RayTracer.cpp:59-61 | with resample = 0.5 / (samples / 2) in integer division and samples >= 2, the grid stays within one unit above min |
| Session.Resample | src/RayTracer.cpp:61 | with at least two samples the grid spacing 0.5 / (samples / 2) lies in (0, 0.5] |
| Session.Jittered | src/RayTracer.cpp:87-92 | each jittered coordinate lies within the resample step of the grid coordinate |
| Session.AxisSamples | src/RayTracer.cpp:76-92 | one coordinate per sample, jittered when asked |
| Session.Supersample | src/RayTracer.cpp:94-104 | the nested loop returns the grid sum divided by samples^2 |
| Session.AddColumn | src/RayTracer.cpp:98-101 | the inner loop adds one column of samples |
| Session.UniformColumn | src/RayTracer.cpp:98-101 | a column of one colour adds up to that colour times its length |
| Session.UniformGrid | src/RayTracer.cpp:96-102 | `GridSum` over a grid of one colour is that colour times its number of points |
| Session.SupersampleUniform | src/RayTracer.cpp:94-104 | supersampling a region of one colour gives that colour back |
| Session.Pairs | src/RayTracer.cpp:107-116 | the sample list has samples^2 points |
| Session.PairsAt | src/RayTracer.cpp:109-116 | point a * n + b pairs the a-th x with the b-th y |
| Session.BuildPairs | src/RayTracer.cpp:107-116 | the nested loop builds exactly that list |
| Session.Intensities | src/RayTracer.cpp:125-126 | one brightness per sample taken |
| Session.TakeSample | src/RayTracer.cpp:124-130 | one sample extends the colour sum, the brightness list and its sum |
| Session.StopTest | src/RayTracer.cpp:121-142 | the loop stops after a sample exactly when it is at least the fourth and the deviation is below the threshold |
| Session.UniformDeviation | src/RayTracer.cpp:131-139 | two or more equal brightnesses have that brightness as their mean and a deviation of 0 |
| Session.EvenRegionStopsAtFourth | src/RayTracer.cpp:121-143 | a region whose samples all have one brightness passes the deviation test the first time it runs, after the fourth sample, for any positive threshold |
| Session.AdaptiveLoop | src/RayTracer.cpp:121-144 | the loop takes at least one sample, stops at the first sample where the test passes and nowhere earlier, and sums the samples taken |
| Session.AdaptiveSample | src/RayTracer.cpp:105-146 | fewer than four samples only when there are no more points; the colour is the mean of the samples used |
| Session.UniformColourSum | src/RayTracer.cpp:124-127 | `ColourSum` over samples of one colour is that colour times their number |
| Session.AdaptiveUniform | src/RayTracer.cpp:145 | adaptive sampling of a region of one colour gives that colour back, whenever it stops |
| Session.AntiAlias | src/RayTracer.cpp:56-146 | one centre trace at sample size <= 1; otherwise the full grid average or an adaptive average of 1 to samples^2 samples |
| Session.ToByte | src/RayTracer.cpp:151-153 | the byte stored is congruent to the value modulo 256, and equal to it for values 0..255 |
| Session.ChannelByte | src/RayTracer.cpp:151-153 | a channel in [0, 1] converts without wrap-around to a byte from 0 (black) to 255 (full) |
| Session.PixelBytesExact | src/RayTracer.cpp:151-153 | `PixelBytes` writes a clamped colour without wrap-around in any channel |
| Session.PixelColour | src/RayTracer.cpp:37-45 | the colour of a pixel is in [0, 1] |
| Session.Painted | src/RayTracer.cpp:149-153 | the three bytes at the offset are replaced by the pixel's and every other byte is kept |
| Session.WritePixel | src/RayTracer.cpp:151-153 | the three stores write the pixel's bytes at the offset |
| Session.LastSeparator | src/RayTracer.cpp:316 | the last '/' or '\\' of the path, or -1 when there is none |
| Session.SceneDirectory | src/RayTracer.cpp:315-319 | "." without a separator; otherwise the prefix before the last separator |
| Session.RayTracer.constructor | src/RayTracer.cpp:279-282 | no scene, no buffer, a 256 by 256 size, not ready, and a tree without a root |
| Session.RayTracer.DescriptorSetup | src/RayTracer.cpp:359-365 | one empty descriptor list per pixel, the cursor at the first; nothing else changes |
| Session.RayTracer.TraceSetup | src/RayTracer.cpp:367-381 | the buffer holds w * h * 3 zero bytes, the size is w by h and the tracer is ready; the buffer is reallocated only when the size changed or none existed |
| Session.RayTracer.GetBuffer | src/RayTracer.cpp:291-296 | returns the buffer and its width and height |
| Session.RayTracer.TracePixel | src/RayTracer.cpp:48-156 | nothing changes without a scene; otherwise exactly the three bytes at (i + j * width) * 3 take the clamped trace of (i / width, j / height), whatever the sampling computed, and the cursor advances |
| Session.RayTracer.LoadScene | src/RayTracer.cpp:303-357 | an unreadable file changes nothing; the buffer, its size, the descriptors, their cursor and the ready flag never change; otherwise the scene is the parse of the file's directory or none on a parse error; with acceleration on, the tree ends built over the new scene's objects, rebuilding once after a refused build |
| Vectors.Vec3.Clamp | src/RayTracer.cpp:43 | each channel ends in [0, 1], and a colour already in range is unchanged |
| Vectors.AxisNormal | src/kdtree.h:259-270 | the plane normal of an axis has 1 on that axis and 0 elsewhere |
| Vectors.LengthNonNegative | src/scene/light.cpp:51-52 | a vector's length is never negative |

## Left out

- User interface, windowing, the render loop and its stop flag: these are event plumbing outside the core.
- The scene parser, the file stream and the PNG and BMP decoders: `LoadScene` takes whether the file opened and the parse as parameters, and `LoadTextureMap` takes the decoder results.
- Camera ray generation, a primitive's own hit test and bounding-box intersection: these are parameters (`Scene.camera`, `Probe.hit`, `Probe.boxHit`), because their code is not part of this model.
- `rand()`: every draw is a parameter in [0, 1] (`Sampling.Fraction`).
- Floating point is modelled as reals:
  - the 0.001f threshold is the real 0.001, and the float accumulator of `std::accumulate` is exact;
  - the single-precision 0.2f and 0.6f of the directional light's shadow falloff (src/scene/light.cpp:28) are the reals 0.2 and 0.6;
  - the transcendental functions and IEEE division are left uninterpreted (`Vectors.Math`), and only `Vectors.Lawful` is assumed of them where a proof needs it;
  - the sphere's texture coordinates (src/SceneObjects/Sphere.cpp:39-41) are computed with the uninterpreted `atan2` and `asin`; nothing is proved about them.
- The surface-area heuristic sweep of `computeH` (src/kdtree.h:190-236) is the parameter `sah`; only its empty-node answer is modelled.
- `updateCordsToKeep` and `Mat3d::inverse` are oracles (`Math.dropAxis`, `Math.solve`); the face normals given to `generateNormals` are a parameter.
- Memory ownership (`new`, `delete`, destructors) is not modelled; trees are values.
- The debug descriptor pushes inside `traceRay` (src/RayTracer.cpp:188-189, 237-238) are not modelled; `tracePixel` only advances the descriptor cursor.
- `aspectRatio`, `sceneLoaded` as a separate query, and cube-map binding are not modelled; the cube map is an `Option` parameter of the tracing functions.
- KdTrees.KdTree.RayTreeTraversal: a tree that was never built answers "no hit", where the source dereferences a null root.
- KdBuild.Node: the object count is a `nat` and `minObjs` is compared as a natural number; the unsigned/signed comparison of the source is not modelled.
- Meshes.Trimesh.AddFace: negative indices are accepted as in the source; the other operations require `FacesValid()`, because reading such a face is undefined behaviour.
- Every hit the shading code sees is taken to have non-negative texture coordinates (`Rays.Shadeable`, demanded through `Tracing.ValidScene`), because the texel lookup of `Materials.Value`, `Materials.BumpValue` and `Materials.IntensityValue` needs them even when no map is bound. This excludes some sphere hits the source shades. `PI` is 3.14159265 (src/SceneObjects/Sphere.cpp:4), slightly below pi, so at the south pole v = 0.5 - asin(1)/PI is about -5.7e-10 (line 40), and near the seam, where atan2 approaches -pi, u is slightly negative too (line 39). The source truncates these tiny negative texel coordinates to 0 in its integer cast; the model does not cover such hits.
- Meshes.Trimesh.constructor: the constructor is declared in src/SceneObjects/trimesh.h, which is not part of this model; the model's mesh starts with empty lists, no vertex normals and no tree, the state the in-order appends of src/SceneObjects/trimesh.cpp:17-31 build on.
- The PNG channel count and row length are trusted as decoded (`TextureLoading.DecodedPng`). The texture coordinates of mesh hits are not modelled.
- Session.RayTracer.TraceSetup: requires non-negative width and height; the source would allocate with a negative size.
- Session.RayTracer.TracePixel: requires the pixel to lie inside the buffer; the source writes out of bounds otherwise.
- Session.RayTracer.TracePixel: requires a set-up buffer; the source dereferences an uninitialised descriptor iterator and buffer otherwise.
- Sampling.ZeroMean: states that the square is never negative and is zero at the mean; it does not state that it is strictly positive away from the mean.
- Session.AntiAlias: states the adaptive path's sample count only; the adaptive colour itself is described by `Session.AdaptiveSample`, whose points here are the shuffled grid.
