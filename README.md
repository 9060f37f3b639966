# Carna core in Dafny

Carna is a C++/OpenGL engine for rendering medical volume data: CT volumes in Hounsfield units (HU), split into GPU-sized segments and drawn through a scene graph and a pipeline of render stages. This project models the integer, map and sequence logic at the heart of the engine, and proves what that logic promises.

**Volumes.**
- The segmented volume grids: `VolumeGrid`, including its redundant border texels, and `HUVolumeGrid`.
- The grid helper. It sizes the segments, pads voxels that lie outside the native resolution, computes the boundary normals, caches one texture per segment, and creates one geometry node per segment.
- The buffered voxel volumes: row-major indexing, the HU ↔ buffer-value shift encoding, and the intensity ↔ buffer-value quantisation.

**Render pipeline.**
- The render queue and its comparators.
- The geometry stages, which acquire and release the video resources of geometry features.
- The role ↔ feature bijection of a geometry.
- Scene-graph ownership and pre-order traversal.
- The frame renderer's stage loop.
- The acquisition-counted resources: managed meshes, video resource managers, and the scene provider's textures.

**Smaller pieces.**
- Histograms and the histogram class detector.
- Colour-coded picking.
- The viewport stack and the render-state stack.
- The DICOM manager: the patient/study/series tree, the saved XML index, and the SAX parser that reads it back.
- The visualization's callback queue and controller-filter chain.
- The volume renderer's mode registry and settings.
- The MIP channel list.
- The scene's windowing settings and object registry.
- The index buffers of the predefined meshes.

**How the source's constructs become Dafny.**
- One Dafny module per source file. The near-identical Carna and LibCarna copies of a file share one module, and its rows cite both.
- Objects the source updates in place become classes whose methods state their whole new state. Expressions become functions, and loops become methods with invariants.
- `CARNA_ASSERT` becomes a precondition.
- Pointers become numeric ids, and `std::set`/`std::map` iteration becomes ascending order: numbers by value, and the patient names of the DICOM index by std::string's character-by-character order (`DicomIndex.NameBefore`).
- OpenGL calls, files, XML text and floating-point geometry become parameters or recorded events.

## Model

| member | source | states |
|---|---|---|
| GridMath.RowMajor | include/Carna/base/VolumeGrid.h:232-238 | the row-major segment index x + y·cx + z·cx·cy of a segment inside the grid lies below the segment count |
| GridMath.FromRowMajor | include/Carna/base/VolumeGrid.h:232-238 | every index below the segment count is the row-major index of a segment inside the grid |
| GridMath.RowMajorBijective | include/Carna/base/VolumeGrid.h:232-238 | the row-major index is a bijection between the segments of the grid and [0, cx·cy·cz) |
| GridMath.RowMajorInjective | include/Carna/base/VolumeGrid.h:232-238 | two segments share an index only if they are the same segment |
| GridMath.DivModUnique | include/Carna/base/VolumeGrid.h:287-300 | quotient and remainder of a division are unique, the basis of the segment/local split |
| GridMath.SegmentOf | include/Carna/base/VolumeGrid.h:287-300 | the segment of a coordinate is c / max: segment·max ≤ c < segment·max + max on every axis |
| GridMath.LocalOf | include/Carna/base/VolumeGrid.h:287-300 | the local coordinate c % max lies below the maximum segment size |
| GridMath.SplitRoundTrip | include/Carna/base/VolumeGrid.h:287-300 | segment·max + local == c, and a segment with a local coordinate below max splits back into the same pair |
| VolumeGrids.AxisHitIff | include/Carna/base/VolumeGrid.h:314-372 | on one axis a texel holds coordinate g exactly when segment·max + local == g (the primary texel or the redundant layer max of the predecessor) |
| VolumeGrids.AxisTexelInRange | include/Carna/base/VolumeGrid.h:314-372 | every texel of a segment, redundant layer included, holds a coordinate inside the resolution |
| VolumeGrids.AxisPrimary | include/Carna/base/VolumeGrid.h:287-300 | the primary texel c / max, c % max of a coordinate inside the resolution exists |
| VolumeGrids.HitIff | include/Carna/base/VolumeGrid.h:314-372 | in 3D a texel holds c exactly when its segment offset plus local coordinate is c |
| VolumeGrids.ResolutionReadable | include/Carna/base/VolumeGrid.h:287-300 | every coordinate inside the resolution can be read by getVoxel |
| VolumeGrids.GetVoxelHoldsTexel | include/Carna/base/VolumeGrid.h:287-300 | getVoxel reads a texel that holds the requested coordinate |
| VolumeGrids.Put | include/Carna/base/VolumeGrid.h:314-330 | one voxel write changes exactly one texel of one segment and keeps every segment's size |
| VolumeGrids.WriteVoxel | include/Carna/base/VolumeGrid.h:314-372 | setVoxel writes v into exactly the texels that hold c: the primary one and the redundant ones of the up to seven predecessors |
| VolumeGrids.WriteRedundantLayers | include/Carna/base/VolumeGrid.h:331-371 | the seven conditional writes into the predecessors' redundant layers reach exactly the target texels |
| VolumeGrids.TargetsAreHits | include/Carna/base/VolumeGrid.h:331-371 | the texels setVoxel writes are exactly the texels that hold c |
| VolumeGrids.PredecessorFits | include/Carna/base/VolumeGrid.h:331-371 | the redundant texel max of a predecessor segment exists in the grid and inside that segment's size |
| VolumeGrids.UniformConsistent | include/Carna/base/VolumeGrid.h:203-221 | freshly created segment volumes holding one value everywhere agree on every redundant texel |
| VolumeGrids.WritePreservesConsistency | include/Carna/base/VolumeGrid.h:314-372 | after setVoxel every redundant texel still equals its primary voxel, c reads v and every other coordinate reads as before |
| VolumeGrids.SegmentOffsets | include/Carna/base/VolumeGrid.h:203-221 | the constructor's z, y, x loop gives the segment at index i the offset FromRowMajor(i)·max |
| VolumeGrids.RowMajorCarry | include/Carna/base/VolumeGrid.h:203-221 | stepping past a row or plane of the loop reaches the next row or plane; past the last plane lies the segment count |
| VolumeGrids.VolumeGrid.constructor | include/Carna/base/VolumeGrid.h:203-221 | asserts positive maximum size and counts, creates one empty segment per segment coordinate |
| VolumeGrids.VolumeGrid.SegmentIndex | include/Carna/base/VolumeGrid.h:232-238 | segmentIndex names the segment whose offset is s·max and whose coordinate is s |
| VolumeGrids.VolumeGrid.SetSegmentIntensities | include/Carna/base/VolumeSegment.h:243-246 | replaces the intensity volume of one segment only |
| VolumeGrids.VolumeGrid.SetSegmentNormals | include/Carna/base/VolumeSegment.h:92-95 | replaces the normals volume of one segment only |
| VolumeGrids.VolumeGrid.Intensity | include/Carna/base/VolumeGrid.h:287-300 | getVoxel with the intensity selector reads a texel holding c |
| VolumeGrids.VolumeGrid.Normal | include/Carna/base/VolumeGrid.h:287-300 | getVoxel with the normals selector reads a texel holding c |
| VolumeGrids.VolumeGrid.SetIntensity | include/Carna/base/VolumeGrid.h:314-372 | setVoxel with the intensity selector writes every texel holding c and nothing else |
| VolumeGrids.VolumeGrid.SetNormal | include/Carna/base/VolumeGrid.h:314-372 | setVoxel with the normals selector writes every texel holding c and nothing else |
| HUVolumeGrids.PrimaryWriteRead | include/Carna/base/HUVolumeGrid.h:157-169 | a write at the primary texel of c makes c read the new value and leaves every other coordinate unchanged |
| HUVolumeGrids.HUVolumeGrid.constructor | include/Carna/base/HUVolumeGrid.h:80-96 | asserts positive maximum size and counts and creates the segments with offset index·max |
| HUVolumeGrids.HUVolumeGrid.SegmentIndex | include/Carna/base/HUVolumeGrid.h:107-110 | segmentIndex is the row-major position of segment s, whose offset is s·max |
| HUVolumeGrids.HUVolumeGrid.SetSegmentVolume | include/Carna/base/VolumeSegment.h:243-246 | replaces the volume of one segment only |
| HUVolumeGrids.HUVolumeGrid.HU | include/Carna/base/HUVolumeGrid.h:134-146 | operator() reads the texel at c % max of segment c / max, which holds c |
| HUVolumeGrids.HUVolumeGrid.SetVoxel | include/Carna/base/HUVolumeGrid.h:157-169 | setVoxel makes c read huv and every other coordinate read as before (no redundant writes) |
| VolumeGridHelpers.Partitioning.TotalSize | include/LibCarna/helpers/VolumeGridHelper.h:385 | the resolution along an axis exceeds the regular size times all but one partition and is at most the regular size times the partition count |
| VolumeGridHelpers.ReleaseAll | include/Carna/helpers/VolumeGridHelperDetails.h:169-177 | the release loop releases exactly the textures held by the cache |
| VolumeGridHelpers.TextureManager.constructor | include/Carna/helpers/VolumeGridHelperDetails.h:117-158 | a texture manager starts with an empty cache |
| VolumeGridHelpers.TextureManager.GetTexture | include/Carna/helpers/VolumeGridHelperDetails.h:194-214 | a cached segment gets its texture back with the cache unchanged; an uncached one gets a texture new to the cache, which is cached from then on |
| VolumeGridHelpers.TextureManager.ReleaseGeometryFeatures | include/Carna/helpers/VolumeGridHelperDetails.h:169-177 | releases every cached texture and leaves the cache empty |
| VolumeGridHelpers.FaceNormal | include/Carna/helpers/VolumeGridHelperDetails.h:379-380 | the normal of a boundary face is the unit vector along dim0 signed with the face's sign |
| VolumeGridHelpers.FaceBox | include/Carna/helpers/VolumeGridHelperDetails.h:384-391 | the voxels the face loops visit are exactly the voxels on that face |
| VolumeGridHelpers.NegatedGradient | include/Carna/helpers/VolumeGridHelperDetails.h:404-416 | each component is half the intensity before minus the intensity after the voxel on that axis |
| VolumeGridHelpers.Normalized | include/Carna/helpers/VolumeGridHelperDetails.h:417-425 | a vanishing gradient gives the zero vector; any other gives what `normalize` returns, which, for a normalisation, is a unit vector in the gradient's direction, so the result is zero exactly when the gradient is |
| VolumeGridHelpers.BoundaryNormal | include/Carna/helpers/VolumeGridHelperDetails.h:370-396 | every voxel that is not inner lies on some face and receives that face's outward unit normal |
| VolumeGridHelpers.FaceStep | include/Carna/helpers/VolumeGridHelperDetails.h:373-396 | writing the normal to the whole box of face k completes faces 0..k |
| VolumeGridHelpers.BoundaryAfterFaces | include/Carna/helpers/VolumeGridHelperDetails.h:373-396 | after the six faces a boundary voxel holds the normal of the last face containing it |
| VolumeGridHelpers.FacesThenInner | include/Carna/helpers/VolumeGridHelperDetails.h:358-436 | after the faces and the inner box every voxel of the resolution holds the normal computeNormals defines for it |
| VolumeGridHelpers.FillDone | include/LibCarna/helpers/VolumeGridHelper.h:421-431 | after the z, y, x loops over a box every voxel of the box reads the written value and every other voxel reads as before |
| VolumeGridHelpers.SegmentSizeOf | include/LibCarna/helpers/VolumeGridHelper.h:396-401 | a segment has tailSize texels along an axis where it is the last segment and regularPartitionSize + 1 (the redundant layer) elsewhere |
| VolumeGridHelpers.Features | include/Carna/helpers/VolumeGridHelperDetails.h:181-190 | a segment geometry carries the intensity texture under its role and, with normals, the normals texture under its role, the later one winning a shared role |
| VolumeGridHelpers.VolumeGridHelper.constructor | include/LibCarna/helpers/VolumeGridHelper.h:376-406 | the grid has one segment per partition along each axis, the resolution is the partitionings' total sizes and every segment is zero-filled at its size |
| VolumeGridHelpers.VolumeGridHelper.InitializeSegments | include/LibCarna/helpers/VolumeGridHelper.h:393-405 | the constructor's loop gives every segment zero-filled intensity (and normals) volumes of the size its position calls for |
| VolumeGridHelpers.VolumeGridHelper.InitializeSegment | include/Carna/helpers/VolumeGridHelperDetails.h:283-289 | initializeSegment of both components sizes segment k and leaves the earlier segments as they were |
| VolumeGridHelpers.VolumeGridHelper.WriteIntensity | include/LibCarna/helpers/VolumeGridHelper.h:430 | a voxel write makes c read v and keeps every other voxel and the redundant-texel consistency |
| VolumeGridHelpers.VolumeGridHelper.FillIntensities | include/LibCarna/helpers/VolumeGridHelper.h:422-431 | writing f over a box leaves every voxel of the box reading f and every other voxel as before |
| VolumeGridHelpers.VolumeGridHelper.WriteNormal | include/Carna/helpers/VolumeGridHelperDetails.h:393 | a normals write makes c read v and keeps every other voxel |
| VolumeGridHelpers.VolumeGridHelper.FillNormals | include/Carna/helpers/VolumeGridHelperDetails.h:390-394 | writing f over a box of the normals leaves every voxel of the box reading f and every other voxel as before |
| VolumeGridHelpers.VolumeGridHelper.WriteFace | include/Carna/helpers/VolumeGridHelperDetails.h:379-394 | one face pass writes the face's normal over the whole face |
| VolumeGridHelpers.VolumeGridHelper.WriteFaces | include/Carna/helpers/VolumeGridHelperDetails.h:373-396 | the face loops write the six faces in the order x-, x+, y-, y+, z-, z+ |
| VolumeGridHelpers.VolumeGridHelper.WriteInnerNormals | include/Carna/helpers/VolumeGridHelperDetails.h:398-427 | every inner voxel receives the normalised negated central-difference gradient, or zero where the gradient vanishes |
| VolumeGridHelpers.VolumeGridHelper.ComputeNormals | include/Carna/helpers/VolumeGridHelperDetails.h:358-436 | with a normals component every voxel holds the normal computeNormals defines; without one nothing changes; intensities are untouched |
| VolumeGridHelpers.VolumeGridHelper.ReleaseGeometryFeatures | include/LibCarna/helpers/VolumeGridHelper.h:410-414 | both texture caches are released and emptied; the normals one only when there is a normals component |
| VolumeGridHelpers.VolumeGridHelper.LoadIntensities | include/LibCarna/helpers/VolumeGridHelper.h:418-432 | releases the textures, then every voxel of the resolution holds the value written from the data source inside the native resolution and 0 outside it, and the normals are recomputed |
| VolumeGridHelpers.VolumeGridHelper.SetIntensitiesRole | include/Carna/helpers/VolumeGridHelperDetails.h:259-262 | changes the intensity role only |
| VolumeGridHelpers.VolumeGridHelper.SetNormalsRole | include/Carna/helpers/VolumeGridHelperDetails.h:344-347 | changes the normals role only |
| VolumeGridHelpers.VolumeGridHelper.IntensityTexture | include/Carna/helpers/VolumeGridHelperDetails.h:181-190 | the texture attached for a segment is the one cached for it, and the cache only grows |
| VolumeGridHelpers.VolumeGridHelper.NormalsTexture | include/Carna/helpers/VolumeGridHelperDetails.h:448-454 | the normals texture attached for a segment is the one cached for it, and the cache only grows |
| VolumeGridHelpers.VolumeGridHelper.SegmentGeometry | include/LibCarna/helpers/VolumeGridHelper.h:494-502 | the geometry of segment i is non-movable, has the unit bounding box and carries the textures cached for segment i |
| VolumeGridHelpers.VolumeGridHelper.SegmentGeometries | include/LibCarna/helpers/VolumeGridHelper.h:477-510 | the loop creates one geometry per segment in row-major order |
| VolumeGridHelpers.VolumeGridHelper.CreateNode | include/LibCarna/helpers/VolumeGridHelper.h:444-521 | a non-movable pivot with one geometry per segment, child i carrying segment i's cached textures; textures cached before stay cached |
| VolumeGridHelpers.ChildrenCarryGrow | include/LibCarna/helpers/VolumeGridHelper.h:477-510 | geometries built earlier in the loop keep carrying their textures as the caches grow |
| BufferedVolumes.VoxelIndex | include/LibCarna/base/BufferedHUVolume.h:113 | the buffer index x + width·y + height·width·z is the row-major index of the voxel and lies inside a buffer of width·height·depth voxels |
| BufferedVolumes.HUVToBufferValue | include/LibCarna/base/BufferedHUVolume.h:101-104 | the encoded value fits the voxel type and its low bits - 12 bits are clear (the cast and shift wrap around) |
| BufferedVolumes.BufferValueToHUV | include/Carna/base/BufferedHUVolume.h:93-96 | decoding a voxel value gives an HU value in [-1024, 3071] |
| BufferedVolumes.DecodeEncode | include/Carna/base/model/GenericVolume.h:105-118 | decoding undoes encoding for every HU value in [-1024, 3071] |
| BufferedVolumes.EncodeDecode | include/Carna/base/model/GenericVolume.h:105-118 | encoding undoes decoding exactly for the voxel values whose low bits are clear |
| BufferedVolumes.EncodeSixteenBit | include/LibCarna/base/BufferedHUVolume.h:93-104 | in a 16-bit voxel 1024 HU is stored as 2048 shifted left by 4 and decodes back |
| BufferedVolumes.ValueMax | include/LibCarna/base/BufferedIntensityVolume.hpp:104 | the largest voxel value is 2^bits - 1 |
| BufferedVolumes.IntensityToBufferValue | include/LibCarna/base/BufferedIntensityVolume.hpp:101-108 | the quantised value never exceeds the largest voxel value |
| BufferedVolumes.BufferValueToIntensity | include/LibCarna/base/BufferedIntensityVolume.hpp:93-96 | a voxel value decodes to an intensity in [0, 1] |
| BufferedVolumes.EncodeDecodeIntensity | include/LibCarna/base/BufferedIntensityVolume.hpp:93-108 | every voxel value survives the trip through its intensity |
| BufferedVolumes.DecodeEncodeIntensity | include/LibCarna/base/BufferedIntensityVolume.hpp:93-108 | an intensity in [0, 1] comes back within half a quantisation step |
| BufferedVolumes.RoundingError | include/LibCarna/base/BufferedIntensityVolume.hpp:105-107 | adding one half, truncating and clamping moves a value by at most one half |
| BufferedVolumes.BufferedHUVolume.constructor | include/LibCarna/base/BufferedHUVolume.h:83-88 | allocates a zeroed buffer of exactly width·height·depth voxels |
| BufferedVolumes.BufferedHUVolume.FromBuffer | include/LibCarna/base/BufferedHUVolume.h:74-79 | adopts a supplied buffer, which must hold at least width·height·depth voxels (the initializeBuffer assertion, lines 176-189) |
| BufferedVolumes.BufferedHUVolume.HUV | include/LibCarna/base/BufferedHUVolume.h:109-115 | operator() returns an HU value in [-1024, 3071] |
| BufferedVolumes.BufferedHUVolume.SetVoxel | include/LibCarna/base/BufferedHUVolume.h:128-133 | stores the encoded value at the voxel's index only: the voxel reads the value back and every other voxel reads as before |
| BufferedVolumes.BufferedHUVolume.SetVoxelAtIndex | include/Carna/base/model/GenericVolume.h:140-143 | the same store without the bounds assertion, for a voxel whose index lies in the buffer |
| BufferedVolumes.BufferedIntensityVolume.constructor | include/LibCarna/base/BufferedIntensityVolume.hpp:83-88 | allocates a zeroed buffer of exactly width·height·depth voxels |
| BufferedVolumes.BufferedIntensityVolume.Intensity | include/LibCarna/base/BufferedIntensityVolume.hpp:113-119 | operator() returns an intensity in [0, 1] |
| BufferedVolumes.BufferedIntensityVolume.SetVoxel | include/LibCarna/base/BufferedIntensityVolume.hpp:131-136 | the voxel reads the decoded quantisation of the intensity and every other voxel reads as before |
| Geometries.InverseSameSize | src/base/Geometry.cpp:34-35 | the role-to-feature and feature-to-role maps, being inverse, have the same size |
| Geometries.Removals | src/base/Geometry.cpp:52-56 | one removeFrom notification per feature, in the given order |
| Geometries.ClearOrder | src/base/Geometry.cpp:44-49 | the features collected for clearing are those of the map in ascending role order, one per role |
| Geometries.ClearOrderComplete | src/base/Geometry.cpp:44-49 | clearing tells every feature of the map and no other |
| Geometries.Geometry.constructor | src/base/Geometry.cpp:66-69 | a new geometry of the given type has no features |
| Geometries.Geometry.HasFeature | src/base/Geometry.cpp:152-155 | hasFeature(gf) holds exactly when gf occupies some role |
| Geometries.Geometry.HasRole | src/base/Geometry.cpp:158-161 | hasFeature(role) holds exactly when some feature occupies the role |
| Geometries.Geometry.Feature | src/base/Geometry.cpp:164-169 | feature(role) asserts the role is occupied and returns the feature occupying it |
| Geometries.Geometry.FeaturesCount | src/base/Geometry.cpp:172-175 | the count is the number of occupied roles, which is also the number of features |
| Geometries.Geometry.VisitFeatures | src/base/Geometry.cpp:88-94 | visits every (feature, role) pair exactly once, in strictly ascending role order |
| Geometries.Geometry.RemoveFeature | src/base/Geometry.cpp:124-135 | a feature holding a role loses it in both maps and is told; otherwise nothing changes |
| Geometries.Geometry.RemoveRole | src/base/Geometry.cpp:138-149 | an occupied role is vacated in both maps and its feature is told; otherwise nothing changes |
| Geometries.Geometry.PutFeature | src/base/Geometry.cpp:97-121 | gf takes role, displacing another feature of the role and another role of gf; the maps stay inverse and gf is told it was added exactly when the pair was new |
| Geometries.Geometry.Evict | src/base/Geometry.cpp:99-112 | the two conditional removals of putFeature, in source order |
| Geometries.Geometry.Assign | src/base/Geometry.cpp:113-119 | the two insertions; the map grows exactly when the role was free |
| Geometries.Geometry.ClearFeatures | src/base/Geometry.cpp:78-85 | empties both maps and tells every former feature once, in ascending role order; without features nothing happens |
| Geometries.Geometry.ClearAndNotify | src/base/Geometry.cpp:42-57 | the maps are cleared before any feature is told, and every former feature is told once |
| Geometries.Geometry.NotifyRemoved | src/base/Geometry.cpp:52-56 | tells the collected features in order and changes no map |
| Geometries.PutSteps | src/base/Geometry.cpp:97-121 | the two removals followed by the two insertions give the put maps, and the addTo notification fires exactly when the pair was not present |
| Geometries.PutKeepsInverse | src/base/Geometry.cpp:97-121 | putFeature keeps the two maps inverse and holds the new pair in both |
| Geometries.PutPresentPair | src/base/Geometry.cpp:97-121 | putting a present pair changes nothing and tells nobody |
| OrderedSets.Minimum | src/base/Geometry.cpp:46 | the first key an ordered container visits is the smallest one |
| OrderedSets.Ascending | src/base/Geometry.cpp:46-49 | an ordered container visits each of its keys once, in strictly ascending order |
| OrderedSets.AscendingUnique | src/base/Geometry.cpp:46-49 | the visiting order of an ordered container is determined by its keys alone |
| Renderables.Group | include/LibCarna/base/Renderable.h:173-185 | features that share a video resource fall into one (even) group, every other feature into its own (odd) group |
| Renderables.LessIsKeyOrder | include/LibCarna/base/Renderable.h:166-169 | every corrected comparator is the strict order of a key, hence a strict weak order as std::sort needs |
| Renderables.DepthOrderStrictWeak | include/LibCarna/base/Renderable.h:166-169 | the depth comparator is irreflexive and transitive, and incomparability is transitive |
| Renderables.DepthDirections | include/LibCarna/base/Renderable.h:132-138 | BackToFront puts the more distant renderable first and FrontToBack the nearer one |
| Renderables.SameResourceUnordered | include/LibCarna/base/Renderable.h:177-180 | renderables whose features control the same video resource are never ordered either way |
| Renderables.UnsharedIsAddressOrder | include/LibCarna/base/Renderable.h:181-184 | without a shared resource the video-resources comparator is the address order |
| Renderables.VideoResourcesOrderNotTransitive | include/LibCarna/base/Renderable.h:173-185 | the comparator as written is not a strict weak order: a < b and b < c while a and c are unordered |
| Renderables.GroupOrderStrictWeak | include/LibCarna/base/Renderable.h:173-185 | the corrected order is irreflexive and transitive, and two renderables are unordered exactly when they share a group |
| Renderables.SortedNoInversion | include/LibCarna/base/RenderQueue.h:170-172 | a key-sorted queue has no pair the comparator would put the other way round |
| Renderables.Insert | include/LibCarna/base/RenderQueue.h:170-172 | inserting into a sorted queue keeps it sorted and adds exactly the new element |
| Renderables.Sort | include/LibCarna/base/RenderQueue.h:170-172 | the sort returns a permutation of its input that is sorted by the order |
| Renderables.GroupsContiguous | include/LibCarna/base/Renderable.h:140-160 | in a queue sorted by the corrected order the renderables sharing a video resource are adjacent |
| RenderQueues.ExactMatch | include/LibCarna/base/RenderQueue.h:153-154 | with the exact-match mask (all bits set) a geometry matches exactly when its type equals the queue's type |
| RenderQueues.RenderableOf | include/LibCarna/base/RenderQueue.h:199-200 | a renderable refers to its geometry, carries its features and the eye distance of the current view |
| RenderQueues.EnqueuedExactly | include/LibCarna/base/RenderQueue.h:193-203 | build enqueues a renderable exactly for each visited geometry whose masked type equals the queue's type |
| RenderQueues.EnqueuedCount | include/LibCarna/base/RenderQueue.h:193-203 | when no visited node matches, the queue stays empty |
| RenderQueues.Arranged | include/LibCarna/base/RenderQueue.h:165-183 | one possible result of the sort: a permutation of the queue, sorted for an order with at least two renderables and left alone otherwise |
| RenderQueues.Updated | include/LibCarna/base/RenderQueue.h:216-229 | one possible result of the update: the renderables get the new view's eye distances and are re-sorted only for a view-dependent order |
| RenderQueues.Collect | include/LibCarna/base/RenderQueue.h:193-203 | the visit collects the matching geometries' renderables in visiting order |
| RenderQueues.RenderQueue.constructor | include/LibCarna/base/RenderQueue.h:157-161 | a new queue of the given type and mask is empty |
| RenderQueues.RenderQueue.Build | include/LibCarna/base/RenderQueue.h:187-206 | build rewinds and holds a permutation of the matching geometries' renderables, sorted by the queue's order when there are at least two and one is set; equal keys may come in any order, as std::sort is not stable; for a video-resources queue the order is the corrected grouping `Renderables.GroupOrder`, since the comparator the source passes to std::sort is not a strict weak order |
| RenderQueues.RenderQueue.Rewind | include/LibCarna/base/RenderQueue.h:209-213 | rewind only moves the cursor to the front |
| RenderQueues.RenderQueue.UpdateModelViewTransforms | include/LibCarna/base/RenderQueue.h:216-229 | every renderable gets the new view's eye distance, the queue is then a sorted permutation of them for a view-dependent order and keeps its order otherwise, and the cursor stays put; for a video-resources queue the order is the corrected grouping `Renderables.GroupOrder` |
| RenderQueues.RenderQueue.IsEmpty | include/LibCarna/base/RenderQueue.h:232-236 | the queue is empty exactly when the cursor has reached the end |
| RenderQueues.RenderQueue.Poll | include/LibCarna/base/RenderQueue.h:239-244 | poll asserts a next element, returns it and moves the cursor one step |
| RenderQueues.RenderQueue.First | include/LibCarna/base/RenderQueue.h:247-252 | first as written returns the front element whatever the cursor |
| RenderQueues.RenderQueue.Peek | include/LibCarna/base/RenderQueue.h:133-140 | the documented first: the element poll returns next, without moving |
| RenderQueues.RenderQueue.Last | include/LibCarna/base/RenderQueue.h:255-260 | last returns the back element and does not move the cursor |
| RenderQueues.RenderQueue.PollAll | include/LibCarna/base/RenderQueue.h:232-244 | polling until empty returns the remaining renderables in queue order |
| RenderQueues.FirstAfterPoll | include/LibCarna/base/RenderQueue.h:247-252 | after one poll of a two-element queue first returns the polled element, not the next one |
| RenderQueues.RewindReplays | include/LibCarna/base/RenderQueue.h:209-213 | the polls after a rewind repeat the whole queue |
| GeometryStages.FeaturesOf | include/LibCarna/base/GeometryStage.h:250-264 | visitFeatures yields one feature per role of the renderable's geometry |
| GeometryStages.FeaturesOfExactly | include/LibCarna/base/GeometryStage.h:250-264 | the visited features are exactly those the geometry holds under some role |
| GeometryStages.GeometriesOf | include/LibCarna/base/GeometryStage.h:243-267 | render is called once per polled renderable, in polling order |
| GeometryStages.FirstUsesAppend | include/LibCarna/base/GeometryStage.h:256-262 | acquiring along a + b is acquiring along a and then along b |
| GeometryStages.FirstUsesFresh | include/LibCarna/base/GeometryStage.h:256-262 | each used feature without a resource is acquired exactly once, and no feature that had one is acquired again |
| GeometryStages.HandlesOf | include/LibCarna/base/GeometryStage.h:273-279 | the handles of the given features, in their order |
| GeometryStages.Restrict | include/LibCarna/base/GeometryStage.h:270-286 | after the release loop the map holds exactly the used entries, with their handles |
| GeometryStages.AcquireKeeps | include/LibCarna/base/GeometryStage.h:258-261 | a new acquisition keeps every handle either held or deleted, never both |
| GeometryStages.DeleteKeeps | include/LibCarna/base/GeometryStage.h:275-279 | deleting a held resource and erasing its entry keeps every handle accounted for |
| GeometryStages.ErasingWithoutDeletingLeaks | include/Carna/base/GeometryStage.h:214-220 | erasing an unused entry without deleting its resource loses the resource |
| GeometryStages.AllDeleted | include/LibCarna/base/GeometryStage.h:163-175 | once the map is empty every acquired resource has been deleted |
| GeometryStages.AcquireFeatures | include/LibCarna/base/GeometryStage.h:250-264 | the acquisition loop acquires for each visited feature that has no resource, in order, and keeps the handles sound |
| GeometryStages.ReleaseUnused | include/LibCarna/base/GeometryStage.h:266-287 | the release loop deletes the resources of the unused features in ascending order and keeps exactly the used entries |
| GeometryStages.EraseUnused | include/Carna/base/GeometryStage.h:210-225 | Carna's loop keeps exactly the used entries but deletes nothing |
| GeometryStages.DeleteAll | include/Carna/base/GeometryStage.h:120-129 | the destructor deletes the resource of every entry, in ascending feature order |
| GeometryStages.LeakedNeverDeleted | include/Carna/base/GeometryStage.h:120-129 | a resource whose entry was erased without deletion is not deleted by the destructor either |
| GeometryStages.PollQueue | include/LibCarna/base/GeometryStage.h:242-265 | polls the queue empty, renders every renderable and, on the first pass, marks and acquires the features |
| GeometryStages.FirstPassComposes | include/LibCarna/base/GeometryStage.h:242-287 | acquisition followed by the release loop is the first-pass resource effect |
| GeometryStages.LegacyFirstPassComposes | include/Carna/base/GeometryStage.h:189-225 | acquisition followed by Carna's erase loop is that stage's first-pass effect |
| GeometryStages.LegacyFirstPassLeaks | include/Carna/base/GeometryStage.h:210-225 | Carna's first pass loses the resource of every previously acquired, unused feature: neither held nor deleted |
| GeometryStages.GeometryStage.constructor | include/LibCarna/base/GeometryStage.h:151-159 | a new stage has no root, no passes and no resources |
| GeometryStages.GeometryStage.PrepareFrame | include/LibCarna/base/GeometryStage.h:188-194 | remembers the root and resets the pass count |
| GeometryStages.GeometryStage.RenderedPassesCount | include/LibCarna/base/GeometryStage.h:197-201 | reports the pass counter |
| GeometryStages.GeometryStage.VideoResource | include/LibCarna/base/GeometryStage.h:292-300 | asserts an entry and returns a live resource acquired for that very feature |
| GeometryStages.GeometryStage.RenderPassAsWritten | include/LibCarna/base/GeometryStage.h:225-288 | the pass as written: the first pass builds and manages resources, later ones rewind (and update when the view is fixed); the counter is never incremented |
| GeometryStages.GeometryStage.Pass | include/LibCarna/base/GeometryStage.h:228-287 | the pass without its counter: a first pass builds the queue, acquires the used features' resources and releases the unused ones; a later pass rewinds, updates the queue exactly when asked, and leaves the resources alone |
| GeometryStages.GeometryStage.RenderPass | include/LibCarna/base/GeometryStage.h:225-288 | the corrected pass: counted, and a later pass updates the queue to the new view when the view transform is not fixed and only rewinds it when it is |
| GeometryStages.GeometryStage.Dispose | include/LibCarna/base/GeometryStage.h:162-175 | the destructor deletes every held resource, so every acquisition ends deleted |
| GeometryStages.PassesNeverCounted | include/LibCarna/base/GeometryStage.h:225-288 | after two passes renderedPassesCount is 0 as written and 2 when corrected |
| GeometryStages.StaleEyeDistance | include/LibCarna/base/GeometryStage.h:237-241 | with counted passes, the inverted test leaves a geometry at the previous pass's eye distance where the corrected pass gives the new one |
| GeometryStages.LegacyGeometryStage.constructor | include/Carna/base/GeometryStage.h:109-116 | a new stage has no root, no passes, no context and no resources |
| GeometryStages.LegacyGeometryStage.PrepareFrame | include/Carna/base/GeometryStage.h:142-148 | remembers the root and resets the pass count |
| GeometryStages.LegacyGeometryStage.Reshape | include/Carna/base/GeometryStage.h:230-234 | remembers the frame renderer's context |
| GeometryStages.LegacyGeometryStage.IsInitialized | include/Carna/base/GeometryStage.h:237-241 | initialized exactly when a context is known |
| GeometryStages.LegacyGeometryStage.RenderedPassesCount | include/Carna/base/GeometryStage.h:151-155 | reports the pass counter |
| GeometryStages.LegacyGeometryStage.VideoResource | include/Carna/base/GeometryStage.h:244-252 | asserts an entry and returns the resource acquired for that feature |
| GeometryStages.LegacyGeometryStage.RenderPass | include/Carna/base/GeometryStage.h:172-226 | counts the pass, rebuilds on the first pass or when the view is not fixed and rewinds otherwise; the first pass acquires and erases the unused entries |
| GeometryStages.LegacyGeometryStage.Dispose | include/Carna/base/GeometryStage.h:119-129 | deletes the resources of the entries still in the map, in ascending order |
| Nodes.VisitFlat | src/base/Node.cpp:146-158 | the non-recursive visit lists exactly the children of the node, in the order of the child set |
| Nodes.VisitPreOrder | src/base/Node.cpp:146-158 | the recursive visit is a pre-order: every visited spatial is a child of the node or of a spatial visited before it |
| Nodes.NotOwnDescendant | src/base/Node.cpp:146-158 | in a tree of finite depth a node is never visited below itself |
| Nodes.VisitComplete | src/base/Node.cpp:146-158 | with enough depth the recursive visit reaches every child of the node and every child of every visited node |
| Nodes.VisitAttached | src/base/Node.cpp:146-158 | every visited spatial has a parent and is alive |
| Nodes.VisitedParent | src/base/Node.cpp:146-158 | the parent of a visited spatial is the node itself or a spatial visited before |
| Nodes.DeleteSubtreeConsistent | src/base/Node.cpp:135-143 | deleting all children removes the whole subtree and keeps parents and children consistent |
| Nodes.Ancestors | src/base/Node.cpp:43-61 | the nodes notifyTreeChanges reaches start at the node itself |
| Nodes.AncestorsClimb | src/base/Node.cpp:43-61 | the notification climbs from each node to its parent and, with enough depth, ends at a root |
| Nodes.AncestorsUnaffected | src/base/Node.cpp:43-61 | changing the parent of a spatial outside the chain leaves the notified chain as it was |
| Nodes.DeletionNotified | src/base/Node.cpp:135-143 | while a node deletes its children, only its own chain and nodes of the deleted subtree announce a change |
| Nodes.DetachConsistent | src/base/Node.cpp:117-125 | removing a child from its node keeps parents and children consistent |
| Nodes.AttachConsistent | src/base/Node.cpp:104-112 | attaching a spatial without a parent keeps parents and children consistent |
| Nodes.SceneGraph.constructor | src/base/Node.cpp:100-114 | a fresh arena of nodes and spatials has no attachments |
| Nodes.SceneGraph.DetachChild | src/base/Node.cpp:117-132 | a child is removed from the node, loses its parent and is returned, and the tree change is announced by the node and every ancestor up to the root; otherwise nothing changes and nothing is returned |
| Nodes.SceneGraph.AttachChild | src/base/Node.cpp:100-114 | the spatial becomes a child of the node, detached first from a different previous parent, whose chain up to the root announces that change; then the node and its ancestors announce the change in every case |
| Nodes.SceneGraph.DeleteAllChildren | src/base/Node.cpp:135-143 | every descendant of the node dies, the node has no children and the arena stays consistent; each deleted node that had children announces its change up to the root before the node does, and nothing is announced when there were no children |
| Nodes.SceneGraph.VisitChildren | src/base/Node.cpp:146-173 | the visit order is the recursive visit specification |
| Nodes.SceneGraph.UpdateWorldTransform | src/base/Node.cpp:176-184 | the node updates first, then each child in order, a child node with its own subtree |
| Histograms.AssocIncrement | include/Carna/base/model/Histogram.h:141-148 | incrementing a map counter adds one to that key only, inserting it at 0 first |
| Histograms.Zeros | include/Carna/base/model/Histogram.h:194 | growing a vector appends zeros |
| Histograms.IndexedIncrement | include/Carna/base/model/Histogram.h:189-197 | incrementing an indexed counter grows the vector to hold the index, then adds one at that index only |
| Histograms.AssocCounts | include/Carna/base/model/Histogram.h:141-163 | after counting keys, the map counter reads each key's number of occurrences |
| Histograms.IndexedCounts | include/Carna/base/model/Histogram.h:185-223 | after counting keys, the indexed counter reads each key's number of occurrences |
| Histograms.CountersAgree | include/Carna/base/model/Histogram.h:141-223 | both counter kinds read the same on every key of the key type |
| Histograms.AssociativeCounter.constructor | include/Carna/base/model/Histogram.h:141-163 | a new map counter is empty |
| Histograms.AssociativeCounter.Get | include/Carna/base/model/Histogram.h:150-161 | the const read returns the stored count, or 0 for an absent key, without inserting |
| Histograms.AssociativeCounter.Increment | include/Carna/base/model/Histogram.h:145-148 | the counter becomes AssocIncrement of the old one |
| Histograms.AssociativeCounter.Reset | include/Carna/base/model/Histogram.h:115-119 | after reset every key reads 0 |
| Histograms.IndexedCounter.constructor | include/Carna/base/model/Histogram.h:185-223 | a new indexed counter is empty |
| Histograms.IndexedCounter.Get | include/Carna/base/model/Histogram.h:199-210 | the const read returns the count at key - min, or 0 beyond the vector, without growing it |
| Histograms.IndexedCounter.Increment | include/Carna/base/model/Histogram.h:189-197 | the counter becomes IndexedIncrement of the old one at key - min |
| Histograms.IndexedCounter.Reset | include/Carna/base/model/Histogram.h:115-119 | after reset every key reads 0 |
| Histograms.RankBound | include/Carna/base/model/Histogram.h:331-366 | the rank of a position of the box is below the number of positions |
| Histograms.RankInjective | include/Carna/base/model/Histogram.h:331-366 | different positions of the box have different ranks |
| Histograms.NextRank | include/Carna/base/model/Histogram.h:345-365 | one step of the odometer moves to the position of the next rank, and there is none after the last |
| Histograms.ZerosFirst | include/Carna/base/model/Histogram.h:331 | the walk starts at the zero position, of rank 0 |
| Histograms.WalkRanks | include/Carna/base/model/Histogram.h:333-366 | the walk from a position lists the positions of every following rank once, up to the end of the box |
| Histograms.Walk | include/Carna/base/model/Histogram.h:333-366 | every position the loop visits lies in the box |
| Histograms.WalkExactlyOnce | include/Carna/base/model/Histogram.h:333-366 | updateCounter visits each position of the box exactly once and nothing else |
| Histograms.FieldValues | include/Carna/base/model/Histogram.h:340 | the field value at each visited position, in order |
| Histograms.Advance | include/Carna/base/model/Histogram.h:345-365 | the inner loop moves exactly when a next position exists, and then to that position |
| Histograms.NextAt | include/Carna/base/model/Histogram.h:345-362 | the step increments the first dimension not at its end and zeroes every lower dimension |
| Histograms.NextNone | include/Carna/base/model/Histogram.h:345-366 | once every dimension is at its end the loop stops |
| Histograms.Histogram.constructor | include/Carna/base/model/Histogram.h:313-322 | asserts every component of the field size is positive and keeps field and size |
| Histograms.Histogram.UpdateCounter | include/Carna/base/model/Histogram.h:325-370 | the counter holds the count of every field value over the box, whatever it held before |
| Histograms.CountField | include/Carna/base/model/Histogram.h:327-369 | reset and the do-while loop leave the counts of the field values over the walk |
| Histograms.HistogramCounts | include/Carna/base/model/Histogram.h:325-370 | every key reads the number of positions where the field takes it, and the counts add up to the number of positions |
| ClassDetectors.InteriorPeaksExactly | include/Carna/base/model/HistogramClassDetector.h:359-368 | an interior sample is recorded as a peak exactly when the derivative turns from negative to positive there |
| ClassDetectors.PeaksAscending | include/Carna/base/model/HistogramClassDetector.h:351-373 | the peak indices start at the first sample, end at the last and ascend strictly |
| ClassDetectors.PeaksExactly | include/Carna/base/model/HistogramClassDetector.h:351-373 | between the ends a sample is a peak exactly when the derivative turns from negative to positive |
| ClassDetectors.FindPeaks | include/Carna/base/model/HistogramClassDetector.h:351-373 | the single pass tracking the last sample and derivative finds exactly Peaks of the smoothed data |
| ClassDetectors.Shift | include/Carna/base/model/HistogramClassDetector.h:432-438 | every class moves by the offset and keeps its typical flag |
| ClassDetectors.AddClassCovers | include/Carna/base/model/HistogramClassDetector.h:378-394 | add_class keeps the classes a gap-free partition, now reaching the new class's last index |
| ClassDetectors.ScanCovers | include/Carna/base/model/HistogramClassDetector.h:395-421 | the scan over the peaks keeps a gap-free partition ending before the next candidate, typical classes wider than the minimum |
| ClassDetectors.IndexClassesPartition | include/Carna/base/model/HistogramClassDetector.h:376-430 | the classes partition the sample indices without gaps, and typical classes are wider than the minimum |
| ClassDetectors.AddTypicalAlternates | include/Carna/base/model/HistogramClassDetector.h:378-394 | adding a tall typical class, after at most one non-typical filler, keeps typical classes tall, no two non-typical classes adjacent and a typical class last |
| ClassDetectors.ScanAlternates | include/Carna/base/model/HistogramClassDetector.h:395-419 | the scan adds only tall typical classes, so it never puts two non-typical classes in a row and ends with a typical class |
| ClassDetectors.IndexClassesAlternate | include/Carna/base/model/HistogramClassDetector.h:395-430 | every typical index class is tall, and the closing non-typical class follows a typical one or stands alone |
| ClassDetectors.ShiftAlternates | include/Carna/base/model/HistogramClassDetector.h:432-438 | the shift keeps the typical flags and the adjacency, and a shifted typical class is tall over its original indices |
| ClassDetectors.ClassesPartition | include/Carna/base/model/HistogramClassDetector.h:285-443 | compute's result partitions [first, last] into consecutive classes with last >= first; typical ones are wide and tall (lines 71-76), and no two non-typical classes are adjacent (line 110) |
| ClassDetectors.FindClasses | include/Carna/base/model/HistogramClassDetector.h:376-438 | the class loop, the closing class and the shift give the specified classes |
| ClassDetectors.ShiftClasses | include/Carna/base/model/HistogramClassDetector.h:432-438 | the offset loop shifts every class |
| ClassDetectors.ShiftPartition | include/Carna/base/model/HistogramClassDetector.h:432-438 | shifting a partition gives a partition of the shifted range |
| ClassDetectors.HistogramClassDetector.constructor | include/Carna/base/model/HistogramClassDetector.h:255-259 | a new detector is not done |
| ClassDetectors.HistogramClassDetector.Reset | include/Carna/base/model/HistogramClassDetector.h:277-281 | after reset the detector is not done |
| ClassDetectors.HistogramClassDetector.Result | include/Carna/base/model/HistogramClassDetector.h:262-267 | result asserts done and returns the classes |
| ClassDetectors.HistogramClassDetector.Compute | include/Carna/base/model/HistogramClassDetector.h:284-443 | asserts the range is wider than the radius, reads the counts of the range, and stores classes that partition [first, last], typical ones wide and tall, with no two non-typical classes adjacent |
| ColorCoding.Key | src/presets/MeshColorCodingStage.cpp:75-80 | the key spelled by a colour's bytes (red highest, alpha lowest) is a 32-bit value, and it is 0 exactly for the clear colour |
| ColorCoding.ColorToId | src/presets/MeshColorCodingStage.cpp:75-83 | colorToId asserts the colour is not the clear colour and returns an id up to the last id |
| ColorCoding.IdToColor | src/presets/MeshColorCodingStage.cpp:86-95 | idToColor asserts id <= LAST_COLOR_CODING_ID and never yields the clear colour |
| ColorCoding.KeyOfBytes | src/presets/MeshColorCodingStage.cpp:76-93 | splitting a 32-bit key into its four bytes and joining them again gives the key |
| ColorCoding.IdColorRoundTrip | src/base/MeshColorCodingStage.cpp:75-95 | every id up to the last one is recovered from its colour |
| ColorCoding.ColorIdRoundTrip | src/base/MeshColorCodingStage.cpp:75-95 | every colour except the clear one is the colour of the id it decodes to |
| ColorCoding.IdColorsDistinct | src/presets/MeshColorCodingStage.cpp:86-95 | distinct ids are drawn in distinct colours |
| ColorCoding.RegisteredKeeps | src/presets/MeshColorCodingStage.cpp:257-261 | render records a geometry exactly when its type has a mesh role; other geometries are skipped |
| ColorCoding.MeshColorCodingStage.constructor | src/presets/MeshColorCodingStage.cpp:68-73 | ids start at the first id, nothing is drawn, no framebuffer exists and no type is registered |
| ColorCoding.MeshColorCodingStage.SetActivationPassIndex | src/presets/MeshColorCodingStage.cpp:207-210 | changes the activation pass only |
| ColorCoding.MeshColorCodingStage.PutGeometryType | src/presets/MeshColorCodingStage.cpp:324-328 | the type loses any material role and takes the mesh role |
| ColorCoding.MeshColorCodingStage.EnableMaterials | src/presets/MeshColorCodingStage.cpp:331-334 | sets the material role of the type only |
| ColorCoding.MeshColorCodingStage.RemoveGeometryType | src/presets/MeshColorCodingStage.cpp:337-341 | erases the type from both role maps |
| ColorCoding.MeshColorCodingStage.ClearGeometryTypes | src/presets/MeshColorCodingStage.cpp:344-348 | empties both role maps |
| ColorCoding.MeshColorCodingStage.Reshape | src/presets/MeshColorCodingStage.cpp:314-321 | an existing framebuffer is recreated at the new size; none is created otherwise |
| ColorCoding.MeshColorCodingStage.Render | src/presets/MeshColorCodingStage.cpp:257-311 | a registered geometry is drawn in the colour of the next id and recorded under it, the id advancing unless it is the last; others are skipped |
| ColorCoding.MeshColorCodingStage.RenderPass | src/presets/MeshColorCodingStage.cpp:219-254 | only in the activation pass: creates a missing framebuffer, takes the margins as offsets, restarts the ids and records the registered polled geometries in order |
| ColorCoding.MeshColorCodingStage.RenderPolled | src/presets/MeshColorCodingStage.cpp:240-243 | rendering the polled geometries from the first id records exactly the registered ones, in polling order, under ids 0, 1, ... |
| ColorCoding.MeshColorCodingStage.Pick | src/presets/MeshColorCodingStage.cpp:159-204 | nothing before the first activated pass, outside the viewport or on the clear colour; otherwise a geometry drawn in the pass |
| ColorCoding.PickFindsDrawn | src/presets/MeshColorCodingStage.cpp:159-204 | where the framebuffer holds the colour of id i, pick returns the geometry rendered with id i |
| Viewports.Square | src/base/Viewport.cpp:81-87 | the fit-square area is a square whose side is the smaller frame dimension, lies inside the frame and is centred, the margins on either side differing by at most one |
| Viewports.Viewport.Root | src/base/Viewport.cpp:78-94 | a root viewport covers the frame's centred square with fitSquare and the whole frame with zero margins otherwise |
| Viewports.Viewport.Inside | src/base/Viewport.cpp:97-104 | a nested viewport has the given parent, margins and size |
| Viewports.Viewport.MarginRight | src/base/Viewport.cpp:221-224 | the right margin is the parent's width less the left margin and the width, modulo 2^32; it completes the parent's width when the viewport fits |
| Viewports.Viewport.MarginBottom | src/base/Viewport.cpp:227-230 | the bottom margin completes the parent's height in the same way |
| Viewports.RootMarginsAddUp | src/base/Viewport.cpp:78-94 | a root viewport's left margin, width and right margin add up to the frame's width, and likewise vertically, for either fitSquare |
| Viewports.Viewport.MakeActive | src/base/Viewport.cpp:122-129 | afterwards the viewport is on top of the stack; it is pushed and applied only when it was not on top already |
| Viewports.Viewport.Done | src/base/Viewport.cpp:132-140 | requires the viewport on top, pops it and re-applies the viewport now on top, if any |
| Viewports.Viewport.Destroy | src/base/Viewport.cpp:107-113 | a viewport on top is popped and the viewport now on top, if any, is re-applied; otherwise the stack and the applied area are unchanged |
| Viewports.Viewport.SetWidth | src/base/Viewport.cpp:143-147 | requires the viewport not active and changes its width only |
| Viewports.Viewport.SetHeight | src/base/Viewport.cpp:150-154 | requires the viewport not active and changes its height only |
| Viewports.Viewport.SetMarginLeft | src/base/Viewport.cpp:157-161 | requires the viewport not active and changes its left margin only |
| Viewports.Viewport.SetMarginTop | src/base/Viewport.cpp:164-168 | requires the viewport not active and changes its top margin only |
| FrameRenderers.FrameRenderer.constructor | src/base/FrameRenderer.cpp:173-178 | a new renderer has no stages, is marked reshaped and holds a root viewport for its frame and fitSquare |
| FrameRenderers.FrameRenderer.StageCount | src/base/FrameRenderer.cpp:208-211 | the number of appended stages |
| FrameRenderers.FrameRenderer.AppendStage | src/base/FrameRenderer.cpp:214-217 | the stage goes last; nothing else changes |
| FrameRenderers.FrameRenderer.StageAt | src/base/FrameRenderer.cpp:228-231 | the stage appended at the given position |
| FrameRenderers.FrameRenderer.ClearStages | src/base/FrameRenderer.cpp:220-225 | every stage is deleted, in order, and none is left |
| FrameRenderers.FrameRenderer.Reshape | src/base/FrameRenderer.cpp:246-253 | stores the size and fitSquare, replaces the root viewport by one for the new frame and marks the renderer reshaped |
| FrameRenderers.FrameRenderer.ReshapeKeepingFit | src/base/FrameRenderer.cpp:256-259 | as reshape, keeping fitSquare |
| FrameRenderers.FrameRenderer.Render | src/base/FrameRenderer.cpp:287-310 | the frame's stage events are those of the stage loop; afterwards every stage is initialized and the reshaped flag is clear |
| FrameRenderers.StageLoop | src/base/FrameRenderer.cpp:295-310 | the loop reshapes a stage when the renderer was reshaped or the stage is uninitialized, then prepares it, stage by stage from the first to the last |
| FrameRenderers.FrameEventsAppend | src/base/FrameRenderer.cpp:295-307 | walking the stages forward, each further stage's events follow those of the stages before it |
| FrameRenderers.EveryStagePrepared | src/base/FrameRenderer.cpp:295-307 | every stage is prepared for the frame exactly once, in insertion order |
| FrameRenderers.ReshapedStages | src/base/FrameRenderer.cpp:301-304 | a stage is reshaped in a frame exactly when the renderer was reshaped or the stage was not initialized |
| FrameRenderers.SecondFrameReshapesNothing | src/base/FrameRenderer.cpp:309-310 | a frame right after another, with no reshape in between, reshapes no stage |
| RenderStates.With | src/base/RenderState.cpp:150-237 | after a setter the state holds the value it was given |
| RenderStates.WithKeepsOthers | src/base/RenderState.cpp:150-237 | a setter leaves every setting of another kind as it was |
| RenderStates.CommitOf | src/base/RenderState.cpp:150-159 | a setter hands OpenGL at most the one setting it was given |
| RenderStates.SameSettings | src/base/RenderState.cpp:153-158 | a setter given the value the state already holds changes nothing |
| RenderStates.RenderState.Default | src/base/RenderState.cpp:91-96 | createDefaultRenderState: a state of the context without a parent, holding the context's initial values |
| RenderStates.RenderState.Push | src/base/RenderState.cpp:99-114 | a new state's parent is the context's current state, its settings are copied from the parent, and it is pushed as the current state |
| RenderStates.RenderState.Set | src/base/RenderState.cpp:150-237 | requires the state be current; stores the value and commits it only when it differs, so OpenGL keeps mirroring the state |
| RenderStates.RenderState.Destroy | src/base/RenderState.cpp:117-134 | a state with a parent takes back the parent's settings, leaves OpenGL mirroring them if it mirrored this state, and pops itself; a state without a parent changes nothing |
| ManagedMeshes.TotalUpdate | src/base/ManagedMesh.cpp:108-122 | changing one context's count changes the sum of the per-context counts by the difference |
| ManagedMeshes.TotalRemove | src/base/ManagedMesh.cpp:137-141 | the sum of the counts is the erased context's count plus the sum over the rest |
| ManagedMeshes.TotalZero | src/base/ManagedMesh.cpp:99-100 | with positive counts, no acquisition is left exactly when no context is left |
| ManagedMeshes.TotalOne | src/base/ManagedMesh.cpp:144-148 | with positive counts, a single acquisition is a single context acquired once |
| ManagedMeshes.Deref | src/base/ManagedMesh.cpp:137-140 | a map iterator yields a value only while its key is still mapped, and then the mapped value |
| ManagedMeshes.ReleaseEntryReadsErased | src/base/ManagedMesh.cpp:137-140 | the context's info is read through the iterator after its entry was erased, whatever the map |
| ManagedMeshes.ReleaseEntry | src/base/ManagedMesh.cpp:135-141 | the last release in a context removes exactly that context's entry, keeps the others, and deletes that context's mesh |
| ManagedMeshes.ManagedMesh.constructor | src/base/ManagedMesh.cpp:62-73 | a new managed mesh has no acquisition, no context and no buffers |
| ManagedMeshes.ManagedMesh.ControlsSameVideoResource | src/base/ManagedMesh.cpp:81-84 | a managed mesh shares its video resources with no other feature |
| ManagedMeshes.ManagedMesh.AcquireMesh | src/base/ManagedMesh.cpp:93-123 | loads the buffers on the sole acquisition, creates the context's mesh on its first acquisition and counts later ones |
| ManagedMeshes.ManagedMesh.ReleaseMesh | src/base/ManagedMesh.cpp:126-151 | requires the context to hold the mesh; deletes the context's mesh when its count reaches zero and the buffers on the last acquisition |
| ManagedMeshes.ManagedMesh.Acquire | src/base/ManagedMesh.cpp:93-123 | an acquisition keeps the counts consistent: the per-context counts add up to the total and buffers are loaded exactly while something is acquired |
| ManagedMeshes.ManagedMesh.Release | src/base/ManagedMesh.cpp:126-151 | a release keeps the counts consistent; the buffers stay loaded exactly while something is acquired, and the context keeps its mesh exactly while its count stays positive |
| ManagedMeshes.ManagedMesh.Mesh | src/base/ManagedMesh.cpp:154-160 | requires the context to hold a mesh; that mesh is one an acquisition created |
| VideoResourceManagers.VideoResourceManager.constructor | include/Carna/base/view/VideoResourceManager.h:81-85 | a new manager has no acquisition and no resource |
| VideoResourceManagers.VideoResourceManager.Acquire | include/Carna/base/view/VideoResourceManager.h:95-104 | counts the acquisition and creates the resource exactly on the first one, keeping the resource present exactly while something is acquired |
| VideoResourceManagers.VideoResourceManager.Release | include/Carna/base/view/VideoResourceManager.h:107-115 | drops the resource exactly on the last release and counts the release |
| VideoResourceManagers.VideoResourceManager.Resource | include/Carna/base/view/VideoResourceManager.h:118-123 | requires the resource to exist and returns it |
| VideoResourceManagers.VideoResourceManager.ControlsSameVideoResource | include/Carna/base/view/VideoResourceManager.h:126-131 | no two managers share a resource |
| SceneProviders.SceneProviderDetails.constructor | src/base/view/SceneProviderDetails.cpp:94-101 | no volume texture, no mask texture and no references; the mask is not invalidated |
| SceneProviders.SceneProviderDetails.Destroy | src/base/view/SceneProviderDetails.cpp:104-109 | requires the volume texture released, so none is left behind |
| SceneProviders.SceneProviderDetails.AcquireVolumeTexture | src/base/view/SceneProviderDetails.cpp:112-124 | creates the volume texture on the first reference, counts the reference and returns the texture; the texture exists exactly while referenced |
| SceneProviders.SceneProviderDetails.ReleaseVolumeTexture | src/base/view/SceneProviderDetails.cpp:127-137 | requires a reference; drops the texture with the last one |
| SceneProviders.SceneProviderDetails.AcquireMaskTexture | src/base/view/SceneProviderDetails.cpp:140-166 | counts the reference; the first one takes the generated non-zero name and uploads the mask; the name returned is never zero |
| SceneProviders.SceneProviderDetails.ReleaseMaskTexture | src/base/view/SceneProviderDetails.cpp:169-178 | requires a reference; the last one deletes the texture and zeroes its name |
| SceneProviders.SceneProviderDetails.UpdateMaskTexture | src/base/view/SceneProviderDetails.cpp:181-183 | after an upload the mask texture is no longer invalidated; the textures and references stay |
| SceneProviders.SceneProviderDetails.InvalidateMaskTexture | src/base/view/SceneProviderDetails.cpp:238-241 | marks the mask texture invalidated and changes nothing else |
| DicomIndex.NameBeforeIrreflexive | src/base/model/DicomManager.cpp:266 | no patient name comes before itself in the map's order |
| DicomIndex.NameBeforeTransitive | src/base/model/DicomManager.cpp:266 | the map's name order is transitive |
| DicomIndex.NameBeforeTotal | src/base/model/DicomManager.cpp:266 | of two different names, one comes before the other |
| DicomIndex.LeastName | src/base/model/DicomManager.cpp:266 | a non-empty set of names has a first name in the map's order |
| DicomIndex.AscendingNames | src/base/model/DicomManager.cpp:266 | the names of a set listed in strictly ascending order, each exactly once |
| DicomIndex.MapOrderExists | src/base/model/DicomManager.cpp:266 | every map of patients has an ascending visiting order of its keys |
| DicomIndex.MapOrderUnique | src/base/model/DicomManager.cpp:266 | the visiting order is determined by the keys alone |
| DicomIndex.MapOrderIsKeyOrder | src/base/model/DicomManager.cpp:266 | the visiting order lists every key exactly once |
| DicomIndex.Value | src/base/model/DicomManager.cpp:369-370 | an attribute's value is the given one, or the empty text when the attribute is absent |
| DicomIndex.PutStudy | src/base/model/DicomManager.cpp:385-386 | a study put into a patient goes last; the patient's name and earlier studies stay |
| DicomIndex.PutSeries | src/base/model/DicomManager.cpp:404-405 | a series put goes last into the patient's last study; every other study stays |
| DicomIndex.PutElement | src/base/model/DicomManager.cpp:427-436 | an image put goes last into the last series of the last study; nothing else changes |
| DicomIndex.Start | src/base/model/DicomManager.cpp:348-448 | each scope accepts exactly one start tag, which opens the next scope and creates what it names; any other tag and a z position that is not a number fail; the parser's invariant is kept |
| DicomIndex.End | src/base/model/DicomManager.cpp:452-525 | each scope closes only on the tag that opened it, back to the enclosing scope, keeping the patients; any other tag fails |
| DicomIndex.Run | src/base/model/DicomManager.cpp:538-544 | parsing a document keeps the parser's invariant and stops at the first rejected event |
| DicomIndex.RunAppend | src/base/model/DicomManager.cpp:538-544 | parsing two documents one after another is parsing their concatenation |
| DicomIndex.Initial | src/base/model/DicomManager.cpp:338-346 | the parser starts outside the index in a valid state |
| DicomIndex.PutElementsIntoLast | src/base/model/DicomManager.cpp:284-291 | putting images one by one into a series just put is putting the series with them |
| DicomIndex.PutSeriesListIntoLast | src/base/model/DicomManager.cpp:278-295 | putting series one by one into a study just put is putting the study with them |
| DicomIndex.ImageRun | src/base/model/DicomManager.cpp:286-290 | one saved image, read inside its series, puts that image into the series with its z position read back from its text |
| DicomIndex.SeriesRun | src/base/model/DicomManager.cpp:278-293 | one saved series, read inside its study, puts the series with all its images |
| DicomIndex.StudyRun | src/base/model/DicomManager.cpp:272-296 | one saved study, read inside its patient, puts the study with all its series |
| DicomIndex.PatientRun | src/base/model/DicomManager.cpp:266-299 | one saved patient, read inside the index, stores the patient with all its studies under its name |
| DicomIndex.PatientListRun | src/base/model/DicomManager.cpp:266-299 | the saved patients, read inside the index, are each stored under their name |
| DicomIndex.Unclosed | src/base/model/DicomManager.cpp:543-550 | a closing tag is accepted only for the innermost open element, and no events leave the open elements as they were |
| DicomIndex.UnclosedAppend | src/base/model/DicomManager.cpp:543-550 | reading two pieces in turn is reading their concatenation |
| DicomIndex.UnclosedBelow | src/base/model/DicomManager.cpp:543-550 | events accepted on some open elements are accepted the same way inside further open elements |
| DicomIndex.BalancedConcat | src/base/model/DicomManager.cpp:251-303 | balanced pieces written one after another stay balanced |
| DicomIndex.BalancedWrap | src/base/model/DicomManager.cpp:251-303 | a balanced body between an opening tag and its closing tag is balanced |
| DicomIndex.IndexWellFormed | src/base/model/DicomManager.cpp:251-303 | saveIndex writes one root element closed at the end around balanced content |
| DicomIndex.TruncatedIndexNotWellFormed | src/base/model/DicomManager.cpp:543-550 | a document cut off inside a patient is not well-formed |
| DicomIndex.IndexRoundTrip | src/base/model/DicomManager.cpp:251-303 | the saved index is well-formed, and reading it back succeeds, ends outside the index and yields the saved patients, each z position passed through its text |
| DicomIndex.RereadExact | src/base/model/DicomManager.cpp:287-288 | when each z position reads back exactly from its text, the read-back index equals the saved one |
| DicomManagers.FirstIndex | src/base/model/DicomManager.cpp:199-206 | the first position holding the name, or none exactly when the name is absent |
| DicomManagers.FirstIndexAppend | src/base/model/DicomManager.cpp:208-212 | appending a name changes the first position of a name only when it was absent |
| DicomManagers.FindStudy | src/base/model/DicomManager.cpp:197-206 | the loop finds the first study with the image's study name, if any |
| DicomManagers.FindSeries | src/base/model/DicomManager.cpp:216-225 | the loop finds the first series with the image's series name, if any |
| DicomManagers.StudyFor | src/base/model/DicomManager.cpp:197-212 | the patient then has a study of that name, found or appended, at the returned position |
| DicomManagers.SeriesFor | src/base/model/DicomManager.cpp:216-231 | the study then has a series of that name, found or appended, at the returned position |
| DicomManagers.InsertImageElements | src/base/model/DicomManager.cpp:186-236 | processNewImage adds exactly one image, last under its patient, study and series names; every other name triple keeps its images |
| DicomManagers.InsertImageCreatesOnlyAbsent | src/base/model/DicomManager.cpp:188-212 | processNewImage creates a study only when the patient has none of that name, and every patient stays under its name |
| DicomManagers.WriteElements | src/base/model/DicomManager.cpp:284-291 | the image loop writes exactly the saved images' events |
| DicomManagers.WriteSeriesList | src/base/model/DicomManager.cpp:278-293 | the series loop writes exactly the saved series' events |
| DicomManagers.WriteStudies | src/base/model/DicomManager.cpp:272-296 | the study loop writes exactly the saved studies' events |
| DicomManagers.WritePatients | src/base/model/DicomManager.cpp:266-299 | the patient loop writes exactly the saved patients' events |
| DicomManagers.SaxParser.constructor | src/base/model/DicomManager.cpp:338-346 | the parser starts outside the index with the manager's patients |
| DicomManagers.SaxParser.StartElement | src/base/model/DicomManager.cpp:348-449 | startElement moves the parser to the state the start transition gives, and rejects what it rejects |
| DicomManagers.SaxParser.EndElement | src/base/model/DicomManager.cpp:452-525 | endElement moves the parser to the state the end transition gives, and rejects what it rejects |
| DicomManagers.DicomManager.constructor | src/base/model/DicomManager.cpp:104-107 | a new manager has no patients |
| DicomManagers.DicomManager.ReleasePatients | src/base/model/DicomManager.cpp:116-124 | every patient is deleted and none is left |
| DicomManagers.DicomManager.Fail | src/base/model/DicomManager.cpp:611-617 | fail discards every patient and signals the failure |
| DicomManagers.DicomManager.ProcessNewImage | src/base/model/DicomManager.cpp:186-236 | the patients become the insertion of the image, creating patient, study and series only if absent |
| DicomManagers.DicomManager.SaveIndex | src/base/model/DicomManager.cpp:251-315 | a file that does not open fails and discards the patients; otherwise the index of all patients is written in the map's ascending name order and success is signalled when the file exists |
| DicomManagers.DicomManager.OpenIndex | src/base/model/DicomManager.cpp:318-555 | discards the patients; a missing file, a document that is not well-formed or one the handler rejects fails; otherwise the patients are those the parser read and success is signalled |
| DefaultVolumeRenderers.LastNamed | src/VolumeRenderings/DefaultVolumeRenderer.cpp:243-253 | the mode the name lookup leaves active: present exactly when an installed mode carries the name, and then such a mode |
| DefaultVolumeRenderers.LastNamedSnoc | src/VolumeRenderings/DefaultVolumeRenderer.cpp:243-253 | the lookup over one more mode yields that mode when it carries the name, and the earlier result otherwise |
| DefaultVolumeRenderers.TruncatedRemainder | src/VolumeRenderings/DefaultVolumeRenderer.cpp:392 | C++ `%` on int: the remainder lies strictly between -360 and 360, is congruent to the angle, and takes the angle's sign |
| DefaultVolumeRenderers.ToUnsigned | src/VolumeRenderings/DefaultVolumeRenderer.cpp:392 | the cast to unsigned int is congruent modulo 2^32 and keeps non-negative values |
| DefaultVolumeRenderers.StoredRotationAsWritten | src/VolumeRenderings/DefaultVolumeRenderer.cpp:390-395 | the stored angle as written is an unsigned number, below 360 for non-negative angles |
| DefaultVolumeRenderers.StoredRotation | src/VolumeRenderings/DefaultVolumeRenderer.cpp:390-395 | the intended stored angle lies in [0, 360) and is congruent to the argument |
| DefaultVolumeRenderers.Rotation2DOf | src/VolumeRenderings/DefaultVolumeRenderer.cpp:774-781 | rotation2D reports the stored angle reduced below 360, unchanged when already below 360 |
| DefaultVolumeRenderers.StoredRotationAgrees | src/VolumeRenderings/DefaultVolumeRenderer.cpp:390-395 | for non-negative angles the code as written stores the intended angle |
| DefaultVolumeRenderers.NegativeRotationIsWrong | src/VolumeRenderings/DefaultVolumeRenderer.cpp:390-395 | for every negative angle that is not a whole turn, the angle reported after the code as written differs from the intended one |
| DefaultVolumeRenderers.QuarterTurnBackwards | src/VolumeRenderings/DefaultVolumeRenderer.cpp:390-395 | setRotation2D(-90) makes rotation2D report 166 degrees where 270 is meant |
| DefaultVolumeRenderers.DefaultVolumeRenderer.constructor | src/VolumeRenderings/DefaultVolumeRenderer.cpp:106-153 | a renderer starts without modes and with no active mode, with at least two samples, no rotation and crop bounds 0 and 1 |
| DefaultVolumeRenderers.DefaultVolumeRenderer.HasModeInstalled | src/VolumeRenderings/DefaultVolumeRenderer.cpp:212-222 | whether that very mode is among the installed ones |
| DefaultVolumeRenderers.DefaultVolumeRenderer.HasModeInstalledNamed | src/VolumeRenderings/DefaultVolumeRenderer.cpp:225-236 | whether an installed mode carries the name |
| DefaultVolumeRenderers.DefaultVolumeRenderer.InstallMode | src/VolumeRenderings/DefaultVolumeRenderer.cpp:198-209 | appends the mode only if it is not installed; afterwards it is installed, by identity and by name, and no mode is installed twice |
| DefaultVolumeRenderers.DefaultVolumeRenderer.SetMode | src/VolumeRenderings/DefaultVolumeRenderer.cpp:260-312 | requires the mode installed; prepares it on its first activation only, activates it and announces it |
| DefaultVolumeRenderers.DefaultVolumeRenderer.SetModeNamed | src/VolumeRenderings/DefaultVolumeRenderer.cpp:239-257 | requires a mode of that name; afterwards the last installed mode of that name is active, every installed mode of that name has been announced in installation order, and each was prepared on its first activation |
| DefaultVolumeRenderers.DefaultVolumeRenderer.ActivateNext | src/VolumeRenderings/DefaultVolumeRenderer.cpp:244-252 | one turn of the name loop calls setMode exactly when the next installed mode carries the name |
| DefaultVolumeRenderers.Named | src/VolumeRenderings/DefaultVolumeRenderer.cpp:244-252 | the modes the name loop activates, each carrying the name, no more than are installed |
| DefaultVolumeRenderers.NamedMembers | src/VolumeRenderings/DefaultVolumeRenderer.cpp:244-252 | exactly the installed modes that carry the name are activated |
| DefaultVolumeRenderers.PreparedAfter | src/VolumeRenderings/DefaultVolumeRenderer.cpp:272-283 | the preparation log after activating modes in turn keeps the earlier log as its prefix and grows by at most one per activation |
| DefaultVolumeRenderers.PreparedAfterMembers | src/VolumeRenderings/DefaultVolumeRenderer.cpp:272-283 | after the activations exactly the earlier and the activated modes are prepared, none twice |
| DefaultVolumeRenderers.Activated | src/VolumeRenderings/DefaultVolumeRenderer.cpp:239-257 | the name loop's effect: the active mode is unchanged or an installed mode of that name, and the announcements only grow |
| DefaultVolumeRenderers.ActivatedCurrent | src/VolumeRenderings/DefaultVolumeRenderer.cpp:239-257 | the loop leaves the last installed mode of that name active |
| DefaultVolumeRenderers.ActivatedChanges | src/VolumeRenderings/DefaultVolumeRenderer.cpp:239-257 | the loop announces exactly the modes of that name, in installation order |
| DefaultVolumeRenderers.ActivatedPrepared | src/VolumeRenderings/DefaultVolumeRenderer.cpp:239-283 | the loop prepares each mode of that name on its first activation only |
| DefaultVolumeRenderers.DefaultVolumeRenderer.HasMode | src/VolumeRenderings/DefaultVolumeRenderer.cpp:315-318 | whether a mode is active |
| DefaultVolumeRenderers.DefaultVolumeRenderer.SetNoMode | src/VolumeRenderings/DefaultVolumeRenderer.cpp:321-331 | afterwards no mode is active; the installed modes stay |
| DefaultVolumeRenderers.DefaultVolumeRenderer.SampleCount | src/VolumeRenderings/DefaultVolumeRenderer.cpp:178-183 | the sample count, never fewer than two |
| DefaultVolumeRenderers.DefaultVolumeRenderer.SetSampleCount | src/VolumeRenderings/DefaultVolumeRenderer.cpp:350-355 | the requested count, but never fewer than two samples |
| DefaultVolumeRenderers.DefaultVolumeRenderer.Rotation2D | src/VolumeRenderings/DefaultVolumeRenderer.cpp:774-781 | the image's rotation in degrees, below 360 |
| DefaultVolumeRenderers.DefaultVolumeRenderer.SetRotation2D | src/VolumeRenderings/DefaultVolumeRenderer.cpp:390-395 | stores the angle reduced to [0, 360), so rotation2D reports an angle congruent to the argument |
| DefaultVolumeRenderers.DefaultVolumeRenderer.SetCrop | src/VolumeRenderings/DefaultVolumeRenderer.cpp:690-759 | requires the value in the unit interval; sets that one crop bound, keeps the others and announces the change |
| Scenes.Scene.constructor | src/base/model/Scene.cpp:41-101 | requires at least two voxels per axis, an even width and positive spacings; recommends level 1024, width 2048 and void threshold 0, with no mask, no objects and no scheduled events |
| Scenes.Scene.SetRecommendedVoidThreshold | src/base/model/Scene.cpp:113-124 | requires a value in [-1024, 3071]; stores it and announces a change only when it differs |
| Scenes.Scene.SetRecommendedWindowingLevel | src/base/model/Scene.cpp:127-138 | requires a value in [-1024, 3071]; stores it and announces a change only when it differs |
| Scenes.Scene.SetRecommendedWindowingWidth | src/base/model/Scene.cpp:141-152 | requires a value in [-1024, 3071]; stores it and announces a change only when it differs |
| Scenes.Scene.RecommendedVoidThreshold | src/base/model/Scene.cpp:169-175 | the stored threshold, always within [-1024, 3071] |
| Scenes.Scene.RecommendedWindowingLevel | src/base/model/Scene.cpp:202-208 | the stored level, always within [-1024, 3071] |
| Scenes.Scene.RecommendedWindowingWidth | src/base/model/Scene.cpp:211-217 | the stored width, always within [-1024, 3071] |
| Scenes.Scene.Spacing | src/base/model/Scene.cpp:178-199 | the three spacings, each positive |
| Scenes.Scene.ObjectsCount | src/base/model/Scene.cpp:220-223 | the number of registered objects |
| Scenes.Scene.ObjectByIndex | src/base/model/Scene.cpp:155-160 | requires an index below the count; the registered object at that index |
| Scenes.Scene.SetVolumeMask | src/base/model/Scene.cpp:226-230 | exchanges the mask and announces the exchange |
| Scenes.Scene.RemoveVolumeMask | src/base/model/Scene.cpp:376-379 | afterwards there is no mask, and the exchange is announced |
| Scenes.Scene.HasVolumeMask | src/base/model/Scene.cpp:233-236 | whether a mask is set |
| Scenes.Scene.VolumeMask | src/base/model/Scene.cpp:239-244 | requires a mask and returns it |
| Scenes.Scene.ScheduleObject3DEvent | src/base/model/Scene.cpp:54-62 | starts a timer only when no flags are waiting, then adds the event's flags to the waiting ones |
| Scenes.Scene.PostScheduledObject3DEvents | src/base/model/Scene.cpp:65-69 | posts the waiting flags as one event and clears them |
| Scenes.Scene.RegisterObject | src/base/model/Scene.cpp:347-353 | a new object is registered last and an existence event is scheduled |
| Scenes.Scene.UnregisterObject | src/base/model/Scene.cpp:356-367 | requires the object registered; erases it and schedules an existence event, after which it is no longer registered |
| Scenes.Scene.DeleteFront | src/base/model/Scene.cpp:104-110 | deleting the front object unregisters it and schedules an existence event |
| Scenes.Scene.Destroy | src/base/model/Scene.cpp:104-110 | the destructor deletes every object, front first, until none is left |
| Lists.FirstIndexOf | src/VolumeRenderings/MIP/MIPStage.cpp:92-93 | the position std::find reports: the first position holding the element |
| Lists.FirstIndexOfIs | src/base/Visualization.cpp:245-250 | a position holding the element with no earlier occurrence is the one std::find reports |
| Lists.RemoveFirst | src/base/Visualization.cpp:245-252 | erasing the found element shortens the list by one and removes exactly one occurrence of it |
| Lists.RemoveFirstAt | src/VolumeRenderings/MIP/MIPStage.cpp:92-94 | erasing at the found position keeps everything before it and shifts everything after it |
| Lists.AddThenRemove | src/base/Visualization.cpp:237-252 | removing a controller filter just added restores the previous filters |
| Lists.RemoveFirstNoDuplicates | src/VolumeRenderings/MIP/MIPStage.cpp:83-96 | erasing from a list without duplicates leaves no occurrence and no duplicates |
| MIPStages.Ascended | src/VolumeRenderings/MIP/MIPStage.cpp:99-107 | ascending swaps the channel with its predecessor, if it has one, and keeps every other position: a permutation of the channels |
| MIPStages.AscendedNoDuplicates | src/VolumeRenderings/MIP/MIPStage.cpp:99-107 | ascending keeps the channel list free of duplicates |
| MIPStages.RemoveChannelReturnsAnother | src/VolumeRenderings/MIP/MIPStage.cpp:90-96 | in a list without duplicates, removeChannel as written never returns the removed channel |
| MIPStages.RemoveFirstOfTwoChannels | src/VolumeRenderings/MIP/MIPStage.cpp:90-96 | removing the first of two channels returns the second |
| MIPStages.MIPStage.constructor | src/VolumeRenderings/MIP/MIPStage.cpp:70-74 | a new stage has no channels |
| MIPStages.MIPStage.Destroy | src/VolumeRenderings/MIP/MIPStage.cpp:77-80 | the destructor deletes every channel |
| MIPStages.MIPStage.Find | src/VolumeRenderings/MIP/MIPStage.cpp:92-93 | the search loop stops at the first position holding the channel |
| MIPStages.MIPStage.AppendChannel | src/VolumeRenderings/MIP/MIPStage.cpp:83-87 | requires the channel absent; appends it, keeping the list free of duplicates |
| MIPStages.MIPStage.RemoveChannel | src/VolumeRenderings/MIP/MIPStage.cpp:90-96 | requires the channel listed; erases it, returns it, and it is no longer listed |
| MIPStages.MIPStage.AscendChannel | src/VolumeRenderings/MIP/MIPStage.cpp:99-107 | requires the channel listed; swaps it with its predecessor, keeping the list free of duplicates |
| MIPStages.MIPStage.ClearChannels | src/VolumeRenderings/MIP/MIPStage.cpp:110-114 | deletes every channel, in order, and none is left |
| Visualizations.Visualization.constructor | src/base/Visualization.cpp:88-111 | a new module is not initialized, has no environment, callbacks or filters, and uses the initial controller |
| Visualizations.Visualization.Destroy | src/base/Visualization.cpp:114-120 | the destructor activates the environment's context exactly when there is an environment |
| Visualizations.Visualization.IsInitialized | src/base/Visualization.cpp:148-151 | whether a renderer was created |
| Visualizations.Visualization.Renderer | src/base/Visualization.cpp:154-159 | requires initialization and returns the renderer |
| Visualizations.Visualization.Environment | src/base/Visualization.cpp:194-199 | requires an environment and returns it |
| Visualizations.Visualization.Initialize | src/base/Visualization.cpp:123-145 | requires not initialized; activates the environment, creates the renderer and runs the waiting callbacks in order, after which none waits and every registered callback has run |
| Visualizations.Visualization.DoAfterInitialization | src/base/Visualization.cpp:224-234 | before initialization the callback waits; after it, the callback runs at once |
| Visualizations.Visualization.SetController | src/base/Visualization.cpp:210-221 | replaces the raw controller and announces the new one |
| Visualizations.Visualization.AddControllerFilter | src/base/Visualization.cpp:237-240 | the new filter is asked first |
| Visualizations.Visualization.RemoveControllerFilter | src/base/Visualization.cpp:243-253 | requires the filter present; erases its first occurrence |
| Visualizations.Visualization.Event | src/base/Visualization.cpp:56-81 | the filters are asked in order until one accepts; the raw controller receives the event exactly when no filter accepts it |
| MeshFactories.FaceCorner | include/LibCarna/base/MeshFactory.h:166-172 | each of a box face's six indices refers to one of the face's four corners |
| MeshFactories.FaceTrianglesCoverFace | include/LibCarna/base/MeshFactory.h:166-172 | a box face's two triangles each have three distinct corners, share the diagonal and together cover all four corners |
| MeshFactories.CreateBox | include/LibCarna/base/MeshFactory.h:128-181 | 24 vertices, four per face, and 36 triangle indices, six per face, each referring to a corner of its own face |
| MeshFactories.WriteBoxFace | include/LibCarna/base/MeshFactory.h:156-173 | one pass of the face loop writes that face's four corners and two triangles after the earlier faces, keeping them |
| MeshFactories.BoxIndicesInRange | include/LibCarna/base/MeshFactory.h:166-172 | every box index refers to one of the 24 vertices, on its own face |
| MeshFactories.GridIndexLess | include/LibCarna/base/MeshFactory.h:227-237 | grid vertices are written in the order of side, row and column |
| MeshFactories.GridIndexInjective | include/LibCarna/base/MeshFactory.h:227-237 | distinct grid points of the ball have distinct vertex positions |
| MeshFactories.GridIndexIsProduct | include/LibCarna/base/MeshFactory.h:239-253 | a grid point's vertex position is verticesPerSide times the side plus the column plus the row times verticesPerEdge |
| MeshFactories.BallVerticesFewerThanIndices | include/LibCarna/base/MeshFactory.h:187-207 | a ball's index count is six indices per cell of the six sides, and exceeds its vertex count |
| MeshFactories.WriteSideVertices | include/LibCarna/base/MeshFactory.h:227-237 | the vertex loop of one side writes its grid row by row, after the earlier sides |
| MeshFactories.WriteSideIndices | include/LibCarna/base/MeshFactory.h:239-253 | the index loop of one side writes two triangles per grid cell, row by row, after the earlier sides |
| MeshFactories.WriteCell | include/LibCarna/base/MeshFactory.h:241-252 | a cell's six indices are its two triangles over the cell's four corners on its side |
| MeshFactories.CreateBall | include/LibCarna/base/MeshFactory.h:184-257 | requires fewer than 2^16 indices; six grids of (degree + 2)^2 vertices and, for every cell of every side, two triangles over the cell's corners |
| MeshFactories.FillSides | include/LibCarna/base/MeshFactory.h:220-254 | the loop over the six sides writes every side's vertex grid and cell triangles |
| MeshFactories.BallIndicesInRange | include/LibCarna/base/MeshFactory.h:207-252 | every ball index refers to one of its vertices and fits the 16-bit index type |
| MeshFactories.CreatePoint | include/LibCarna/base/MeshFactory.h:260-271 | a single vertex and the single index 0, drawn as points |

## Left out

- OpenGL effects are not modelled. This covers draw calls, shader uniforms, texture uploads, framebuffers and `glViewport`. Where their order or count matters, they are recorded as events, counters or an `applied` area.
- Floating-point geometry is left out, because Dafny's reals are not IEEE floats:
  - vertex positions and normals in MeshFactory;
  - the transforms and the eye distance of a renderable, which becomes an integer the caller gives;
  - `Scene::intensityAt`;
  - the rotation offset and centre, the flip and mask settings, and the colour post-processing of DefaultVolumeRenderer;
  - the render task of FrameRenderer, and `setBackgroundColor`.
- `VolumeGridHelper::computeMaxSegmentSize` and the construction of its per-axis partitionings are not modelled. They use `pow`, and their definitions are in LibCarna's VolumeGridHelperDetails.h, which is not part of this model. The partitionings are an input record with a validity predicate. The helper's validity also assumes that the maximum segment size equals the partitionings' regular partition size; the source obtains the two separately (include/LibCarna/helpers/VolumeGridHelper.h:381-384), through that unmodelled code.
- VolumeGridHelpers.Normalized: the test of the squared norm against zero uses a floating-point tolerance in the source; the model tests for the exact zero vector. The square root behind Eigen's `normalize` is the parameter `normalize`, and `Normalization` states what it promises.
- VolumeGridHelpers.VolumeGridHelper.LoadIntensities: the helper's segment intensity volumes are modelled as exact storage, so a voxel reads back the value written. With BufferedIntensityVolume as the segment type, the value read back is the written one quantised to the buffer's bits, within half a quantisation step (`BufferedVolumes.DecodeEncodeIntensity`). The same holds for FillIntensities and for the normals the helper computes from the intensities.
- BufferedVolumes.IntensityToBufferValue, BufferedVolumes.BufferValueToIntensity, BufferedVolumes.EncodeDecodeIntensity, BufferedVolumes.DecodeEncodeIntensity and VolumeGridHelpers.NegatedGradient: the source computes these in `float`, and the model computes them in exact real arithmetic. Rounding half up can then differ by one step at the half-way point: when `intensity * valueMax` rounds to the largest float below 0.5, adding `0.5f` gives `1.0f` and the source stores 1 where the model stores 0. The gradient's halved differences can likewise differ in their last bits.
- HistogramClassDetector: the `log10` of the counts and the Gaussian smoothing are floating point. They are the parameter `smooth`, which keeps the length. The test whether a candidate's height range is large enough is the predicate `tall`.
- `MeshFactory::createFromSTL` is not modelled, because it reads a file.
- DicomManager: `openDirectory`, `extractSeries`, `cancel` and the progress counters are not modelled, because they are file-system I/O on a worker thread. Whether a file opens or exists is a parameter. An XML document is its sequence of element events, and the reader's well-formedness test is the balance of its start and end tags; character data, entities and encodings are not modelled. A z position is written and read back through two functions the caller gives.
- The log message `MeshColorCodingStage` records when ids run out at `LAST_COLOR_CODING_ID` is not modelled. The model keeps the id at the last value, as the code does, so the next render breaks the stage's own assertion.
- Nodes: the recursive traversal and the deletion of a subtree carry a `fuel` bound on the depth of the tree, and the notification of the ancestors carries a `depth` bound on the way up (`Nodes.Rooted`). The lemmas hold for trees within those bounds. A cyclic graph, which `attachChild` does not exclude beyond self-attachment, is not covered.
- RenderStates.RenderState.Destroy states that OpenGL holds the parent's settings whenever it held this state's settings. It does not state the exact sequence of the eight settings handed over. `RenderState::commit`, which hands every setting over again, is not modelled.
- Acquired video resources are numbered handles. What `acquireVideoResource` returns, including a null resource, is not modelled. ManagedMesh's `ManagedMeshInterface` is represented only by its effect: a count that goes up before the mesh is acquired and down after it is released.
- The acquisition count of `GeometryFeature` is inferred from its uses in VideoResourceManager.h and ManagedMesh.cpp: it goes up before an acquisition and down after a release. GeometryFeature.cpp is not part of this model.
- `Patient::put`, `Study::put` and `Series::put` are modelled as appending, which is the order saveIndex writes. The Patient, Study and Series headers are not part of this model.
- DefaultVolumeRenderers.DefaultVolumeRenderer.constructor takes the crop bounds 0 and 1 and the sample count as given, because their initialisation is not part of this model. The unit-interval range of the bounds follows the documented postconditions of VolumeRenderer.h.
- HUV.h is not part of this model. HU values are integers in [-1024, 3071], the range the code asserts.
- Getters that only return a field are not separate members; the field is read directly. Examples are `isMaskTextureInvalidated`, `getPatients`, `controller()`, `rawController()` and `width()`.

## Findings

| source | as written | input that shows it | evidently intended | confidence | as-written member | corrected member |
|---|---|---|---|---|---|---|
| include/LibCarna/base/Renderable.h:173-185 | `VideoResourcesOrder` returns false for features that share a video resource and otherwise compares addresses; that is not a strict weak order | three features a, b, c with addresses 1, 2, 3, where only a and c share a resource: a < b and b < c, but a and c are unordered | group the renderables by shared resource, and order the groups, as the class documentation says (lines 140-160) | not executed | Renderables.VideoResourcesOrderNotTransitive | Renderables.GroupOrderStrictWeak |
| include/LibCarna/base/RenderQueue.h:247-252 | `first()` returns `renderables.front()`, whatever was polled | a queue of two renderables, polled once: `first()` returns the polled one | the element the next `poll()` returns, as documented at lines 133-140 | not executed | RenderQueues.FirstAfterPoll | RenderQueues.RenderQueue.Peek |
| include/LibCarna/base/GeometryStage.h:225-288 | `renderPass` never increments `passesRendered` | two passes after `prepareFrame`: `renderedPassesCount()` is 0 | count every pass, so only the frame's first pass rebuilds the queue and manages resources | not executed | GeometryStages.PassesNeverCounted | GeometryStages.GeometryStage.RenderPass |
| include/LibCarna/base/GeometryStage.h:237-241 | a later pass calls `updateRenderQueues` when the view transform is fixed and only rewinds when it is not, the inverse of what the stage documentation asks (include/Carna/base/RenderStage.h:115-121) and of what Carna's stage does (include/Carna/base/GeometryStage.h:178) | once passes are counted, a second pass whose view is not fixed and that sees a geometry at eye distance 2 instead of 1: the queue still carries 1 | update the queue when the view transform is not fixed | not executed | GeometryStages.StaleEyeDistance | GeometryStages.GeometryStage.RenderPass |
| include/Carna/base/GeometryStage.h:210-225 | unused features are erased from `acquiredFeatures` without deleting their video resource | a feature acquired in one frame and unused in the next: its resource is neither deleted then nor by the destructor | delete the resource before erasing the entry, as the LibCarna copy does | not executed | GeometryStages.LegacyFirstPassLeaks | GeometryStages.GeometryStage.RenderPass |
| src/base/ManagedMesh.cpp:137-140 | on the last release in a context, the map entry is erased and then read through the erased iterator | any context whose count drops to zero | read the context's info before erasing its entry, then delete it | not executed | ManagedMeshes.ReleaseEntryReadsErased | ManagedMeshes.ReleaseEntry |
| src/VolumeRenderings/MIP/MIPStage.cpp:90-96 | `removeChannel` erases the channel and then dereferences the erased iterator | channels [1, 2], remove 1: returns 2 | return the removed channel | not executed | MIPStages.RemoveChannelReturnsAnother | MIPStages.MIPStage.RemoveChannel |
| src/VolumeRenderings/DefaultVolumeRenderer.cpp:390-395 | `setRotation2D` stores `static_cast<unsigned>(angle % 360)`; a negative remainder wraps modulo 2^32, which is not a multiple of 360 | `setRotation2D(-90)`: `rotation2D()` reports 166 | store the angle in [0, 360) congruent to the argument (270) | not executed | DefaultVolumeRenderers.QuarterTurnBackwards | DefaultVolumeRenderers.DefaultVolumeRenderer.SetRotation2D |
