# framo-bridge, modelled in Dafny

framo-bridge is a Blender add-on that exports the selected objects as a GLB file and hands
it to a local preview server. Before exporting, it can lower subdivision levels, clean,
unwrap and decimate meshes, warn about materials that GLB cannot carry, and shrink textures.
It does all of this on copies and restores the user's scene by name afterwards. Intermediate
data blocks are deleted later, on a timer.

This project models that core in Dafny and proves properties of the model. There is one
module per source file:

- `ExportService`: the staged export, in `export_service.dfy`.
  - It collects mesh sources through collection instances.
  - It clamps subdivision levels and records the originals.
  - It rebinds each source to a copy of its mesh, through a hidden proxy when the source is
    not in the view layer.
  - It runs the cleaning, UV and decimation passes, warns about materials and downscales
    textures.
  - It tries the GLB export with WEBP, then AUTO, then NONE images.
  - It then restores the scene and schedules the deferred cleanup.
- `LegacyOperator`: the older export operator in `__init__.py`. It works on `TEMP_EXPORT_`
  copies and deletes them in a `finally` block. The module also holds that file's settings
  group, preset callback, reset and material-details toggle.
- Mesh reduction and repair:
  - `Decimation`, `FastDecimation`, `BmeshDecimation`, `TrimeshDecimation`, `MeshRepair`;
  - `BMeshOps`, which holds the shared bmesh clean-up sequence;
  - `Geometry`, which holds the mesh arrays and the trimesh bridges.
- Per-stage processing: `UvUnwrap`, `UvAtlas`, `MaterialCleaner`, `MaterialAnalyzer`,
  `TextureScaler`, `TextureAnalyzer`, `Images` and `AdvancedBaking`.
- Settings and operators: `Properties`, `Operators`, `ContextManagers` and `Timers`.
  `Timers` is the one-shot `bpy.app.timers` queue that fires in order of first interval.
- Packaging and maintenance: `Dependencies`, `Updater`, `Package` and `BuildZip`.
- Shared modules: `Scene` (objects by name), `Strings` and `Wrappers`.

Blender's data is a store of named objects, meshes, images and materials. Code whose
internals are not modelled is passed in as a parameter that reports success, counts or
errors. That covers:

- bmesh operators, the Decimate modifier and the UV operators;
- trimesh and Pillow;
- the glTF exporter;
- float formatting.

An operation that updates Blender data in place is a method on a class holding that data. It
is proved against a function that specifies the whole run. The properties are proved about
that function. They include:

- after a successful export and its deferred cleanup, the user's objects and hidden flags
  are as before, and so are the meshes, less the file's own unused `TEMP_DATA_` meshes;
- the legacy operator leaves the user's data unchanged on every path;
- the settings operators keep the declared property bounds;
- a formatted version parses back to itself;
- the dependency installer tries the missing packages in install order.

Where the code does something other than its comments or docstrings say, the model follows
the code:

- `replace_material_on_objects` counts replaced slots, although its docstring says objects.
- `get_subdiv_objects_for_exclusion` stops at the first SUBSURF modifier of each mesh,
  because its inner `break` sits inside the SUBSURF test.
- `export_to_web` restores subdivision levels, textures and mesh bindings only inside its
  `try`, after a successful export. An export that fails leaves the swaps in place, and
  `FailureKeepsSwaps` states this.
- The legacy settings declare `use_draco` False although the preset starts at MEDIUM, which
  switches Draco on. The model keeps the declared default.
- `get_optimal_baking_settings` raises a `KeyError` when given empty requirements. The model
  returns None instead.


## Model

| member | source | states |
|---|---|---|
| Scene.HasUvMap | processing/uv_unwrap.py:12-25 | true exactly for a MESH object whose mesh data exists and has at least one UV layer |
| Scene.AddUvLayer | processing/uv_unwrap.py:66-68 | the mesh of a mesh object ends with a UV map; only the UV layer count of that one mesh can change, and a mesh that already had a layer is untouched |
| Scene.MeshObjects | processing/uv_unwrap.py:143 | the result holds exactly the MESH objects of the input and is no longer than it |
| Scene.CollectMeshObjects | processing/uv_atlas.py:417 | the collecting loop returns exactly the mesh objects, in input order |
| Scene.Present | processing/uv_unwrap.py:94-97 | re-selection keeps exactly the saved names that still exist, never more than were saved |
| Scene.PresentAll | processing/uv_unwrap.py:94-97 | when every saved object still exists, re-selection returns the saved selection unchanged |
| Scene.Reselect | processing/decimation.py:230-237 | the re-selection loop selects exactly the still-existing saved objects, in saved order |
| Scene.FirstSubsurf | core/operators.py:40-46 | the index found is the first SUBSURF modifier, none exactly when the stack has no SUBSURF modifier |
| Geometry.Fan | trimesh_decimation.py:56-62 | a polygon of n >= 3 vertices gives n - 2 triangles of its own vertices, a triangle passes unchanged, fewer than three vertices give none |
| Geometry.FanShape | trimesh_decimation.py:60-61 | triangle i of the fan is (v0, v(i+1), v(i+2)), in that order |
| Geometry.FanPolygon | mesh_repair.py:59-67 | the per-polygon loop appends exactly the fan triangulation |
| Geometry.FanAll | trimesh_decimation.py:56-62 | the triangulated face list has n - 2 triangles per polygon of n >= 3 vertices, in polygon order |
| Geometry.TriArrayIsFan | trimesh_decimation.py:47-52 | for an all-triangle mesh the fast path (reading the polygons as an (n, 3) array) gives the same rows as the fan path |
| Geometry.RavelRow | trimesh_decimation.py:92 | row i of the face array sits at positions 3i .. 3i+2 of the flattened array |
| Geometry.WrittenLayout | trimesh_decimation.py:67-94 | the written mesh has the given vertices, one polygon per face row with loop_start 3i and loop_total 3, 3 loops per row, and each polygon's vertices are its row |
| Geometry.WrittenReadsBack | mesh_repair.py:96-124 | reading back a mesh written from a face array gives an all-triangle mesh whose triangulation is that face array |
| Geometry.ClampRatio | processing/decimation.py:197 | the ratio used lies in [0, 1]; a ratio inside it is kept, below goes to 0 and above to 1 |
| UvUnwrap.SmartUnwrap | processing/uv_unwrap.py:28-121 | succeeds exactly for a mesh object with data when the operator does not raise; an invalid object changes nothing; a valid one ends with a UV map and no other mesh changes; a raise leaves only the unwrapped object selected, active and visible |
| UvUnwrap.SmartUnwrapRestores | processing/uv_unwrap.py:93-104 | after a successful unwrap the saved selection, the saved active object and the hidden flags are exactly back when they still exist |
| UvUnwrap.SmartUvUnwrap | processing/uv_unwrap.py:46-106 | the method on the view layer, visibility flags and mesh store produces exactly the state and result of the specification |
| UvUnwrap.UnwrapPassFacts | processing/uv_unwrap.py:150-164 | unwrapped + skipped + failed equals the number of meshes looped over; meshes with UVs stay unchanged; every mesh object with data ends with a UV map |
| UvUnwrap.AllMappedAllSkipped | processing/uv_unwrap.py:151-154 | when every mesh already has a UV map all are skipped and nothing changes |
| UvUnwrap.AutoUnwrapCounts | processing/uv_unwrap.py:124-171 | the three counters add up to the number of MESH objects in the input; meshes with a UV map are untouched and all mesh objects with data end with one |
| UvUnwrap.AutoUnwrapObjects | processing/uv_unwrap.py:137-171 | the loop gives exactly the stats and state of the specification |
| UvUnwrap.UnwrapObject | processing/uv_unwrap.py:137-171 | one object advances the stats and the selection, visibility and mesh state exactly as one step of the specified pass |
| UvAtlas.UseOrderMembers | processing/uv_atlas.py:53-59 | the usage dictionary's keys are each used material exactly once, and only those |
| UvAtlas.ArgMaxFacts | processing/uv_atlas.py:66 | the chosen material is one of the keys, none is used more often, and every key before it is used strictly less (ties go to the first key) |
| UvAtlas.ArgMaxBound | processing/uv_atlas.py:66 | no key of the usage table is used by more faces than the chosen material |
| UvAtlas.ArgMaxEarliest | processing/uv_atlas.py:66 | the chosen material is a key before which every key is used by strictly fewer faces, so ties go to the first key |
| UvAtlas.PrimaryMostUsed | processing/uv_atlas.py:36-66 | none for a non-mesh or an object without slots; the most used material (first of the tied ones) when a face uses one; otherwise slot 0's material |
| UvAtlas.GetPrimaryMaterial | processing/uv_atlas.py:52-66 | the counting loop and the max return exactly the primary material |
| UvAtlas.CountMaterial | processing/uv_atlas.py:59 | one face adds one to its material's count, starting from 0, records a new material at the end of the key order, and leaves every other count |
| UvAtlas.CountUsage | processing/uv_atlas.py:52-59 | the table's keys are exactly the used materials, in the order their first face is met, and each count is the number of faces using that material |
| UvAtlas.PickMostUsed | processing/uv_atlas.py:66 | the pick over the table is the first key of the largest count |
| UvAtlas.PrimaryOrderMembers | processing/uv_atlas.py:94-97 | the group keys are each primary material once, exactly those some object has |
| UvAtlas.SizeSplit | processing/uv_atlas.py:103-109 | splitting groups by the minimum size loses and duplicates no member |
| UvAtlas.MembersPartition | processing/uv_atlas.py:92-100 | every object with a primary material is in exactly one group, and every other one goes to the single objects |
| UvAtlas.CandidatesMembers | processing/uv_atlas.py:84-90 | the objects looked at are exactly the meshes without a UV map, with their multiplicities |
| UvAtlas.GroupingPartition | processing/uv_atlas.py:69-111 | every mesh without UVs lands in exactly one returned group or among the single objects, as often as in the input, and nothing else lands anywhere |
| UvAtlas.ValidGroupsShape | processing/uv_atlas.py:103-104 | each returned group has at least the minimum size, holds in input order the meshes without UVs whose primary material is its key, and no material has two groups |
| UvAtlas.CollectByMaterial | processing/uv_atlas.py:84-100 | the first loop builds the key order, every key's members and the material-less meshes |
| UvAtlas.GroupCandidate | processing/uv_atlas.py:92-100 | one candidate goes to the end of its primary material's group or to the end of the material-less objects, keeping the loop state |
| UvAtlas.AddToGroup | processing/uv_atlas.py:94-97 | appending to an existing group keeps the key order; a new material starts a group of one at the end of the key order |
| UvAtlas.AddToExisting | processing/uv_atlas.py:97 | appending an object to the existing group of its primary material keeps the loop state |
| UvAtlas.AddAsNew | processing/uv_atlas.py:95-97 | a primary material with no group yet gets a group of that one object, at the end of the key order |
| UvAtlas.KeepLarge | processing/uv_atlas.py:103-104 | the filter keeps exactly the groups of at least the minimum size, in order |
| UvAtlas.CollectSmall | processing/uv_atlas.py:107-109 | the members of the groups below the minimum size are appended group after group |
| UvAtlas.GroupObjectsByMaterial | processing/uv_atlas.py:69-111 | the method returns exactly the valid groups and single objects of the specification |
| UvAtlas.AtlasPhaseCounts | processing/uv_atlas.py:440-473 | each group is counted once: as created when its join and pack succeed, otherwise as failed; no unwrap and no skip is counted |
| UvAtlas.AtlasPhaseContents | processing/uv_atlas.py:460-464 | the atlas objects are named after the packed groups and the atlased sources are exactly their members |
| UvAtlas.PackedExactly | processing/uv_atlas.py:451-460 | a group is packed exactly when its join and its lightmap pack both succeed |
| UvAtlas.SinglePhaseCounts | processing/uv_atlas.py:483-499 | every single object is counted once, as skipped, unwrapped or failed, and the atlas counters stay |
| UvAtlas.SinglePhaseMeshes | processing/uv_atlas.py:483-499 | a mesh no single object uses is not touched by the individual loop |
| UvAtlas.NoSharedNoSkips | processing/uv_atlas.py:484-487 | meshes without UVs that share no mesh data with another are never skipped |
| UvAtlas.AutoUnwrapCounts | processing/uv_atlas.py:375-510 | atlases_created equals the number of atlas objects and objects_in_atlases the number of atlased sources; no meshes gives the empty stats; without atlasing the three counters cover every mesh; with atlasing every group and single object is counted once and the atlases hold exactly the packed groups' members |
| UvAtlas.SinglesAreCandidates | processing/uv_atlas.py:98-109 | the single objects are meshes without UVs from the input |
| UvAtlas.AtlasingSkipsNothing | processing/uv_atlas.py:427-487 | with atlasing no single object had UVs before the pass, so none is skipped when no two of them share a mesh |
| UvAtlas.BuildAtlases | processing/uv_atlas.py:440-473 | the atlas loop returns exactly the stats of the specification |
| UvAtlas.UnwrapSingles | processing/uv_atlas.py:483-499 | the individual loop returns exactly the stats and mesh store of the specification |
| UvAtlas.AutoUnwrapWithAtlasing | processing/uv_atlas.py:407-510 | the method returns exactly the stats and mesh store of the specification |
| BMeshOps.FixText | bmesh_decimation.py:30-56 | every recorded fix is a non-empty text that cannot be read as "no issues" |
| BMeshOps.Info | bmesh_decimation.py:63 | the info string is "no issues" exactly when nothing was fixed |
| BMeshOps.LargeFaces | bmesh_decimation.py:26 | the faces to triangulate are exactly those with more than three vertices |
| BMeshOps.LooseVerts | bmesh_decimation.py:41 | the loose vertices are exactly those without a linked face |
| BMeshOps.LooseEdges | bmesh_decimation.py:42 | the loose edges are exactly those without a linked face |
| BMeshOps.TriangulatePass | bmesh_decimation.py:25-30 | the triangulation step edits the bmesh in place and records its fix or aborts with the raise, as the step function says |
| BMeshOps.DegeneratePass | bmesh_decimation.py:32-38 | dissolving degenerate edges records its fix, and a raise is ignored and changes nothing |
| BMeshOps.LoosePass | bmesh_decimation.py:40-50 | loose vertices and then loose edges, both found before either deletion, are deleted and recorded; a raise aborts |
| BMeshOps.DuplicatesPass | bmesh_decimation.py:52-58 | merging at 0.0001 records the merged count, and a raise is ignored and changes nothing |
| BMeshOps.CleanupPasses | bmesh_decimation.py:22-61 | the passes run in the fixed order triangulate, degenerate, loose, duplicates, and a raise aborts with its message leaving the bmesh part-edited |
| BMeshOps.Report | bmesh_decimation.py:63-67 | success exactly when no step raised; then "no issues" exactly when nothing was fixed; otherwise the message starts with "preprocessing failed: " |
| BmeshDecimation.PreprocessBMesh | bmesh_decimation.py:15-67 | the reported (success, info) is the report of the clean-up sequence, and on success the bmesh is what that sequence leaves |
| BmeshDecimation.PreprocessMeshSpec | bmesh_decimation.py:70-101 | an invalid object gives (False, "Invalid object") with nothing changed; otherwise the report of the clean-up, the mesh written back only on success, and no other mesh changes |
| BmeshDecimation.PreprocessMesh | bmesh_decimation.py:83-98 | the method returns and writes exactly what the specification says |
| BmeshDecimation.ModifierDecimate | bmesh_decimation.py:104-178 | succeeds exactly for a mesh object with data whose collapse at the clamped ratio does not raise; success replaces only that mesh; failure leaves the meshes; the object ends selected alone and a previous active object is made active again |
| BmeshDecimation.DecimateWithModifier | bmesh_decimation.py:116-178 | the "TempDecimate" modifier is added and applied or removed, so the stack ends as it began, and the state and result are those of the specification |
| BmeshDecimation.DecimateBmeshSpec | bmesh_decimation.py:181-217 | an invalid object gives (False, 0, 0) with nothing changed; otherwise faces_before and faces_after are the face counts before and after, and success means the collapse of the (optionally preprocessed) mesh did not raise |
| BmeshDecimation.PreprocessFailureStillDecimates | bmesh_decimation.py:202-213 | a failed preprocessing leaves the mesh and the modifier still runs: the result is that of decimating without preprocessing |
| BmeshDecimation.DecimateBmesh | bmesh_decimation.py:181-217 | the method gives exactly the state and result of the specification and leaves the modifier stack as it was |
| Decimation.NonManifoldVerts | processing/decimation.py:25 | exactly the vertices that are not manifold |
| Decimation.NonManifoldEdges | processing/decimation.py:26 | exactly the edges that are not manifold |
| Decimation.EdgesByFaces | processing/decimation.py:60-61 | exactly the edges with n linked faces, or with more than n |
| Decimation.ClassifyEdges | processing/decimation.py:60-61 | boundary edges have one linked face and interior edges more than two; no edge is in both and an edge with two faces is in neither |
| Decimation.LinkedFaces | processing/decimation.py:76-78 | the faces to delete are exactly the union of the boundary edges' linked faces |
| Decimation.StrayVerts | processing/decimation.py:87 | exactly the non-manifold vertices that have no linked face |
| Decimation.Escalate | processing/decimation.py:33-55 | a recorded full fix removed vertices at one of the tried distances and left no non-manifold edge; a recorded reduction removed vertices and left fewer non-manifold edges than before, but some |
| Decimation.EscalateNoImprovement | processing/decimation.py:34-55 | when every merge raises, the bmesh is kept and nothing is recorded |
| Decimation.NonManifoldStage | processing/decimation.py:24-93 | a manifold bmesh is left untouched with nothing recorded, and otherwise the first fix recorded is the detection of the non-manifold counts |
| Decimation.AfterMerge | processing/decimation.py:43-52 | after a full fix no edge is left to repair; after a reduction the edges are recomputed from the merged bmesh; otherwise the edges found before merging stay |
| Decimation.ManifoldPreprocessIsCleanup | processing/decimation.py:14-137 | on a manifold bmesh this file's preprocessing equals the clean-up sequence alone, as in bmesh_decimation.py |
| Decimation.MergeByDistance | processing/decimation.py:34-55 | the loop over the distances 0.001, 0.01 and 0.1 edits the bmesh and ends as the specification says |
| Decimation.RepairEdgesPass | processing/decimation.py:58-85 | interior edges are dissolved, then the faces of boundary edges deleted, each raise ignored, as the specification says |
| Decimation.StrayPass | processing/decimation.py:87-93 | the remaining stray vertices are deleted and counted, a raise ignored |
| Decimation.NonManifoldPass | processing/decimation.py:24-93 | the non-manifold repair on the bmesh is exactly the stage function |
| Decimation.PreprocessBMesh | processing/decimation.py:14-137 | (success, info) is the report of the non-manifold repair followed by the clean-up, and on success the bmesh is what they leave |
| Decimation.PreprocessMeshSpec | processing/decimation.py:140-171 | an invalid object gives (False, "Invalid object") with nothing changed; otherwise the report, the mesh written back only on success, and no other mesh changes |
| Decimation.PreprocessMesh | processing/decimation.py:153-168 | the method returns and writes exactly what the specification says |
| Decimation.ModifierDecimate | processing/decimation.py:174-267 | succeeds exactly for a mesh object with data whose collapse at the clamped ratio does not raise; only that mesh changes and only on success; after a raise the object is left selected, active and visible |
| Decimation.ModifierRestores | processing/decimation.py:230-246 | after a successful pass the saved selection, active object and hidden flags are exactly back when all saved objects still exist |
| Decimation.DecimateWithModifier | processing/decimation.py:186-267 | the modifier is added and applied or removed, so the stack ends as it began; state and result are those of the specification |
| Decimation.DecimateBmeshSpec | processing/decimation.py:433-469 | an invalid object gives (False, 0, 0) with nothing changed; otherwise the face counts before and after, and success means the collapse of the (optionally preprocessed) mesh did not raise |
| Decimation.DecimateBmesh | processing/decimation.py:433-469 | the method gives exactly the state and result of the specification |
| Decimation.ValidateMesh | processing/decimation.py:331-350 | valid exactly for an object that is a mesh with data and at least one face, and the message is empty exactly then |
| Decimation.CoerceMethod | processing/decimation.py:397-398 | 'auto' and 'trimesh' become 'bmesh'; every other name is kept |
| Decimation.DecimateObjectSpec | processing/decimation.py:353-430 | validation failure gives (False, 0, 0, msg) with nothing changed; a method other than bmesh/auto/trimesh gives (False, n, n, the unknown-method message); otherwise the bmesh result on the clamped ratio, with error_details empty exactly on success |
| Decimation.ClampedTwice | processing/decimation.py:394 | clamping twice equals clamping once, so the modifier sees the given ratio clamped into [0, 1] |
| Decimation.DecimateObject | processing/decimation.py:353-430 | the method gives exactly the state and result of the specification and leaves the modifier stack as it was |
| Decimation.AvailableMethods | processing/decimation.py:472-479 | the only available method is 'bmesh' |
| Decimation.GetDecimationInfo | processing/decimation.py:482-493 | the recommended method is among the available ones, and bmesh is available |
| Decimation.MeshesWithData | processing/decimation.py:516-517 | exactly the mesh objects with data of a collection |
| Decimation.Dedup | processing/decimation.py:519-520 | each element once, exactly the elements of the input |
| Decimation.InstanceMeshesMembers | processing/decimation.py:512-520 | the meshes reached are exactly the mesh objects with data in a collection one of the objects instances |
| Decimation.AddNewMeshes | processing/decimation.py:516-520 | the inner loop appends each mesh with data not yet collected, once |
| Decimation.AddStep | processing/decimation.py:517-520 | one step appends the object exactly when it is a mesh with data not collected before |
| Decimation.GetOriginalMeshesFromInstances | processing/decimation.py:496-522 | the result is each mesh with data of an instanced collection once, in the order first met |
| TrimeshDecimation.GetVersion | trimesh_decimation.py:28-30 | the library's version when it is installed, "Not installed" otherwise |
| TrimeshDecimation.BlenderToNumpy | trimesh_decimation.py:33-64 | the vertices are the mesh's positions and the faces are the fan triangulation of its polygons, on both the all-triangle and the fan path |
| TrimeshDecimation.NumpyToBlender | trimesh_decimation.py:67-94 | the mesh is rebuilt from the arrays and the call succeeds exactly when Blender does not raise; on a raise the mesh is left cleared; no other mesh changes |
| TrimeshDecimation.MeshAfter | trimesh_decimation.py:67-94 | an untouched mesh is kept, a rewrite gives the written mesh with one polygon per face, and a raised write leaves no vertices and no polygons |
| TrimeshDecimation.CleanTrimeshAllFail | trimesh_decimation.py:159-187 | when every clean-up call raises, the constructed mesh is simplified as it is |
| TrimeshDecimation.Trunc | trimesh_decimation.py:199 | Python's int() of a float truncates toward zero |
| TrimeshDecimation.TargetFaces | trimesh_decimation.py:199 | the target is at least 4, is 4 or the truncated product of face count and ratio, and for a ratio up to 1 and at least 4 faces never exceeds the face count |
| TrimeshDecimation.SimplifyArgs | trimesh_decimation.py:211-222 | face_count is always passed, aggression exactly when the simplifier takes it, and preserve_border only as True and only when it is taken and asked for |
| TrimeshDecimation.Fallback | trimesh_decimation.py:242-260 | the cleaned mesh is written when it has fewer faces than were read, a raise in that write leaves the mesh cleared, and otherwise the pass fails, with the mesh cleared only when an earlier write raised |
| TrimeshDecimation.SimplifyOutcome | trimesh_decimation.py:224-253 | a rewrite is never one whose write raised, and an unusable simplification result leaves the mesh alone |
| TrimeshDecimation.SimplifyAndWrite | trimesh_decimation.py:224-253 | True exactly when the inner try rewrites the mesh, and the mesh store then holds what that outcome says, with no other mesh changed |
| TrimeshDecimation.WriteFallback | trimesh_decimation.py:242-253 | True exactly when the fallback rewrites the mesh; the mesh is then the written one, is cleared when that write raised or an earlier one did, and is otherwise as it was |
| TrimeshDecimation.TrimeshPlan | trimesh_decimation.py:120-253 | no library, no vertices, no faces, a failed construction or an unusable simplification leaves the mesh alone; a usable simplification whose write succeeds is written; when simplification or its write raises, the pass falls back to the cleaned mesh with fewer faces than were read; every rewrite has faces |
| TrimeshDecimation.DecimateWithTrimesh | trimesh_decimation.py:97-260 | True exactly when the plan rewrites the mesh; the mesh is then the written one, is cleared when the last write raised, and is untouched otherwise; no other mesh changes |
| TrimeshDecimation.TrimeshWriteBack | trimesh_decimation.py:238-251 | after success the mesh holds only triangles, one polygon of three loops each with loop_start 3i, and reads back as the planned triangles |
| TrimeshDecimation.DecimateTrimeshSpec | trimesh_decimation.py:263-308 | an invalid object or no library gives (False, 0, 0) with nothing changed; otherwise success exactly when the mesh was rewritten, the count before is the polygon count, and the count after is the written face count, 0 for a cleared mesh, or the count before |
| TrimeshDecimation.DecimateTrimesh | trimesh_decimation.py:263-308 | the method gives exactly the mesh store and result of the specification |
| MeshRepair.Convert | mesh_repair.py:34-93 | a mesh is converted exactly when the library is present, it has vertices and polygons, the fan triangulation yields a triangle and construction does not raise; the result is the constructed mesh of the positions and the triangles |
| MeshRepair.TriangulateFaces | mesh_repair.py:58-67 | the face loop returns exactly the fan triangulation |
| MeshRepair.BlenderMeshToTrimesh | mesh_repair.py:34-93 | the method returns exactly the conversion of the specification |
| MeshRepair.TrimeshToBlenderMesh | mesh_repair.py:96-129 | True exactly when Blender does not raise, with the named mesh rebuilt from the vertices and faces; on False the mesh is left cleared; no other mesh changes |
| MeshRepair.AfterRepair | mesh_repair.py:96-129 | no attempted write-back leaves the meshes as they were; an attempted one sets only the named mesh, to the written mesh when Blender does not raise and to a cleared mesh when it does |
| MeshRepair.RejectedMergeKeepsMutated | mesh_repair.py:143-387 | for any merge result repair_mesh rejects (an in-place merge leaving a face index past the vertices, or a returned mesh that is empty or fails the same check), the step as written goes on with the object the merge changed, while the corrected step goes on with the mesh as it was |
| MeshRepair.MergeFallbackKeepsMutated | mesh_repair.py:143-165 | with a merge that empties the mesh in place, the step as written keeps the emptied mesh while the corrected step keeps the mesh as it was |
| MeshRepair.RemoveDuplicateVertices | mesh_repair.py:132-165 | a result other than the input has vertices |
| MeshRepair.DupVertsStep | mesh_repair.py:356-389 | the step returns the mesh as it was or an adoptable mesh, and adopts the merge result whenever it has vertices and valid face indices |
| MeshRepair.InPlaceMergeAgrees | mesh_repair.py:143-151 | an in-place merge leaving an adoptable mesh gives the same step as written and corrected |
| MeshRepair.NormalsStep | mesh_repair.py:203-221 | without networkx the normals step changes nothing |
| MeshRepair.HolesStep | mesh_repair.py:223-241 | without networkx hole filling changes nothing |
| MeshRepair.WatertightStep | mesh_repair.py:257-279 | without networkx or for a watertight mesh nothing changes; otherwise holes are filled |
| MeshRepair.WithArea | mesh_repair.py:409-413 | the kept faces are exactly the faces with area above 1e-10, in order; the list is unchanged exactly when every face has area, and otherwise strictly shorter |
| MeshRepair.DegenerateStep | mesh_repair.py:406-424 | fails with "All faces were degenerate - cannot repair" only when every face was degenerate; a mesh it cannot measure is kept; a change rebuilds the mesh from the faces with area, fewer but some |
| MeshRepair.Repairs | mesh_repair.py:355-442 | only the degenerate-face step can stop the chain, and only when its flag is set |
| MeshRepair.NoFlagsNoRepairs | mesh_repair.py:355-442 | with every flag off no repair runs |
| MeshRepair.RepairConverted | mesh_repair.py:347-467 | success exactly when a repaired mesh and stats are returned; the stats hold the counts before and after with the removed numbers as differences; an empty result fails with "Mesh became invalid during repair" and a faceless one with "Mesh has no faces after repair" |
| MeshRepair.RepairMeshSpec | mesh_repair.py:310-473 | no library fails with "Trimesh not available", a failed conversion with "Failed to convert mesh"; otherwise the converted mesh is repaired, and a repair whose write-back raises turns into False with only the counts before; success exactly when a write-back was attempted and did not raise, and exactly when full stats are returned |
| MeshRepair.NoFlagsRemoveNothing | mesh_repair.py:458-462 | with every flag off a successful repair removes no vertex and no face |
| MeshRepair.RepairWriteBack | mesh_repair.py:454-455 | after success the Blender mesh holds only triangles, one polygon of three loops per repaired face, and reads back as exactly the repaired faces |
| MeshRepair.RunEarlyRepairs | mesh_repair.py:356-404 | the first four flag-guarded steps give exactly the specification's mesh |
| MeshRepair.RunLateRepairs | mesh_repair.py:426-442 | hole filling and watertightness give exactly the specification's mesh |
| MeshRepair.RepairTrimesh | mesh_repair.py:347-467 | the step-by-step reassignment of the mesh gives exactly the specification's result |
| MeshRepair.RepairMesh | mesh_repair.py:310-473 | the result is the specification's; the mesh is rewritten on success, cleared when the write-back raised, and untouched on every other failure |
| MeshRepair.ValidateRepairTarget | mesh_repair.py:488-505 | the message is empty exactly for a mesh object with data, vertices and faces |
| MeshRepair.RepairObjectSpec | mesh_repair.py:476-517 | a rejected object gives (False, {'error': message}) with nothing changed; success means repair_mesh succeeded on its mesh, which is rewritten; a failure either changes nothing and reports an error or, when the write-back raised, leaves the mesh cleared with the counts before |
| MeshRepair.RepairObject | mesh_repair.py:476-517 | the method gives exactly the mesh store and result of the specification |
| FastDecimation.ResolveMethod | fast_decimation.py:141-149 | 'auto' becomes 'trimesh' exactly when the library is available and 'bmesh' otherwise; any other name is kept |
| FastDecimation.FastDecimateSpec | fast_decimation.py:94-195 | validation failure gives (False, 0, 0, msg) before anything else; trimesh asked for without the library gives (False, n, n, "Trimesh library not installed") and an unknown method (False, n, n, "Unknown decimation method: '<m>'"), both changing nothing; otherwise the chosen pass runs at the clamped ratio and error_details is empty exactly on success |
| FastDecimation.AutoIsResolved | fast_decimation.py:141-149 | 'auto' behaves exactly as naming the method it resolves to |
| FastDecimation.FastDecimateObject | fast_decimation.py:94-195 | the method gives exactly the state and result of the specification and leaves the modifier stack as it was |
| FastDecimation.AvailableMethods | fast_decimation.py:198-212 | 'bmesh' always comes last, and 'trimesh' is listed (first) exactly when the library is available |
| FastDecimation.GetDecimationInfo | fast_decimation.py:215-228 | the recommended method is the first available one, trimesh exactly when it is installed, with the library's version |
| MaterialCleaner.UsedIndices | processing/material_cleaner.py:12-32 | empty for an object that is not a mesh with data; otherwise exactly the material indices the faces carry |
| MaterialCleaner.PartitionEntries | processing/material_cleaner.py:68-77 | every slot index is listed once: the used list holds the indices the faces carry, the unused list the others, each entry named after its slot's material or '<empty>' |
| MaterialCleaner.PartitionAscending | processing/material_cleaner.py:68-77 | both lists are in ascending slot order |
| MaterialCleaner.PartitionCovers | processing/material_cleaner.py:68-77 | no slot index is missing from both lists |
| MaterialCleaner.AnalyzeMaterialUsage | processing/material_cleaner.py:35-79 | the empty result for a non-mesh; otherwise the slot count, the face count and the used/unused partition of the slots |
| MaterialCleaner.KeepRun | processing/material_cleaner.py:135-136 | a run of used slots survives the pops whole |
| MaterialCleaner.KeepMatchesUsed | processing/material_cleaner.py:123-136 | the slots left after removal are those of the used list, in its order |
| MaterialCleaner.SlotList.Pop | processing/material_cleaner.py:136 | materials.pop(index) removes exactly that slot and keeps the others in order |
| MaterialCleaner.RemoveUnusedMaterials | processing/material_cleaner.py:82-144 | a non-mesh fails untouched; otherwise success, the removed names are the unused slots' names, removed + kept is the slot count, a dry run or a fully used object keeps every slot, and a real run leaves exactly the used slots in order; the result is the per-branch `RemovalOf` and the slots `SlotsAfter` |
| MaterialCleaner.PopUnused | processing/material_cleaner.py:135-136 | popping the unused indices from the highest down leaves exactly the used slots in their order |
| MaterialCleaner.PopStep | processing/material_cleaner.py:135-136 | popping an unused slot below a run of used slots extends the kept suffix |
| MaterialCleaner.GapUsed | processing/material_cleaner.py:123-136 | between two consecutive unused indices every slot index is in use |
| MaterialCleaner.CleanMaterialsBatch | processing/material_cleaner.py:147-183 | total_objects is the input count, one result per mesh object in order, total_removed and cleaned_objects are the sum and count of the per-object removals; for a mesh whose slot list no other object shares the result is what `remove_unused_materials` returns on its old slots, and its slots become the used ones in order on a real run and stay as they were on a dry run; a non-mesh object's slots are untouched |
| MaterialCleaner.CleanAt | processing/material_cleaner.py:169-181 | one object of the batch loop: the results and slots so far extend by that object's removal and new slots, and every other list keeps its slots |
| MaterialAnalyzer.UnlistedTypes | material_analyzer.py:12-80 | the output, group, mix-shader and bump types and every type not named are on none of the seven lists |
| MaterialAnalyzer.SupportListsDisjoint | material_analyzer.py:117-131 | no node type is both supported and unsupported |
| MaterialAnalyzer.InputsOf | material_analyzer.py:97-100 | the nodes linked into a node are exactly the sources of its incoming links |
| MaterialAnalyzer.OutputsOf | material_analyzer.py:103-106 | the nodes a node links into are exactly the targets of its outgoing links |
| MaterialAnalyzer.ReachableStep | material_analyzer.py:97-106 | following one link, in either direction, from a reachable node reaches another |
| MaterialAnalyzer.ClosedHoldsReachable | material_analyzer.py:91-106 | a set holding the start and closed under links holds every node reachable from the start |
| MaterialAnalyzer.Traverse | material_analyzer.py:91-106 | the recursive walk keeps visited and the output list in agreement, adds only reachable nodes, each once, and leaves no finished node with an unfollowed link |
| MaterialAnalyzer.FindNode | material_analyzer.py:110 | the first node of that name, or None when no node has it |
| MaterialAnalyzer.AllNodesInTree | material_analyzer.py:83-114 | empty without a material, nodes, a tree or a Material Output node; otherwise every node reachable from Material Output along links in either direction, each exactly once |
| MaterialAnalyzer.HasUdimPattern | material_analyzer.py:143-146 | true exactly when `_`, four digits and `.` occur at some position |
| MaterialAnalyzer.UdimExamples | material_analyzer.py:134-146 | an image texture named wood_1001.png is UDIM; three digits, or a node that is not an image texture, is not |
| MaterialAnalyzer.PrincipledInputs | material_analyzer.py:149-164 | the Principled BSDF sources counted among a node's incoming links never exceed the links |
| MaterialAnalyzer.FirstLinkInto | material_analyzer.py:212-221 | the source of a link into the named socket, or None when no such link exists |
| MaterialAnalyzer.ShaderEntry | material_analyzer.py:259-280 | a node of the loop yields an unsupported-shader entry exactly when its type is not supported |
| MaterialAnalyzer.CollectEmpty | material_analyzer.py:259-296 | a classifier yields nothing over the loop exactly when it yields nothing for every node not skipped |
| MaterialAnalyzer.Bullets | material_analyzer.py:298-321 | one bullet line per item |
| MaterialAnalyzer.ClassifyNodes | material_analyzer.py:244-296 | the loop fills the five lists with exactly the entries of their classifiers over the collected nodes, in traversal order |
| MaterialAnalyzer.ClassifyNode | material_analyzer.py:259-296 | one node adds nothing when it is the output or the surface shader; otherwise its entry to each list whose classifier accepts it, UDIM image textures and complex mix shaders by name |
| MaterialAnalyzer.IssueLines | material_analyzer.py:298-321 | no issue lines exactly when the four blocking lists are all empty |
| MaterialAnalyzer.AnalyzeMaterialReadiness | material_analyzer.py:167-331 | is_ready holds exactly when there are no issues, and exactly when the material has nodes, a tree, an output node with a linked Surface, a supported surface shader and only supported nodes reachable; each early return yields its own heading and bullet; with a linked Surface input the issue lines and warnings are exactly those `TreeReport` gives for the order in which the traversal met the reachable nodes |
| MaterialAnalyzer.AnalyzeSurfaceTree | material_analyzer.py:222-331 | once the surface shader is found, is_ready holds exactly when there are no issues and exactly when the material is ready; for some duplicate-free order of exactly the reachable nodes, the issues are the four blocks (the surface shader's own entry first) and the warnings are the Volume, UDIM and more-than-20-nodes warnings in that order |
| MaterialAnalyzer.MainShaderEntry | material_analyzer.py:225-235 | the surface shader puts an entry on the unsupported-shader list exactly when it is not Principled BSDF or Emission, described with '(Group Node)' for a group |
| MaterialAnalyzer.SurfaceWarnings | material_analyzer.py:238-329 | at most three warnings, none exactly when the Volume input is unlinked, no UDIM texture is met and at most 20 nodes are reachable; the Volume warning comes first |
| MaterialAnalyzer.TreeWarnings | material_analyzer.py:238-329 | the appended warnings are exactly SurfaceWarnings for the traversal's nodes |
| MaterialAnalyzer.SurfaceIssues | material_analyzer.py:225-315 | with the surface shader found, ready holds exactly when there are no issue lines and exactly when the material is ready; the collected nodes are exactly those reachable from the output, and the UDIM names those of the node loop; the node list has no duplicates and the issue lines are exactly `SurfaceIssueLines` of the node loop's four lists |
| MaterialAnalyzer.IssuesIffNotReady | material_analyzer.py:224-321 | the issue lines are empty exactly when the surface shader is supported and every reachable node outside the skipped ones is supported |
| MaterialAnalyzer.ReadyUnfold | material_analyzer.py:224-296 | readiness, unfolded for a material whose Surface input is linked |
| MaterialAnalyzer.ShaderEntriesIffSupported | material_analyzer.py:259-280 | the unsupported-shader list is empty exactly when every reachable node not skipped is supported |
| MaterialAnalyzer.ProceduralNeedsUnsupported | material_analyzer.py:270-284 | a procedural-texture entry always comes with an unsupported-shader entry |
| MaterialAnalyzer.UtilityNeedsUnsupported | material_analyzer.py:270-288 | an unsupported-utility entry always comes with an unsupported-shader entry |
| MaterialAnalyzer.MixesNeedUnsupported | material_analyzer.py:270-296 | a complex-mix entry always comes with an unsupported-shader entry, since the mix shader is on no list |
| MaterialAnalyzer.SlotMaterials | material_analyzer.py:353-355 | the materials present in an object's slots, none omitted |
| MaterialAnalyzer.MeshMaterials | material_analyzer.py:360-364 | the slot materials of the mesh objects with data in the instanced collection |
| MaterialAnalyzer.MaterialsToAnalyze | material_analyzer.py:334-369 | empty with nothing selected; otherwise a material is included exactly when some selected mesh holds it in a slot or some selected collection-instance empty's collection has a mesh that does |
| MaterialAnalyzer.ValidMaterials | material_analyzer.py:372-386 | the materials to analyse that are ready, in their order: a material is kept exactly when it is listed and ready, and the list never grows |
| MaterialAnalyzer.FilterFacts | material_analyzer.py:379-386 | the loop keeps exactly the names it accepts, and never more names than it was given |
| MaterialAnalyzer.ReplaceSlots | material_analyzer.py:403-406 | same length; every slot holding the old material holds the new one, the others unchanged |
| MaterialAnalyzer.CountSlots | material_analyzer.py:403-406 | zero exactly when the material is in no slot, never more than the slots |
| MaterialAnalyzer.ReplaceInSlots | material_analyzer.py:403-406 | the loop repoints exactly the old material's slots and counts them |
| MaterialAnalyzer.ReplaceMaterialOnObjects | material_analyzer.py:389-408 | nothing changes and the count is 0 when either material is missing; otherwise the selection, or all scene objects without one, have each old slot repointed, the count is the number of such slots, and no scanned mesh keeps the old material |
| AdvancedBaking.ProceduralCountBounds | advanced_baking.py:321-325 | the procedural count never exceeds the node count and is zero exactly when there is no Noise, Voronoi or Musgrave node |
| AdvancedBaking.RequirementsResolution | advanced_baking.py:313-342 | 2048 exactly when high resolution is needed, 1024 otherwise; high resolution exactly when more than three procedural nodes or complex normals; complex normals exactly when a Bump or Normal Map node is in a node tree in use |
| AdvancedBaking.AnalyzeBakingRequirements | advanced_baking.py:308-342 | empty without a slot-0 material; otherwise the requirements computed over that material's nodes |
| AdvancedBaking.ScanNodes | advanced_baking.py:323-331 | the loop counts exactly the Noise, Voronoi and Musgrave nodes and flags a bump or normal-map node exactly when the tree has one |
| AdvancedBaking.OptimalBakingSettings | advanced_baking.py:413-423 | none exactly where the requirements are empty; otherwise the recommended resolution, 64 samples exactly for high resolution (else 32) and margin 4 exactly for complex normals (else 2) |
| AdvancedBaking.OptimalSettingsHighRes | advanced_baking.py:315-340 | for a node material: 64 samples exactly when more than three procedural nodes or a bump/normal-map node, 2048 exactly with 64 samples, margin 4 exactly with a bump/normal-map node |
| AdvancedBaking.CopiedLinksSound | advanced_baking.py:121-132 | every copied link is a source link between two copied nodes that the target accepts, re-attached to the first input of its socket name on the target node |
| AdvancedBaking.FirstInputNamed | advanced_baking.py:126-129 | the position of the first input with the socket name, or none exactly when no input has it |
| AdvancedBaking.CopiedLinksComplete | advanced_baking.py:121-132 | when every source link joins copied nodes, is accepted and already ends at the first input of its socket name, all links are copied unchanged and in order |
| AdvancedBaking.CopiedTreeFaithful | advanced_baking.py:106-150 | the copy has the same nodes, names, types and input counts; input by input, a linked position is left at the new node's default and an unlinked one keeps its default; it links only what the source linked, each link ending at the first input of its name, and all links unchanged when every one is accepted and already ends there |
| AdvancedBaking.CopyNodeProperties | advanced_baking.py:134-150 | the loop over input positions gives the specified inputs: each unlinked position keeps its default, each linked one is left at the new node's default |
| AdvancedBaking.CopyNodes | advanced_baking.py:110-119 | the node loop creates every source node in order with its type, its image for an image texture and its copied inputs, and maps exactly the source node names |
| AdvancedBaking.CopyNodeNetwork | advanced_baking.py:106-132 | the target tree is the specified copy of the source network |
| AdvancedBaking.InputRecordsExactly | advanced_baking.py:44-48 | a name is recorded exactly when some unlinked input position has it, and its value is the default of the last unlinked input of that name |
| AdvancedBaking.InputRecordsCover | advanced_baking.py:44-48 | the name of every unlinked input is recorded |
| AdvancedBaking.InputRecordsLast | advanced_baking.py:44-48 | a recorded name holds the default of an unlinked input of that name after which every input of that name is linked |
| AdvancedBaking.NodeRecordsExactly | advanced_baking.py:35-48 | every node is recorded under its name, with the record of a node of that name |
| AdvancedBaking.MaterialBackup.BackupMaterial | advanced_baking.py:22-57 | the backups become those specified: unchanged without a node tree in use, otherwise a fresh record of the material's nodes and links and every other backup kept |
| AdvancedBaking.FirstPrincipled | advanced_baking.py:81-86 | the index of the first Principled BSDF node, or none when there is none |
| AdvancedBaking.IsolationMaterial | advanced_baking.py:75-104 | made exactly for a node material with a Principled BSDF; then named TEMP_BAKE_<channel>_<name>, or a fresh variant when that is taken, node-based and holding the copied network |
| AdvancedBaking.TempMaterialName | advanced_baking.py:94-95 | the name given to the new material is not yet taken, begins with TEMP_BAKE_<channel>_<name>, and is exactly that when it is free |
| AdvancedBaking.SetFirstSlot | advanced_baking.py:227 | slot 0 of that object set, every other slot and object unchanged |
| AdvancedBaking.RemoveMaterial | advanced_baking.py:245 | the material leaves the store and every slot that held it becomes empty |
| AdvancedBaking.Restore | advanced_baking.py:236-247 | a recorded object gets its original back in slot 0, the temporary material is removed and the record dropped; otherwise nothing changes; shapes and consistency are kept |
| AdvancedBaking.ApplyRecords | advanced_baking.py:213-234 | nothing changes without an isolation material; otherwise the new material, under a name not yet in use, is added; a raising setup leaves it there with no record and slots unchanged; otherwise the record remembers the slot-0 material and the temporary one, which now fills slot 0 |
| AdvancedBaking.ApplyRestoreRoundTrip | advanced_baking.py:213-247 | for an object without a record whose slots name existing materials, applying and then restoring gives back the state before, except that the temporary material stays behind when its setup raised |
| AdvancedBaking.RestoreUndoesApply | advanced_baking.py:236-247 | restoring an object whose slot 0 was given a fresh material, recorded with the material it held, gives back the state before |
| AdvancedBaking.ChannelIsolator.ApplyIsolationMaterial | advanced_baking.py:213-234 | the new state and name are those of the specification, the raise is reported exactly when a material was made and its setup raised, and the slot-0 material is backed up first when there is one |
| AdvancedBaking.ChannelIsolator.RestoreOriginalMaterial | advanced_baking.py:236-247 | the new state is the specified restore |
| AdvancedBaking.ChannelIsolator.CleanupAll | advanced_baking.py:249-255 | the new state restores, in record order, each recorded object that still exists |
| AdvancedBaking.ChannelIsolator.CleanupAt | advanced_baking.py:251-255 | one record of the loop: the state advances from the clean-up of the records before it to the clean-up including it |
| AdvancedBaking.CleanedUp | advanced_baking.py:249-255 | cleaning up keeps the objects, their slot counts and consistency |
| AdvancedBaking.CleanedUpRecords | advanced_baking.py:249-255 | exactly the records of listed objects that still exist are dropped |
| AdvancedBaking.CleanupKeepsVanished | advanced_baking.py:249-255 | after cleanup the only records left are those of vanished objects, untouched |
| AdvancedBaking.AdaptiveBaker.BakeChannelWithIsolation | advanced_baking.py:344-407 | whether the setup raises and whether the bake succeeds, returns None or raises, the object ends without a record and the state is the apply followed by the restore; an image name is returned only when an isolation material was made and nothing raised |
| AdvancedBaking.AdaptiveBaker.Cleanup | advanced_baking.py:409-411 | the new state is the specified cleanup of every record |
| Images.TextureSize | texture_scaler.py:83-99 | (width, height) of an image, (0, 0) without one |
| Images.ScaledSideFits | texture_scaler.py:164-167 | a side scaled by target/longest is between 1 and the target, at least target-1 for the longest side, and within one of the exact quotient unless raised to 1 |
| Images.ScaledSizeFits | texture_scaler.py:296-299 | the downscaled size keeps both sides between 1 and the target, with the longer side at least target-1 |
| Images.TextureImages | texture_scaler.py:409-414 | the images shown by a material's image-texture nodes, none without a node tree in use |
| Images.Repoint | texture_scaler.py:407-414 | a material without a node tree in use is unchanged; otherwise each image-texture node showing the old image shows the new one, every other node and all links unchanged |
| Images.RepointRemoves | texture_scaler.py:409-414 | after repointing the old image is shown nowhere, and the new one takes its place among the material's images |
| Images.RepointReversal | texture_scaler.py:407-414 | repointing to a fresh copy and back restores the material |
| Images.RepointMap | texture_scaler.py:407-414 | every target material repointed, the others unchanged, no material added or lost |
| Images.RepointMapEmpty | texture_analyzer.py:631-633 | with no target materials nothing changes |
| Images.RepointMapRemoves | texture_scaler.py:407-414 | no target material shows the old image; the other materials are untouched |
| Images.ImagesOf | texture_analyzer.py:64-73 | the images shown by the named materials of the store |
| Images.NameSetMembers | texture_scaler.py:564-567 | the name set holds exactly the names of the listed images |
| Images.MaterialStore.RepointAll | texture_scaler.py:407-414 | the materials become every target repointed and the rest unchanged |
| TextureScaler.ImageSettings.Restore | texture_scaler.py:66-80 | all five render fields hold the saved values |
| TextureScaler.ImageSettings.Configure | texture_scaler.py:188-200 | the render fields become those configured for the chosen format: quality and RGB for JPEG, compression min(100, quality) and the alpha colour mode for PNG, quality for WEBP |
| TextureScaler.HasTransparency | texture_scaler.py:102-122 | true exactly for an image with four channels |
| TextureScaler.ChooseFormat | texture_scaler.py:175-185 | the chosen format keeps the alpha channel and can be written; it is the requested one whenever that already holds, else PNG or JPEG, and JPEG only for an opaque image |
| TextureScaler.CompressResult | texture_scaler.py:125-264 | 'Image is None' without an image; an image exactly when the dimensions are valid and the save-and-reload succeeds, an error otherwise; the copy is named after the original and is scaled into the maximum dimension only when a side exceeds it, else keeps the size |
| TextureScaler.CompressImageNative | texture_scaler.py:125-264 | the result is the specified one; the render settings are back as before unless the kernel raised after configuring them, in which case they stay configured |
| TextureScaler.ScaleResult | texture_scaler.py:267-319 | a copy named <name>_Scaled exactly when the image is valid, its longest side is above the target and the copy succeeds; the copy's sides lie in [1, target] with the longest at least target-1 |
| TextureScaler.GetAllTextureImages | texture_scaler.py:322-370 | none without a selection; otherwise exactly the images shown by the non-excluded materials of the selected meshes and of the meshes in selected collection instances |
| TextureScaler.ReplaceImageInMaterials | texture_scaler.py:373-414 | the selection's materials, collection instances included, show the new image where they showed the old one; all other materials unchanged |
| TextureScaler.ProcessImage | texture_scaler.py:463-531 | one loop iteration: the counts and the materials advance as specified, and the render settings are unchanged unless a compression kernel raised |
| TextureScaler.MakeCopy | texture_scaler.py:479-516 | a copy is made exactly when the specified outcome is a made copy, flagged scaled and compressed as the branch taken; an error exactly when the outcome is a failure, with its message; the render settings change only when a compression kernel raised |
| TextureScaler.ProcessAt | texture_scaler.py:462-531 | one image advances the summary and the materials from those of the images before it to those of the images up to it |
| TextureScaler.ProcessImagesNative | texture_scaler.py:461-531 | the loop over the images: the result is the summary of all of them, the materials are swapped as specified, and the render settings are as before when no compression kernel raised |
| TextureScaler.PrefixStep | texture_scaler.py:461-531 | the summary and the materials after one more image are one step of the loop body applied to those before it |
| TextureScaler.ProcessTexturesNative | texture_scaler.py:417-534 | for `images` listing each texture image of the selection once (`get_all_texture_images`), the result and the materials are the specified fold over them; processed + errors never exceed the number of those images, every processed name is one of them, and the render settings are as before when no compression kernel raised |
| TextureScaler.SkipsSmallWithoutCompression | texture_scaler.py:468-474 | with compression off, an image within the target is skipped |
| TextureScaler.SummaryCounts | texture_scaler.py:452-534 | processed counts the distinct processed images, each one of the input; scaled and compressed never exceed processed; with compression on everything processed was compressed, with it off nothing was and everything processed was scaled; processed plus errors never exceed the images |
| TextureScaler.SummaryTallies | texture_scaler.py:479-531 | scaled and compressed never exceed processed; compressing counts every copy as compressed, only scaling counts every copy as scaled and none as compressed; processed plus errors never exceed the images |
| TextureScaler.SummaryNames | texture_scaler.py:519-523 | with distinct image names, processed is the number of entries of processed_images, each keyed by the name of an input image |
| TextureScaler.AboveFixedMembers | texture_scaler.py:564-571 | the flagged names are exactly the images above 1024 pixels on their longest side |
| TextureScaler.AnalyzeTexturesNative | texture_scaler.py:537-573 | for `images` listing each texture image of the selection once, total is the number of those images and the recorded sizes are keyed by exactly them; the flagged list uses a fixed 1024, webp support follows the major version, and every image's size and alpha flag are recorded |
| TextureScaler.AnalyzeImagesNative | texture_scaler.py:562-573 | the loop over distinctly named images: total is the image count, the flagged list uses a fixed 1024, and each image's size and alpha flag are recorded under its name |
| TextureAnalyzer.IsTextureAbove1k | texture_analyzer.py:98-109 | true exactly when an image has a side above 1024 |
| TextureAnalyzer.GetMaxDimension | texture_analyzer.py:112-123 | the longer side, 0 without an image |
| TextureAnalyzer.Above1kIsMaxAbove | texture_analyzer.py:98-123 | an image is above 1k exactly when its longest side exceeds 1024 |
| TextureAnalyzer.PixelLayout | texture_analyzer.py:177-186 | RGBA as PNG exactly when the buffer holds four floats per pixel, RGB as JPEG exactly for three, rejected otherwise |
| TextureAnalyzer.CreateScaledCopy | texture_analyzer.py:126-234 | a copy exactly when an image is given, Pillow is available, the dimensions are valid, the longest side is above the target, the pixel buffer has a known layout and the kernel succeeds; the copy is <name>_Scaled with sides in [1, target] and the longest at least target-1 |
| TextureAnalyzer.SelectedMaterials | texture_analyzer.py:47-60 | the non-excluded slot materials of the selected meshes |
| TextureAnalyzer.GetAllTextureImages | texture_analyzer.py:29-75 | none without a selection; otherwise exactly the images shown by the non-excluded materials of selected meshes, collection instances not looked into |
| TextureAnalyzer.ReplaceImageInMaterials | texture_analyzer.py:621-657 | the selected meshes' materials show the new image where they showed the old one; nothing changes without a selection |
| TextureAnalyzer.AnalyzeTextures | texture_analyzer.py:283-324 | for `images` listing each texture image of the selection once, total is the number of those images and the sizes are keyed by exactly them; the two lists are those specified in iteration order |
| TextureAnalyzer.AnalyzeImages | texture_analyzer.py:310-324 | the loop over distinct images: total is the image count, the two lists are those specified in iteration order, and every image's size is recorded |
| TextureAnalyzer.AnalysisLists | texture_analyzer.py:310-322 | every image above 1k needs processing; an image needs processing exactly when it is above 1k or has a non-JPEG file |
| TextureAnalyzer.ProcessTextures | texture_analyzer.py:327-394 | for `images` listing each texture image of the selection once, the result and the materials are the specified fold over them; processed + errors never exceed the number of those images and every scaled copy is of one of them |
| TextureAnalyzer.ProcessImages | texture_analyzer.py:356-394 | the loop over the images: the result and the materials are the specified fold |
| TextureAnalyzer.SummaryCounts | texture_analyzer.py:357-394 | scaled and processed both equal the number of copies; processed plus errors never exceed the images; with scaling off nothing is processed and there are no errors |
| TextureAnalyzer.SummaryKeys | texture_analyzer.py:378-381 | every scaled copy is keyed by an input image |
| ExportService.MarkInstance | services/export_service.py:58-59 | marking an object reached through an instance keeps the collection invariant |
| ExportService.MarkSeen | services/export_service.py:61-66 | seeing a new object adds it to the processed set, and to the sources when it is a mesh, keeping the invariant |
| ExportService.FinishPending | services/export_service.py:68-69 | once an empty's collection has been collected and marked, the empty is no longer pending |
| ExportService.CollectOne | services/export_service.py:57-69 | one object of the loop: afterwards it is processed, an object reached through an instance is an instance source even when already seen, and the invariant holds |
| ExportService.CollectRecursive | services/export_service.py:56-69 | every listed object is processed, all of them instance sources when coming from an instance, and the invariant holds |
| ExportService.CollectSources | services/export_service.py:40-71 | every selected object is processed; the processed set is exactly the selection closed under collection instances; the instance sources are exactly the objects of instanced collections; the sources are exactly the processed meshes, each once |
| ExportService.LastIndexOfName | services/export_service.py:80-81 | the last position holding a name, the entry a dictionary built in order keeps; none when the name is absent |
| ExportService.ClampModifier | services/export_service.py:87-105 | only SUBSURF modifiers above the override change; name and type kept; the viewport level becomes min(level, override) and the effective render level min(effective, override) for a positive override; neither level rises |
| ExportService.ClampAll | services/export_service.py:87-105 | every modifier of the stack clamped, positions kept |
| ExportService.Records | services/export_service.py:96-99 | at most one record per modifier, each naming the object and a modifier of its stack |
| ExportService.SubdivPass | services/export_service.py:75-105 | only the modifiers of listed sources change, no object is added or lost, and every record names a source |
| ExportService.ClampObject | services/export_service.py:87-105 | the inner loop yields the clamped stack and the records of the specification |
| ExportService.ClampOne | services/export_service.py:88-105 | a SUBSURF modifier above the override yields one record of its original levels and is clamped; any other modifier is left alone and yields none |
| ExportService.ApplySubdivOverride | services/export_service.py:75-105 | the objects and records become those of the specified pass, all else unchanged |
| ExportService.ModifierIndex | services/export_service.py:423-424 | the first modifier with the name, or none when no modifier has it |
| ExportService.RestoreMod | services/export_service.py:423-428 | putting one record back keeps the stack's modifier names |
| ExportService.RestoreMods | services/export_service.py:422-428 | putting records back keeps the stack's modifier names |
| ExportService.RestoreRecord | services/export_service.py:422-430 | a record touches only its own object, and nothing when that object is gone |
| ExportService.RestoreSubdiv | services/export_service.py:412-430 | no object added or lost, and objects without records unchanged |
| ExportService.RestoreSubdivLevels | services/export_service.py:412-430 | the objects become the specified restore, all else unchanged |
| ExportService.RestoreOne | services/export_service.py:421-430 | one record restores the levels of the named modifier of the named object, if both still exist, and changes nothing else |
| ExportService.RecordsOriginal | services/export_service.py:96-99 | each record carries the original levels of a modifier the override changed |
| ExportService.RecordsComplete | services/export_service.py:93-99 | every modifier the override changes is recorded |
| ExportService.RestoreLast | services/export_service.py:87-105 | the record of the last modifier undoes its clamp on the overridden stack |
| ExportService.ModsRoundTrip | services/export_service.py:87-105 | with unique modifier names, putting the records back on the clamped stack gives the original stack |
| ExportService.ObjectRoundTrip | services/export_service.py:83-105 | one object's override is undone by its records |
| ExportService.SubdivRoundTrip | services/export_service.py:75-105 | over distinct sources with unique modifier names, the restore of the teardown gives every object its original modifiers back |
| ExportService.Proxies | services/export_service.py:126-131 | the proxies are exactly the targets that differ from their sources |
| ExportService.TempNames | services/export_service.py:494-500 | the temporary names are exactly the copies the swaps made |
| ExportService.SwapOneInv | services/export_service.py:116-139 | one step keeps the swap invariant; a swap is made exactly when the source's mesh can be copied, and it is of that source |
| ExportService.SwapAllFacts | services/export_service.py:110-139 | over distinct existing sources, the swapped sources are exactly those whose mesh exists, each swapped once, every swap holds and nothing else changes but the added copies and proxies |
| ExportService.SwapData | services/export_service.py:110-139 | the data and swaps become those of the specified swap loop |
| ExportService.MeshPass | services/export_service.py:141-165 | only the meshes bound to the targets change, and no mesh is added or lost |
| ExportService.RunMeshPass | services/export_service.py:141-165 | the meshes and the total become those of the specified pass, all else unchanged |
| ExportService.MeshOne | services/export_service.py:141-165 | one target of a pass changes the meshes and the total exactly as one step of the specified pass |
| ExportService.TargetOf | services/export_service.py:185 | the target of the source's swap, none for a source that was not swapped |
| ExportService.TargetNames | services/export_service.py:144 | the targets of the swaps in order |
| ExportService.DecimatePass | services/export_service.py:167-219 | no mesh added or lost |
| ExportService.DecimatePassFacts | services/export_service.py:173-213 | only the targets' meshes change, the count never exceeds the sources, every counted object had more than ten faces (so faces before is at least 11 per count), and each warning starts with a source's name |
| ExportService.DecimateOne | services/export_service.py:184-213 | one source: the meshes and the tally become those of the specified step |
| ExportService.DecimateTargets | services/export_service.py:167-213 | the meshes and the tally become those of the specified loop |
| ExportService.DecimationShowsReduction | services/export_service.py:215-219 | once anything was decimated the summary always carries the reduction percentage; the bare count is unreachable |
| ExportService.Kept | services/export_service.py:173 | the names that are not excluded, in order |
| ExportService.NamedEntries | services/export_service.py:79 | the entries with a non-empty name |
| ExportService.Unsupported | services/export_service.py:229-238 | exactly the analysed materials that are not ready |
| ExportService.AnalyseMaterials | services/export_service.py:229-238 | the loop yields the specified unsupported list in analysis order |
| ExportService.UnsupportedOfSelection | services/export_service.py:227-238 | when the analysed list enumerates the selection's materials to analyse, a name is unsupported exactly when it is one of those materials and not ready, and there are at most as many unsupported names as materials |
| ExportService.MaterialList | services/export_service.py:240-242 | the first five names appear, followed by "(+N more)" when there are more; exactly the joined names otherwise |
| ExportService.Take | services/export_service.py:269 | at most n entries, a prefix of the list |
| ExportService.OptimizeTextures | services/export_service.py:245-272 | nothing when disabled; objects, meshes and hidden flags unchanged; images only added, every copy existing; at most three warnings; a raising kernel yields exactly the one error warning |
| ExportService.ExportSelection | services/export_service.py:282-291 | the export selects exactly the selected objects that are not instance sources and still exist |
| ExportService.SelectForExport | services/export_service.py:282-294 | the selection becomes the export selection and the first of it becomes active when there is one |
| ExportService.ExportGlb | services/export_service.py:319-345 | the export fails exactly when WEBP, AUTO and NONE all raise, with the last error; otherwise the formats tried are a prefix of WEBP, AUTO, NONE ending at the first that works, and a fallback warning is given exactly when WEBP failed |
| ExportService.SelectedObjects | services/export_service.py:453 | the objects the texture restore reads as the selection: only objects of the named selection that exist |
| ExportService.RestoreTextures | services/export_service.py:439-457 | objects, meshes and hidden flags unchanged; images only removed; no material added or lost |
| ExportService.RestoreTexturesRemovesCopies | services/export_service.py:439-457 | exactly the copies whose original still exists are removed, and only the target materials change |
| ExportService.RestoreTextureCopies | services/export_service.py:439-457 | the data becomes the specified texture restore |
| ExportService.Rebind | services/export_service.py:460-477 | only object bindings change; no object added or lost |
| ExportService.RebindRestores | services/export_service.py:460-477 | every swapped source whose object and original mesh exist is bound to the original again and otherwise unchanged; all other objects are left alone |
| ExportService.RebindOriginals | services/export_service.py:460-477 | the data becomes the specified rebinding |
| ExportService.Cleaned | services/export_service.py:505-541 | the proxies are gone and no other object changes; no bound mesh is removed; no temporary or "TEMP_DATA_" mesh with zero users remains |
| ExportService.CleanedWellBound | services/export_service.py:505-541 | after the cleanup every object still has its mesh |
| ExportService.RemoveProxies | services/export_service.py:509-514 | the data becomes the specified proxy removal |
| ExportService.RemoveUnusedTemps | services/export_service.py:518-525 | the data becomes the specified temporary-mesh removal |
| ExportService.RemoveOrphans | services/export_service.py:528-536 | the data becomes the specified orphan sweep |
| ExportService.DeferredCleanup | services/export_service.py:505-541 | the data becomes the specified cleanup and the callback returns None so it never repeats |
| ExportService.Warnings | services/export_service.py:269-270 | one warning report per message, in order |
| ExportService.SubdivOnData | services/export_service.py:75-108 | the stage on the data equals the specified subdivision stage |
| ExportService.SwapOnData | services/export_service.py:110-139 | the stage on the data equals the specified swap stage |
| ExportService.CleanOnData | services/export_service.py:141-149 | the stage on the data equals the specified cleaning stage |
| ExportService.UvOnData | services/export_service.py:151-165 | the stage on the data equals the UV stage, which runs auto_unwrap_objects on the targets: a target without a UV map gets one, and a target whose Smart UV Project raised is left visible |
| ExportService.DecimateOnData | services/export_service.py:167-219 | the stage on the data equals the decimation stage, which rewrites the meshes of the decimated sources and leaves visible each target whose decimation failed |
| ExportService.DecimateFailuresFacts | services/export_service.py:167-219 | the decimation stage unhides only targets, and none when every decimation succeeds |
| ExportService.TexturesOnData | services/export_service.py:245-272 | the stage on the data equals the specified texture stage |
| ExportService.PrepareData | services/export_service.py:75-272 | stages 2 to 8 on the data equal their specified composition |
| ExportService.TeardownData | services/export_service.py:412-477 | the teardown on the data equals the specified one: subdivision levels, textures, then bindings |
| ExportService.TeardownRestores | services/export_service.py:412-477 | the teardown gives every object of the file back its own modifiers and mesh |
| ExportService.FinishExport | services/export_service.py:397-543 | the success path reports the warnings and then "Exported <mb>MB (<info>) to Framo", sets the completion status, tears down, and registers the 3 s status clear and the 0.1 s deferred cleanup |
| ExportService.CompleteExport | services/export_service.py:276-552 | the outcome, reports, data, status, timers and selection after stage 8 are those of the specified run |
| ExportService.ExportSucceeded | services/export_service.py:383-552 | after a GLB was written: the warnings, then the INFO report with the size and the info parts; the success status; the teardown of the data; and the status-clear, deferred-cleanup and selection-restore timers in that order of registration |
| ExportService.ExportFailed | services/export_service.py:545-549 | after the export raised: the warnings so far and an ERROR report with the message; the failure status; the selection restore registered on leaving the context, then the status clear after 5 s |
| ExportService.CompleteFailure | services/export_service.py:321-346 | the run is cancelled exactly when the WEBP, AUTO and NONE attempts all raised, and then the data is left as the stages before the export left it |
| ExportService.CompleteSuccess | services/export_service.py:321-552 | when the run finishes, the data is the teardown of the prepared state for the export selection |
| ExportService.RunExport | services/export_service.py:46-552 | given the analysed materials as an enumeration of the selection's materials to analyse, the whole run on the data equals the specified run |
| ExportService.ExportToWeb | services/export_service.py:17-555 | given the analysed materials as an enumeration of the selection's materials to analyse, the sources are collected as specified and the run equals the specified one; is_exporting is off at the end |
| ExportService.CollectAndRun | services/export_service.py:42-544 | the state is saved from the view, the sources are collected as specified and the data, view, timers and outcome are those of the specified run on them |
| ExportService.PassesKeepOriginals | services/export_service.py:141-272 | stages 4 to 8 change no binding and no original mesh |
| ExportService.PrepareFacts | services/export_service.py:75-139 | the override changes only modifiers and is undone by its records; the swap invariant holds; the later stages keep the originals |
| ExportService.SuccessRestoresObjects | services/export_service.py:412-477 | a successful run leaves every object of the file as it was: subdivision levels and mesh bindings |
| ExportService.SwapShape | services/export_service.py:110-139 | the swap loop adds only the proxies, as hidden objects, and the temporary meshes, none a name the file had, and changes no existing mesh |
| ExportService.CleanupAfterTeardown | services/export_service.py:460-541 | the cleanup after the teardown leaves the file's objects and hidden flags and its meshes less its own unused "TEMP_DATA_" meshes |
| ExportService.SuccessLeavesNoTrace | services/export_service.py:397-543 | after a successful run and its deferred cleanup, objects and hidden flags are as before and the meshes are as before less the file's own unused "TEMP_DATA_" meshes |
| ExportService.FailureKeepsSwaps | services/export_service.py:319-552 | the run fails exactly when all three formats raise; then nothing is undone, every source stays bound to its temporary mesh, and every proxy is still there, hidden when no unwrap or decimation raised |
| ExportService.RunTimers | services/export_service.py:404-549 | on success the status-clear, cleanup and selection-restore timers are registered and fire cleanup, restore, clear; on failure the restore and the 5 s clear, restore first; the restore always carries the names captured on entry |
| ContextManagers.CaptureState | utils/context_managers.py:60-62 | the saved names are the selection and the active object at entry |
| ContextManagers.RestoreTimer | utils/context_managers.py:71-74 | the restore is registered at 0.2 s, after the 0.1 s cleanup, carrying the saved names |
| ContextManagers.ReleaseState | utils/context_managers.py:64-74 | the body's outcome, a value or a raised error, passes through unchanged, and in both cases the deferred restore is registered |
| ContextManagers.Restorable | utils/context_managers.py:25-27 | the names still in bpy.data.objects and in the view layer |
| ContextManagers.DeferredRestoreSelection | utils/context_managers.py:8-50 | exactly the saved names that still exist and are in the view layer are selected, in saved order; the active object is reset only to an existing one in the view layer, else kept; the timer does not repeat |
| ContextManagers.RestoreUndisturbed | utils/context_managers.py:20-30 | when every saved object is still there, the saved selection comes back exactly, in order |
| ContextManagers.ImageLibrary.EnterTempImage | utils/context_managers.py:79-82 | without a raise, a copy under a new name joins the images; a raising copy leaves none |
| ContextManagers.ImageLibrary.ExitTempImage | utils/context_managers.py:83-85 | the copy is removed when it is still in bpy.data.images; a copy the body already removed makes the exit raise ReferenceError, with nothing changed; without a copy nothing happens |
| ContextManagers.TempImageRoundTrip | utils/context_managers.py:77-85 | entering and leaving with the copy untouched leaves the images as before |
| Properties.ApplyPreset | core/properties.py:10-32 | CUSTOM changes nothing, NONE only turns Draco off, and LOW, MEDIUM and HIGH turn it on with in-bounds values |
| Properties.ApplyPresetIdempotent | core/properties.py:10-32 | selecting the same preset twice is the same as once |
| Properties.ApplyPresetKeepsBounds | core/properties.py:10-32 | a preset never takes in-bounds settings out of the declared bounds |
| Properties.ApplyPresetOverwrites | core/properties.py:15-32 | a numeric preset's result does not depend on the previous settings |
| Properties.PresetsAreOrdered | core/properties.py:15-32 | stronger presets have higher compression levels and coarser position quantization |
| Properties.DefaultsMatchDefaultPreset | core/properties.py:145-193 | the declared Draco defaults are exactly what the default MEDIUM preset writes, and within bounds |
| Properties.OverrideDefaultsInBounds | core/properties.py:109-138 | the default override level and ratio lie within their declared bounds |
| Properties.ExportSettings.constructor | core/properties.py:142-377 | the declared defaults, within the declared bounds |
| Properties.ExportSettings.UpdateCompressionPreset | core/properties.py:10-32 | the Draco fields become the preset's values, everything else unchanged, and the bounds are kept |
| Properties.ExportSettings.UpdateExportStatus | core/properties.py:34-37 | the status text is set |
| Properties.FirstWithSettings | core/properties.py:57-64 | the first window whose scene has export settings, every earlier one without |
| Properties.ClearExportStatus | core/properties.py:47-75 | when writing is allowed, the first window's settings get an empty status; no other settings change, and the timer does not repeat |
| Operators.SubdivLevel | core/operators.py:17-25 | 0 for a missing object, a non-mesh or a mesh without SUBSURF; otherwise the effective level (render_levels when positive, else levels) of the first SUBSURF modifier |
| Operators.NonEmpty | core/operators.py:33 | exactly the non-empty names of the exclusion list |
| Operators.Candidates | core/operators.py:36-45 | a name is listed exactly when some object of that name is a mesh whose first SUBSURF modifier has an effective level above the override level and is not excluded |
| Operators.Items | core/operators.py:44 | one enum item per candidate, identifier and label both the object's name |
| Operators.SubdivObjectsForExclusion | core/operators.py:27-48 | the items of the candidates over the non-empty exclusions, or the single placeholder when there are none; never empty |
| Operators.Contains | core/operators.py:393-395 | the duplicate scan finds the name exactly when it is in the list |
| Operators.AddUnique | core/operators.py:391-398 | the list after an add holds the name and exactly the old names besides |
| Operators.AddUniqueKeepsNoDuplicates | core/operators.py:423-430 | an add never creates a duplicate entry |
| Operators.RemoveAt | core/operators.py:405-409 | a valid index drops exactly that entry, keeping the order of the rest; any other index leaves the list as it was |
| Operators.AddExcludedMaterial | core/operators.py:391-398 | CANCELLED exactly when the material is already excluded; the list gains the material otherwise and is unchanged on cancel |
| Operators.RemoveExcludedMaterial | core/operators.py:405-409 | always FINISHED; the list loses the indexed entry only when the index is in range |
| Operators.AddExcludedSubdivObject | core/operators.py:423-430 | CANCELLED exactly for an empty name or one already excluded; otherwise the name is appended once |
| Operators.RemoveExcludedSubdivObject | core/operators.py:437-441 | always FINISHED; the list loses the indexed entry only when the index is in range |
| Operators.SubdivNames | core/operators.py:450 | the object name of each subdivision override, in order |
| Operators.DecimateNames | core/operators.py:493 | the object name of each decimation override, in order |
| Operators.FirstIndexOf | core/operators.py:450-452 | the scan stops at the first entry with the name, or at the end when there is none |
| Operators.IndexOf | core/operators.py:480-483 | the first index holding the name; it equals the length exactly when the name is absent |
| Operators.IndexOfUnique | core/operators.py:480-483 | any index meeting the first-match conditions is the one the scan returns |
| Operators.ToggleTwiceSubdiv | core/operators.py:448-457 | toggling an object without an override twice restores the override list |
| Operators.ToggleTwiceDecimate | core/operators.py:491-500 | toggling an object without an override twice restores the override list |
| Operators.StoredOverrideLevel | core/properties.py:109-115 | a stored override level lies in 0..6, equals the assigned level inside that range and 6 above it |
| Operators.ToggleSubdivExclusion | core/operators.py:448-457 | the first override of the object is removed if there is one; otherwise one is appended recording the object's current subdivision level clamped to 0..6; the settings' bounds are kept |
| Operators.AddIndividualSubdivOverride | core/operators.py:464-471 | CANCELLED exactly when the object already has an override; otherwise one override with its current level clamped to 0..6 is appended; the settings' bounds are kept |
| Operators.RemoveIndividualSubdivOverride | core/operators.py:478-484 | only the first override of the object is removed, and nothing when it has none; the settings' bounds are kept |
| Operators.ToggleDecimateExclusion | core/operators.py:491-500 | the first override of the object is removed if there is one; otherwise one is appended with the global ratio; the settings' bounds are kept |
| Operators.AddIndividualDecimateOverride | core/operators.py:507-514 | CANCELLED exactly when the object already has an override; otherwise one is appended with the global ratio; the settings' bounds are kept |
| Operators.RemoveIndividualDecimateOverride | core/operators.py:521-527 | only the first override of the object is removed, and nothing when it has none; the settings' bounds are kept |
| Operators.FindHolder | core/operators.py:592-600 | the first mesh of the list with a slot holding the material, with the first such slot; none exactly when no object holds it |
| Operators.OpenMaterialInShading | core/operators.py:586-624 | CANCELLED for an unknown material or one no mesh holds, with the view unchanged; a holder in the selection is preferred over the other objects of bpy.data.objects; a holder outside the view layer makes select_set raise after the deselect, so the operator ends cancelled with nothing selected; otherwise the holder alone is selected and active, with its first slot of the material active |
| Operators.ExportPoll | core/operators.py:55-62 | True exactly with a non-empty user name and a non-empty selection |
| Operators.ReplaceMaterialExecute | core/operators.py:567-578 | CANCELLED exactly when either material is missing; otherwise a warning exactly when the new material is not ready, the count is the old material's slots among the scanned objects, and no scanned mesh keeps the old material |
| Operators.ResetExportSettings | core/operators.py:326-339 | MEDIUM preset with its Draco values, decimation off at 0.1, texture optimisation on at 1024 px; the other settings unchanged and the property bounds kept |
| Operators.CountTrueBounds | core/operators.py:348-352 | the ready count never exceeds the analysed count, and equals it exactly when every material is ready |
| Operators.Readiness | core/operators.py:349-350 | the readiness flag of each analysed material, in order |
| Operators.AnalyzeMaterials | core/operators.py:346-354 | with `names` enumerating `get_materials_to_analyze`, the report's total is the number of those materials, and the ready count equals it exactly when every one of them is ready |
| Operators.CountReady | core/operators.py:348-352 | the count of ready materials is at most the number listed, and equals it exactly when every listed material is ready |
| Operators.EnumeratedReady | core/operators.py:348-351 | over an enumeration of a set, every listed name is ready exactly when every member of the set is |
| Timers.NextDue | utils/context_managers.py:71-74 | the timer registered with the smallest first interval fires next, the earliest registered among equal intervals |
| Timers.TimerQueue.Register | services/export_service.py:543 | a registration appends the timer to the pending ones |
| Timers.TimerQueue.FireNext | services/export_service.py:541 | the next due timer fires and, since its callback returns None, leaves the queue while the others keep their order |
| Timers.CleanupBeforeRestore | services/export_service.py:543-549 | the 0.1 s deferred cleanup fires before the 0.2 s selection restore, which fires before the 3 s or 5 s status clear |
| Timers.NextDueIsFirst | utils/context_managers.py:71-74 | the timer chosen to fire precedes every other pending timer |
| Dependencies.ImportName | dependencies.py:50-58 | the import name has the package name's length, with every '-' replaced by '_' |
| Dependencies.StatusOf | dependencies.py:108-117 | a status carries the dependency's key and name, optional defaulting to False, and is installed exactly when its import name is importable |
| Dependencies.CheckAll | dependencies.py:103-119 | one status per declared dependency, in declaration order |
| Dependencies.Missing | dependencies.py:122-131 | exactly the keys of statuses that are neither installed nor optional |
| Dependencies.ImportNameFacts | dependencies.py:54 | an import name never holds '-', and a name without '-' is its own import name |
| Dependencies.ImportNameConcat | dependencies.py:54 | the import name of a concatenation is the concatenation of the import names |
| Dependencies.ImportNameDashJoin | dependencies.py:54 | joining two dash-free words with '-' imports as joining them with '_' |
| Dependencies.ImportNameOfFastSimplification | dependencies.py:36-41 | the pip name fast-simplification imports as fast_simplification, its key |
| Dependencies.SpelledInThreeParts | dependencies.py:36-41 | the pip name and the key are the same two words joined by '-' and by '_' |
| Dependencies.MissingOfFour | dependencies.py:125-131 | over four statuses the missing list is the concatenation of each status's contribution |
| Dependencies.TableStatusTrimesh | dependencies.py:14-20 | trimesh is reported exactly when it cannot be imported |
| Dependencies.TableStatusScipy | dependencies.py:21-27 | scipy is reported exactly when it cannot be imported |
| Dependencies.TableStatusNetworkx | dependencies.py:28-34 | networkx, declared optional, contributes nothing |
| Dependencies.TableStatusFastSimplification | dependencies.py:35-41 | fast_simplification is reported exactly when it cannot be imported |
| Dependencies.MissingOfTable | dependencies.py:13-42 | the missing list is trimesh, scipy and fast_simplification in declaration order, each exactly when it cannot be imported |
| Dependencies.MissingOfStatuses | dependencies.py:122-131 | the per-entry contributions assemble into the table's missing list |
| Dependencies.NetworkxNeverMissing | dependencies.py:28-34 | networkx is never among the missing dependencies |
| Dependencies.NotAmongRequired | dependencies.py:28-34 | no non-optional contribution can be networkx |
| Dependencies.Lookup | dependencies.py:157 | a found entry is declared under that key; none is found exactly when no entry has the key |
| Dependencies.InsertByOrderMultiset | dependencies.py:164 | inserting into the ordered list adds exactly that entry |
| Dependencies.InsertByOrderLower | dependencies.py:164 | inserting an entry no lower than a bound among entries no lower than it leaves every entry no lower than it |
| Dependencies.InsertByOrderSorted | dependencies.py:164 | inserting into a list sorted by install order keeps it sorted |
| Dependencies.SortByOrderFacts | dependencies.py:164 | the sort yields a permutation of its input in ascending install order |
| Dependencies.SortByOrderLength | dependencies.py:164 | the sort keeps the number of entries |
| Dependencies.TableOrdersDistinct | dependencies.py:13-42 | the declared install orders are pairwise distinct |
| Dependencies.PendingList | dependencies.py:156-162 | one (install order, key, name) entry per missing key, in order |
| Dependencies.InstallPackage | dependencies.py:61-100 | success exactly when pip exits 0 and the package then imports |
| Dependencies.InstallAll | dependencies.py:170-180 | pip runs once per entry, in order; installs plus failures equal the entries, and a package fails exactly when its run did not succeed |
| Dependencies.InstallMissing | dependencies.py:146-191 | nothing is installed when nothing is missing; otherwise the missing packages are attempted in ascending install order, installs plus failures equal the number missing, and the result is CANCELLED exactly when some failed |
| Dependencies.NamesOf | dependencies.py:170 | the pip name of each entry, in order |
| Dependencies.InstallOne | dependencies.py:193-202 | a named package finishes exactly when its installation succeeds |
| Updater.ParseVersion | updater.py:44-60 | after stripping leading 'v's, a version exactly when there are three dot-separated parts and each is a non-empty digit string; the version is those three numbers |
| Updater.DigitsHaveNoDot | updater.py:63-65 | a formatted number holds no '.', so the formatted version splits back into its three parts |
| Updater.SplitVersionString | updater.py:63-65 | splitting 'a.b.c' on '.' gives the three formatted numbers |
| Updater.VersionRoundTrip | updater.py:44-65 | parsing the formatted version, with or without a 'v' prefix, gives the version back |
| Updater.NewerIsPrecedence | updater.py:67-71 | `latest > current` on triples is the numeric precedence of section 11.2 of Semantic Versioning 2.0.0 on the major, minor and patch identifiers |
| Updater.NewerIsStrictOrder | updater.py:67-71 | the newer-than relation is irreflexive, asymmetric, transitive and total on distinct versions |
| Updater.CheckForUpdates | updater.py:104-205 | a non-200 status, an unparsable tag and a release without a .zip asset each raise their message prefixed 'Unexpected error: '; no newer version gives None; otherwise the update carries the parsed version and the URL and size of the first .zip asset |
| Updater.ValidateZip | updater.py:278-312 | valid exactly when the zip is readable, lists framo-bridge/__init__.py and that file's text contains 'bl_info' |
| Updater.Progress | updater.py:243-248 | progress is reported exactly with a callback and a positive total; it is the downloaded fraction, capped at 1 |
| Updater.DownloadNameRecoversVersion | updater.py:236 | the download is the extraction directory's name plus '.zip', and the version can be parsed back out of it |
| Package.ShouldExcludeBy | package.py:61-70 | excluded exactly when some pattern matches: a '*.ext' pattern as a suffix, any other as a substring |
| Package.ExclusionExamples | package.py:42-45 | paths ending in .pyc or .zip and paths containing __pycache__ are excluded |
| Package.RunLength | package.py:56 | the length of the leading run of digits or of whitespace: every character before it is in the class and the next one is not |
| Package.Group | package.py:56 | a matched `\d+` group is a non-empty digit string and the rest after the separator is shorter |
| Package.GetVersion | package.py:48-59 | '0.0.0' when no line both mentions "version" and holds a version tuple; otherwise the tuple of the first such line, written a.b.c |
| Package.DigitRunThenStop | package.py:56 | a digit run ends at the first non-digit |
| Package.GroupOf | package.py:56 | a digit string followed by a non-digit separator is matched as one group |
| Package.SkipOneSpace | package.py:56 | `\s*` skips a single space before a digit |
| Package.SpacedGroup | package.py:56 | a group introduced by one space, as in ', 2', is matched |
| Package.TupleAtWritten | package.py:56 | '(a, b, c)' is matched with groups a, b and c |
| Package.SearchSkips | package.py:56 | the leftmost search passes over text without '(' |
| Package.BlInfoMentionsVersion | package.py:53 | the add-on's bl_info version line mentions "version" |
| Package.SearchWritten | package.py:56 | after text without '(', a written tuple is the one found |
| Package.BlInfoTuple | package.py:56 | the bl_info line's tuple is found with its three numbers |
| Package.GetVersionOfBlInfo | package.py:48-59 | the version of a bl_info line in the add-on's own format is read back exactly |
| Package.WalkFiles | package.py:113-121 | no excluded file is added |
| Package.WalkSound | package.py:109-121 | nothing the walk adds is excluded, and everything lies under the walked directory |
| Package.WalkFilesUnder | package.py:113-118 | every file added from a directory lies under it |
| Package.WalkSubdirsSound | package.py:111 | pruned sub-directories contribute nothing, and what the kept ones add is not excluded and lies under the directory |
| Package.PackageEntries | package.py:94-121 | every listed file that exists and every file the walk of an existing included directory keeps is in the archive as '<addon>/<path>', and every entry is one of those two kinds, a walked path lying under its directory and not excluded |
| Package.EntryKinds | package.py:94-121 | for any lists of files and directories, every existing listed file and every walked file is in the archive, and every entry comes from one of the two |
| Package.DirEntriesSound | package.py:106-121 | every directory entry is the prefixed path of a file the walk of an existing listed directory keeps, under that directory and not excluded |
| Package.DirEntriesComplete | package.py:106-121 | every file the walk of an existing listed directory keeps has its entry |
| Package.ListedFiles | package.py:95-103 | exactly the listed files that exist, each as '<addon>/<file>' |
| Package.Prefixed | package.py:118 | each relative path becomes '<addon>/<path>', in order |
| BuildZip.ShouldExcludeBy | build_zip.py:42-50 | excluded exactly when some pattern occurs in the path as a substring |
| BuildZip.StarPatternsAreLiteral | build_zip.py:30-40 | a path without '*' contains none of the four wildcard-looking patterns |
| BuildZip.ExcludeWithoutStar | build_zip.py:30-50 | a path without '*' is excluded exactly when it contains __pycache__, .git, .gitignore, build_zip.py or builds |
| BuildZip.ZipEntries | build_zip.py:71-95 | every listed file that exists is added unfiltered as 'framo-bridge/<file>'; every file of an existing included folder that is not excluded is added as 'framo-bridge/<folder>/<rel>'; and every entry is one of these two kinds |
| BuildZip.ZipParts | build_zip.py:71-95 | for any lists of files and folders, the listed part and the folder part are both complete, and every entry is a listed existing file or a kept folder file |
| BuildZip.ListedFiles | build_zip.py:73-80 | exactly the listed files that exist, each as 'framo-bridge/<file>' |
| BuildZip.FolderEntries | build_zip.py:83-95 | the folder entries are exactly the non-excluded files of the existing included folders, as 'framo-bridge/<folder>/<rel>': each entry is one, and each one is an entry |
| BuildZip.Kept | build_zip.py:87-91 | exactly the folder's files that are not excluded, each as 'framo-bridge/<folder>/<rel>' |
| LegacyOperator.LegacySettings.constructor | __init__.py:83-265 | the declared defaults: Draco switched off although the preset starts at MEDIUM, decimation on at 0.1 with COLLAPSE, auto-UV on, repair off, the repair options as declared |
| LegacyOperator.LegacySettings.UpdateCompressionPreset | __init__.py:267-289 | the Draco fields become what the shared preset table gives for the current preset; NONE only switches Draco off and CUSTOM changes nothing |
| LegacyOperator.LegacySettings.ResetExportSettings | __init__.py:1142-1161 | MEDIUM with its Draco values, auto-UV and decimation on at ratio 0.1, and the info report |
| LegacyOperator.Toggled | __init__.py:1293-1296 | the map gains the name if it lacked it, the name's expanded state flips, and every other entry stays |
| LegacyOperator.ToggleTwice | __init__.py:1293-1296 | toggling twice restores every expanded state; a name the map lacked is left holding False |
| LegacyOperator.ExpandedStates.constructor | __init__.py:73 | the state map starts empty |
| LegacyOperator.ExpandedStates.Toggle | __init__.py:1289-1303 | the stored map becomes the toggled map |
| LegacyOperator.ScanFalse | __init__.py:410-420 | the material scan says False exactly when some material is found not ready and every one before it was skipped or ready |
| LegacyOperator.PollResult | __init__.py:392-423 | False exactly with no selection, or with the analyzer present and a material found not ready before any analysis raised; True without the analyzer, without materials or when the listing raises |
| LegacyOperator.PollDisabled | __init__.py:392-423 | the operator is disabled exactly in the cases its poll result states |
| LegacyOperator.Poll | __init__.py:392-423 | the poll's answer is the poll result for the current selection |
| LegacyOperator.Server.constructor | __init__.py:1403-1414 | a server instance, running or not, holding no stored export |
| LegacyOperator.MeshObjects | __init__.py:453 | exactly the selected names of existing mesh objects |
| LegacyOperator.CopyOne | __init__.py:461-467 | an object with a readable mesh gains a temp copy whose name starts with TEMP_EXPORT_ and its own name; any other leaves the data alone |
| LegacyOperator.CopyAll | __init__.py:460-473 | no copies leave the data unchanged and mean no selected object had a readable mesh; every copy is named after a selected object; at most one copy per object |
| LegacyOperator.AddCopyInv | __init__.py:461-467 | adding one temp bound to a new mesh keeps the data beside the copies as it was |
| LegacyOperator.TempMeshesSnoc | __init__.py:462-463 | the temps' meshes grow by the new copy's mesh |
| LegacyOperator.CopyOneInv | __init__.py:461-473 | one copy keeps the user's objects, meshes, images and materials untouched |
| LegacyOperator.CopyAllInv | __init__.py:456-476 | the copy loop keeps the user's data untouched from the start |
| LegacyOperator.CopyStage | __init__.py:456-476 | copies are made only when a stage that wants them is on and the selection holds meshes; they replace the selection and the first is active; without copies the data is unchanged |
| LegacyOperator.UvStage | __init__.py:479-494 | only the targets' meshes change and only targets can be unhidden, none when no unwrap raises; off it changes nothing; without the module it adds exactly the warning |
| LegacyOperator.RepairStep | __init__.py:508-528 | one target is counted with its removals on success or warned about with its error, changing only its own mesh |
| LegacyOperator.RepairPass | __init__.py:508-528 | only the targets' meshes change, and each target is counted or warned about at most once |
| LegacyOperator.RepairPassSnoc | __init__.py:508-528 | the loop over one more target is one more step |
| LegacyOperator.RepairStage | __init__.py:497-534 | only the targets' meshes change; off it changes nothing; without the libraries it adds exactly the warning |
| LegacyOperator.DecimateStep | __init__.py:548-573 | a mesh with at most 100 faces is untouched; a counted target had more than 100 faces; a failure is warned about with its details or the fixed message |
| LegacyOperator.DecimatePass | __init__.py:548-573 | meshes of non-targets and of targets with at most 100 faces stay; every counted object had more than 100 faces |
| LegacyOperator.DecimatePassSnoc | __init__.py:548-573 | the loop over one more target is one more step |
| LegacyOperator.DecimateStage | __init__.py:537-580 | only the targets' meshes change; off it changes nothing; a type other than COLLAPSE adds exactly its warning; small meshes stay |
| LegacyOperator.DecimateViewSingle | __init__.py:548-573 | after the decimation loop the selection is the one before it or a single decimated target |
| LegacyOperator.ExecuteRun | __init__.py:425-763 | a whole call: the copies are made only when wanted, are named after the selection and are what the later stages work on |
| LegacyOperator.BlockedBySelection | __init__.py:583-600 | with the analyzer present and the analysed list enumerating the staged selection's materials to analyse, a name blocks the export exactly when it is one of those materials and not ready; never more names than materials |
| LegacyOperator.ExecuteAnalysesSelection | __init__.py:425-763 | with the analysed list enumerating the prepared selection's materials, a run finishes exactly when the server runs, the selection is non-empty, the glTF export does not raise and, with the analyzer present, every one of those materials is ready |
| LegacyOperator.CopiesMadeWhen | __init__.py:456-476 | copies exist exactly when a copy stage is on and some selected mesh has readable data; they are named after the selection and become the targets |
| LegacyOperator.TargetsIsolated | __init__.py:482-483 | with a copy stage on, no target is bound to a mesh of the user's data |
| LegacyOperator.PassKeepsCopyInv | __init__.py:479-580 | a pass on isolated targets keeps the user's data untouched |
| LegacyOperator.PrepareKeepsOriginals | __init__.py:448-580 | nothing the stages before the material check do reaches the user's objects, meshes, images or materials |
| LegacyOperator.NotYetRemoved | __init__.py:734-738 | a temp and its mesh are still present when the loop reaches it |
| LegacyOperator.MeshNowUnused | __init__.py:741-746 | once a temp is removed no object uses its mesh any more |
| LegacyOperator.RemoveOne | __init__.py:734-748 | removing one temp takes exactly that object and its mesh away |
| LegacyOperator.PrefixSnoc | __init__.py:734 | one more temp adds its name and its mesh to what has been removed |
| LegacyOperator.RemoveTempStep | __init__.py:734-748 | one step of the cleanup loop removes exactly the temp and its mesh |
| LegacyOperator.RemoveTempsFacts | __init__.py:734-752 | after the first i temps, exactly they and their meshes are gone |
| LegacyOperator.FinallyRestores | __init__.py:727-752 | once every temp and its mesh are removed, the data is exactly as it was before the call |
| LegacyOperator.ExecuteLeavesNoTrace | __init__.py:425-763 | on every path the user's data is unchanged at the end, and the saved selection that still exists is selected again with its first object active |
| LegacyOperator.BlockedIff | __init__.py:583-600 | the export is blocked exactly when the analyzer is present and some analysed material is not ready |
| LegacyOperator.ConcludeOutcome | __init__.py:583-725 | finished exactly when nothing is blocked and the export does not raise; the payload is stored exactly when the upload fails after a finished export; the warnings come first, then the block or failure message |
| LegacyOperator.ExecuteOutcome | __init__.py:425-763 | finished exactly with a running server, a selection, nothing blocked and no export error; the payload is stored exactly when the upload fails; the warnings of the passes come before the one final message |
| LegacyOperator.EndsWithConcat | __init__.py:604-605 | a suffix of the tail is a suffix of the whole message |
| LegacyOperator.BlockMessageNames | __init__.py:602-612 | the block message names the first five unsupported materials and, with more than five, ends with how many were left out |
| LegacyOperator.DecimationGate | __init__.py:537-580 | no mesh of at most 100 faces is decimated; only COLLAPSE runs; every counted object had more than 100 faces and the summary reports the pass's counts |
| LegacyOperator.CopyAllSnoc | __init__.py:460-473 | the copy loop over one more object is one more copy |
| LegacyOperator.CopyOneOnData | __init__.py:461-467 | the in-place copy does to the data what CopyOne says |
| LegacyOperator.CopyTemps | __init__.py:460-473 | the copy loop on the data matches the copy specification |
| LegacyOperator.CopyOnData | __init__.py:456-476 | deselecting, copying and selecting in place give the copy stage's data, temps, selection and active object |
| LegacyOperator.RepairObjects | __init__.py:508-528 | the repair loop in place gives the repair pass's meshes and tally, changing nothing else |
| LegacyOperator.RepairOne | __init__.py:508-528 | one target changes the meshes and the tally exactly as one repair step |
| LegacyOperator.DecimateOne | __init__.py:549-573 | one decimation in place is one decimation step |
| LegacyOperator.DecimateObjects | __init__.py:548-573 | the decimation loop in place gives the pass's meshes and tally, changing nothing else |
| LegacyOperator.UvOnData | __init__.py:479-494 | auto_unwrap_objects in place gives the UV stage's data, selection, active object and messages |
| LegacyOperator.RepairOnData | __init__.py:497-534 | the repair stage in place matches its specification |
| LegacyOperator.DecimateOnData | __init__.py:537-580 | the decimation loop in place gives the decimation stage's data, selection, active object and messages |
| LegacyOperator.PrepareOnData | __init__.py:448-580 | the stages before the material check, in place, match their specification |
| LegacyOperator.Reselect | __init__.py:621-627 | the saved selection that still exists is selected, with the first saved object active |
| LegacyOperator.RemoveTempOnData | __init__.py:734-748 | one temp's removal in place matches its specification |
| LegacyOperator.RemoveTempObjects | __init__.py:729-752 | the cleanup loop in place matches its specification |
| LegacyOperator.FinallyOnData | __init__.py:727-761 | the finally block in place removes the temps and reselects as specified |
| LegacyOperator.ConcludeOnData | __init__.py:583-725 | the material check, export and upload fallback in place give the specified outcome and reports, and store the payload exactly when specified |
| LegacyOperator.Execute | __init__.py:425-763 | called with the analysed list enumerating the prepared selection's materials to analyse, the operator's outcome, reports, final data, selection and stored payload are those of the whole-run specification |

## Left out

- Network I/O is not modelled: the HTTP server and request handler, the upload request and `services/preview_server.py`. A failed upload is a parameter of the legacy operator, which then stores the payload on the server instance, and the payload is kept by its size only.
- Threads and locks are not modelled: `utils/thread_safety.py` and the update-check, download, install and changelog operators (core/operators.py:72-319), which exist to run the updater off the main thread.
- UI is not modelled: the panels, the `draw` and `invoke` dialog methods, icon loading and every `tag_redraw` call.
- Most of the updater is file-system work and is not modelled: extraction, the pending-update file, the add-on directory lookup and installation.
- Temporary files, metadata records, timestamps, log output and progress-status strings are left out of every module; they carry no decision.
- Geometry and image kernels are not modelled: bmesh operators, the Decimate modifier, trimesh, Pillow, the UV operators and the glTF exporter are oracles that report success, counts or an error. The model does not say what a decimated or unwrapped mesh looks like.
- Floating-point formatting (`:.0f`, `:.2f`) is an oracle parameter. Apart from it, arithmetic is exact, and the next lines say where that differs from the source's double-precision results.
- Images.ScaledSide: computes `max(1, floor(side * target / longest))` exactly. The source multiplies by the double `target / max_dim`, which can land one lower (1122 x 1122 at target 1024 gives 1023), so the contracts below promise only that the longest side is within one of the target.
- Images.ScaledSideFits: the longest side is promised to be at least target-1, not exactly the target, and every side within one of the exact quotient.
- Images.ScaledSizeFits: the longer side is promised to be at least target-1, not exactly the target.
- TextureScaler.ScaleResult: the longest side of the copy is promised to be at least target-1, not exactly the target. The copy is named exactly `<name>_Scaled`; neither Blender's renaming of a clashing name nor its 63-character limit on names is modelled.
- TextureAnalyzer.CreateScaledCopy: the longest side of the copy is promised to be at least target-1, not exactly the target. The copy is named exactly `<name>_Scaled`, without Blender's renaming of a clashing name or its 63-character limit.
- TextureScaler.CompressResult: a scaled copy's sides are computed by the exact `Images.ScaledSize`, so they can be one above the source's double-precision sides. The copy is named exactly `<name>_<w>x<h>_<Format>`; neither Blender's renaming of a clashing name nor its 63-character limit on names is modelled.
- AdvancedBaking.TempMaterialName: a clash is resolved by `Scene.FreshName`, but Blender's 63-character limit on names is not applied.
- Material readiness outside `MaterialAnalyzer` is an oracle from material name to ready/not ready, so the export model does not re-run the node-graph analysis.
- Object-mode switching and `previous_mode` in the UV and decimation code are not modelled; they do not change the data the model tracks.
- `processing/uv_atlas.py`: a failure of Smart UV Project or lightmap packing after a UV layer was added is modelled as no change, although the new layer stays. The selection and active object that a failed join or pack leaves behind are not modelled either. Joined atlas objects are tracked by name, not as new scene objects.
- Blender's `.001` renaming of clashing names is modelled by `Scene.FreshName`, which appends a suffix that is not yet taken, not by Blender's exact numbering.
- A mesh's `users` is the number of objects bound to it. Fake users and other references are not modelled. The orphan sweep therefore removes the file's own unused `TEMP_DATA_` meshes too, and `ExportService.SuccessLeavesNoTrace` says so.
- `advanced_baking.py`: the bake operator itself is not modelled, nor color spaces, `smart_unwrap_for_baking`, node locations or `noise_dimensions`. `_setup_channel_isolation` and `_setup_normal_baking` are modelled only by whether the setup raises (`setupRaises`), not by the nodes they build; `restore_material` is a no-op in the source.
- `texture_analyzer.py`: `save_images_as_jpeg` and `convert_texture_to_jpeg` write files and are not modelled.
- `__init__.py`: the legacy `test_mesh_repair`, `analyze_materials`, `replace_material` and `replace_material_execute` operators are not modelled. They repeat operators modelled from core/operators.py and material_analyzer.py.
- `__init__.py`: in the legacy operator only the glTF exporter's exception is modelled inside the `try`. The settings it never reads are omitted (`preserve_*`, `adaptive_decimation`, `trimesh_*`), and so is the link into `context.collection`. A selected object whose mesh cannot be read is not copied.
- core/operators.py:356-372: `toggle_material_expanded` is the same toggle as the legacy one, so `LegacyOperator.Toggled` models both.
- `fast_decimation.py` repeats `_validate_mesh`. It is modelled once, by `Decimation.ValidateMesh`.
- LegacyOperator.DecimateStep: the failure details of a decimation come from the oracle `k.decimate` and are not tied to the messages `fast_decimate_object` builds (fast_decimation.py:190-193 gives "Decimation failed. Check console for details." when no other detail was set).
- ExportService.CleanStage: the material cleaning of each target is the oracle `k.clean`, returning the cleaned mesh and the number removed. It is not built from `MaterialCleaner.CleanMaterialsBatch`, which is modelled on its own.
- ExportService.DecimateStage: each source's decimation is the oracle `k.decimate`, reporting success and the face counts. It is not built from `Decimation.DecimateObjectSpec`; only the unhiding of a target whose decimation failed is taken over from it.
- ExportService.TextureStage: texture processing is the oracle `k.textures`. It is not built from `TextureScaler.ProcessTexturesNative`, which is modelled on its own.
- MaterialAnalyzer.ReplaceMaterialOnObjects: material slots are kept per object. In Blender a slot is linked to the mesh data by default, so objects sharing a mesh share its slots; the source then counts a shared slot once, for the first object that repoints it, and the model counts it once per object.
- Operators.ReplaceMaterialExecute: reports the count of `ReplaceMaterialOnObjects`, so a slot of a mesh shared by two objects is counted twice, as in the line above.
- MeshRepair.EarlyRepairs: the duplicate-vertex step is the corrected `DupVertsStep` from the findings below, not the step as written. Any rejected merge result keeps the mesh as it was before the merge; the source keeps the object `merge_vertices` changed in place (an emptied mesh, a mesh with a face index past its vertices, or a changed mesh beside a rejected returned one).
- MeshRepair.RunEarlyRepairs: runs the corrected duplicate-vertex step, as `EarlyRepairs` does, so any rejected merge result keeps the mesh as it was before the merge.
- MeshRepair.RepairConverted: repairs with the corrected duplicate-vertex step, as `EarlyRepairs` does, so any rejected merge result keeps the mesh as it was before the merge.
- MeshRepair.RepairTrimesh: runs the corrected duplicate-vertex step, as `EarlyRepairs` does, so any rejected merge result keeps the mesh as it was before the merge.
- MeshRepair.RepairMeshSpec: repairs with the corrected duplicate-vertex step, as `EarlyRepairs` does, so any rejected merge result keeps the mesh as it was before the merge.
- MeshRepair.RepairMesh: repairs with the corrected duplicate-vertex step, as `EarlyRepairs` does, so any rejected merge result keeps the mesh as it was before the merge.
- MeshRepair.RepairObjectSpec: repairs with the corrected duplicate-vertex step, as `EarlyRepairs` does, so any rejected merge result keeps the mesh as it was before the merge.
- MeshRepair.RepairObject: repairs with the corrected duplicate-vertex step, as `EarlyRepairs` does, so any rejected merge result keeps the mesh as it was before the merge.
- MeshRepair.TrimeshToBlenderMesh: a write-back that raises is taken to leave the mesh fully cleared (`Geometry.Cleared`); whatever it added before raising is not modelled.
- TrimeshDecimation.NumpyToBlender: a write-back that raises is taken to leave the mesh fully cleared (`Geometry.Cleared`); whatever it added before raising is not modelled.
- ExportService.ExportToWeb: a run fails only when all three GLB export attempts fail. An exception that an earlier stage lets escape to the outer `except` is not modelled.
- ExportService.RunExport: the analysed materials are required to enumerate the materials to analyse of the selection the run starts from. In the source they are listed at the analysis stage, after material cleaning may have removed slots and, when Smart UV or a decimation raised, with the failing target alone selected; the model does not follow either change.
- ExportService.ExportToWeb: the analysed materials are tied to the starting selection, as for `RunExport`.
- ExportService.ExportRun: takes the analysed list as given, for any list; `UnsupportedOfSelection` states what the unsupported names are when the list enumerates the selection's materials.
- LegacyOperator.ExecuteRun: takes the analysed list as given, for any list; `Execute` requires it to enumerate the prepared selection's materials and `ExecuteAnalysesSelection` states the outcome under that condition.
- MaterialCleaner.CleanMaterialsBatch: the per-object result and new slots are promised only for an object whose slot list no other object of the batch shares; Blender's renumbering of face material indices when a slot is popped is not modelled.
- Updater.ParseVersion: accepts only ASCII digit strings as parts. Python's `int` also takes a sign, surrounding whitespace and `_` between digits, so tags such as `v1.-2.3` or `1. 2.3` parse in the source but not in the model.
- Package.GetVersion: `\d` and `\s` are read as ASCII digits and ASCII whitespace; Python's `re` also matches other Unicode digits and spaces.
- Operators.StoredOverrideLevel: clamps the way Blender clamps an assignment to an `IntProperty` with declared bounds. The source relies on that host behaviour and does not clamp.
- Timers.NextDue: Blender's timer scheduling is taken to fire one-shot timers in order of their first interval. Wall-clock time is not modelled.
- Strings: no Unicode normalisation or case folding beyond ASCII; names are sequences of characters.

## Findings

| source | as written | input that shows it | evidently intended | confidence | as-written member | corrected member |
|---|---|---|---|---|---|---|
| mesh_repair.py:143-165 | `merge_vertices` works in place and returns None. When that leaves no vertices, the `ValueError` is caught and `return mesh` returns the same, already emptied, object. | a mesh with at least one vertex, with a merge that empties it in place and returns None | the fallback returns the mesh as it was before the merge | medium; not executed | MeshRepair.MergeFallbackKeepsMutated | MeshRepair.DupVertsStep |
| mesh_repair.py:355-387 | `repair_mesh` skips a merge result whose face indices reach past its vertices, or that is empty, and goes on with `tm_mesh`. An in-place merge has already changed that object, so the skipped step still takes effect. | a mesh with at least one vertex, with a merge that works in place and returns None, leaving vertices and a face index at or past the vertex count | a skipped step keeps the mesh as it was before the merge, as the warnings "skipping this step" say | medium; not executed | MeshRepair.RejectedMergeKeepsMutated | MeshRepair.DupVertsStep |
