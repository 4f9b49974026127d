# vrm_rigify bone fix-up, modelled in Dafny

vrm_rigify turns a VRoid avatar's armature into a Rigify control rig. It has
two bone-level stages, and this project models both of them.

- **Meta-rig stage** (`vrm_rigify/meta.py`). The source armature is
  repaired: the spine and both legs are welded into connected chains, and
  every left finger is straightened and chained and then mirrored onto the
  right. A Rigify human meta-rig is spawned and pruned. Its bones are placed
  on their source counterparts, and its limb generation parameters are set.
- **Generated-rig stage** (`vrm_rigify/gen.py`). In the rig Rigify generates,
  bones matching the ignore patterns (the shared ignore list plus `teeth`)
  are deleted and the eye rolls are copied from the source. The eyes are re-projected onto the source eye, with the
  right eye rebuilt as the mirror of the left. Deforming bones are renamed
  after their source bones. Finger rolls are copied back onto the source and
  the meta-rig. Finally the source's extra bones (hair and so on) are grafted
  under their parents.

An armature is a `Skeleton`, a finite map from bone name to `Bone` (head,
tail, roll, parent name, connect flag, deform flag, layers). Where the
source iterates over a bone collection, the iteration order is an explicit
`order` sequence that lists every bone once (`Skeletons.Enumerates`).

A lookup of a bone that does not exist raises a `KeyError` in the source. In
the model it is a `Failure(MissingBone(rig, name))`, naming the first
failing lookup in the source's own order.

Parts of the system outside these two files become parameters:

- the name-pattern matcher `Matcher`;
- the shared ignore list `baseIgnored`;
- the name-translation table `Translation`;
- the thumb projection `ThumbProjection`;
- the line/plane intersection `Intersection`;
- the default fields of a newly created bone, `blank`.

Arithmetic is on `real`.

Modules:

- `Geometry`: vectors.
- `Seqs`: filters, distinctness, subsequences.
- `Skeletons`: bones, lookups, errors.
- `BoneNames`: the source and meta-rig naming scheme.
- `Patterns`: pattern lists and pruning.
- `Mapping`: correspondence pairs.
- `Weld`, `Fingers` and `VrmFix`: `fix_vrm_bone`.
- `Meta`: the rest of the meta-rig stage.
- `GenRig`, `Eyes`, `Rename`, `FingerRoll` and `Graft`: the generated-rig stage.

## Model

| member | source | states |
|---|---|---|
| VrmFix.FixVrmBone | vrm_rigify/meta.py:38-117 | The repair succeeds exactly when every spine, leg and finger bone it looks up exists. On success the bone set is unchanged. |
| VrmFix.FixVrmBoneFailure | vrm_rigify/meta.py:41-69 | A failed repair reports a source bone the armature lacks. It is the first such bone in the source's lookup order: spine pairs, then leg pairs left before right, then the six segments of each finger. |
| VrmFix.FixVrmBoneWeldsChains | vrm_rigify/meta.py:41-61 | After the repair, Hips→Spine→Chest→UpperChest→Neck and both UpperLeg→LowerLeg→Foot→ToeBase chains are welded. Each bone's tail is its successor's original head, and each successor is connected. No chain bone's head, roll, parent, deform flag or layers change. The open ends keep their values: the connect flags of Hips and both UpperLegs, and the tails of Neck and both ToeBases. |
| VrmFix.FixVrmBoneFingers | vrm_rigify/meta.py:63-117 | For every finger, the repaired left finger is the straightening of the original left bones, because the chain welds never touch fingers. The repaired right finger is that straightened left finger mirrored onto the original right bones. Only the heads and tails of all three right bones change, and the second and third are switched to connected, so the right bones keep their roll, parent, deform flag and layers, and the first keeps its connect flag. Both sides are chained, and each right point is the mirror of the matching left point. |
| VrmFix.FixVrmBoneFrame | vrm_rigify/meta.py:38-117 | A bone that is neither a chain bone nor a finger bone is unchanged by the repair. |
| Weld.SpineWelded | vrm_rigify/meta.py:41-46 | The spine loop joins every adjacent pair exactly, moves no head, and changes nothing outside the spine. |
| Weld.LegsWelded | vrm_rigify/meta.py:47-56 | The interleaved left/right leg loop welds each leg chain, moves no head, and changes nothing outside the legs. |
| Weld.WeldLinksTail | vrm_rigify/meta.py:42-56 | For welds in which no bone has two different successors, every predecessor ends with its successor's original head as its tail. Welds only read heads, so no earlier weld changes what a later one copies. |
| Weld.RepeatedWeldsAreNoOps | vrm_rigify/meta.py:58-61 | Repeating joints that a functional sequence of welds already made changes nothing. |
| Weld.RepeatedFootWeldIsNoOp | vrm_rigify/meta.py:58-61 | The explicit Foot→ToeBase welds after the leg loop are no-ops: the legs end exactly as the loop leaves them. |
| Fingers.ChainLeft | vrm_rigify/meta.py:70-101 | The left finger comes out chained: each tail is the next head, and segments 2 and 3 are connected. Only heads, tails and those connect flags change. |
| Fingers.ThumbProjected | vrm_rigify/meta.py:73-87 | The thumb keeps its base head and tip. Its two inner heads are the projection of the original points. |
| Fingers.NonThumbFlattened | vrm_rigify/meta.py:88-96 | A non-thumb finger keeps each x. Every head and the tip take the y of the mean of the three original heads, and that mean's z offset by -0.0005, +0.001, +0.001 and -0.0005. |
| Fingers.MirrorSymmetric | vrm_rigify/meta.py:102-117 | Each right point is the left point with x negated. Mirroring gives the left finger back. The result does not depend on the old right bones, and a chained left gives a chained right. |
| Fingers.FixFingersAt | vrm_rigify/meta.py:63-117 | With distinct fingers, the finger loop leaves each finger's left side as the straightening of its original left bones. Its right side is the mirror of that straightened left. |
| Fingers.FixFingersFrame | vrm_rigify/meta.py:63-117 | The finger loop changes no bone outside the finger segments. |
| Meta.MetaRigBaseBones | vrm_rigify/meta.py:134-139 | The base bones are exactly the meta bones not matching the meta ignore list, in iteration order and without duplicates. |
| Meta.ApplyPositionsAt | vrm_rigify/meta.py:149-154 | A paired meta bone ends with its source bone's head, tail and roll and keeps its other fields. An unpaired bone is unchanged. |
| Meta.PositionMetaRigAt | vrm_rigify/meta.py:142-154 | A meta bone is placed on its counterpart exactly when it is not ignored and its translated name exists in the source. Otherwise it is unchanged. |
| Mapping.CreateMapping | vrm_rigify/meta.py:144-145 | The pairs keep the input order. Each pair maps a listed bone to its translation, which exists in the target. Every bone whose translation exists is paired, and distinct input gives distinct pairs. |
| Patterns.RemoveMatching | vrm_rigify/meta.py:174-178 | After pruning, no remaining bone matches the patterns, and every non-matching bone is still present and unchanged. |
| Patterns.RemoveMatchingIdempotent | vrm_rigify/meta.py:174-178 | Pruning a pruned armature removes nothing. |
| Meta.TuneLimbs | vrm_rigify/meta.py:184-193 | Every pose bone gets automatic roll alignment. Bones matching the limb patterns get one segment and bend axis x, and the others keep their segment count and axis. |
| Meta.TuneLimbsIdempotent | vrm_rigify/meta.py:184-193 | Tuning the limbs twice is tuning them once. |
| Meta.BuildMetaRig | vrm_rigify/meta.py:173-193 | The finished meta-rig holds exactly the template bones that do not match the delete list. Each surviving bone is placed on its repaired-source counterpart exactly when it is not ignored and that counterpart exists; otherwise it keeps its template placement. Its parameters cover the same bones, all set to automatic alignment. Limbs get one segment and axis x, and other bones keep their segment count and axis. |
| Meta.GenerateMetaRig | vrm_rigify/meta.py:159-193 | The stage succeeds exactly when the source has every bone the repair needs. Otherwise it fails with the repair's error. On success it hands on the repaired source, with the same bones as the input, and the meta-rig built against it, so every `Meta.BuildMetaRig` fact holds of the result. |
| GenRig.RemoveGenRigIgnoredBones | vrm_rigify/gen.py:11-17 | No generated bone matching the ignore list remains. Every other bone remains unchanged. |
| GenRig.CopyRollsChecked | vrm_rigify/gen.py:37-50 | The roll copy succeeds exactly when every table entry's two bones exist. A failure names the first absent bone in lookup order, and a success is the copy. |
| GenRig.FixGenRigTransformAt | vrm_rigify/gen.py:37-50 | Each of the four eye bones takes exactly its source eye's roll and keeps everything else. Every other bone is unchanged. |
| GenRig.FixGenRigTransformIdempotent | vrm_rigify/gen.py:37-50 | Copying the eye rolls a second time changes nothing. |
| GenRig.GenRigBaseBones | vrm_rigify/gen.py:94-100 | The renamed candidates are exactly the generated bones whose name starts with DEF or that match ORG-eye, in order. |
| Eyes.AxisRatio | vrm_rigify/gen.py:78-80 | An axis ratio is 0 on an axis with no old extent. Otherwise it scales the old extent onto the new one. |
| Eyes.EyeRatioIsLargest | vrm_rigify/gen.py:76-81 | The eye scale is at least every axis ratio and is attained by one of them. |
| Eyes.PlaceEyesScales | vrm_rigify/gen.py:82-87 | The eye-control bone keeps its head, and both its head-to-tail offset and the left eye's are multiplied by that one ratio (reversed or collapsed when it is not positive). |
| Eyes.PlaceEyesSymmetric | vrm_rigify/gen.py:88-91 | The right eye is the left eye's mirror image: mirroring it back gives the left head and tail. |
| Eyes.PlaceEyesNoDrift | vrm_rigify/gen.py:69-91 | When the intersection is the left eye's own head and the left eye's head is off the control bone's head, the control bone and the left eye stay put and only the right eye is rebuilt. |
| Eyes.FixEye | vrm_rigify/gen.py:60-91 | A missing bone fails in lookup order. With all bones present, the step succeeds exactly when the source eye axis meets the plane. The bone set is kept. |
| Eyes.FixEyeEffect | vrm_rigify/gen.py:60-91 | A successful eye fix stores exactly the placed eye bones and changes no other bone. |
| Rename.MapBonesAt | vrm_rigify/gen.py:105-109 | Every generated bone ends under its new name with its other fields kept. Its parent name follows the parent's rename, and deform is forced on exactly for renamed bones. |
| Rename.MapBonesKeys | vrm_rigify/gen.py:105-109 | Every name after renaming is the new name of some generated bone. |
| Rename.RenameInjective | vrm_rigify/gen.py:105-109 | Distinct bones end with distinct names. |
| Rename.MapToSourceAt | vrm_rigify/gen.py:188-189 | After renaming against the source, a base bone with a counterpart carries its name and deforms. Any other bone keeps its name and deform flag. |
| FingerRoll.AdjustRolls | vrm_rigify/gen.py:112-151 | The roll copy succeeds exactly when all its bones exist. A failure names the first absent lookup in order, and both skeletons keep their bone sets. |
| FingerRoll.AdjustFingerRollSource | vrm_rigify/gen.py:140-145 | Every source finger segment takes the roll of the generated bone of the same name and keeps everything else. |
| FingerRoll.AdjustRollsSourceFrame | vrm_rigify/gen.py:140-145 | A source bone that no write targets is unchanged. |
| FingerRoll.AdjustFingerRollFirstMeta | vrm_rigify/gen.py:127-151 | As written, each finger's first left meta bone ends with the roll of the generated third right segment, the last of its six writes. |
| FingerRoll.AdjustFingerRollOtherMeta | vrm_rigify/gen.py:127-139 | As written, every other meta finger bone keeps its roll whatever the generated rig holds. |
| FingerRoll.AdjustFingerRollIntendedMeta | vrm_rigify/gen.py:118-151 | Corrected: every meta finger bone takes the roll of the generated bone of the same segment and side. |
| Graft.GraftStep | vrm_rigify/gen.py:159-178 | One iteration adds the visited bone exactly when it is missing, has a parent, and that parent is present. |
| Graft.GraftFrame | vrm_rigify/gen.py:155-178 | Bones already in the generated rig are never changed, and only visited names are added. |
| Graft.GraftAdded | vrm_rigify/gen.py:170-178 | An added bone copies its source bone's head, tail and roll. It sits under its source parent, which is present, and shares that parent's layers. |
| Graft.GraftAttachesChildrenOfPresent | vrm_rigify/gen.py:159-168 | Every visited non-root bone whose parent is in the generated rig from the start gets attached, in any order. |
| Graft.GraftClosed | vrm_rigify/gen.py:157-178 | When parents are visited before their children, a visited bone whose parent ends up in the rig ends up there too. |
| Graft.GraftIdempotent | vrm_rigify/gen.py:157-178 | When parents are visited before their children, a second grafting pass adds nothing. |

## Left out

- Blender operators are not modelled: the VRM name simplifier
  (`bones_rename`), the meta-rig spawner, object naming, `matrix_world`,
  selection and logging. The spawned template is an input.
- Switching between Blender's edit and pose modes (`vrm_rigify/other.py`)
  has no counterpart. Each stage is a function from skeletons to skeletons.
- `fix_gen_rig_constraint` is not modelled: it sets a pose constraint's
  target, and pose constraints are not part of the bone model. The full
  `setup_bones` sequence is not composed into one function. Its rename step
  is `Rename.MapToSource`.
- Matcher, baseIgnored and Translation: `objects_by_pattern(s)`,
  `BASE_IGNORED` and the translation table of `create_bone_mapping` live in
  `base.py`, which is not part of this model. They are parameters.
  `FINGER_BONES` is taken in the order Thumb, Index, Middle, Ring, Little,
  because the thumb branch needs the thumb first.
- Fingers.ThumbProjection: the thumb projection is a parameter. Its
  floating-point normalisation is not modelled, and neither is the
  division by zero it raises when the thumb's base and tip coincide.
- Eyes.FixEye: `intersect_line_plane` is a parameter. A `None` result fails
  with `NoIntersection`, where the source raises a `TypeError` on the
  subtraction.
- Floating point: all arithmetic is exact `real` arithmetic, so rounding
  is not modelled.
- Blender's connected-bone propagation is not modelled, in either
  direction. When a bone's `tail` is set from Python, Blender also moves the
  head of each connected child onto it. When a connected bone's `head` is
  set, Blender also moves its parent's tail onto it. Switching `use_connect`
  on moves the bone's own head onto its parent's tail. The model treats
  each such assignment as a plain field write. In the chain welds the snapped positions already
  coincide. In the finger loop the source clears the connect flags of the
  inner segments before moving their heads, but the first segment's head and
  the right side's first segment are written without that precaution.
- Meta.ApplyPositions: in `position_meta_rig` the meta-rig's chains are
  connected, and each placement writes a head and a tail bone by bone in
  iteration order. Through the propagation above, a later placement can move
  the tail of an already placed parent or the head of an already placed
  child. So in Blender, whether a placement survives depends on that order.
  The model, like `Meta.PositionMetaRigAt`, gives every paired bone exactly
  its counterpart's head, tail and roll.
- Rename.MapBones: Blender adds a numeric suffix when a new name is taken
  and truncates long names. The model instead requires collision-free
  renames (`Rename.CollisionFree`): distinct targets, and no target already
  in use in the generated rig. That also excludes a target that an earlier
  rename in the same list frees, such as the chained renames `B→C` then
  `A→B`, which Blender applies without a suffix.
- Blender's re-parenting of a deleted bone's children is not modelled by
  `Patterns.RemoveMatching`. The removed bones simply disappear.
- On a failed lookup the source stops part-way and keeps the edits already
  made. The model returns a `Failure` without that partial armature.
- `gen_rig_base_bones` is a generator read lazily while `map_bones`
  renames. The model computes the base bones and the mapping before any
  rename.
- Graft.Attached: the fields Blender gives a new edit bone (connect and
  deform flags) are the `blank` parameter.
- Graft.GraftClosed and Graft.GraftIdempotent require a parent-first visit
  order (`Graft.ParentFirst`). The source only assumes this in a comment
  about traversal order. Without it the pass can skip a bone whose parent is
  added later.
- Commented-out code is not modelled: the finger rolls in `fix_vrm_bone`,
  the finger parameters in `generate_meta_rig`, the eye constraints, and
  the head/tail and custom-shape copies in `fix_gen_rig_transfrom`.
- The Rigify parameters beyond roll alignment, segment count and rotation
  axis are not modelled.

## Findings

| source | as written | input that shows it | evidently intended | confidence | as-written member | corrected member |
|---|---|---|---|---|---|---|
| vrm_rigify/gen.py:127 | `meta_name` is formatted with segment 1 and side L before the per-slot names are built. The later `.format` calls find no placeholders, so all six meta-rig writes of a finger go to `<finger>.01.L`. That bone ends with the roll of the third right segment, and segments 2 and 3 and the right side keep their rolls. | Any rig with the five fingers present: the meta bone `thumb.01.L` gets the roll of `Thumb3_R`, and `thumb.02.L` and `thumb.01.R` are not written. | Each meta-rig finger bone takes the roll of the generated bone of the same segment and side, for example `thumb.02.R` from `Thumb2_R`. | not executed | FingerRoll.AdjustFingerRollFirstMeta | FingerRoll.AdjustFingerRollIntendedMeta |
