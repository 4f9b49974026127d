/** `fix_eye`: the generated rig's eye bones are moved onto the source eye.
    The left eye's head goes to where the source eye's axis crosses the plane
    through the eye-control bone and the left eye; the eye-control bone and
    the left eye's direction are scaled by one ratio chosen from the move; the
    right eye is rebuilt as the mirror image of the left. */
module Eyes {
  import opened Geometry
  import opened Skeletons

  /** `mathutils.geometry.intersect_line_plane(line_a, line_b, plane_co,
      plane_no)`: the point where the line through `line_a` and `line_b` meets
      the plane, or nothing when they are parallel. Floating-point geometry of
      the host library; a parameter of the model. */
  type Intersection = (Vec3, Vec3, Vec3, Vec3) -> Option<Vec3>

  const EYES: Name := "eyes"
  const EYE_L: Name := "eye.L"
  const EYE_R: Name := "eye.R"
  const FACE_EYE_L: Name := "FaceEye_L"

  /** The lookups of `fix_eye`, in order. */
  const EYE_REFS: seq<BoneRef> := [Ref(GeneratedRig, EYES), Ref(GeneratedRig, EYE_L), Ref(GeneratedRig, EYE_R), Ref(SourceRig, FACE_EYE_L)]

  /** The ratio along one axis: 0 when the bone did not extend along it,
      otherwise the factor that turns the old extent into the new one. */
  function AxisRatio(from: real, to: real): (r: real)
    ensures from == 0.0 ==> r == 0.0
    ensures from != 0.0 ==> r * from == to
  {
    if from == 0.0 then 0.0 else to / from
  }

  function Max3(a: real, b: real, c: real): (r: real)
    ensures r >= a && r >= b && r >= c
    ensures r == a || r == b || r == c
  {
    if a >= b && a >= c then a else if b >= c then b else c
  }

  /** The scale applied to the eye bones: the largest of the three axis ratios
      between the left eye's old and new offset from the eye-control head. */
  function EyeRatio(fromOff: Vec3, toOff: Vec3): real {
    Max3(AxisRatio(fromOff.x, toOff.x), AxisRatio(fromOff.y, toOff.y), AxisRatio(fromOff.z, toOff.z))
  }

  /** The ratio is the largest axis ratio: no smaller than the ratio of any
      axis the eye extended along, no smaller than the 0 a flat axis
      contributes, and attained by one of them. */
  lemma EyeRatioIsLargest(fromOff: Vec3, toOff: Vec3)
    ensures
      var k := EyeRatio(fromOff, toOff);
      && (fromOff.x != 0.0 ==> k >= toOff.x / fromOff.x)
      && (fromOff.y != 0.0 ==> k >= toOff.y / fromOff.y)
      && (fromOff.z != 0.0 ==> k >= toOff.z / fromOff.z)
      && (fromOff.x == 0.0 || fromOff.y == 0.0 || fromOff.z == 0.0 ==> k >= 0.0)
      && ((fromOff.x != 0.0 && k * fromOff.x == toOff.x)
          || (fromOff.y != 0.0 && k * fromOff.y == toOff.y)
          || (fromOff.z != 0.0 && k * fromOff.z == toOff.z)
          || (k == 0.0 && (fromOff.x == 0.0 || fromOff.y == 0.0 || fromOff.z == 0.0)))
  {
  }

  /** When the new offset equals the old one and the left eye does not sit on
      the eye-control head, the ratio is exactly 1. */
  lemma EyeRatioOfNoMove(off: Vec3)
    requires off != Vec3(0.0, 0.0, 0.0)
    ensures EyeRatio(off, off) == 1.0
  {
  }

  /** The eye bones after `fix_eye`, from the generated eye-control bone, the
      two generated eyes and the intersection point. */
  datatype EyeFix = EyeFix(eyes: Bone, left: Bone, right: Bone)

  function PlaceEyes(eyes: Bone, left: Bone, right: Bone, toPoint: Vec3): (r: EyeFix)
    ensures r.eyes == eyes.(tail := r.eyes.tail)
    ensures r.left == left.(head := toPoint, tail := r.left.tail)
    ensures r.right == right.(head := Mirror(r.left.head), tail := Mirror(r.left.tail))
  {
    var ratio := EyeRatio(Sub(left.head, eyes.head), Sub(toPoint, eyes.head));
    var eyesTail := Add(eyes.head, Scale(Sub(eyes.tail, eyes.head), ratio));
    var leftTail := Add(toPoint, Scale(Sub(left.tail, left.head), ratio));
    EyeFix(
      eyes.(tail := eyesTail),
      left.(head := toPoint, tail := leftTail),
      right.(head := Mirror(toPoint), tail := Mirror(leftTail)))
  }

  /** The eye-control bone keeps its head, and its head-to-tail offset is
      multiplied by the ratio; so is the left eye's. A ratio that is not
      positive reverses or collapses both offsets. */
  lemma PlaceEyesScales(eyes: Bone, left: Bone, right: Bone, toPoint: Vec3)
    ensures
      var r := PlaceEyes(eyes, left, right, toPoint);
      var ratio := EyeRatio(Sub(left.head, eyes.head), Sub(toPoint, eyes.head));
      && Sub(r.eyes.tail, r.eyes.head) == Scale(Sub(eyes.tail, eyes.head), ratio)
      && Sub(r.left.tail, r.left.head) == Scale(Sub(left.tail, left.head), ratio)
  {
  }

  /** When the intersection is the left eye's own head (the source eye is
      already on the plane at that point) and the eye is off the control head,
      nothing moves but the right eye, which becomes the left eye's mirror. */
  lemma PlaceEyesNoDrift(eyes: Bone, left: Bone, right: Bone)
    requires left.head != eyes.head
    ensures
      var r := PlaceEyes(eyes, left, right, left.head);
      && r.eyes == eyes && r.left == left
      && r.right.head == Mirror(left.head) && r.right.tail == Mirror(left.tail)
  {
    var off := Sub(left.head, eyes.head);
    assert off != Vec3(0.0, 0.0, 0.0);
    EyeRatioOfNoMove(off);
  }

  /** The right eye mirrors the left: mirroring it again gives the left eye's
      head and tail back. */
  lemma PlaceEyesSymmetric(eyes: Bone, left: Bone, right: Bone, toPoint: Vec3)
    ensures
      var r := PlaceEyes(eyes, left, right, toPoint);
      Mirror(r.right.head) == r.left.head && Mirror(r.right.tail) == r.left.tail
  {
  }

  /** `fix_eye` on the generated rig against the source. Fails on the first
      absent bone in lookup order, and when the source eye's axis is parallel
      to the plane (the intersection is `None` and the subtraction raises). */
  function FixEye(source: Skeleton, gen: Skeleton, intersect: Intersection): (r: Result<Skeleton>)
    ensures r.Success? ==> EYES in gen && EYE_L in gen && EYE_R in gen && FACE_EYE_L in source
    ensures r.Success? ==> r.value.Keys == gen.Keys
    ensures r.Failure? && r.error.MissingBone? ==>
              var miss := FirstMissing(EYE_REFS, Rigs(source, map[], gen));
              miss.Some? && r.error == Missing(miss.value)
    ensures (EYES !in gen || EYE_L !in gen || EYE_R !in gen || FACE_EYE_L !in source) ==> r.Failure? && r.error.MissingBone?
    ensures EYES in gen && EYE_L in gen && EYE_R in gen && FACE_EYE_L in source ==>
              var eyes := gen[EYES];
              var normal := Cross(Sub(eyes.tail, eyes.head), Sub(gen[EYE_L].head, eyes.head));
              (r.Success? <==> intersect(source[FACE_EYE_L].head, source[FACE_EYE_L].tail, gen[EYE_L].head, normal).Some?)
  {
    var miss := FirstMissing(EYE_REFS, Rigs(source, map[], gen));
    if miss.Some? then Failure(Missing(miss.value))
    else
      assert Present(Rigs(source, map[], gen), EYE_REFS[0]) && Present(Rigs(source, map[], gen), EYE_REFS[1]);
      assert Present(Rigs(source, map[], gen), EYE_REFS[2]) && Present(Rigs(source, map[], gen), EYE_REFS[3]);
      var eyes := gen[EYES];
      var left := gen[EYE_L];
      var ori := source[FACE_EYE_L];
      var normal := Cross(Sub(eyes.tail, eyes.head), Sub(left.head, eyes.head));
      match intersect(ori.head, ori.tail, left.head, normal)
      case None => Failure(NoIntersection)
      case Some(toPoint) =>
        var fix := PlaceEyes(eyes, left, gen[EYE_R], toPoint);
        Success(gen[EYES := fix.eyes][EYE_L := fix.left][EYE_R := fix.right])
  }

  /** A successful `fix_eye` stores exactly the placed eye bones and changes
      no other bone. */
  lemma FixEyeEffect(source: Skeleton, gen: Skeleton, intersect: Intersection)
    requires FixEye(source, gen, intersect).Success?
    ensures
      var r := FixEye(source, gen, intersect).value;
      var eyes := gen[EYES];
      var normal := Cross(Sub(eyes.tail, eyes.head), Sub(gen[EYE_L].head, eyes.head));
      var toPoint := intersect(source[FACE_EYE_L].head, source[FACE_EYE_L].tail, gen[EYE_L].head, normal).value;
      var fix := PlaceEyes(eyes, gen[EYE_L], gen[EYE_R], toPoint);
      && r[EYES] == fix.eyes && r[EYE_L] == fix.left && r[EYE_R] == fix.right
      && forall n :: n in gen && n != EYES && n != EYE_L && n != EYE_R ==> r[n] == gen[n]
  {
  }
}
