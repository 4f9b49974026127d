/** Finger straightening and mirroring of the source skeleton (the second half
    of `fix_vrm_bone`). Each left finger is straightened and chained; its right
    counterpart is then overwritten with the mirror image of the finished left
    finger and is never computed on its own. */
module Fingers {
  import opened Geometry
  import opened Seqs
  import opened Skeletons
  import opened BoneNames

  /** The three segments of one finger on one side, proximal first. */
  datatype Segments = Segments(first: Bone, second: Bone, third: Bone)

  /** The thumb's straightening, a projection onto the line from the first
      head to the last tail that divides by that line's length. It is taken
      as given: from (first head, second head, third head, third tail) to the
      new (second head, third head). */
  type ThumbProjection = (Vec3, Vec3, Vec3, Vec3) -> (Vec3, Vec3)

  /** Depth offsets from the mean head of a flattened non-thumb finger: the
      base and the tip sit slightly below it, the two inner joints above. */
  const BASE_DEPTH: real := -0.0005
  const JOINT_DEPTH: real := 0.001

  /** Keep x, take y from the mean head, and z from the mean head plus `dz`. */
  function Flatten(p: Vec3, center: Vec3, dz: real): Vec3 {
    Vec3(p.x, center.y, center.z + dz)
  }

  /** Each segment ends where the next begins, and the next two are connected. */
  predicate Chained(g: Segments) {
    && g.first.tail == g.second.head
    && g.second.tail == g.third.head
    && g.second.useConnect && g.third.useConnect
  }

  /** The left finger after straightening and chaining. */
  function ChainLeft(f: Finger, b: Segments, project: ThumbProjection): (r: Segments)
    ensures Chained(r)
    ensures r.first == b.first.(head := r.first.head, tail := r.first.tail)
    ensures r.second == b.second.(head := r.second.head, tail := r.second.tail, useConnect := true)
    ensures r.third == b.third.(head := r.third.head, tail := r.third.tail, useConnect := true)
  {
    var center := Centroid(b.first.head, b.second.head, b.third.head);
    var (h1, h2, h3, t3) :=
      if f == Thumb then
        var p := project(b.first.head, b.second.head, b.third.head, b.third.tail);
        (b.first.head, p.0, p.1, b.third.tail)
      else
        (Flatten(b.first.head, center, BASE_DEPTH), Flatten(b.second.head, center, JOINT_DEPTH),
         Flatten(b.third.head, center, JOINT_DEPTH), Flatten(b.third.tail, center, BASE_DEPTH));
    Segments(
      b.first.(head := h1, tail := h2),
      b.second.(head := h2, tail := h3, useConnect := true),
      b.third.(head := h3, tail := t3, useConnect := true))
  }

  /** The thumb keeps its base and its tip; its two inner joints are the
      projection's output. */
  lemma ThumbProjected(b: Segments, project: ThumbProjection)
    ensures
      var r := ChainLeft(Thumb, b, project);
      && r.first.head == b.first.head
      && r.third.tail == b.third.tail
      && (r.second.head, r.third.head) == project(b.first.head, b.second.head, b.third.head, b.third.tail)
  {
  }

  /** A non-thumb finger is flattened: its three heads and its tip keep x,
      take the y of the mean of the three original heads, and take that mean's
      z plus -0.0005, +0.001, +0.001, -0.0005 respectively. */
  lemma NonThumbFlattened(f: Finger, b: Segments, project: ThumbProjection)
    requires f != Thumb
    ensures
      var r := ChainLeft(f, b, project);
      var sumY := b.first.head.y + b.second.head.y + b.third.head.y;
      var sumZ := b.first.head.z + b.second.head.z + b.third.head.z;
      && r.first.head.x == b.first.head.x && r.second.head.x == b.second.head.x
      && r.third.head.x == b.third.head.x && r.third.tail.x == b.third.tail.x
      && 3.0 * r.first.head.y == sumY && 3.0 * r.second.head.y == sumY
      && 3.0 * r.third.head.y == sumY && 3.0 * r.third.tail.y == sumY
      && 3.0 * (r.first.head.z + 0.0005) == sumZ && 3.0 * (r.second.head.z - 0.001) == sumZ
      && 3.0 * (r.third.head.z - 0.001) == sumZ && 3.0 * (r.third.tail.z + 0.0005) == sumZ
  {
  }

  /** The right finger: every head and tail is the finished left one's mirror
      image; the two outer segments are connected. */
  function MirrorRight(left: Segments, right: Segments): (r: Segments)
    ensures r.first == right.first.(head := r.first.head, tail := r.first.tail)
    ensures r.second == right.second.(head := r.second.head, tail := r.second.tail, useConnect := true)
    ensures r.third == right.third.(head := r.third.head, tail := r.third.tail, useConnect := true)
  {
    Segments(
      right.first.(head := Mirror(left.first.head), tail := Mirror(left.first.tail)),
      right.second.(head := Mirror(left.second.head), tail := Mirror(left.second.tail), useConnect := true),
      right.third.(head := Mirror(left.third.head), tail := Mirror(left.third.tail), useConnect := true))
  }

  /** The six points of a finger. */
  function Points(g: Segments): seq<Vec3> {
    [g.first.head, g.first.tail, g.second.head, g.second.tail, g.third.head, g.third.tail]
  }

  /** Left/right symmetry by construction: each right point is the left point
      with x negated and y, z kept, so mirroring the right side gives back
      the left one; the right finger's geometry does not depend on what the
      right side held before; and a chained left finger gives a chained
      right finger. */
  lemma MirrorSymmetric(left: Segments, right: Segments, other: Segments)
    ensures
      var r := MirrorRight(left, right);
      && (forall i :: 0 <= i < 6 ==>
            Points(r)[i].x == -Points(left)[i].x && Points(r)[i].y == Points(left)[i].y
            && Points(r)[i].z == Points(left)[i].z)
      && (forall i :: 0 <= i < 6 ==> Mirror(Points(r)[i]) == Points(left)[i])
      && Points(MirrorRight(left, other)) == Points(r)
      && (Chained(left) ==> Chained(r))
  {
  }

  /** The source bone name of one segment. */
  function SegmentNames(f: Finger, side: Side): seq<Name> {
    [FingerName(f, 1, side), FingerName(f, 2, side), FingerName(f, 3, side)]
  }

  predicate HasFinger(s: Skeleton, f: Finger) {
    FingerBoneNames(f) <= s.Keys
  }

  function SegmentsOf(s: Skeleton, f: Finger, side: Side): Segments
    requires HasFinger(s, f)
  {
    Segments(s[FingerName(f, 1, side)], s[FingerName(f, 2, side)], s[FingerName(f, 3, side)])
  }

  function Store(s: Skeleton, f: Finger, side: Side, g: Segments): Skeleton {
    s[FingerName(f, 1, side) := g.first][FingerName(f, 2, side) := g.second][FingerName(f, 3, side) := g.third]
  }

  /** One iteration of the finger loop. */
  function FixFinger(s: Skeleton, f: Finger, project: ThumbProjection): (r: Skeleton)
    requires HasFinger(s, f)
    ensures r.Keys == s.Keys
  {
    var left := ChainLeft(f, SegmentsOf(s, f, Left), project);
    var right := MirrorRight(left, SegmentsOf(s, f, Right));
    Store(Store(s, f, Left, left), f, Right, right)
  }

  function FixFingers(s: Skeleton, fingers: seq<Finger>, project: ThumbProjection): (r: Skeleton)
    requires forall i :: 0 <= i < |fingers| ==> HasFinger(s, fingers[i])
    ensures r.Keys == s.Keys
    decreases |fingers|
  {
    if fingers == [] then s
    else
      var s1 := FixFinger(s, fingers[0], project);
      assert forall i :: 0 <= i < |fingers| - 1 ==> fingers[1..][i] == fingers[i + 1];
      assert s1.Keys == s.Keys;
      assert forall g :: HasFinger(s, g) ==> HasFinger(s1, g);
      FixFingers(s1, fingers[1..], project)
  }

  /** The three segment names of one side are distinct. */
  lemma SegmentNamesDistinct(f: Finger, side: Side)
    ensures FingerName(f, 1, side) != FingerName(f, 2, side)
    ensures FingerName(f, 1, side) != FingerName(f, 3, side)
    ensures FingerName(f, 2, side) != FingerName(f, 3, side)
  {
    var i := |FingerStem(f)|;
    assert FingerName(f, 1, side)[i] == '1';
    assert FingerName(f, 2, side)[i] == '2';
    assert FingerName(f, 3, side)[i] == '3';
  }

  /** Storing segments and reading them back gives the same segments. */
  lemma StoreThenRead(s: Skeleton, f: Finger, side: Side, g: Segments)
    requires HasFinger(s, f)
    ensures HasFinger(Store(s, f, side, g), f)
    ensures SegmentsOf(Store(s, f, side, g), f, side) == g
  {
    SegmentNamesDistinct(f, side);
  }

  /** Distinct fingers, or opposite sides, have disjoint bone names. */
  lemma SegmentNamesDisjoint(f: Finger, side: Side, g: Finger, t: Side, k: Segment)
    requires (g, t) != (f, side)
    ensures FingerName(f, k, side) !in SegmentNames(g, t)
    ensures g != f ==> FingerName(f, k, side) !in FingerBoneNames(g)
  {
    OtherSideNames(f, k, side, g, t);
    if g != f {
      OtherSideNames(f, k, side, g, if t == Left then Right else Left);
    }
  }

  lemma OtherSideNames(f: Finger, k: Segment, side: Side, g: Finger, t: Side)
    requires (g, t) != (f, side)
    ensures FingerName(f, k, side) !in SegmentNames(g, t)
  {
    OtherFingerName(f, k, side, g, 1, t);
    OtherFingerName(f, k, side, g, 2, t);
    OtherFingerName(f, k, side, g, 3, t);
  }

  lemma OtherFingerName(f: Finger, k: Segment, side: Side, g: Finger, j: Segment, t: Side)
    requires (g, t) != (f, side)
    ensures FingerName(f, k, side) != FingerName(g, j, t)
  {
    if FingerName(f, k, side) == FingerName(g, j, t) {
      FingerNameInjective(f, k, side, g, j, t);
    }
  }

  /** One finger iteration rewrites exactly that finger's six bones. */
  lemma FixFingerEffect(s: Skeleton, f: Finger, project: ThumbProjection)
    requires HasFinger(s, f)
    ensures
      var r := FixFinger(s, f, project);
      var left := ChainLeft(f, SegmentsOf(s, f, Left), project);
      && HasFinger(r, f)
      && SegmentsOf(r, f, Left) == left
      && SegmentsOf(r, f, Right) == MirrorRight(left, SegmentsOf(s, f, Right))
  {
    var left := ChainLeft(f, SegmentsOf(s, f, Left), project);
    var right := MirrorRight(left, SegmentsOf(s, f, Right));
    var s1 := Store(s, f, Left, left);
    StoreThenRead(s, f, Left, left);
    StoreThenRead(s1, f, Right, right);
    var r := Store(s1, f, Right, right);
    forall k: Segment
      ensures r[FingerName(f, k, Left)] == s1[FingerName(f, k, Left)]
    {
      SegmentNamesDisjoint(f, Left, f, Right, k);
    }
  }

  /** One finger iteration leaves every bone outside that finger alone. */
  lemma FixFingerFrame(s: Skeleton, f: Finger, project: ThumbProjection, n: Name)
    requires HasFinger(s, f) && n in s && n !in FingerBoneNames(f)
    ensures FixFinger(s, f, project)[n] == s[n]
  {
  }

  predicate OutsideFingers(n: Name, fingers: seq<Finger>) {
    forall i :: 0 <= i < |fingers| ==> n !in FingerBoneNames(fingers[i])
  }

  /** The finger loop leaves every bone that belongs to none of its fingers alone. */
  lemma {:induction false} FixFingersFrame(s: Skeleton, fingers: seq<Finger>, project: ThumbProjection, n: Name)
    requires forall i :: 0 <= i < |fingers| ==> HasFinger(s, fingers[i])
    requires n in s && OutsideFingers(n, fingers)
    ensures FixFingers(s, fingers, project)[n] == s[n]
    decreases |fingers|
  {
    if fingers != [] {
      FixFingerFrame(s, fingers[0], project, n);
      assert forall i :: 0 <= i < |fingers| - 1 ==> fingers[1..][i] == fingers[i + 1];
      FixFingersFrame(FixFinger(s, fingers[0], project), fingers[1..], project, n);
    }
  }

  /** Later iterations of the loop do not touch a finger that is not among
      their fingers. */
  lemma FixFingersSkips(s: Skeleton, fingers: seq<Finger>, project: ThumbProjection, f: Finger, side: Side)
    requires forall j :: 0 <= j < |fingers| ==> HasFinger(s, fingers[j])
    requires HasFinger(s, f) && f !in fingers
    ensures HasFinger(FixFingers(s, fingers, project), f)
    ensures SegmentsOf(FixFingers(s, fingers, project), f, side) == SegmentsOf(s, f, side)
  {
    forall k: Segment
      ensures FixFingers(s, fingers, project)[FingerName(f, k, side)] == s[FingerName(f, k, side)]
    {
      forall j | 0 <= j < |fingers|
        ensures FingerName(f, k, side) !in FingerBoneNames(fingers[j])
      {
        SegmentNamesDisjoint(f, side, fingers[j], side, k);
      }
      FixFingersFrame(s, fingers, project, FingerName(f, k, side));
    }
  }

  /** An earlier iteration for another finger does not touch this finger. */
  lemma FixFingerSkips(s: Skeleton, f: Finger, project: ThumbProjection, g: Finger, side: Side)
    requires HasFinger(s, f) && HasFinger(s, g) && g != f
    ensures HasFinger(FixFinger(s, f, project), g)
    ensures SegmentsOf(FixFinger(s, f, project), g, side) == SegmentsOf(s, g, side)
  {
    forall k: Segment
      ensures FixFinger(s, f, project)[FingerName(g, k, side)] == s[FingerName(g, k, side)]
    {
      SegmentNamesDisjoint(g, side, f, side, k);
      FixFingerFrame(s, f, project, FingerName(g, k, side));
    }
  }

  /** The finger loop over distinct fingers: each finger ends exactly as one
      iteration computes it from the ORIGINAL bones of that finger. */
  lemma {:induction false} FixFingersAt(s: Skeleton, fingers: seq<Finger>, project: ThumbProjection, i: nat)
    requires forall j :: 0 <= j < |fingers| ==> HasFinger(s, fingers[j])
    requires NoDup(fingers) && i < |fingers|
    ensures
      var r := FixFingers(s, fingers, project);
      var f := fingers[i];
      var left := ChainLeft(f, SegmentsOf(s, f, Left), project);
      && HasFinger(r, f)
      && SegmentsOf(r, f, Left) == left
      && SegmentsOf(r, f, Right) == MirrorRight(left, SegmentsOf(s, f, Right))
    decreases |fingers|
  {
    var f := fingers[0];
    var rest := fingers[1..];
    var s1 := FixFinger(s, f, project);
    assert forall j :: 0 <= j < |rest| ==> rest[j] == fingers[j + 1];
    assert FixFingers(s, fingers, project) == FixFingers(s1, rest, project);
    if i == 0 {
      FixFingersAtHead(s, fingers, project);
    } else {
      var g := fingers[i];
      assert g == rest[i - 1] && g != f;
      assert NoDup(rest);
      FixFingersAt(s1, rest, project, i - 1);
      FixFingerSkips(s, f, project, g, Left);
      FixFingerSkips(s, f, project, g, Right);
    }
  }

  lemma FixFingersAtHead(s: Skeleton, fingers: seq<Finger>, project: ThumbProjection)
    requires forall j :: 0 <= j < |fingers| ==> HasFinger(s, fingers[j])
    requires NoDup(fingers) && fingers != []
    ensures
      var r := FixFingers(s, fingers, project);
      var f := fingers[0];
      var left := ChainLeft(f, SegmentsOf(s, f, Left), project);
      && HasFinger(r, f)
      && SegmentsOf(r, f, Left) == left
      && SegmentsOf(r, f, Right) == MirrorRight(left, SegmentsOf(s, f, Right))
  {
    var f := fingers[0];
    var rest := fingers[1..];
    var s1 := FixFinger(s, f, project);
    assert forall j :: 0 <= j < |rest| ==> rest[j] == fingers[j + 1];
    assert FixFingers(s, fingers, project) == FixFingers(s1, rest, project);
    FixFingerEffect(s, f, project);
    assert f !in rest;
    FixFingersSkips(s1, rest, project, f, Left);
    FixFingersSkips(s1, rest, project, f, Right);
  }
}
