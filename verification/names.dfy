/** The fixed bone names of the source (VRoid, after name simplification) and
    of the Rigify meta-rig that the fix-up steps index directly. */
module BoneNames {
  import opened Seqs
  import opened Skeletons

  datatype Side = Left | Right

  function SideLetter(side: Side): char {
    match side
    case Left => 'L'
    case Right => 'R'
  }

  /** Hips -> Spine -> Chest -> UpperChest -> Neck. */
  const SPINE_BONES: seq<Name> := ["Hips", "Spine", "Chest", "UpperChest", "Neck"]

  /** UpperLeg -> LowerLeg -> Foot -> ToeBase, i.e. `"UpperLeg_{}".format(side)` etc. */
  function LegBones(side: Side): seq<Name> {
    match side
    case Left => ["UpperLeg_L", "LowerLeg_L", "Foot_L", "ToeBase_L"]
    case Right => ["UpperLeg_R", "LowerLeg_R", "Foot_R", "ToeBase_R"]
  }

  /** The five format keys of the finger table; the thumb comes first. */
  datatype Finger = Thumb | Index | Middle | Ring | Little

  const FINGER_BONES: seq<Finger> := [Thumb, Index, Middle, Ring, Little]

  lemma FingerBonesDistinct()
    ensures NoDup(FINGER_BONES)
  {
  }

  /** A finger segment number, 1 (proximal) to 3 (distal). */
  type Segment = k: int | 1 <= k <= 3 witness 1

  function Digit(k: Segment): char {
    if k == 1 then '1' else if k == 2 then '2' else '3'
  }

  /** The text before `{}` in the source format key, e.g. "Thumb" of "Thumb{}_{}". */
  function FingerStem(f: Finger): string {
    match f
    case Thumb => "Thumb"
    case Index => "Index"
    case Middle => "Middle"
    case Ring => "Ring"
    case Little => "Little"
  }

  /** `"Thumb{}_{}".format(k, side)`, e.g. "Thumb2_L". */
  function FingerName(f: Finger, k: Segment, side: Side): Name {
    FingerStem(f) + [Digit(k)] + ['_', SideLetter(side)]
  }

  /** The meta-rig stem, e.g. "thumb.0" of "thumb.0{}.{}". */
  function MetaFingerStem(f: Finger): string {
    match f
    case Thumb => "thumb.0"
    case Index => "f_index.0"
    case Middle => "f_middle.0"
    case Ring => "f_ring.0"
    case Little => "f_pinky.0"
  }

  /** `"thumb.0{}.{}".format(k, side)`, e.g. "thumb.02.L". */
  function MetaFingerName(f: Finger, k: Segment, side: Side): Name {
    MetaFingerStem(f) + [Digit(k)] + ['.', SideLetter(side)]
  }

  /** The six source bones of one finger. */
  function FingerBoneNames(f: Finger): set<Name> {
    {FingerName(f, 1, Left), FingerName(f, 2, Left), FingerName(f, 3, Left),
     FingerName(f, 1, Right), FingerName(f, 2, Right), FingerName(f, 3, Right)}
  }

  /** Every bone of the welded chains. */
  function ChainBoneNames(): set<Name> {
    set n | n in SPINE_BONES + LegBones(Left) + LegBones(Right)
  }

  /** Finger names are built from a finger, a segment and a side without
      collisions: the stem's first letter tells the finger apart, and the
      last three characters are the digit, '_' and the side letter. */
  lemma FingerNameInjective(f: Finger, k: Segment, side: Side, g: Finger, j: Segment, t: Side)
    requires FingerName(f, k, side) == FingerName(g, j, t)
    ensures f == g && k == j && side == t
  {
    var a := FingerName(f, k, side);
    var b := FingerName(g, j, t);
    assert a[0] == FingerStem(f)[0] && b[0] == FingerStem(g)[0];
    assert f == g;
    assert a[|FingerStem(f)|] == Digit(k) && b[|FingerStem(g)|] == Digit(j);
    assert a[|a| - 1] == SideLetter(side) && b[|b| - 1] == SideLetter(t);
  }

  /** The same for meta-rig finger names. */
  lemma MetaFingerNameInjective(f: Finger, k: Segment, side: Side, g: Finger, j: Segment, t: Side)
    requires MetaFingerName(f, k, side) == MetaFingerName(g, j, t)
    ensures f == g && k == j && side == t
  {
    var a := MetaFingerName(f, k, side);
    var b := MetaFingerName(g, j, t);
    assert a[2] == MetaFingerStem(f)[2] && b[2] == MetaFingerStem(g)[2];
    assert |a| == |MetaFingerStem(f)| + 3 && |b| == |MetaFingerStem(g)| + 3;
    assert f == g;
    assert a[|MetaFingerStem(f)|] == Digit(k) && b[|MetaFingerStem(g)|] == Digit(j);
    assert a[|a| - 1] == SideLetter(side) && b[|b| - 1] == SideLetter(t);
  }

  /** No finger bone is a spine or leg bone: every finger name has a digit
      third from the end, no chain name does. */
  lemma FingerNotChain(f: Finger, k: Segment, side: Side)
    ensures FingerName(f, k, side) !in ChainBoneNames()
  {
    var a := FingerName(f, k, side);
    assert a[|a| - 3] == Digit(k);
    forall n | n in SPINE_BONES + LegBones(Left) + LegBones(Right)
      ensures n != a
    {
      assert |n| < 3 || !('0' <= n[|n| - 3] <= '9');
    }
  }
}
