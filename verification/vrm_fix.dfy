/** `fix_vrm_bone`: repair of the imported avatar skeleton before it is used
    as the placement reference. The spine and both legs are welded into
    connected chains; each left finger is straightened and chained and the
    right finger is rebuilt as its mirror image. */
module VrmFix {
  import opened Geometry
  import opened Seqs
  import opened Skeletons
  import opened BoneNames
  import opened Weld
  import opened Fingers

  /** The bones the leg loop looks up, in first-lookup order: upper and lower
      leg of the left then the right side, then the feet, then the toes. */
  function LegLookupOrder(): seq<Name> {
    var l := LegBones(Left);
    var r := LegBones(Right);
    [l[0], l[1], r[0], r[1], l[2], r[2], l[3], r[3]]
  }

  /** The bones the finger loop looks up: per finger, left 1-3 then right 1-3. */
  function FingerLookupOrder(fingers: seq<Finger>): seq<Name>
    decreases |fingers|
  {
    if fingers == [] then []
    else SegmentNames(fingers[0], Left) + SegmentNames(fingers[0], Right) + FingerLookupOrder(fingers[1..])
  }

  /** Every source bone `fix_vrm_bone` indexes, in first-lookup order. */
  function FixVrmBoneLookups(): seq<Name> {
    SPINE_BONES + LegLookupOrder() + FingerLookupOrder(FINGER_BONES)
  }

  /** The source has every spine and leg bone. */
  predicate HasChains(s: Skeleton) {
    HasAll(s, SPINE_BONES) && HasAll(s, LegBones(Left)) && HasAll(s, LegBones(Right))
  }

  /** The source has every bone the repair touches. */
  predicate HasFixVrmBones(s: Skeleton) {
    HasChains(s) && forall i :: 0 <= i < |FINGER_BONES| ==> HasFinger(s, FINGER_BONES[i])
  }

  lemma HasAllConcat(s: Skeleton, a: seq<Name>, b: seq<Name>)
    ensures HasAll(s, a + b) <==> HasAll(s, a) && HasAll(s, b)
  {
    if HasAll(s, a) && HasAll(s, b) {
      forall i | 0 <= i < |a + b|
        ensures (a + b)[i] in s
      {
        if i >= |a| {
          assert (a + b)[i] == b[i - |a|];
        }
      }
    }
    if HasAll(s, a + b) {
      assert forall i :: 0 <= i < |a| ==> a[i] == (a + b)[i];
      assert forall i :: 0 <= i < |b| ==> b[i] == (a + b)[i + |a|];
    }
  }

  lemma HasLegLookups(s: Skeleton)
    ensures HasAll(s, LegLookupOrder()) <==> HasAll(s, LegBones(Left)) && HasAll(s, LegBones(Right))
  {
    var o := LegLookupOrder();
    var l := LegBones(Left);
    var r := LegBones(Right);
    if HasAll(s, o) {
      assert o[0] in s && o[1] in s && o[2] in s && o[3] in s && o[4] in s && o[5] in s && o[6] in s && o[7] in s;
    }
  }

  lemma HasFingerSegments(s: Skeleton, f: Finger)
    ensures HasAll(s, SegmentNames(f, Left) + SegmentNames(f, Right)) <==> HasFinger(s, f)
  {
    var o := SegmentNames(f, Left) + SegmentNames(f, Right);
    if HasAll(s, o) {
      assert o[0] in s && o[1] in s && o[2] in s && o[3] in s && o[4] in s && o[5] in s;
    }
  }

  lemma {:induction false} HasFingerLookups(s: Skeleton, fingers: seq<Finger>)
    ensures HasAll(s, FingerLookupOrder(fingers)) <==> forall i :: 0 <= i < |fingers| ==> HasFinger(s, fingers[i])
    decreases |fingers|
  {
    if fingers != [] {
      var rest := fingers[1..];
      HasFingerLookups(s, rest);
      HasAllConcat(s, SegmentNames(fingers[0], Left) + SegmentNames(fingers[0], Right), FingerLookupOrder(rest));
      HasFingerSegments(s, fingers[0]);
      assert forall i :: 1 <= i < |fingers| ==> fingers[i] == rest[i - 1];
      assert forall i :: 0 <= i < |rest| ==> rest[i] == fingers[i + 1];
    }
  }

  /** The lookup list covers exactly the bones the repair needs. */
  lemma LookupsCoverRepair(s: Skeleton)
    ensures HasAll(s, FixVrmBoneLookups()) <==> HasFixVrmBones(s)
  {
    HasAllConcat(s, SPINE_BONES + LegLookupOrder(), FingerLookupOrder(FINGER_BONES));
    HasAllConcat(s, SPINE_BONES, LegLookupOrder());
    HasLegLookups(s);
    HasFingerLookups(s, FINGER_BONES);
  }

  /** The spine and leg welds, before the finger loop. */
  function WeldChains(s: Skeleton): (r: Skeleton)
    requires HasChains(s)
    ensures r.Keys == s.Keys
  {
    WeldLegs(WeldSpine(s))
  }

  /** Source repair: weld the spine and both legs, then straighten and chain
      each left finger and mirror it onto the right. A missing bone aborts
      with the first lookup that fails. */
  function FixVrmBone(s: Skeleton, project: ThumbProjection): (r: Result<Skeleton>)
    ensures r.Success? <==> HasFixVrmBones(s)
    ensures r.Success? ==> r.value.Keys == s.Keys
  {
    if !HasFixVrmBones(s) then
      RepairMissIn(s);
      Failure(Missing(RepairMiss(s).value))
    else
      WeldChainsKeepsFingers(s);
      Success(FixFingers(WeldChains(s), FINGER_BONES, project))
  }

  /** The first lookup of the repair that fails, if any. */
  function RepairMiss(s: Skeleton): Option<BoneRef> {
    FirstMissing(RefsIn(SourceRig, FixVrmBoneLookups()), Rigs(s, map[], map[]))
  }

  lemma RepairMissIn(s: Skeleton)
    ensures RepairMiss(s).None? <==> HasFixVrmBones(s)
    ensures RepairMiss(s).Some? ==>
              RepairMiss(s).value.rig == SourceRig && RepairMiss(s).value.name in FixVrmBoneLookups()
              && RepairMiss(s).value.name !in s
  {
    FirstMissingIn(SourceRig, FixVrmBoneLookups(), Rigs(s, map[], map[]));
    LookupsCoverRepair(s);
  }

  /** A failed repair reports the first of its lookups, in the order the
      source performs them, that names a bone the skeleton lacks. */
  lemma FixVrmBoneFailure(s: Skeleton, project: ThumbProjection)
    requires FixVrmBone(s, project).Failure?
    ensures
      var miss := RepairMiss(s);
      && miss.Some? && FixVrmBone(s, project).error == Missing(miss.value)
      && miss.value.rig == SourceRig && miss.value.name in FixVrmBoneLookups() && miss.value.name !in s
  {
    RepairMissIn(s);
  }

  lemma WeldChainsKeepsFingers(s: Skeleton)
    requires HasFixVrmBones(s)
    ensures forall i :: 0 <= i < |FINGER_BONES| ==> HasFinger(WeldChains(s), FINGER_BONES[i])
  {
    var w := WeldChains(s);
    assert forall g :: HasFinger(s, g) ==> HasFinger(w, g);
  }

  /** No bone of a welded chain is a bone of finger `f`. */
  lemma ChainOutsideFinger(n: Name, f: Finger)
    requires n in ChainBoneNames()
    ensures n !in FingerBoneNames(f)
  {
    FingerNotChain(f, 1, Left);
    FingerNotChain(f, 2, Left);
    FingerNotChain(f, 3, Left);
    FingerNotChain(f, 1, Right);
    FingerNotChain(f, 2, Right);
    FingerNotChain(f, 3, Right);
  }

  lemma ChainBoneOutsideFingers(n: Name)
    requires n in ChainBoneNames()
    ensures OutsideFingers(n, FINGER_BONES)
  {
    forall i | 0 <= i < |FINGER_BONES|
      ensures n !in FingerBoneNames(FINGER_BONES[i])
    {
      ChainOutsideFinger(n, FINGER_BONES[i]);
    }
  }

  /** The welds do not touch the spine once it is welded: no spine bone is a
      leg bone. */
  lemma SpineNotLeg(n: Name)
    requires n in SPINE_BONES
    ensures n !in LegBones(Left) && n !in LegBones(Right)
  {
  }

  /** The welds never touch a finger bone. */
  lemma WeldChainsFrame(s: Skeleton, n: Name)
    requires HasChains(s) && n in s && n !in ChainBoneNames()
    ensures WeldChains(s)[n] == s[n]
  {
    SpineWelded(s);
    LegsFrame(WeldSpine(s), n);
  }

  /** After the welds the spine is welded: the leg welds never touch it. */
  lemma WeldChainsSpine(s: Skeleton)
    requires HasChains(s)
    ensures ChainWelded(WeldChains(s), SPINE_BONES)
  {
    var w1 := WeldSpine(s);
    SpineWelded(s);
    forall i | 0 <= i < |SPINE_BONES| && SPINE_BONES[i] in w1
      ensures SPINE_BONES[i] in WeldChains(s) && WeldChains(s)[SPINE_BONES[i]] == w1[SPINE_BONES[i]]
    {
      SpineNotLeg(SPINE_BONES[i]);
      LegsFrame(w1, SPINE_BONES[i]);
    }
    ChainWeldedKept(w1, WeldChains(s), SPINE_BONES);
  }

  lemma WeldChainsLeg(s: Skeleton, side: Side)
    requires HasChains(s)
    ensures ChainWelded(WeldChains(s), LegBones(side))
  {
    SpineWelded(s);
    LegsWelded(WeldSpine(s), side);
  }

  /** The welds change only tails and connect flags. */
  lemma WeldChainsJointsOnly(s: Skeleton, n: Name)
    requires HasChains(s) && n in s
    ensures SameButJoint(WeldChains(s)[n], s[n])
  {
    SpineWelded(s);
    LegsFrame(WeldSpine(s), n);
  }

  /** The value of a successful repair. */
  lemma FixVrmBoneValue(s: Skeleton, project: ThumbProjection)
    requires HasFixVrmBones(s)
    ensures forall i :: 0 <= i < |FINGER_BONES| ==> HasFinger(WeldChains(s), FINGER_BONES[i])
    ensures FixVrmBone(s, project) == Success(FixFingers(WeldChains(s), FINGER_BONES, project))
  {
    WeldChainsKeepsFingers(s);
  }

  lemma ChainsInChainBones(side: Side)
    ensures forall i :: 0 <= i < |SPINE_BONES| ==> SPINE_BONES[i] in ChainBoneNames()
    ensures forall i :: 0 <= i < |LegBones(side)| ==> LegBones(side)[i] in ChainBoneNames()
  {
  }

  /** The finger loop keeps a welded chain welded. */
  lemma FixFingersKeepsWeld(w: Skeleton, project: ThumbProjection, chain: seq<Name>)
    requires forall i :: 0 <= i < |FINGER_BONES| ==> HasFinger(w, FINGER_BONES[i])
    requires forall i :: 0 <= i < |chain| ==> chain[i] in ChainBoneNames()
    requires ChainWelded(w, chain)
    ensures ChainWelded(FixFingers(w, FINGER_BONES, project), chain)
  {
    var r := FixFingers(w, FINGER_BONES, project);
    forall i, j | 0 <= i < |chain| && j == i + 1 < |chain|
      ensures Joined(r, chain[i], chain[j])
    {
      assert Joined(w, chain[i], chain[j]);
      ChainBoneOutsideFingers(chain[i]);
      ChainBoneOutsideFingers(chain[j]);
      FixFingersFrame(w, FINGER_BONES, project, chain[i]);
      FixFingersFrame(w, FINGER_BONES, project, chain[j]);
    }
  }

  /** The welds leave Hips' and each UpperLeg's connect flag, and Neck's and
      each ToeBase's tail, as they were. */
  lemma WeldChainsEnds(s: Skeleton)
    requires HasChains(s)
    ensures EndsKept(WeldChains(s), s, SPINE_BONES)
    ensures EndsKept(WeldChains(s), s, LegBones(Left))
    ensures EndsKept(WeldChains(s), s, LegBones(Right))
  {
    var w1 := WeldSpine(s);
    SpineDistinct();
    ChainEndsKept(s, SPINE_BONES);
    SpineWelded(s);
    SpineNotLeg(SPINE_BONES[0]);
    SpineNotLeg(SPINE_BONES[4]);
    LegsFrame(w1, SPINE_BONES[0]);
    LegsFrame(w1, SPINE_BONES[4]);
    LegEndsKept(w1, Left);
    LegEndsKept(w1, Right);
    LegEndsUnspined(s, Left);
    LegEndsUnspined(s, Right);
  }

  lemma LegEndsUnspined(s: Skeleton, side: Side)
    requires HasChains(s)
    ensures
      var leg := LegBones(side);
      WeldSpine(s)[leg[0]] == s[leg[0]] && WeldSpine(s)[leg[3]] == s[leg[3]]
  {
    SpineWelded(s);
    assert LegBones(side)[0] !in SPINE_BONES && LegBones(side)[3] !in SPINE_BONES;
  }

  /** Source repair never writes the chain ends the welds leave open: Hips'
      and each UpperLeg's connect flag, Neck's and each ToeBase's tail. */
  lemma FixVrmBoneChainEnds(s: Skeleton, project: ThumbProjection)
    requires HasFixVrmBones(s)
    ensures
      var r := FixVrmBone(s, project).value;
      && EndsKept(r, s, SPINE_BONES)
      && EndsKept(r, s, LegBones(Left))
      && EndsKept(r, s, LegBones(Right))
  {
    FixVrmBoneValue(s, project);
    var w := WeldChains(s);
    WeldChainsEnds(s);
    ChainEndUnfingered(w, project, SPINE_BONES);
    ChainEndUnfingered(w, project, LegBones(Left));
    ChainEndUnfingered(w, project, LegBones(Right));
  }

  lemma ChainEndUnfingered(w: Skeleton, project: ThumbProjection, chain: seq<Name>)
    requires forall j :: 0 <= j < |FINGER_BONES| ==> HasFinger(w, FINGER_BONES[j])
    requires chain == SPINE_BONES || chain == LegBones(Left) || chain == LegBones(Right)
    requires chain[0] in w && chain[|chain| - 1] in w
    ensures
      var r := FixFingers(w, FINGER_BONES, project);
      && chain[0] in r && r[chain[0]] == w[chain[0]]
      && chain[|chain| - 1] in r && r[chain[|chain| - 1]] == w[chain[|chain| - 1]]
  {
    ChainsInChainBones(Left);
    ChainsInChainBones(Right);
    ChainBoneOutsideFingers(chain[0]);
    ChainBoneOutsideFingers(chain[|chain| - 1]);
    FixFingersFrame(w, FINGER_BONES, project, chain[0]);
    FixFingersFrame(w, FINGER_BONES, project, chain[|chain| - 1]);
  }

  /** After source repair, Hips -> Spine -> Chest -> UpperChest -> Neck and
      both UpperLeg -> LowerLeg -> Foot -> ToeBase chains are welded: each
      predecessor's tail is exactly its successor's head and each successor
      is connected. No head, roll, parent, deform flag or layer of a chain
      bone changes, and the open ends keep what they had: Hips' and each
      UpperLeg's connect flag, Neck's and each ToeBase's tail. */
  lemma FixVrmBoneWeldsChains(s: Skeleton, project: ThumbProjection)
    requires HasFixVrmBones(s)
    ensures
      var r := FixVrmBone(s, project).value;
      && ChainWelded(r, SPINE_BONES)
      && ChainWelded(r, LegBones(Left))
      && ChainWelded(r, LegBones(Right))
      && (forall n :: n in ChainBoneNames() && n in s ==> SameButJoint(r[n], s[n]))
      && EndsKept(r, s, SPINE_BONES)
      && EndsKept(r, s, LegBones(Left))
      && EndsKept(r, s, LegBones(Right))
  {
    FixVrmBoneChainEnds(s, project);
    FixVrmBoneValue(s, project);
    var w := WeldChains(s);
    WeldChainsSpine(s);
    WeldChainsLeg(s, Left);
    WeldChainsLeg(s, Right);
    ChainsInChainBones(Left);
    ChainsInChainBones(Right);
    FixFingersKeepsWeld(w, project, SPINE_BONES);
    FixFingersKeepsWeld(w, project, LegBones(Left));
    FixFingersKeepsWeld(w, project, LegBones(Right));
    forall n | n in ChainBoneNames() && n in s
      ensures SameButJoint(FixVrmBone(s, project).value[n], s[n])
    {
      ChainBoneOutsideFingers(n);
      FixFingersFrame(w, FINGER_BONES, project, n);
      WeldChainsJointsOnly(s, n);
    }
  }

  /** After source repair every finger is chained on both sides; the left
      finger is exactly the straightening of the ORIGINAL left bones (the
      welds never touch fingers); and every right point is the left point with
      x negated and y, z kept. */
  lemma FixVrmBoneFingers(s: Skeleton, project: ThumbProjection, i: nat)
    requires HasFixVrmBones(s)
    requires i < |FINGER_BONES|
    ensures
      var r := FixVrmBone(s, project).value;
      var f := FINGER_BONES[i];
      && HasFinger(r, f) && HasFinger(s, f)
      && SegmentsOf(r, f, Left) == ChainLeft(f, SegmentsOf(s, f, Left), project)
      && SegmentsOf(r, f, Right) == MirrorRight(ChainLeft(f, SegmentsOf(s, f, Left), project), SegmentsOf(s, f, Right))
      && Chained(SegmentsOf(r, f, Left))
      && Chained(SegmentsOf(r, f, Right))
      && (forall j :: 0 <= j < 6 ==> Points(SegmentsOf(r, f, Right))[j] == Mirror(Points(SegmentsOf(r, f, Left))[j]))
  {
    FixVrmBoneValue(s, project);
    FixedFinger(WeldChains(s), project, i);
    FingerUnwelded(s, FINGER_BONES[i]);
  }

  /** One finger after the finger loop. */
  lemma FixedFinger(w: Skeleton, project: ThumbProjection, i: nat)
    requires forall j :: 0 <= j < |FINGER_BONES| ==> HasFinger(w, FINGER_BONES[j])
    requires i < |FINGER_BONES|
    ensures
      var r := FixFingers(w, FINGER_BONES, project);
      var f := FINGER_BONES[i];
      && HasFinger(r, f)
      && SegmentsOf(r, f, Left) == ChainLeft(f, SegmentsOf(w, f, Left), project)
      && SegmentsOf(r, f, Right) == MirrorRight(ChainLeft(f, SegmentsOf(w, f, Left), project), SegmentsOf(w, f, Right))
      && Chained(SegmentsOf(r, f, Left))
      && Chained(SegmentsOf(r, f, Right))
      && (forall j :: 0 <= j < 6 ==> Points(SegmentsOf(r, f, Right))[j] == Mirror(Points(SegmentsOf(r, f, Left))[j]))
  {
    var f := FINGER_BONES[i];
    FingerBonesDistinct();
    FixFingersAt(w, FINGER_BONES, project, i);
    var left := ChainLeft(f, SegmentsOf(w, f, Left), project);
    MirrorSymmetric(left, SegmentsOf(w, f, Right), SegmentsOf(w, f, Right));
  }

  /** The welds leave a finger's bones, on both sides, as they were. */
  lemma FingerUnwelded(s: Skeleton, f: Finger)
    requires HasChains(s) && HasFinger(s, f)
    ensures HasFinger(WeldChains(s), f)
    ensures SegmentsOf(WeldChains(s), f, Left) == SegmentsOf(s, f, Left)
    ensures SegmentsOf(WeldChains(s), f, Right) == SegmentsOf(s, f, Right)
  {
    FingerSideUnwelded(s, f, Left);
    FingerSideUnwelded(s, f, Right);
  }

  lemma FingerSideUnwelded(s: Skeleton, f: Finger, side: Side)
    requires HasChains(s) && HasFinger(s, f)
    ensures HasFinger(WeldChains(s), f)
    ensures SegmentsOf(WeldChains(s), f, side) == SegmentsOf(s, f, side)
  {
    FingerSegmentUnwelded(s, f, 1, side);
    FingerSegmentUnwelded(s, f, 2, side);
    FingerSegmentUnwelded(s, f, 3, side);
  }

  lemma FingerSegmentUnwelded(s: Skeleton, f: Finger, k: Segment, side: Side)
    requires HasChains(s) && FingerName(f, k, side) in s
    ensures WeldChains(s)[FingerName(f, k, side)] == s[FingerName(f, k, side)]
  {
    FingerNotChain(f, k, side);
    WeldChainsFrame(s, FingerName(f, k, side));
  }

  /** Source repair changes no bone outside the welded chains and the fingers. */
  lemma FixVrmBoneFrame(s: Skeleton, project: ThumbProjection, n: Name)
    requires HasFixVrmBones(s)
    requires n in s && n !in ChainBoneNames() && OutsideFingers(n, FINGER_BONES)
    ensures FixVrmBone(s, project).value[n] == s[n]
  {
    FixVrmBoneValue(s, project);
    WeldChainsFrame(s, n);
    FixFingersFrame(WeldChains(s), FINGER_BONES, project, n);
  }
}
