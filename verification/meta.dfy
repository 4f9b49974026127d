/** The template-positioning stage (`meta.py`): repair of the source skeleton,
    pruning of the spawned meta-rig, transfer of the source's bone placement
    onto the meta-rig, and the limb generation parameters. */
module Meta {
  import opened Geometry
  import opened Seqs
  import opened Skeletons
  import opened BoneNames
  import opened Patterns
  import opened Mapping
  import opened Weld
  import opened Fingers
  import opened VrmFix

  // ------------------------------------------------- meta-rig base bones, positioning

  /** `meta_rig_base_bones`: the meta-rig bones not on the ignore list, in order. */
  function MetaRigBaseBones(order: seq<Name>, m: Matcher, baseIgnored: seq<Pattern>): (r: seq<Name>)
    ensures forall i :: 0 <= i < |r| ==> r[i] in order && !MatchesAny(m, r[i], MetaIgnored(baseIgnored))
    ensures forall i :: 0 <= i < |order| && !MatchesAny(m, order[i], MetaIgnored(baseIgnored)) ==> order[i] in r
    ensures IsSubsequence(r, order)
    ensures NoDup(order) ==> NoDup(r)
  {
    Filter(order, n => !MatchesAny(m, n, MetaIgnored(baseIgnored)))
  }

  /** A bone that takes over another bone's head, tail and roll. */
  function PlacedAs(b: Bone, src: Bone): Bone {
    b.(head := src.head, tail := src.tail, roll := src.roll)
  }

  /** The positioning loop: each paired meta bone takes its source bone's
      head, tail and roll. */
  function ApplyPositions(meta: Skeleton, source: Skeleton, pairs: seq<Pair>): (r: Skeleton)
    requires PairsIn(pairs, meta, source)
    ensures r.Keys == meta.Keys
    decreases |pairs|
  {
    if pairs == [] then meta
    else
      var p := pairs[0];
      var meta1 := meta[p.from := PlacedAs(meta[p.from], source[p.to])];
      assert forall i :: 1 <= i < |pairs| ==> pairs[1..][i - 1] == pairs[i];
      ApplyPositions(meta1, source, pairs[1..])
  }

  /** With distinct meta bones, a paired bone ends placed as its source
      bone and an unpaired bone is unchanged. */
  lemma {:induction false} ApplyPositionsAt(meta: Skeleton, source: Skeleton, pairs: seq<Pair>, n: Name)
    requires PairsIn(pairs, meta, source) && NoDup(Froms(pairs)) && n in meta
    ensures n !in Froms(pairs) ==> ApplyPositions(meta, source, pairs)[n] == meta[n]
    ensures forall i :: 0 <= i < |pairs| && pairs[i].from == n ==>
              ApplyPositions(meta, source, pairs)[n] == PlacedAs(meta[n], source[pairs[i].to])
    decreases |pairs|
  {
    if pairs != [] {
      var p := pairs[0];
      var rest := pairs[1..];
      var meta1 := meta[p.from := PlacedAs(meta[p.from], source[p.to])];
      assert forall i :: 1 <= i < |pairs| ==> rest[i - 1] == pairs[i];
      assert Froms(rest) == Froms(pairs)[1..];
      assert NoDup(Froms(rest));
      ApplyPositionsAt(meta1, source, rest, n);
      if n == p.from {
        assert n !in Froms(rest);
      }
    }
  }

  /** `position_meta_rig`: every meta bone that is a base bone and whose
      counterpart exists in the source takes that counterpart's head, tail
      and roll; every other meta bone is unchanged. */
  function PositionMetaRig(meta: Skeleton, order: seq<Name>, source: Skeleton, m: Matcher,
                           baseIgnored: seq<Pattern>, translate: Translation): (r: Skeleton)
    requires Enumerates(order, meta.Keys)
    ensures r.Keys == meta.Keys
  {
    var pairs := CreateMapping(MetaRigBaseBones(order, m, baseIgnored), translate, source);
    ApplyPositions(meta, source, pairs)
  }

  /** The placement `position_meta_rig` gives one meta bone. */
  lemma PositionMetaRigAt(meta: Skeleton, order: seq<Name>, source: Skeleton, m: Matcher,
                          baseIgnored: seq<Pattern>, translate: Translation, n: Name)
    requires Enumerates(order, meta.Keys) && n in meta
    ensures
      var r := PositionMetaRig(meta, order, source, m, baseIgnored, translate);
      if !MatchesAny(m, n, MetaIgnored(baseIgnored)) && Resolves(translate, source, n)
      then r[n] == PlacedAs(meta[n], source[translate(n).value])
      else r[n] == meta[n]
  {
    var base := MetaRigBaseBones(order, m, baseIgnored);
    var pairs := CreateMapping(base, translate, source);
    ApplyPositionsAt(meta, source, pairs, n);
    if n in Froms(pairs) {
      var i :| 0 <= i < |pairs| && pairs[i].from == n;
      assert n in base;
    } else if !MatchesAny(m, n, MetaIgnored(baseIgnored)) {
      var k :| 0 <= k < |order| && order[k] == n;
      assert n in base;
      var j :| 0 <= j < |base| && base[j] == n;
      assert !Resolves(translate, source, n);
    }
  }

  /** `PositionMetaRigAt` for every meta bone at once. */
  lemma PositionMetaRigEverywhere(meta: Skeleton, order: seq<Name>, source: Skeleton, m: Matcher,
                                  baseIgnored: seq<Pattern>, translate: Translation)
    requires Enumerates(order, meta.Keys)
    ensures
      var r := PositionMetaRig(meta, order, source, m, baseIgnored, translate);
      forall n :: n in r ==>
        r[n] == if !MatchesAny(m, n, MetaIgnored(baseIgnored)) && Resolves(translate, source, n)
                then PlacedAs(meta[n], source[translate(n).value])
                else meta[n]
  {
    forall n | n in meta {
      PositionMetaRigAt(meta, order, source, m, baseIgnored, translate, n);
    }
  }

  // ------------------------------------------------------- limb generation parameters

  /** The Rigify generation parameters of one meta-rig pose bone that the
      stage writes. */
  datatype RigifyParams = RigifyParams(rollAlignment: string, segments: int, rotationAxis: string)

  type PoseParams = map<Name, RigifyParams>

  /** `roll_alignment = "automatic"` on every pose bone. */
  function SetAutomatic(params: PoseParams): (r: PoseParams)
    ensures r.Keys == params.Keys
  {
    map n | n in params :: params[n].(rollAlignment := "automatic")
  }

  /** `segments = 1` and `rotation_axis = 'x'` on each listed pose bone. */
  function AmendLimbs(params: PoseParams, limbs: seq<Name>): (r: PoseParams)
    ensures r.Keys == params.Keys
    decreases |limbs|
  {
    if limbs == [] then params
    else
      var n := limbs[0];
      var p1 := if n in params then params[n := params[n].(segments := 1, rotationAxis := "x")] else params;
      AmendLimbs(p1, limbs[1..])
  }

  lemma {:induction false} AmendLimbsAt(params: PoseParams, limbs: seq<Name>, n: Name)
    requires n in params
    ensures n in limbs ==> AmendLimbs(params, limbs)[n] == params[n].(segments := 1, rotationAxis := "x")
    ensures n !in limbs ==> AmendLimbs(params, limbs)[n] == params[n]
    decreases |limbs|
  {
    if limbs != [] {
      var p1 := if limbs[0] in params then params[limbs[0] := params[limbs[0]].(segments := 1, rotationAxis := "x")] else params;
      AmendLimbsAt(p1, limbs[1..], n);
      assert n in limbs <==> n == limbs[0] || n in limbs[1..];
    }
  }

  /** The limb amendments of `generate_meta_rig`: every pose bone gets
      automatic roll alignment; the upper-arm and thigh bones get one
      segment and bend axis x; nothing else changes. */
  function TuneLimbs(params: PoseParams, order: seq<Name>, m: Matcher): (r: PoseParams)
    requires Enumerates(order, params.Keys)
    ensures r.Keys == params.Keys
    ensures forall n :: n in r ==> r[n].rollAlignment == "automatic"
    ensures forall n :: n in r && MatchesAny(m, n, LIMB_BONES) ==> r[n].segments == 1 && r[n].rotationAxis == "x"
    ensures forall n :: n in r && !MatchesAny(m, n, LIMB_BONES) ==>
              r[n].segments == params[n].segments && r[n].rotationAxis == params[n].rotationAxis
  {
    var auto := SetAutomatic(params);
    var limbs := ObjectsByPatterns(m, order, LIMB_BONES);
    AmendLimbsEverywhere(auto, limbs);
    AmendLimbs(auto, limbs)
  }

  lemma AmendLimbsEverywhere(params: PoseParams, limbs: seq<Name>)
    ensures var r := AmendLimbs(params, limbs);
      forall n :: n in params ==> r[n] == if n in limbs then params[n].(segments := 1, rotationAxis := "x") else params[n]
  {
    forall n | n in params
      ensures AmendLimbs(params, limbs)[n] == if n in limbs then params[n].(segments := 1, rotationAxis := "x") else params[n]
    {
      AmendLimbsAt(params, limbs, n);
    }
  }

  /** Tuning twice is tuning once. */
  lemma TuneLimbsIdempotent(params: PoseParams, order: seq<Name>, m: Matcher)
    requires Enumerates(order, params.Keys)
    ensures TuneLimbs(TuneLimbs(params, order, m), order, m) == TuneLimbs(params, order, m)
  {
    var r := TuneLimbs(params, order, m);
    var r2 := TuneLimbs(r, order, m);
    forall n | n in r
      ensures r2[n] == r[n]
    {
    }
  }

  // ------------------------------------------------------------ generate_meta_rig

  /** What the stage hands on: the repaired source, the positioned meta-rig
      and the meta-rig's generation parameters. */
  datatype MetaRigOutput = MetaRigOutput(source: Skeleton, meta: Skeleton, params: PoseParams)

  /** The meta-rig part of `generate_meta_rig`, from the repaired source and a
      freshly spawned template with its iteration order and pose parameters:
      delete the unneeded template bones, position the rest, amend the limbs.
      A surviving bone is placed on its repaired-source counterpart exactly
      when it is not ignored and its counterpart exists; otherwise it keeps
      its template placement. */
  function BuildMetaRig(fixed: Skeleton, template: Skeleton, order: seq<Name>, params: PoseParams,
                        m: Matcher, baseIgnored: seq<Pattern>, translate: Translation): (r: MetaRigOutput)
    requires Enumerates(order, template.Keys) && params.Keys == template.Keys
    ensures r.source == fixed
    ensures r.meta.Keys == r.params.Keys
    ensures forall n :: n in r.meta <==> n in template && !MatchesAny(m, n, BONES_DELETE)
    ensures forall n :: n in r.params ==> r.params[n].rollAlignment == "automatic"
    ensures forall n :: n in r.params && MatchesAny(m, n, LIMB_BONES) ==>
              r.params[n].segments == 1 && r.params[n].rotationAxis == "x"
    ensures forall n :: n in r.params && !MatchesAny(m, n, LIMB_BONES) ==>
              r.params[n].segments == params[n].segments && r.params[n].rotationAxis == params[n].rotationAxis
    ensures forall n :: n in r.meta ==>
              r.meta[n] == if !MatchesAny(m, n, MetaIgnored(baseIgnored)) && Resolves(translate, fixed, n)
                           then PlacedAs(template[n], fixed[translate(n).value])
                           else template[n]
  {
    var pruned := RemoveMatching(template, order, m, BONES_DELETE);
    var prunedOrder := Filter(order, n => n in pruned);
    RestrictEnumerates(order, template.Keys, pruned.Keys);
    var meta := PositionMetaRig(pruned, prunedOrder, fixed, m, baseIgnored, translate);
    PositionMetaRigEverywhere(pruned, prunedOrder, fixed, m, baseIgnored, translate);
    var pose := map n | n in params && n in pruned :: params[n];
    assert pose.Keys == pruned.Keys;
    MetaRigOutput(fixed, meta, TuneLimbs(pose, prunedOrder, m))
  }

  /** `generate_meta_rig`: repair the source (its names already simplified),
      then build the meta-rig against it. A bone the repair needs that the
      source lacks aborts the stage. */
  function GenerateMetaRig(source: Skeleton, template: Skeleton, order: seq<Name>, params: PoseParams,
                           m: Matcher, baseIgnored: seq<Pattern>, translate: Translation,
                           project: ThumbProjection): (r: Result<MetaRigOutput>)
    requires Enumerates(order, template.Keys) && params.Keys == template.Keys
    ensures r.Success? <==> HasFixVrmBones(source)
    ensures r.Failure? ==> r == Failure(FixVrmBone(source, project).error)
    ensures r.Success? ==>
              && r.value.source == FixVrmBone(source, project).value
              && r.value.source.Keys == source.Keys
              && r.value == BuildMetaRig(r.value.source, template, order, params, m, baseIgnored, translate)
  {
    match FixVrmBone(source, project)
    case Failure(e) => Failure(e)
    case Success(fixed) => Success(BuildMetaRig(fixed, template, order, params, m, baseIgnored, translate))
  }
}
