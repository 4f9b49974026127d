/** The first reconciliation steps on the generated rig (`gen.py`): pruning
    of bones with no source counterpart, the roll copy onto the eye bones,
    and the choice of bones that are renamed after their source bones. */
module GenRig {
  import opened Seqs
  import opened Skeletons
  import opened Patterns
  import opened Mapping

  // ------------------------------------------------- remove_gen_rig_ignored_bones

  /** `remove_gen_rig_ignored_bones`: delete every generated bone matching the
      generated-rig ignore list. No remaining bone matches it, and every
      bone that does not match it is still present and unchanged. */
  function RemoveGenRigIgnoredBones(gen: Skeleton, order: seq<Name>, m: Matcher, baseIgnored: seq<Pattern>): (r: Skeleton)
    requires Enumerates(order, gen.Keys)
    ensures forall n :: n in r ==> !MatchesAny(m, n, GenIgnored(baseIgnored))
    ensures forall n :: n in gen && !MatchesAny(m, n, GenIgnored(baseIgnored)) ==> n in r && r[n] == gen[n]
    ensures r.Keys <= gen.Keys
  {
    RemoveMatching(gen, order, m, GenIgnored(baseIgnored))
  }

  // ------------------------------------------------------- fix_gen_rig_transfrom

  /** Each eye bone of the generated rig and the source bone whose roll it
      takes, in the table's iteration order. */
  const TRANSFORM_REF: seq<Pair> := [
    Pair("ORG-eye.L", "FaceEye_L"),
    Pair("ORG-eye.R", "FaceEye_R"),
    Pair("master_eye.L", "FaceEye_L"),
    Pair("master_eye.R", "FaceEye_R")
  ]

  /** The lookups of the roll-copy loop: per entry the generated bone, then
      the source bone. */
  function CopyRollRefs(pairs: seq<Pair>): (r: seq<BoneRef>)
    ensures |r| == 2 * |pairs|
    ensures forall i :: 0 <= i < |pairs| ==> r[2 * i] == Ref(GeneratedRig, pairs[i].from) && r[2 * i + 1] == Ref(SourceRig, pairs[i].to)
    decreases |pairs|
  {
    if pairs == [] then []
    else
      var rest := CopyRollRefs(pairs[1..]);
      assert forall i :: 1 <= i < |pairs| ==> pairs[1..][i - 1] == pairs[i];
      [Ref(GeneratedRig, pairs[0].from), Ref(SourceRig, pairs[0].to)] + rest
  }

  /** The roll-copy loop: each generated bone takes its source bone's roll. */
  function CopyRolls(gen: Skeleton, source: Skeleton, pairs: seq<Pair>): (r: Skeleton)
    requires PairsIn(pairs, gen, source)
    ensures r.Keys == gen.Keys
    decreases |pairs|
  {
    if pairs == [] then gen
    else
      var p := pairs[0];
      assert forall i :: 1 <= i < |pairs| ==> pairs[1..][i - 1] == pairs[i];
      CopyRolls(gen[p.from := gen[p.from].(roll := source[p.to].roll)], source, pairs[1..])
  }

  /** With distinct generated bones, the roll copy gives each listed bone its
      source bone's roll, keeps everything else about it, and leaves every
      unlisted bone unchanged. */
  lemma {:induction false} CopyRollsAt(gen: Skeleton, source: Skeleton, pairs: seq<Pair>, n: Name)
    requires PairsIn(pairs, gen, source) && NoDup(Froms(pairs)) && n in gen
    ensures n !in Froms(pairs) ==> CopyRolls(gen, source, pairs)[n] == gen[n]
    ensures forall i :: 0 <= i < |pairs| && pairs[i].from == n ==>
              CopyRolls(gen, source, pairs)[n] == gen[n].(roll := source[pairs[i].to].roll)
    decreases |pairs|
  {
    if pairs != [] {
      var p := pairs[0];
      var rest := pairs[1..];
      var gen1 := gen[p.from := gen[p.from].(roll := source[p.to].roll)];
      assert forall i :: 1 <= i < |pairs| ==> rest[i - 1] == pairs[i];
      assert Froms(rest) == Froms(pairs)[1..];
      CopyRollsAt(gen1, source, rest, n);
      if n == p.from {
        assert n !in Froms(rest);
      }
    }
  }

  lemma TransformRefShape()
    ensures NoDup(Froms(TRANSFORM_REF))
    ensures |TRANSFORM_REF| == 4
  {
  }

  /** `fix_gen_rig_transfrom` over an arbitrary table: fails on the first
      absent bone in lookup order, otherwise copies the rolls. */
  function CopyRollsChecked(source: Skeleton, gen: Skeleton, pairs: seq<Pair>): (r: Result<Skeleton>)
    ensures r.Success? <==> PairsIn(pairs, gen, source)
    ensures r.Failure? ==>
              var miss := FirstMissing(CopyRollRefs(pairs), Rigs(source, map[], gen));
              miss.Some? && r.error == Missing(miss.value) && !Present(Rigs(source, map[], gen), miss.value)
    ensures r.Success? ==> r.value == CopyRolls(gen, source, pairs)
  {
    var refs := CopyRollRefs(pairs);
    var rigs := Rigs(source, map[], gen);
    var miss := FirstMissing(refs, rigs);
    assert PairsIn(pairs, gen, source) <==> forall i :: 0 <= i < |refs| ==> Present(rigs, refs[i]) by {
      if PairsIn(pairs, gen, source) {
        forall i | 0 <= i < |refs|
          ensures Present(rigs, refs[i])
        {
          assert refs[2 * (i / 2)] == Ref(GeneratedRig, pairs[i / 2].from);
          assert refs[2 * (i / 2) + 1] == Ref(SourceRig, pairs[i / 2].to);
        }
      }
      if forall i :: 0 <= i < |refs| ==> Present(rigs, refs[i]) {
        forall i | 0 <= i < |pairs|
          ensures pairs[i].from in gen && pairs[i].to in source
        {
          assert Present(rigs, refs[2 * i]) && Present(rigs, refs[2 * i + 1]);
        }
      }
    }
    if miss.Some? then Failure(Missing(miss.value))
    else Success(CopyRolls(gen, source, pairs))
  }

  /** `fix_gen_rig_transfrom`: each of the four eye bones of the generated rig
      takes the roll of its source eye bone. */
  function FixGenRigTransform(source: Skeleton, gen: Skeleton): (r: Result<Skeleton>)
    ensures r.Success? <==> PairsIn(TRANSFORM_REF, gen, source)
    ensures r.Success? ==> r.value.Keys == gen.Keys
  {
    CopyRollsChecked(source, gen, TRANSFORM_REF)
  }

  /** After the roll copy each eye bone listed in the table has exactly its
      source bone's roll and its own head, tail, parent and flags; every
      other bone is unchanged. */
  lemma FixGenRigTransformAt(source: Skeleton, gen: Skeleton, n: Name)
    requires FixGenRigTransform(source, gen).Success? && n in gen
    ensures n !in Froms(TRANSFORM_REF) ==> FixGenRigTransform(source, gen).value[n] == gen[n]
    ensures forall i :: 0 <= i < |TRANSFORM_REF| && TRANSFORM_REF[i].from == n ==>
              FixGenRigTransform(source, gen).value[n] == gen[n].(roll := source[TRANSFORM_REF[i].to].roll)
  {
    TransformRefShape();
    CopyRollsAt(gen, source, TRANSFORM_REF, n);
  }

  /** With distinct generated bones, copying the rolls a second time
      changes nothing. */
  lemma CopyRollsIdempotent(gen: Skeleton, source: Skeleton, pairs: seq<Pair>)
    requires PairsIn(pairs, gen, source) && NoDup(Froms(pairs))
    ensures PairsIn(pairs, CopyRolls(gen, source, pairs), source)
    ensures CopyRolls(CopyRolls(gen, source, pairs), source, pairs) == CopyRolls(gen, source, pairs)
  {
    var r := CopyRolls(gen, source, pairs);
    assert PairsIn(pairs, r, source);
    var r2 := CopyRolls(r, source, pairs);
    forall n | n in r
      ensures r2[n] == r[n]
    {
      CopyRollsAt(gen, source, pairs, n);
      CopyRollsAt(r, source, pairs, n);
      if n in Froms(pairs) {
        var i :| 0 <= i < |pairs| && Froms(pairs)[i] == n;
        assert pairs[i].from == n;
      }
    }
    assert r2 == r;
  }

  /** Copying the eye rolls a second time changes nothing. */
  lemma FixGenRigTransformIdempotent(source: Skeleton, gen: Skeleton)
    requires FixGenRigTransform(source, gen).Success?
    ensures
      var r := FixGenRigTransform(source, gen).value;
      FixGenRigTransform(source, r) == Success(r)
  {
    TransformRefShape();
    CopyRollsIdempotent(gen, source, TRANSFORM_REF);
  }

  // --------------------------------------------------------- gen_rig_base_bones

  /** Python's `name.startswith('DEF')`. */
  predicate IsDeformName(n: Name) {
    |n| >= 3 && n[..3] == "DEF"
  }

  /** `gen_rig_base_bones`: the generated bones that deform (their name starts
      with "DEF") or are Rigify eye bones (they match "ORG-eye"), in order. */
  function GenRigBaseBones(order: seq<Name>, m: Matcher): (r: seq<Name>)
    ensures forall i :: 0 <= i < |r| ==> r[i] in order && (IsDeformName(r[i]) || m(r[i], "ORG-eye"))
    ensures forall i :: 0 <= i < |order| && (IsDeformName(order[i]) || m(order[i], "ORG-eye")) ==> order[i] in r
    ensures IsSubsequence(r, order)
    ensures NoDup(order) ==> NoDup(r)
  {
    Filter(order, n => IsDeformName(n) || m(n, "ORG-eye"))
  }
}
