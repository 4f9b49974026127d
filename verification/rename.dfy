/** `map_bones`: each paired generated bone is renamed after its source bone
    and made deforming. A bone's parent is a reference to a bone, not a
    name, so renaming a bone carries its children along: here the children's
    parent names follow the rename. Blender appends a numeric suffix when a
    new name is taken; the model instead asks that no rename collide. */
module Rename {
  import opened Seqs
  import opened Skeletons
  import opened Mapping

  /** The name bone `n` ends with: the target of the first pair renaming it,
      or its own name. */
  function RenameOf(pairs: seq<Pair>, n: Name): Name
    decreases |pairs|
  {
    if pairs == [] then n
    else if pairs[0].from == n then pairs[0].to
    else RenameOf(pairs[1..], n)
  }

  function RetargetParent(parent: Option<Name>, pairs: seq<Pair>): Option<Name> {
    match parent
    case None => None
    case Some(p) => Some(RenameOf(pairs, p))
  }

  /** Renames that never meet a taken name: every renamed bone exists, no
      bone is renamed twice, no two bones get the same name, and a new name is
      either the bone's own or not in use. */
  predicate CollisionFree(gen: Skeleton, pairs: seq<Pair>) {
    && NoDup(Froms(pairs))
    && NoDup(Tos(pairs))
    && forall i :: 0 <= i < |pairs| ==> pairs[i].from in gen && (pairs[i].to == pairs[i].from || pairs[i].to !in gen)
  }

  /** One iteration: `gen_bone.name = to; gen_bone.use_deform = True`. */
  function RenameBone(g: Skeleton, from: Name, to: Name): (r: Skeleton)
    requires from in g && (to == from || to !in g)
    ensures r.Keys == g.Keys - {from} + {to}
  {
    var one := [Pair(from, to)];
    map n | n in g.Keys - {from} + {to} ::
      var b := if n == to then g[from].(useDeform := true) else g[n];
      b.(parent := RetargetParent(b.parent, one))
  }

  /** The renaming loop. */
  function MapBones(gen: Skeleton, pairs: seq<Pair>): (r: Skeleton)
    requires CollisionFree(gen, pairs)
    decreases |pairs|
  {
    if pairs == [] then gen
    else
      var p := pairs[0];
      var g1 := RenameBone(gen, p.from, p.to);
      RestCollisionFree(gen, pairs);
      MapBones(g1, pairs[1..])
  }

  /** The pairs after the first stay collision-free once the first rename is done. */
  lemma RestCollisionFree(gen: Skeleton, pairs: seq<Pair>)
    requires CollisionFree(gen, pairs) && pairs != []
    ensures CollisionFree(RenameBone(gen, pairs[0].from, pairs[0].to), pairs[1..])
  {
    var rest := pairs[1..];
    var g1 := RenameBone(gen, pairs[0].from, pairs[0].to);
    assert Froms(rest) == Froms(pairs)[1..];
    assert Tos(rest) == Tos(pairs)[1..];
    forall i | 0 <= i < |rest|
      ensures rest[i].from in g1 && (rest[i].to == rest[i].from || rest[i].to !in g1)
    {
      assert rest[i] == pairs[i + 1];
      assert Froms(pairs)[i + 1] != Froms(pairs)[0];
      assert Tos(pairs)[i + 1] != Tos(pairs)[0];
    }
  }

  /** The first pair's new name is renamed by no later pair, and neither is
      its old name. */
  lemma FirstTargetFinal(gen: Skeleton, pairs: seq<Pair>)
    requires CollisionFree(gen, pairs) && pairs != []
    ensures pairs[0].to !in Froms(pairs[1..]) && pairs[0].from !in Froms(pairs[1..])
  {
    var rest := pairs[1..];
    forall i | 0 <= i < |rest|
      ensures rest[i].from != pairs[0].to && rest[i].from != pairs[0].from
    {
      assert rest[i] == pairs[i + 1];
      assert Froms(pairs)[i + 1] != Froms(pairs)[0];
    }
  }

  lemma RenameOfOne(p: Pair, x: Name)
    ensures RenameOf([p], x) == if x == p.from then p.to else x
  {
    assert [p][1..] == [];
  }

  lemma {:induction false} RenameOfAbsent(pairs: seq<Pair>, n: Name)
    requires n !in Froms(pairs)
    ensures RenameOf(pairs, n) == n
    decreases |pairs|
  {
    if pairs != [] {
      assert Froms(pairs[1..]) == Froms(pairs)[1..];
      RenameOfAbsent(pairs[1..], n);
    }
  }

  lemma {:induction false} RenameOfPaired(pairs: seq<Pair>, i: nat)
    requires NoDup(Froms(pairs)) && i < |pairs|
    ensures RenameOf(pairs, pairs[i].from) == pairs[i].to
    decreases |pairs|
  {
    if i > 0 {
      assert Froms(pairs[1..]) == Froms(pairs)[1..];
      assert pairs[1..][i - 1] == pairs[i];
      assert Froms(pairs)[i] != Froms(pairs)[0];
      RenameOfPaired(pairs[1..], i - 1);
    }
  }

  /** Renaming by the first pair and then by the rest is renaming by all. */
  lemma RenameOfCompose(gen: Skeleton, pairs: seq<Pair>, x: Name)
    requires CollisionFree(gen, pairs) && pairs != []
    ensures RenameOf(pairs[1..], RenameOf([pairs[0]], x)) == RenameOf(pairs, x)
  {
    FirstTargetFinal(gen, pairs);
    RenameOfOne(pairs[0], x);
    if x == pairs[0].from {
      RenameOfAbsent(pairs[1..], pairs[0].to);
    }
  }

  lemma RetargetCompose(gen: Skeleton, pairs: seq<Pair>, parent: Option<Name>)
    requires CollisionFree(gen, pairs) && pairs != []
    ensures RetargetParent(RetargetParent(parent, [pairs[0]]), pairs[1..]) == RetargetParent(parent, pairs)
  {
    if parent.Some? {
      RenameOfCompose(gen, pairs, parent.value);
    }
  }

  /** The reference outcome for one bone: renamed per the pairs, parent name
      following its parent's rename, deforming if it was paired. */
  function Renamed(b: Bone, n: Name, pairs: seq<Pair>): Bone {
    b.(parent := RetargetParent(b.parent, pairs), useDeform := b.useDeform || n in Froms(pairs))
  }

  /** Every generated bone ends under its new name, with its parent name
      following the parent's rename and deform forced on exactly for paired
      bones; everything else about it is unchanged. */
  lemma {:induction false} MapBonesAt(gen: Skeleton, pairs: seq<Pair>, n: Name)
    requires CollisionFree(gen, pairs) && n in gen
    ensures RenameOf(pairs, n) in MapBones(gen, pairs)
    ensures MapBones(gen, pairs)[RenameOf(pairs, n)] == Renamed(gen[n], n, pairs)
    decreases |pairs|
  {
    if pairs != [] {
      var p := pairs[0];
      var rest := pairs[1..];
      var g1 := RenameBone(gen, p.from, p.to);
      RestCollisionFree(gen, pairs);
      FirstTargetFinal(gen, pairs);
      var n1 := RenameOf([p], n);
      RenameOfOne(p, n);
      assert n1 in g1;
      MapBonesAt(g1, rest, n1);
      RenameOfCompose(gen, pairs, n);
      RetargetCompose(gen, pairs, gen[n].parent);
      assert Froms(rest) == Froms(pairs)[1..];
      assert n in Froms(pairs) <==> n == p.from || n in Froms(rest);
      if n == p.from {
        assert n1 == p.to;
        assert g1[n1] == gen[n].(useDeform := true, parent := RetargetParent(gen[n].parent, [p]));
      } else {
        assert n1 == n && n != p.to;
        assert g1[n1] == gen[n].(parent := RetargetParent(gen[n].parent, [p]));
      }
    }
  }

  /** No name appears that is not the new name of some generated bone. */
  lemma {:induction false} MapBonesKeys(gen: Skeleton, pairs: seq<Pair>, m: Name)
    requires CollisionFree(gen, pairs) && m in MapBones(gen, pairs)
    ensures exists n :: n in gen && RenameOf(pairs, n) == m
    decreases |pairs|
  {
    if pairs != [] {
      var p := pairs[0];
      var rest := pairs[1..];
      var g1 := RenameBone(gen, p.from, p.to);
      RestCollisionFree(gen, pairs);
      MapBonesKeys(g1, rest, m);
      var n1 :| n1 in g1 && RenameOf(rest, n1) == m;
      var n := if n1 == p.to then p.from else n1;
      RenameOfOne(p, n);
      RenameOfCompose(gen, pairs, n);
    }
  }

  lemma {:induction false} RenameInjective(gen: Skeleton, pairs: seq<Pair>, a: Name, b: Name)
    requires CollisionFree(gen, pairs) && a in gen && b in gen && a != b
    ensures RenameOf(pairs, a) != RenameOf(pairs, b)
    decreases |pairs|
  {
    if pairs != [] {
      var p := pairs[0];
      var g1 := RenameBone(gen, p.from, p.to);
      RestCollisionFree(gen, pairs);
      RenameOfCompose(gen, pairs, a);
      RenameOfCompose(gen, pairs, b);
      RenameOfOne(p, a);
      RenameOfOne(p, b);
      RenameInjective(g1, pairs[1..], RenameOf([p], a), RenameOf([p], b));
    }
  }

  /** `map_bones(create_bone_mapping(base_bones, source))`: the base bones of
      the generated rig that have a source counterpart are renamed after it. */
  function MapToSource(gen: Skeleton, baseBones: seq<Name>, translate: Translation, source: Skeleton): (r: Skeleton)
    requires CollisionFree(gen, CreateMapping(baseBones, translate, source))
  {
    MapBones(gen, CreateMapping(baseBones, translate, source))
  }

  /** After renaming, a base bone with a source counterpart carries the
      counterpart's name and deforms; a bone that is not renamed keeps its
      name and deform flag. */
  lemma MapToSourceAt(gen: Skeleton, baseBones: seq<Name>, translate: Translation, source: Skeleton, n: Name)
    requires CollisionFree(gen, CreateMapping(baseBones, translate, source)) && n in gen
    requires NoDup(baseBones)
    ensures
      var r := MapToSource(gen, baseBones, translate, source);
      && (n in baseBones && Resolves(translate, source, n) ==>
            translate(n).value in r && translate(n).value in source && r[translate(n).value].useDeform)
      && (!(n in baseBones && Resolves(translate, source, n)) ==> n in r && r[n].useDeform == gen[n].useDeform)
  {
    var pairs := CreateMapping(baseBones, translate, source);
    MapBonesAt(gen, pairs, n);
    if n in baseBones && Resolves(translate, source, n) {
      var k :| 0 <= k < |baseBones| && baseBones[k] == n;
      assert n in Froms(pairs);
      var i :| 0 <= i < |pairs| && Froms(pairs)[i] == n;
      RenameOfPaired(pairs, i);
    } else {
      assert n !in Froms(pairs);
      RenameOfAbsent(pairs, n);
    }
  }
}
