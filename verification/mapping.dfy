/** The correspondence engine behind `create_bone_mapping` and
    `create_edit_bone_mapping`. Their translation table lives in `base.py`,
    which is not part of this model; it is the `Translation` parameter. A bone
    whose translated name is absent from the target skeleton is silently
    skipped. */
module Mapping {
  import opened Seqs
  import opened Skeletons

  /** A correspondence pair: a bone of the classified skeleton and the bone of
      the other skeleton it corresponds to. */
  datatype Pair = Pair(from: Name, to: Name)

  /** The name-translation table: a bone name to its counterpart's name, if any. */
  type Translation = Name -> Option<Name>

  function Froms(pairs: seq<Pair>): (r: seq<Name>)
    ensures |r| == |pairs|
    ensures forall i :: 0 <= i < |pairs| ==> r[i] == pairs[i].from
  {
    seq(|pairs|, i requires 0 <= i < |pairs| => pairs[i].from)
  }

  function Tos(pairs: seq<Pair>): (r: seq<Name>)
    ensures |r| == |pairs|
    ensures forall i :: 0 <= i < |pairs| ==> r[i] == pairs[i].to
  {
    seq(|pairs|, i requires 0 <= i < |pairs| => pairs[i].to)
  }

  /** Every pair names a bone of `from` and a bone of `to`. */
  predicate PairsIn(pairs: seq<Pair>, from: Skeleton, to: Skeleton) {
    forall i :: 0 <= i < |pairs| ==> pairs[i].from in from && pairs[i].to in to
  }

  predicate Resolves(translate: Translation, target: Skeleton, n: Name) {
    translate(n).Some? && translate(n).value in target
  }

  /** Pairs each bone of `bones` whose counterpart exists in `target`, keeping
      the order of `bones`. */
  function CreateMapping(bones: seq<Name>, translate: Translation, target: Skeleton): (pairs: seq<Pair>)
    ensures forall i :: 0 <= i < |pairs| ==> pairs[i].to in target && translate(pairs[i].from) == Some(pairs[i].to)
    ensures forall i :: 0 <= i < |pairs| ==> pairs[i].from in bones
    ensures forall i :: 0 <= i < |bones| && Resolves(translate, target, bones[i]) ==> bones[i] in Froms(pairs)
    ensures IsSubsequence(Froms(pairs), bones)
    ensures NoDup(bones) ==> NoDup(Froms(pairs))
  {
    var kept := Filter(bones, n => Resolves(translate, target, n));
    var pairs := seq(|kept|, i requires 0 <= i < |kept| => Pair(kept[i], translate(kept[i]).value));
    assert Froms(pairs) == kept;
    pairs
  }
}
