/** The armature data every stage works on: a skeleton is a name-keyed map of
    edit-bone records. A bone's parent is held by name; in Blender it is a
    reference to the bone itself, which is why renaming a bone also renames
    its children's parent references (see the Rename module). */
module Skeletons {
  import opened Geometry
  import opened Seqs

  type Name = string

  datatype Option<T> = None | Some(value: T)

  /** An edit bone: segment endpoints, twist, hierarchy link, the connected-joint
      flag, the deform flag and the display-layer bit mask. */
  datatype Bone = Bone(
    head: Vec3,
    tail: Vec3,
    roll: real,
    parent: Option<Name>,
    useConnect: bool,
    useDeform: bool,
    layers: seq<bool>)

  type Skeleton = map<Name, Bone>

  /** `order` is a collection's iteration order over `names`: each exactly once. */
  predicate Enumerates(order: seq<Name>, names: set<Name>) {
    && NoDup(order)
    && (forall i :: 0 <= i < |order| ==> order[i] in names)
    && (forall n :: n in names ==> n in order)
  }

  /** The three armatures a stage may index into. */
  datatype Rig = SourceRig | MetaRig | GeneratedRig

  datatype Rigs = Rigs(source: Skeleton, meta: Skeleton, generated: Skeleton) {
    function Of(r: Rig): Skeleton {
      match r
      case SourceRig => source
      case MetaRig => meta
      case GeneratedRig => generated
    }
  }

  /** One `edit_bones[name]` lookup. */
  datatype BoneRef = Ref(rig: Rig, name: Name)

  predicate Present(rigs: Rigs, r: BoneRef) {
    r.name in rigs.Of(r.rig)
  }

  /** Fatal conditions: a direct lookup of an absent bone (Python `KeyError`) and
      an eye line parallel to its projection plane (no intersection point). */
  datatype Error = MissingBone(rig: Rig, name: Name) | NoIntersection

  datatype Result<T> = Success(value: T) | Failure(error: Error)

  /** The first lookup, in evaluation order, that would raise. */
  function FirstMissing(refs: seq<BoneRef>, rigs: Rigs): (r: Option<BoneRef>)
    ensures r.None? <==> forall i :: 0 <= i < |refs| ==> Present(rigs, refs[i])
    ensures r.Some? ==>
              exists i :: 0 <= i < |refs| && refs[i] == r.value && !Present(rigs, refs[i])
                          && forall j :: 0 <= j < i ==> Present(rigs, refs[j])
    decreases |refs|
  {
    if refs == [] then None
    else if !Present(rigs, refs[0]) then Some(refs[0])
    else
      var rest := FirstMissing(refs[1..], rigs);
      assert forall i :: 1 <= i < |refs| ==> refs[i] == refs[1..][i - 1];
      rest
  }

  /** The error a failed lookup raises. */
  function Missing(r: BoneRef): Error {
    MissingBone(r.rig, r.name)
  }

  /** Lookups of `names`, in order, all in one rig. */
  function RefsIn(rig: Rig, names: seq<Name>): (r: seq<BoneRef>)
    ensures |r| == |names|
    ensures forall i :: 0 <= i < |names| ==> r[i] == Ref(rig, names[i])
  {
    seq(|names|, i requires 0 <= i < |names| => Ref(rig, names[i]))
  }

  /** Lookups of names in one rig fail exactly when a name is absent, and
      the failing lookup names an absent bone of the list. */
  lemma FirstMissingIn(rig: Rig, names: seq<Name>, rigs: Rigs)
    ensures
      var m := FirstMissing(RefsIn(rig, names), rigs);
      && (m.None? <==> forall i :: 0 <= i < |names| ==> names[i] in rigs.Of(rig))
      && (m.Some? ==> m.value.rig == rig && m.value.name in names && m.value.name !in rigs.Of(rig))
  {
    var refs := RefsIn(rig, names);
    assert forall i :: 0 <= i < |names| ==> (Present(rigs, refs[i]) <==> names[i] in rigs.Of(rig));
  }
}
