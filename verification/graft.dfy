/** `attach_remaining_bones`: every source bone the generated rig lacks (hair
    and other extras) is created in it under the same parent, provided that
    parent already exists there. The source bones are visited once, in the
    armature's enumeration order; the loop relies on that order listing a
    parent before its children. */
module Graft {
  import opened Skeletons

  /** The bone created for source bone `src` under parent `p`: its head, tail
      and roll are copied, it joins its parent's layers; every other field has
      the value the host gives a new bone, `blank`. */
  function Attached(blank: Bone, src: Bone, p: Name, parentLayers: seq<bool>): Bone {
    blank.(head := src.head, tail := src.tail, roll := src.roll, parent := Some(p), layers := parentLayers)
  }

  /** The parent under which source bone `n` would be attached to `gen`: it
      has a source parent and that parent is already in `gen`. */
  predicate CanAttach(source: Skeleton, gen: Skeleton, n: Name)
    requires n in source
  {
    source[n].parent.Some? && source[n].parent.value in gen
  }

  /** One iteration: skip a bone already in the generated rig, a root bone,
      and a bone whose parent is not in the generated rig; otherwise create it. */
  function GraftStep(source: Skeleton, gen: Skeleton, n: Name, blank: Bone): (r: Skeleton)
    requires n in source
    ensures r.Keys == if n !in gen && CanAttach(source, gen, n) then gen.Keys + {n} else gen.Keys
  {
    if n in gen || !CanAttach(source, gen, n) then gen
    else
      var p := source[n].parent.value;
      gen[n := Attached(blank, source[n], p, gen[p].layers)]
  }

  predicate Visits(source: Skeleton, visit: seq<Name>) {
    forall i :: 0 <= i < |visit| ==> visit[i] in source
  }

  /** The loop over the source bones in `visit` order. */
  function Graft(source: Skeleton, visit: seq<Name>, gen: Skeleton, blank: Bone): (r: Skeleton)
    requires Visits(source, visit)
    decreases |visit|
  {
    if visit == [] then gen
    else
      var last := |visit| - 1;
      GraftStep(source, Graft(source, visit[..last], gen, blank), visit[last], blank)
  }

  /** A parent is visited strictly before each of its children: no bone's
      source parent is visited at or after the bone itself. */
  predicate ParentFirst(source: Skeleton, visit: seq<Name>)
    requires Visits(source, visit)
  {
    forall k, j :: 0 <= k <= j < |visit| ==> source[visit[k]].parent != Some(visit[j])
  }

  lemma PrefixVisits(source: Skeleton, visit: seq<Name>)
    requires Visits(source, visit) && visit != []
    ensures Visits(source, visit[..|visit| - 1])
    ensures ParentFirst(source, visit) ==> ParentFirst(source, visit[..|visit| - 1])
  {
  }

  /** Bones already in the generated rig are never changed, and only
      visited names are added. */
  lemma {:induction false} GraftFrame(source: Skeleton, visit: seq<Name>, gen: Skeleton, blank: Bone)
    requires Visits(source, visit)
    ensures var r := Graft(source, visit, gen, blank);
      && (forall n :: n in gen ==> n in r && r[n] == gen[n])
      && (forall n :: n in r && n !in gen ==> n in visit)
    decreases |visit|
  {
    if visit != [] {
      var last := |visit| - 1;
      PrefixVisits(source, visit);
      GraftFrame(source, visit[..last], gen, blank);
    }
  }

  /** Every added bone is the copy of its source bone, attached under its
      source parent, which is in the result, and sharing that parent's
      layers. */
  lemma {:induction false} GraftAdded(source: Skeleton, visit: seq<Name>, gen: Skeleton, blank: Bone, n: Name)
    requires Visits(source, visit)
    requires n in Graft(source, visit, gen, blank) && n !in gen
    ensures n in source && source[n].parent.Some?
    ensures
      var r := Graft(source, visit, gen, blank);
      var p := source[n].parent.value;
      p in r && r[n] == Attached(blank, source[n], p, r[p].layers)
    decreases |visit|
  {
    var last := |visit| - 1;
    PrefixVisits(source, visit);
    var prev := Graft(source, visit[..last], gen, blank);
    var r := Graft(source, visit, gen, blank);
    GraftFrame(source, visit, gen, blank);
    assert n in visit;
    if n in prev {
      GraftAdded(source, visit[..last], gen, blank, n);
      var p := source[n].parent.value;
      assert r[p] == prev[p] && r[n] == prev[n] by {
        if visit[last] in prev || !CanAttach(source, prev, visit[last]) {
        } else {
          assert visit[last] != p && visit[last] != n;
        }
      }
    } else {
      assert n == visit[last];
      var p := source[n].parent.value;
      assert p != n;
    }
  }

  /** Under parent-first order the result is closed: a visited bone whose
      source parent ended up in the generated rig is there too. */
  lemma {:induction false} GraftClosed(source: Skeleton, visit: seq<Name>, gen: Skeleton, blank: Bone)
    requires Visits(source, visit) && ParentFirst(source, visit)
    ensures var r := Graft(source, visit, gen, blank);
      forall j :: 0 <= j < |visit| && CanAttach(source, r, visit[j]) ==> visit[j] in r
    decreases |visit|
  {
    if visit != [] {
      var last := |visit| - 1;
      var pre := visit[..last];
      PrefixVisits(source, visit);
      GraftClosed(source, pre, gen, blank);
      var prev := Graft(source, pre, gen, blank);
      var r := Graft(source, visit, gen, blank);
      forall j | 0 <= j < |visit| && CanAttach(source, r, visit[j])
        ensures visit[j] in r
      {
        var p := source[visit[j]].parent.value;
        assert p != visit[last] by {
          assert source[visit[j]].parent != Some(visit[last]);
        }
        assert p in prev;
        if j < last {
          assert pre[j] == visit[j];
        }
      }
    }
  }

  /** A pass that finds every visited bone present, a root, or without a
      parent in the rig changes nothing. */
  lemma {:induction false} GraftNoOp(source: Skeleton, visit: seq<Name>, g: Skeleton, blank: Bone)
    requires Visits(source, visit)
    requires forall j :: 0 <= j < |visit| ==> visit[j] in g || !CanAttach(source, g, visit[j])
    ensures Graft(source, visit, g, blank) == g
    decreases |visit|
  {
    if visit != [] {
      var last := |visit| - 1;
      PrefixVisits(source, visit);
      assert forall j :: 0 <= j < last ==> visit[..last][j] == visit[j];
      GraftNoOp(source, visit[..last], g, blank);
    }
  }

  /** Under parent-first order a second pass attaches nothing more. */
  lemma GraftIdempotent(source: Skeleton, visit: seq<Name>, gen: Skeleton, blank: Bone)
    requires Visits(source, visit) && ParentFirst(source, visit)
    ensures var r := Graft(source, visit, gen, blank);
      Graft(source, visit, r, blank) == r
  {
    GraftClosed(source, visit, gen, blank);
    GraftNoOp(source, visit, Graft(source, visit, gen, blank), blank);
  }

  /** Every visited non-root bone whose parent is in the generated rig from
      the start ends up in it, whatever the order. */
  lemma {:induction false} GraftAttachesChildrenOfPresent(source: Skeleton, visit: seq<Name>, gen: Skeleton, blank: Bone)
    requires Visits(source, visit)
    ensures var r := Graft(source, visit, gen, blank);
      forall j :: 0 <= j < |visit| && CanAttach(source, gen, visit[j]) ==> visit[j] in r
    decreases |visit|
  {
    if visit != [] {
      var last := |visit| - 1;
      PrefixVisits(source, visit);
      GraftAttachesChildrenOfPresent(source, visit[..last], gen, blank);
      GraftFrame(source, visit[..last], gen, blank);
      forall j | 0 <= j < |visit| && CanAttach(source, gen, visit[j])
        ensures visit[j] in Graft(source, visit, gen, blank)
      {
        if j < last {
          assert visit[..last][j] == visit[j];
        }
      }
    }
  }
}
