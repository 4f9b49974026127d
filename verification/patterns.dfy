/** Name-pattern classification and bone deletion. The matching rule of one
    pattern against one name, and the shared ignore list, belong to `base.py`,
    which is not part of this model: the rule is the `Matcher` parameter and
    the shared list the `baseIgnored` parameter. */
module Patterns {
  import opened Seqs
  import opened Skeletons

  type Pattern = string

  /** Whether one name matches one pattern. */
  type Matcher = (Name, Pattern) -> bool

  predicate MatchesAny(m: Matcher, name: Name, patterns: seq<Pattern>) {
    exists i :: 0 <= i < |patterns| && m(name, patterns[i])
  }

  /** Meta-rig bones deleted right after the template is spawned. */
  const BONES_DELETE: seq<Pattern> := ["pelvis", "palm.01", "palm.02", "palm.03", "palm.04"]

  /** Meta-rig bones that keep their template position. */
  function MetaIgnored(baseIgnored: seq<Pattern>): seq<Pattern> {
    baseIgnored + ["heel.02", "face", "teeth"]
  }

  /** Meta-rig bones whose limb generation parameters are amended. */
  const LIMB_BONES: seq<Pattern> := ["upper_arm", "thigh"]

  /** Generated-rig bones with no source counterpart. */
  function GenIgnored(baseIgnored: seq<Pattern>): seq<Pattern> {
    baseIgnored + ["teeth"]
  }

  /** `objects_by_patterns(objects, patterns)`: the objects that match some
      pattern, in collection order. */
  function ObjectsByPatterns(m: Matcher, order: seq<Name>, patterns: seq<Pattern>): seq<Name> {
    Filter(order, n => MatchesAny(m, n, patterns))
  }

  /** `for bone in names: edit_bones.remove(bone)`. */
  function DeleteEach(s: Skeleton, names: seq<Name>): (r: Skeleton)
    ensures r.Keys == s.Keys - set n | n in names
    ensures forall n :: n in r ==> r[n] == s[n]
    decreases |names|
  {
    if names == [] then s
    else
      var rest := DeleteEach(s - {names[0]}, names[1..]);
      assert (set n | n in names) == {names[0]} + set n | n in names[1..];
      rest
  }

  /** Deleting the bones `objects_by_patterns` lists removes exactly the
      matching bones and leaves every other bone present and unchanged. */
  function RemoveMatching(s: Skeleton, order: seq<Name>, m: Matcher, patterns: seq<Pattern>): (r: Skeleton)
    requires Enumerates(order, s.Keys)
    ensures forall n :: n in r ==> !MatchesAny(m, n, patterns)
    ensures forall n :: n in s && !MatchesAny(m, n, patterns) ==> n in r && r[n] == s[n]
    ensures r.Keys <= s.Keys
  {
    DeleteEach(s, ObjectsByPatterns(m, order, patterns))
  }

  /** The iteration order of a collection, restricted to a sub-collection,
      enumerates the sub-collection. */
  lemma RestrictEnumerates(order: seq<Name>, names: set<Name>, sub: set<Name>)
    requires Enumerates(order, names) && sub <= names
    ensures Enumerates(Filter(order, n => n in sub), sub)
  {
  }

  /** Pruning twice removes nothing more. */
  lemma RemoveMatchingIdempotent(s: Skeleton, order: seq<Name>, m: Matcher, patterns: seq<Pattern>)
    requires Enumerates(order, s.Keys)
    ensures
      var r := RemoveMatching(s, order, m, patterns);
      var order' := Filter(order, n => n in r);
      Enumerates(order', r.Keys) && RemoveMatching(r, order', m, patterns) == r
  {
    var r := RemoveMatching(s, order, m, patterns);
    var order' := Filter(order, n => n in r);
    var r' := RemoveMatching(r, order', m, patterns);
    assert r'.Keys == r.Keys;
  }
}
