/** Chain welding of the source skeleton (the first half of `fix_vrm_bone`):
    each predecessor's tail is snapped onto its successor's head and the
    successor is marked connected. Heads are only ever read, so every weld
    uses the original head of its successor. */
module Weld {
  import opened Seqs
  import opened Skeletons
  import opened BoneNames

  /** One chain joint: `pred.tail = succ.head; succ.use_connect = True`. */
  datatype Link = Link(pred: Name, succ: Name)

  predicate LinksIn(links: seq<Link>, s: Skeleton) {
    forall i :: 0 <= i < |links| ==> links[i].pred in s && links[i].succ in s
  }

  predicate IsPred(links: seq<Link>, n: Name) {
    exists i :: 0 <= i < |links| && links[i].pred == n
  }

  predicate IsSucc(links: seq<Link>, n: Name) {
    exists i :: 0 <= i < |links| && links[i].succ == n
  }

  /** No bone is welded onto two different successors. */
  predicate Functional(links: seq<Link>) {
    forall i, j :: 0 <= i < |links| && 0 <= j < |links| && links[i].pred == links[j].pred ==>
      links[i].succ == links[j].succ
  }

  function WeldLink(s: Skeleton, l: Link): Skeleton
    requires l.pred in s && l.succ in s
  {
    var s1 := s[l.pred := s[l.pred].(tail := s[l.succ].head)];
    s1[l.succ := s1[l.succ].(useConnect := true)]
  }

  /** Agrees on everything but the tail and the connect flag. */
  predicate SameButJoint(a: Bone, b: Bone) {
    a.head == b.head && a.roll == b.roll && a.parent == b.parent
    && a.useDeform == b.useDeform && a.layers == b.layers
  }

  /** The welds of `links`, one after another. */
  function WeldLinks(s: Skeleton, links: seq<Link>): (r: Skeleton)
    requires LinksIn(links, s)
    ensures r.Keys == s.Keys
    decreases |links|
  {
    if links == [] then s
    else WeldLinks(WeldLink(s, links[0]), links[1..])
  }

  /** Welding only writes predecessors' tails and successors' connect flags:
      the head and every other field of a bone stay, and a bone in no link is
      untouched. */
  lemma {:induction false} WeldLinksFrame(s: Skeleton, links: seq<Link>, n: Name)
    requires LinksIn(links, s) && n in s
    ensures SameButJoint(WeldLinks(s, links)[n], s[n])
    ensures !IsPred(links, n) ==> WeldLinks(s, links)[n].tail == s[n].tail
    ensures !IsSucc(links, n) ==> WeldLinks(s, links)[n].useConnect == s[n].useConnect
    decreases |links|
  {
    if links != [] {
      var rest := links[1..];
      var s1 := WeldLink(s, links[0]);
      WeldLinksFrame(s1, rest, n);
      if IsPred(rest, n) {
        var i :| 0 <= i < |rest| && rest[i].pred == n;
        assert links[i + 1].pred == n;
      }
      if IsSucc(rest, n) {
        var i :| 0 <= i < |rest| && rest[i].succ == n;
        assert links[i + 1].succ == n;
      }
    }
  }

  /** Every successor ends connected. */
  lemma {:induction false} WeldLinksConnect(s: Skeleton, links: seq<Link>, i: nat)
    requires LinksIn(links, s) && i < |links|
    ensures WeldLinks(s, links)[links[i].succ].useConnect
    decreases |links|
  {
    var rest := links[1..];
    var s1 := WeldLink(s, links[0]);
    if i > 0 {
      assert links[i] == rest[i - 1];
      WeldLinksConnect(s1, rest, i - 1);
    } else if IsSucc(rest, links[0].succ) {
      var j :| 0 <= j < |rest| && rest[j].succ == links[0].succ;
      WeldLinksConnect(s1, rest, j);
    } else {
      WeldLinksFrame(s1, rest, links[0].succ);
    }
  }

  /** When no bone has two different successors, every predecessor ends with
      its successor's original head as its tail. */
  lemma {:induction false} WeldLinksTail(s: Skeleton, links: seq<Link>, i: nat)
    requires LinksIn(links, s) && i < |links|
    requires Functional(links)
    ensures WeldLinks(s, links)[links[i].pred].tail == s[links[i].succ].head
    decreases |links|
  {
    var l := links[0];
    var rest := links[1..];
    var s1 := WeldLink(s, l);
    assert Functional(rest) by {
      forall a, b | 0 <= a < |rest| && 0 <= b < |rest| && rest[a].pred == rest[b].pred
        ensures rest[a].succ == rest[b].succ
      {
        assert links[a + 1] == rest[a] && links[b + 1] == rest[b];
      }
    }
    WeldLinksFrame(s, [l], links[i].succ);
    assert WeldLinks(s, [l]) == WeldLinks(s1, []) == s1;
    if i > 0 {
      assert links[i] == rest[i - 1];
      WeldLinksTail(s1, rest, i - 1);
    } else if IsPred(rest, l.pred) {
      var j :| 0 <= j < |rest| && rest[j].pred == l.pred;
      assert links[j + 1].pred == links[0].pred;
      WeldLinksTail(s1, rest, j);
    } else {
      WeldLinksFrame(s1, rest, l.pred);
    }
  }

  /** Consecutive pairs of a chain. */
  function ChainLinks(chain: seq<Name>): (links: seq<Link>)
    ensures |links| == if |chain| < 2 then 0 else |chain| - 1
    ensures forall i :: 0 <= i < |links| ==> links[i] == Link(chain[i], chain[i + 1])
  {
    if |chain| < 2 then []
    else seq(|chain| - 1, i requires 0 <= i < |chain| - 1 => Link(chain[i], chain[i + 1]))
  }

  /** The leg welds in source order: the loop welds the left then the right
      joint at each level, and the foot-to-toe joints are welded once more
      afterwards. */
  function LegLinks(): seq<Link> {
    var l := LegBones(Left);
    var r := LegBones(Right);
    [Link(l[0], l[1]), Link(r[0], r[1]),
     Link(l[1], l[2]), Link(r[1], r[2]),
     Link(l[2], l[3]), Link(r[2], r[3]),
     Link(l[2], l[3]), Link(r[2], r[3])]
  }

  /** Each bone of `chain` ends where the next begins, and the next is connected. */
  predicate ChainWelded(r: Skeleton, chain: seq<Name>) {
    forall i, j :: 0 <= i < |chain| && j == i + 1 < |chain| ==> Joined(r, chain[i], chain[j])
  }

  /** `a` ends where `b` begins, and `b` is connected to it. */
  predicate Joined(r: Skeleton, a: Name, b: Name) {
    a in r && b in r && r[a].tail == r[b].head && r[b].useConnect
  }

  predicate HasAll(s: Skeleton, names: seq<Name>) {
    forall i :: 0 <= i < |names| ==> names[i] in s
  }

  function WeldSpine(s: Skeleton): Skeleton
    requires HasAll(s, SPINE_BONES)
  {
    WeldLinks(s, ChainLinks(SPINE_BONES))
  }

  function WeldLegs(s: Skeleton): Skeleton
    requires HasAll(s, LegBones(Left)) && HasAll(s, LegBones(Right))
  {
    WeldLinks(s, LegLinks())
  }

  /** A weld sequence with no bone welded onto two successors leaves each
      of its joints joined. */
  lemma LinkJoined(s: Skeleton, links: seq<Link>, k: nat)
    requires LinksIn(links, s) && Functional(links) && k < |links|
    ensures Joined(WeldLinks(s, links), links[k].pred, links[k].succ)
  {
    WeldLinksTail(s, links, k);
    WeldLinksConnect(s, links, k);
    WeldLinksFrame(s, links, links[k].succ);
  }

  /** Welding the consecutive pairs of a duplicate-free chain joins every
      adjacent pair of it. */
  lemma ChainLinksWelded(s: Skeleton, chain: seq<Name>)
    requires HasAll(s, chain) && NoDup(chain)
    ensures LinksIn(ChainLinks(chain), s)
    ensures ChainWelded(WeldLinks(s, ChainLinks(chain)), chain)
  {
    var links := ChainLinks(chain);
    assert Functional(links) by {
      forall a, b | 0 <= a < |links| && 0 <= b < |links| && links[a].pred == links[b].pred
        ensures links[a].succ == links[b].succ
      {
        assert chain[a] == chain[b];
      }
    }
    forall i, j | 0 <= i < |chain| && j == i + 1 < |chain|
      ensures Joined(WeldLinks(s, links), chain[i], chain[j])
    {
      LinkJoined(s, links, i);
    }
  }

  /** A bone outside a chain is in none of its links. */
  lemma ChainLinksOutside(chain: seq<Name>, n: Name)
    requires n !in chain
    ensures !IsPred(ChainLinks(chain), n) && !IsSucc(ChainLinks(chain), n)
  {
  }

  /** A chain stays welded when none of its bones changes. */
  lemma ChainWeldedKept(r1: Skeleton, r2: Skeleton, chain: seq<Name>)
    requires ChainWelded(r1, chain)
    requires forall i :: 0 <= i < |chain| && chain[i] in r1 ==> chain[i] in r2 && r2[chain[i]] == r1[chain[i]]
    ensures ChainWelded(r2, chain)
  {
    forall i, j | 0 <= i < |chain| && j == i + 1 < |chain|
      ensures Joined(r2, chain[i], chain[j])
    {
      assert Joined(r1, chain[i], chain[j]);
    }
  }

  /** The two ends of a chain keep what no weld of it writes: the first
      bone's connect flag and the last bone's tail. */
  predicate EndsKept(r: Skeleton, s: Skeleton, chain: seq<Name>) {
    var last := |chain| - 1;
    && |chain| > 0
    && chain[0] in r && chain[0] in s && chain[last] in r && chain[last] in s
    && r[chain[0]].useConnect == s[chain[0]].useConnect
    && r[chain[last]].tail == s[chain[last]].tail
  }

  /** Welding a duplicate-free chain leaves its first bone's connect flag and
      its last bone's tail alone. */
  lemma ChainEndsKept(s: Skeleton, chain: seq<Name>)
    requires HasAll(s, chain) && NoDup(chain) && |chain| > 0
    ensures LinksIn(ChainLinks(chain), s)
    ensures EndsKept(WeldLinks(s, ChainLinks(chain)), s, chain)
  {
    var links := ChainLinks(chain);
    var last := |chain| - 1;
    assert !IsPred(links, chain[last]) by {
      forall i | 0 <= i < |links|
        ensures links[i].pred != chain[last]
      {
        assert links[i].pred == chain[i];
      }
    }
    assert !IsSucc(links, chain[0]) by {
      forall i | 0 <= i < |links|
        ensures links[i].succ != chain[0]
      {
        assert links[i].succ == chain[i + 1];
      }
    }
    WeldLinksFrame(s, links, chain[last]);
    WeldLinksFrame(s, links, chain[0]);
  }

  lemma SpineDistinct()
    ensures NoDup(SPINE_BONES)
  {
  }

  /** After spine welding every adjacent pair of Hips, Spine, Chest,
      UpperChest, Neck touches exactly, each successor is connected, no head
      moves, only tails and connect flags change, and no bone outside the
      spine changes. */
  lemma SpineWelded(s: Skeleton)
    requires HasAll(s, SPINE_BONES)
    ensures
      var r := WeldSpine(s);
      && r.Keys == s.Keys
      && ChainWelded(r, SPINE_BONES)
      && (forall n :: n in s ==> SameButJoint(r[n], s[n]))
      && (forall n :: n in s && n !in SPINE_BONES ==> r[n] == s[n])
  {
    SpineDistinct();
    ChainLinksWelded(s, SPINE_BONES);
    var links := ChainLinks(SPINE_BONES);
    forall n | n in s
      ensures SameButJoint(WeldSpine(s)[n], s[n])
      ensures n !in SPINE_BONES ==> WeldSpine(s)[n] == s[n]
    {
      WeldLinksFrame(s, links, n);
      if n !in SPINE_BONES {
        ChainLinksOutside(SPINE_BONES, n);
      }
    }
  }

  /** No leg bone is welded onto two different successors. */
  lemma LegLinksFunctional()
    ensures Functional(LegLinks())
  {
    var links := LegLinks();
    forall i, j | 0 <= i < |links| && 0 <= j < |links| && links[i].pred == links[j].pred
      ensures links[i].succ == links[j].succ
    {
      assert links[i].pred[|links[i].pred| - 1] == links[i].succ[|links[i].succ| - 1];
    }
  }

  /** Leg welding touches only leg bones, and of those only tails and
      connect flags. */
  lemma LegsFrame(s: Skeleton, n: Name)
    requires HasAll(s, LegBones(Left)) && HasAll(s, LegBones(Right))
    requires n in s
    ensures SameButJoint(WeldLegs(s)[n], s[n])
    ensures n !in LegBones(Left) && n !in LegBones(Right) ==> WeldLegs(s)[n] == s[n]
  {
    var links := LegLinks();
    WeldLinksFrame(s, links, n);
    if n !in LegBones(Left) && n !in LegBones(Right) {
      LegLinkEnds();
      assert !IsPred(links, n) && !IsSucc(links, n);
    }
  }

  /** Both ends of every leg link are leg bones. */
  lemma LegLinkEnds()
    ensures forall i :: 0 <= i < |LegLinks()| ==>
              (LegLinks()[i].pred in LegBones(Left) || LegLinks()[i].pred in LegBones(Right))
              && (LegLinks()[i].succ in LegBones(Left) || LegLinks()[i].succ in LegBones(Right))
  {
  }

  /** The leg welds leave each UpperLeg's connect flag and each ToeBase's
      tail alone. */
  lemma LegEndsKept(s: Skeleton, side: Side)
    requires HasAll(s, LegBones(Left)) && HasAll(s, LegBones(Right))
    ensures EndsKept(WeldLegs(s), s, LegBones(side))
  {
    var links := LegLinks();
    var leg := LegBones(side);
    assert !IsPred(links, leg[3]) && !IsSucc(links, leg[0]);
    WeldLinksFrame(s, links, leg[3]);
    WeldLinksFrame(s, links, leg[0]);
  }

  /** One leg joint after leg welding. */
  lemma LegJointWelded(s: Skeleton, side: Side, i: nat)
    requires HasAll(s, LegBones(Left)) && HasAll(s, LegBones(Right))
    requires i < 3
    ensures Joined(WeldLegs(s), LegBones(side)[i], LegBones(side)[i + 1])
  {
    var links := LegLinks();
    var leg := LegBones(side);
    LegLinksFunctional();
    var k := if side == Left then 2 * i else 2 * i + 1;
    assert links[k] == Link(leg[i], leg[i + 1]);
    LinkJoined(s, links, k);
  }

  /** The same weld for each leg, UpperLeg -> LowerLeg -> Foot -> ToeBase:
      adjacent bones touch exactly, successors are connected, no head moves,
      and no bone outside the legs changes. */
  lemma LegsWelded(s: Skeleton, side: Side)
    requires HasAll(s, LegBones(Left)) && HasAll(s, LegBones(Right))
    ensures
      var r := WeldLegs(s);
      var leg := LegBones(side);
      && r.Keys == s.Keys
      && ChainWelded(r, leg)
      && (forall n :: n in s ==> SameButJoint(r[n], s[n]))
      && (forall n :: n in s && n !in LegBones(Left) && n !in LegBones(Right) ==> r[n] == s[n])
  {
    forall n | n in s
      ensures SameButJoint(WeldLegs(s)[n], s[n])
      ensures n !in LegBones(Left) && n !in LegBones(Right) ==> WeldLegs(s)[n] == s[n]
    {
      LegsFrame(s, n);
    }
    LegChainWelded(s, side);
  }

  lemma LegChainWelded(s: Skeleton, side: Side)
    requires HasAll(s, LegBones(Left)) && HasAll(s, LegBones(Right))
    ensures ChainWelded(WeldLegs(s), LegBones(side))
  {
    LegJointWelded(s, side, 0);
    LegJointWelded(s, side, 1);
    LegJointWelded(s, side, 2);
    JointsWelded(WeldLegs(s), LegBones(side));
  }

  /** A chain is welded when each bone is joined to the next. */
  lemma JointsWelded(r: Skeleton, chain: seq<Name>)
    requires forall i :: 0 <= i < |chain| - 1 ==> Joined(r, chain[i], chain[i + 1])
    ensures ChainWelded(r, chain)
  {
  }

  /** Welding joints that are all already welded changes nothing. */
  lemma {:induction false} WeldLinksWhenWelded(s: Skeleton, links: seq<Link>)
    requires LinksIn(links, s)
    requires forall i :: 0 <= i < |links| ==> s[links[i].pred].tail == s[links[i].succ].head && s[links[i].succ].useConnect
    ensures WeldLinks(s, links) == s
    decreases |links|
  {
    if links != [] {
      var l := links[0];
      assert s[l.pred].(tail := s[l.succ].head) == s[l.pred];
      assert WeldLink(s, l) == s;
      WeldLinksWhenWelded(s, links[1..]);
    }
  }

  /** Welding `a` then `b` is welding `a + b`. */
  lemma {:induction false} WeldLinksAppend(s: Skeleton, a: seq<Link>, b: seq<Link>)
    requires LinksIn(a, s) && LinksIn(b, s)
    ensures WeldLinks(s, a + b) == WeldLinks(WeldLinks(s, a), b)
    decreases |a|
  {
    if a == [] {
      assert a + b == b;
    } else {
      var s1 := WeldLink(s, a[0]);
      assert (a + b)[1..] == a[1..] + b;
      assert (a + b)[0] == a[0];
      WeldLinksAppend(s1, a[1..], b);
    }
  }

  /** Welding again joints that a functional sequence of welds already made
      changes nothing. */
  lemma RepeatedWeldsAreNoOps(s: Skeleton, done: seq<Link>, again: seq<Link>)
    requires LinksIn(done, s) && LinksIn(again, s)
    requires Functional(done)
    requires forall i :: 0 <= i < |again| ==> again[i] in done
    ensures WeldLinks(s, done + again) == WeldLinks(s, done)
  {
    WeldLinksAppend(s, done, again);
    var t := WeldLinks(s, done);
    forall i | 0 <= i < |again|
      ensures t[again[i].pred].tail == t[again[i].succ].head && t[again[i].succ].useConnect
    {
      var k :| 0 <= k < |done| && done[k] == again[i];
      WeldLinksTail(s, done, k);
      WeldLinksConnect(s, done, k);
      WeldLinksFrame(s, done, again[i].succ);
    }
    WeldLinksWhenWelded(t, again);
  }

  /** The repeated Foot -> ToeBase welds after the leg loop are no-ops: the
      legs end up exactly as the loop alone leaves them. */
  lemma RepeatedFootWeldIsNoOp(s: Skeleton)
    requires HasAll(s, LegBones(Left)) && HasAll(s, LegBones(Right))
    ensures WeldLegs(s) == WeldLinks(s, LegLinks()[..6])
  {
    var links := LegLinks();
    var loop := links[..6];
    var again := links[6..];
    assert links == loop + again;
    LegLinksFunctional();
    assert Functional(loop) by {
      forall i, j | 0 <= i < |loop| && 0 <= j < |loop| && loop[i].pred == loop[j].pred
        ensures loop[i].succ == loop[j].succ
      {
        assert loop[i] == links[i] && loop[j] == links[j];
      }
    }
    assert again[0] == loop[4] && again[1] == loop[5];
    RepeatedWeldsAreNoOps(s, loop, again);
  }
}
