/** `adjust_finger_roll`: the generated rig's finger rolls are copied back
    onto the source and the meta-rig. The loop body writes, per finger, six
    source bones and six meta-rig bones, each from the generated bone of the
    same segment and side. The meta-rig name of each write is a parameter:
    as written in the source every meta write of a finger goes to its first
    left segment; the evidently intended target is the bone of the same
    segment and side. */
module FingerRoll {
  import opened Seqs
  import opened Skeletons
  import opened BoneNames

  /** A segment and side of a finger: one write of the loop body. */
  datatype Slot = Slot(k: Segment, side: Side)

  /** The loop body's write order: left 1-3, then right 1-3. */
  const SLOTS: seq<Slot> := [Slot(1, Left), Slot(2, Left), Slot(3, Left), Slot(1, Right), Slot(2, Right), Slot(3, Right)]

  /** The bone one write of the loop body goes to. */
  type Target = (Finger, Slot) -> Name

  /** Source (and generated) bone of a slot, e.g. "Thumb2_L". */
  function SourceTarget(f: Finger, s: Slot): Name {
    FingerName(f, s.k, s.side)
  }

  /** The meta bone each write goes to as written: `meta_name` is formatted
      once with segment 1 and side L, and formatting the result again changes
      nothing, so all six writes hit e.g. "thumb.01.L". */
  function AsWrittenMetaTarget(f: Finger, s: Slot): Name {
    MetaFingerName(f, 1, Left)
  }

  /** The meta bone of the same segment and side, e.g. "thumb.02.L". */
  function IntendedMetaTarget(f: Finger, s: Slot): Name {
    MetaFingerName(f, s.k, s.side)
  }

  // ------------------------------------------------------------ sequential writes

  datatype RollWrite = RollWrite(name: Name, roll: real)

  predicate WritesIn(ws: seq<RollWrite>, dst: Skeleton) {
    forall i :: 0 <= i < |ws| ==> ws[i].name in dst
  }

  /** `dst[w.name].roll = w.roll` for each write in turn. */
  function WriteRolls(dst: Skeleton, ws: seq<RollWrite>): (r: Skeleton)
    requires WritesIn(ws, dst)
    ensures r.Keys == dst.Keys
    decreases |ws|
  {
    if ws == [] then dst
    else
      assert forall i :: 1 <= i < |ws| ==> ws[1..][i - 1] == ws[i];
      WriteRolls(dst[ws[0].name := dst[ws[0].name].(roll := ws[0].roll)], ws[1..])
  }

  /** The roll bone `n` holds after the writes, starting from `d`: the roll
      of the last write to `n`, or `d` when there is none. */
  function LastRoll(ws: seq<RollWrite>, n: Name, d: real): real
    decreases |ws|
  {
    if ws == [] then d
    else LastRoll(ws[1..], n, if ws[0].name == n then ws[0].roll else d)
  }

  /** The writes change only rolls, and each bone ends with the roll of the
      last write to it. */
  lemma {:induction false} WriteRollsAt(dst: Skeleton, ws: seq<RollWrite>, n: Name)
    requires WritesIn(ws, dst) && n in dst
    ensures WriteRolls(dst, ws)[n] == dst[n].(roll := LastRoll(ws, n, dst[n].roll))
    decreases |ws|
  {
    if ws != [] {
      var dst1 := dst[ws[0].name := dst[ws[0].name].(roll := ws[0].roll)];
      assert forall i :: 1 <= i < |ws| ==> ws[1..][i - 1] == ws[i];
      WriteRollsAt(dst1, ws[1..], n);
    }
  }

  lemma {:induction false} LastRollNone(ws: seq<RollWrite>, n: Name, d: real)
    requires forall i :: 0 <= i < |ws| ==> ws[i].name != n
    ensures LastRoll(ws, n, d) == d
    decreases |ws|
  {
    if ws != [] {
      assert forall i :: 1 <= i < |ws| ==> ws[1..][i - 1] == ws[i];
      LastRollNone(ws[1..], n, d);
    }
  }

  /** A write to `n` that no later write to `n` follows decides its roll. */
  lemma {:induction false} LastRollUnique(ws: seq<RollWrite>, i: nat, n: Name, d: real)
    requires i < |ws| && ws[i].name == n
    requires forall j :: i < j < |ws| ==> ws[j].name != n
    ensures LastRoll(ws, n, d) == ws[i].roll
    decreases |ws|
  {
    var rest := ws[1..];
    assert forall j :: 1 <= j < |ws| ==> rest[j - 1] == ws[j];
    if i == 0 {
      LastRollNone(rest, n, ws[0].roll);
    } else {
      LastRollUnique(rest, i - 1, n, if ws[0].name == n then ws[0].roll else d);
    }
  }

  lemma {:induction false} LastRollAppend(a: seq<RollWrite>, b: seq<RollWrite>, n: Name, d: real)
    ensures LastRoll(a + b, n, d) == LastRoll(b, n, LastRoll(a, n, d))
    decreases |a|
  {
    if a == [] {
      assert a + b == b;
    } else {
      assert (a + b)[0] == a[0];
      assert (a + b)[1..] == a[1..] + b;
      LastRollAppend(a[1..], b, n, if a[0].name == n then a[0].roll else d);
    }
  }

  // ----------------------------------------------------------- the loop's writes

  /** The generated rig has the six bones of each finger. */
  predicate GenHasFingers(gen: Skeleton, fingers: seq<Finger>) {
    forall i, j :: 0 <= i < |fingers| && 0 <= j < |SLOTS| ==> SourceTarget(fingers[i], SLOTS[j]) in gen
  }

  /** The six writes of one finger to one rig. */
  function Block(gen: Skeleton, f: Finger, target: Target): (r: seq<RollWrite>)
    requires forall j :: 0 <= j < |SLOTS| ==> SourceTarget(f, SLOTS[j]) in gen
    ensures |r| == |SLOTS|
    ensures forall j :: 0 <= j < |SLOTS| ==> r[j] == RollWrite(target(f, SLOTS[j]), gen[SourceTarget(f, SLOTS[j])].roll)
  {
    seq(|SLOTS|, j requires 0 <= j < |SLOTS| => RollWrite(target(f, SLOTS[j]), gen[SourceTarget(f, SLOTS[j])].roll))
  }

  /** The writes of the whole loop to one rig, finger by finger. */
  function AllWrites(gen: Skeleton, fingers: seq<Finger>, target: Target): seq<RollWrite>
    requires GenHasFingers(gen, fingers)
    decreases |fingers|
  {
    if fingers == [] then []
    else
      assert forall i :: 1 <= i < |fingers| ==> fingers[1..][i - 1] == fingers[i];
      Block(gen, fingers[0], target) + AllWrites(gen, fingers[1..], target)
  }

  lemma {:induction false} AllWritesIn(gen: Skeleton, fingers: seq<Finger>, target: Target, dst: Skeleton)
    requires GenHasFingers(gen, fingers)
    requires forall i, j :: 0 <= i < |fingers| && 0 <= j < |SLOTS| ==> target(fingers[i], SLOTS[j]) in dst
    ensures WritesIn(AllWrites(gen, fingers, target), dst)
    decreases |fingers|
  {
    if fingers != [] {
      var rest := fingers[1..];
      assert forall i :: 1 <= i < |fingers| ==> rest[i - 1] == fingers[i];
      AllWritesIn(gen, rest, target, dst);
      var a: seq<RollWrite> := Block(gen, fingers[0], target);
      var b: seq<RollWrite> := AllWrites(gen, rest, target);
      forall i | 0 <= i < |a + b|
        ensures (a + b)[i].name in dst
      {
        if i >= |a| {
          assert (a + b)[i] == b[i - |a|];
        }
      }
    }
  }

  /** No write of a finger other than `fingers[i]` goes to `n`. */
  predicate OnlyFingerWrites(fingers: seq<Finger>, target: Target, i: nat, n: Name) {
    forall i', j :: 0 <= i' < |fingers| && i' != i && 0 <= j < |SLOTS| ==> target(fingers[i'], SLOTS[j]) != n
  }

  /** When only finger `i` writes `n`, the loop leaves `n` as that finger's
      block does. */
  lemma {:induction false} AllWritesLast(gen: Skeleton, fingers: seq<Finger>, target: Target, i: nat, n: Name, d: real)
    requires GenHasFingers(gen, fingers) && i < |fingers|
    requires OnlyFingerWrites(fingers, target, i, n)
    ensures LastRoll(AllWrites(gen, fingers, target), n, d) == LastRoll(Block(gen, fingers[i], target), n, d)
    decreases |fingers|
  {
    var rest := fingers[1..];
    assert forall i' :: 1 <= i' < |fingers| ==> rest[i' - 1] == fingers[i'];
    var a := Block(gen, fingers[0], target);
    var b := AllWrites(gen, rest, target);
    LastRollAppend(a, b, n, d);
    if i == 0 {
      AllWritesNone(gen, rest, target, n, LastRoll(a, n, d));
    } else {
      LastRollNone(a, n, d);
      AllWritesLast(gen, rest, target, i - 1, n, d);
    }
  }

  lemma {:induction false} AllWritesNone(gen: Skeleton, fingers: seq<Finger>, target: Target, n: Name, d: real)
    requires GenHasFingers(gen, fingers)
    requires forall i, j :: 0 <= i < |fingers| && 0 <= j < |SLOTS| ==> target(fingers[i], SLOTS[j]) != n
    ensures LastRoll(AllWrites(gen, fingers, target), n, d) == d
    decreases |fingers|
  {
    if fingers != [] {
      var rest := fingers[1..];
      assert forall i' :: 1 <= i' < |fingers| ==> rest[i' - 1] == fingers[i'];
      var a := Block(gen, fingers[0], target);
      LastRollAppend(a, AllWrites(gen, rest, target), n, d);
      LastRollNone(a, n, d);
      AllWritesNone(gen, rest, target, n, d);
    }
  }

  // --------------------------------------------------------------- the lookups

  /** The twelve lookups of one finger's writes to one rig: per slot the
      generated bone (the right-hand side is evaluated first), then the
      written bone. */
  function BlockRefs(f: Finger, target: Target, rig: Rig): (r: seq<BoneRef>)
    ensures |r| == 2 * |SLOTS|
    ensures forall j :: 0 <= j < |SLOTS| ==>
              r[2 * j] == Ref(GeneratedRig, SourceTarget(f, SLOTS[j])) && r[2 * j + 1] == Ref(rig, target(f, SLOTS[j]))
  {
    seq(2 * |SLOTS|, j requires 0 <= j < 2 * |SLOTS| =>
      if j % 2 == 0 then Ref(GeneratedRig, SourceTarget(f, SLOTS[j / 2])) else Ref(rig, target(f, SLOTS[j / 2])))
  }

  /** Every lookup of `adjust_finger_roll`, in order. */
  function RollRefs(fingers: seq<Finger>, metaTarget: Target): seq<BoneRef>
    decreases |fingers|
  {
    if fingers == [] then []
    else BlockRefs(fingers[0], SourceTarget, SourceRig) + BlockRefs(fingers[0], metaTarget, MetaRig)
         + RollRefs(fingers[1..], metaTarget)
  }

  /** Every bone one finger's writes read or write exists. */
  predicate FingerPresent(source: Skeleton, meta: Skeleton, gen: Skeleton, f: Finger, metaTarget: Target) {
    forall j :: 0 <= j < |SLOTS| ==>
      && SourceTarget(f, SLOTS[j]) in gen
      && SourceTarget(f, SLOTS[j]) in source
      && metaTarget(f, SLOTS[j]) in meta
  }

  /** Every bone the loop reads or writes exists. */
  predicate RollsPresent(source: Skeleton, meta: Skeleton, gen: Skeleton, fingers: seq<Finger>, metaTarget: Target) {
    forall i :: 0 <= i < |fingers| ==> FingerPresent(source, meta, gen, fingers[i], metaTarget)
  }

  predicate AllPresent(rigs: Rigs, refs: seq<BoneRef>) {
    forall i :: 0 <= i < |refs| ==> Present(rigs, refs[i])
  }

  lemma AllPresentConcat(rigs: Rigs, a: seq<BoneRef>, b: seq<BoneRef>)
    ensures AllPresent(rigs, a + b) <==> AllPresent(rigs, a) && AllPresent(rigs, b)
  {
    if AllPresent(rigs, a + b) {
      assert forall i :: 0 <= i < |a| ==> a[i] == (a + b)[i];
      assert forall i :: 0 <= i < |b| ==> b[i] == (a + b)[i + |a|];
    }
    if AllPresent(rigs, a) && AllPresent(rigs, b) {
      forall i | 0 <= i < |a + b|
        ensures Present(rigs, (a + b)[i])
      {
        if i >= |a| {
          assert (a + b)[i] == b[i - |a|];
        }
      }
    }
  }

  lemma BlockRefsPresent(rigs: Rigs, f: Finger, target: Target, rig: Rig)
    ensures AllPresent(rigs, BlockRefs(f, target, rig)) <==>
              forall j :: 0 <= j < |SLOTS| ==> SourceTarget(f, SLOTS[j]) in rigs.generated && target(f, SLOTS[j]) in rigs.Of(rig)
  {
    var r := BlockRefs(f, target, rig);
    if AllPresent(rigs, r) {
      forall j | 0 <= j < |SLOTS|
        ensures SourceTarget(f, SLOTS[j]) in rigs.generated && target(f, SLOTS[j]) in rigs.Of(rig)
      {
        assert Present(rigs, r[2 * j]) && Present(rigs, r[2 * j + 1]);
      }
    }
    if forall j :: 0 <= j < |SLOTS| ==> SourceTarget(f, SLOTS[j]) in rigs.generated && target(f, SLOTS[j]) in rigs.Of(rig) {
      forall i | 0 <= i < |r|
        ensures Present(rigs, r[i])
      {
        assert r[2 * (i / 2)] == Ref(GeneratedRig, SourceTarget(f, SLOTS[i / 2]));
        assert r[2 * (i / 2) + 1] == Ref(rig, target(f, SLOTS[i / 2]));
      }
    }
  }

  /** The twenty-four lookups of one finger all succeed exactly when its
      bones exist. */
  lemma FingerRefsPresent(source: Skeleton, meta: Skeleton, gen: Skeleton, f: Finger, metaTarget: Target)
    ensures AllPresent(Rigs(source, meta, gen), BlockRefs(f, SourceTarget, SourceRig) + BlockRefs(f, metaTarget, MetaRig))
            <==> FingerPresent(source, meta, gen, f, metaTarget)
  {
    var rigs := Rigs(source, meta, gen);
    AllPresentConcat(rigs, BlockRefs(f, SourceTarget, SourceRig), BlockRefs(f, metaTarget, MetaRig));
    BlockRefsPresent(rigs, f, SourceTarget, SourceRig);
    BlockRefsPresent(rigs, f, metaTarget, MetaRig);
  }

  /** The loop raises exactly when a bone it reads or writes is missing. */
  lemma {:induction false} RollRefsPresent(source: Skeleton, meta: Skeleton, gen: Skeleton, fingers: seq<Finger>, metaTarget: Target)
    ensures AllPresent(Rigs(source, meta, gen), RollRefs(fingers, metaTarget)) <==> RollsPresent(source, meta, gen, fingers, metaTarget)
    decreases |fingers|
  {
    var rigs := Rigs(source, meta, gen);
    if fingers != [] {
      var f := fingers[0];
      var rest := fingers[1..];
      assert forall i :: 1 <= i < |fingers| ==> rest[i - 1] == fingers[i];
      RollRefsPresent(source, meta, gen, rest, metaTarget);
      var head := BlockRefs(f, SourceTarget, SourceRig) + BlockRefs(f, metaTarget, MetaRig);
      assert RollRefs(fingers, metaTarget) == head + RollRefs(rest, metaTarget);
      AllPresentConcat(rigs, head, RollRefs(rest, metaTarget));
      FingerRefsPresent(source, meta, gen, f, metaTarget);
      assert RollsPresent(source, meta, gen, fingers, metaTarget) <==>
             FingerPresent(source, meta, gen, f, metaTarget) && RollsPresent(source, meta, gen, rest, metaTarget);
    }
  }

  lemma RollsPresentGen(source: Skeleton, meta: Skeleton, gen: Skeleton, fingers: seq<Finger>, metaTarget: Target)
    requires RollsPresent(source, meta, gen, fingers, metaTarget)
    ensures GenHasFingers(gen, fingers)
    ensures forall i, j :: 0 <= i < |fingers| && 0 <= j < |SLOTS| ==> SourceTarget(fingers[i], SLOTS[j]) in source
    ensures forall i, j :: 0 <= i < |fingers| && 0 <= j < |SLOTS| ==> metaTarget(fingers[i], SLOTS[j]) in meta
  {
    forall i, j | 0 <= i < |fingers| && 0 <= j < |SLOTS|
      ensures SourceTarget(fingers[i], SLOTS[j]) in gen && SourceTarget(fingers[i], SLOTS[j]) in source
      ensures metaTarget(fingers[i], SLOTS[j]) in meta
    {
      assert FingerPresent(source, meta, gen, fingers[i], metaTarget);
    }
  }

  // -------------------------------------------------------------- the operation

  /** The source and meta-rig after the roll copy. */
  datatype RollOutput = RollOutput(source: Skeleton, meta: Skeleton)

  /** `adjust_finger_roll` with the meta target as a parameter. The
      generated rig is only read. */
  function AdjustRolls(source: Skeleton, meta: Skeleton, gen: Skeleton, fingers: seq<Finger>, metaTarget: Target): (r: Result<RollOutput>)
    ensures r.Success? <==> RollsPresent(source, meta, gen, fingers, metaTarget)
    ensures r.Failure? ==>
              var miss := FirstMissing(RollRefs(fingers, metaTarget), Rigs(source, meta, gen));
              miss.Some? && r.error == Missing(miss.value) && !Present(Rigs(source, meta, gen), miss.value)
    ensures r.Success? ==> r.value.source.Keys == source.Keys && r.value.meta.Keys == meta.Keys
  {
    var miss := FirstMissing(RollRefs(fingers, metaTarget), Rigs(source, meta, gen));
    RollRefsPresent(source, meta, gen, fingers, metaTarget);
    if miss.Some? then Failure(Missing(miss.value))
    else
      RollsPresentGen(source, meta, gen, fingers, metaTarget);
      AllWritesIn(gen, fingers, SourceTarget, source);
      AllWritesIn(gen, fingers, metaTarget, meta);
      Success(RollOutput(
        WriteRolls(source, AllWrites(gen, fingers, SourceTarget)),
        WriteRolls(meta, AllWrites(gen, fingers, metaTarget))))
  }

  /** The value of a successful roll copy. */
  lemma AdjustRollsValue(source: Skeleton, meta: Skeleton, gen: Skeleton, fingers: seq<Finger>, metaTarget: Target)
    requires RollsPresent(source, meta, gen, fingers, metaTarget)
    ensures GenHasFingers(gen, fingers)
    ensures WritesIn(AllWrites(gen, fingers, SourceTarget), source)
    ensures WritesIn(AllWrites(gen, fingers, metaTarget), meta)
    ensures AdjustRolls(source, meta, gen, fingers, metaTarget).value
            == RollOutput(WriteRolls(source, AllWrites(gen, fingers, SourceTarget)),
                          WriteRolls(meta, AllWrites(gen, fingers, metaTarget)))
  {
    RollsPresentGen(source, meta, gen, fingers, metaTarget);
    AllWritesIn(gen, fingers, SourceTarget, source);
    AllWritesIn(gen, fingers, metaTarget, meta);
  }

  /** `adjust_finger_roll` as written. */
  function AdjustFingerRoll(source: Skeleton, meta: Skeleton, gen: Skeleton): (r: Result<RollOutput>)
    ensures r.Success? <==> RollsPresent(source, meta, gen, FINGER_BONES, AsWrittenMetaTarget)
  {
    AdjustRolls(source, meta, gen, FINGER_BONES, AsWrittenMetaTarget)
  }

  /** `adjust_finger_roll` with each meta write going to the bone of its own
      segment and side. */
  function AdjustFingerRollIntended(source: Skeleton, meta: Skeleton, gen: Skeleton): (r: Result<RollOutput>)
    ensures r.Success? <==> RollsPresent(source, meta, gen, FINGER_BONES, IntendedMetaTarget)
  {
    AdjustRolls(source, meta, gen, FINGER_BONES, IntendedMetaTarget)
  }

  // ------------------------------------------------------------- the outcomes

  /** Distinct slots of a finger name distinct source and intended meta
      bones. */
  lemma SlotsDistinct(f: Finger, j: nat, j': nat)
    requires j < |SLOTS| && j' < |SLOTS| && j != j'
    ensures SourceTarget(f, SLOTS[j]) != SourceTarget(f, SLOTS[j'])
    ensures IntendedMetaTarget(f, SLOTS[j]) != IntendedMetaTarget(f, SLOTS[j'])
  {
    var s := SLOTS[j];
    var t := SLOTS[j'];
    assert s != t;
    if FingerName(f, s.k, s.side) == FingerName(f, t.k, t.side) {
      FingerNameInjective(f, s.k, s.side, f, t.k, t.side);
    }
    if MetaFingerName(f, s.k, s.side) == MetaFingerName(f, t.k, t.side) {
      MetaFingerNameInjective(f, s.k, s.side, f, t.k, t.side);
    }
  }

  /** Distinct fingers never share a written bone, with any of the targets. */
  lemma FingersDistinct(f: Finger, g: Finger, s: Slot, t: Slot)
    requires f != g
    ensures SourceTarget(f, s) != SourceTarget(g, t)
    ensures IntendedMetaTarget(f, s) != IntendedMetaTarget(g, t)
    ensures AsWrittenMetaTarget(f, s) != AsWrittenMetaTarget(g, t)
  {
    if FingerName(f, s.k, s.side) == FingerName(g, t.k, t.side) {
      FingerNameInjective(f, s.k, s.side, g, t.k, t.side);
    }
    if MetaFingerName(f, s.k, s.side) == MetaFingerName(g, t.k, t.side) {
      MetaFingerNameInjective(f, s.k, s.side, g, t.k, t.side);
    }
    if MetaFingerName(f, 1, Left) == MetaFingerName(g, 1, Left) {
      MetaFingerNameInjective(f, 1, Left, g, 1, Left);
    }
  }

  /** Each source finger bone ends with the roll of the generated bone of the
      same name and is otherwise unchanged (with either meta target). */
  lemma AdjustRollsSource(source: Skeleton, meta: Skeleton, gen: Skeleton, fingers: seq<Finger>, metaTarget: Target, i: nat, j: nat)
    requires RollsPresent(source, meta, gen, fingers, metaTarget) && NoDup(fingers)
    requires i < |fingers| && j < |SLOTS|
    ensures
      var n := SourceTarget(fingers[i], SLOTS[j]);
      && n in gen && n in source
      && AdjustRolls(source, meta, gen, fingers, metaTarget).value.source[n] == source[n].(roll := gen[n].roll)
  {
    AdjustRollsValue(source, meta, gen, fingers, metaTarget);
    var f := fingers[i];
    assert FingerPresent(source, meta, gen, f, metaTarget);
    var n := SourceTarget(f, SLOTS[j]);
    WriteRollsAt(source, AllWrites(gen, fingers, SourceTarget), n);
    forall i', j' | 0 <= i' < |fingers| && i' != i && 0 <= j' < |SLOTS|
      ensures SourceTarget(fingers[i'], SLOTS[j']) != n
    {
      FingersDistinct(fingers[i'], f, SLOTS[j'], SLOTS[j]);
    }
    AllWritesLast(gen, fingers, SourceTarget, i, n, source[n].roll);
    var block := Block(gen, f, SourceTarget);
    forall j' | j < j' < |block|
      ensures block[j'].name != n
    {
      SlotsDistinct(f, j, j');
    }
    LastRollUnique(block, j, n, source[n].roll);
  }

  /** A source bone that is no finger bone is unchanged. */
  lemma AdjustRollsSourceFrame(source: Skeleton, meta: Skeleton, gen: Skeleton, fingers: seq<Finger>, metaTarget: Target, n: Name)
    requires RollsPresent(source, meta, gen, fingers, metaTarget) && n in source
    requires forall i, j :: 0 <= i < |fingers| && 0 <= j < |SLOTS| ==> SourceTarget(fingers[i], SLOTS[j]) != n
    ensures AdjustRolls(source, meta, gen, fingers, metaTarget).value.source[n] == source[n]
  {
    AdjustRollsValue(source, meta, gen, fingers, metaTarget);
    WriteRollsAt(source, AllWrites(gen, fingers, SourceTarget), n);
    AllWritesNone(gen, fingers, SourceTarget, n, source[n].roll);
  }

  /** A meta bone no write goes to is unchanged. */
  lemma AdjustRollsMetaFrame(source: Skeleton, meta: Skeleton, gen: Skeleton, fingers: seq<Finger>, metaTarget: Target, n: Name)
    requires RollsPresent(source, meta, gen, fingers, metaTarget) && n in meta
    requires forall i, j :: 0 <= i < |fingers| && 0 <= j < |SLOTS| ==> metaTarget(fingers[i], SLOTS[j]) != n
    ensures AdjustRolls(source, meta, gen, fingers, metaTarget).value.meta[n] == meta[n]
  {
    AdjustRollsValue(source, meta, gen, fingers, metaTarget);
    WriteRollsAt(meta, AllWrites(gen, fingers, metaTarget), n);
    AllWritesNone(gen, fingers, metaTarget, n, meta[n].roll);
  }

  /** As written, each finger's first left meta bone ends with the roll of
      the generated third RIGHT segment, the last of its six writes. */
  lemma AsWrittenMeta(source: Skeleton, meta: Skeleton, gen: Skeleton, fingers: seq<Finger>, i: nat)
    requires RollsPresent(source, meta, gen, fingers, AsWrittenMetaTarget) && NoDup(fingers)
    requires i < |fingers|
    ensures
      var n := MetaFingerName(fingers[i], 1, Left);
      var g := FingerName(fingers[i], 3, Right);
      && n in meta && g in gen
      && AdjustRolls(source, meta, gen, fingers, AsWrittenMetaTarget).value.meta[n] == meta[n].(roll := gen[g].roll)
  {
    var f := fingers[i];
    var n := MetaFingerName(f, 1, Left);
    assert FingerPresent(source, meta, gen, f, AsWrittenMetaTarget);
    assert n == AsWrittenMetaTarget(f, SLOTS[0]);
    assert FingerName(f, 3, Right) == SourceTarget(f, SLOTS[5]);
    AdjustRollsValue(source, meta, gen, fingers, AsWrittenMetaTarget);
    WriteRollsAt(meta, AllWrites(gen, fingers, AsWrittenMetaTarget), n);
    forall i', j' | 0 <= i' < |fingers| && i' != i && 0 <= j' < |SLOTS|
      ensures AsWrittenMetaTarget(fingers[i'], SLOTS[j']) != n
    {
      FingersDistinct(fingers[i'], f, SLOTS[j'], SLOTS[0]);
    }
    AllWritesLast(gen, fingers, AsWrittenMetaTarget, i, n, meta[n].roll);
    LastRollUnique(Block(gen, f, AsWrittenMetaTarget), 5, n, meta[n].roll);
  }

  /** As written, no write reaches a meta bone of segment 2 or 3 or of the
      right side: it keeps its roll. */
  lemma AsWrittenMissesSegments(source: Skeleton, meta: Skeleton, gen: Skeleton, fingers: seq<Finger>, i: nat, j: nat)
    requires RollsPresent(source, meta, gen, fingers, AsWrittenMetaTarget)
    requires i < |fingers| && 0 < j < |SLOTS|
    requires IntendedMetaTarget(fingers[i], SLOTS[j]) in meta
    ensures
      var n := IntendedMetaTarget(fingers[i], SLOTS[j]);
      AdjustRolls(source, meta, gen, fingers, AsWrittenMetaTarget).value.meta[n] == meta[n]
  {
    var n := IntendedMetaTarget(fingers[i], SLOTS[j]);
    forall i', j' | 0 <= i' < |fingers| && 0 <= j' < |SLOTS|
      ensures AsWrittenMetaTarget(fingers[i'], SLOTS[j']) != n
    {
      if MetaFingerName(fingers[i'], 1, Left) == n {
        MetaFingerNameInjective(fingers[i'], 1, Left, fingers[i], SLOTS[j].k, SLOTS[j].side);
      }
    }
    AdjustRollsMetaFrame(source, meta, gen, fingers, AsWrittenMetaTarget, n);
  }

  /** With the intended targets each meta finger bone ends with the roll of
      the generated bone of the same segment and side and is otherwise
      unchanged. */
  lemma IntendedMeta(source: Skeleton, meta: Skeleton, gen: Skeleton, fingers: seq<Finger>, i: nat, j: nat)
    requires RollsPresent(source, meta, gen, fingers, IntendedMetaTarget) && NoDup(fingers)
    requires i < |fingers| && j < |SLOTS|
    ensures
      var n := IntendedMetaTarget(fingers[i], SLOTS[j]);
      var g := SourceTarget(fingers[i], SLOTS[j]);
      && n in meta && g in gen
      && AdjustRolls(source, meta, gen, fingers, IntendedMetaTarget).value.meta[n] == meta[n].(roll := gen[g].roll)
  {
    var f := fingers[i];
    assert FingerPresent(source, meta, gen, f, IntendedMetaTarget);
    var n := IntendedMetaTarget(f, SLOTS[j]);
    AdjustRollsValue(source, meta, gen, fingers, IntendedMetaTarget);
    WriteRollsAt(meta, AllWrites(gen, fingers, IntendedMetaTarget), n);
    forall i', j' | 0 <= i' < |fingers| && i' != i && 0 <= j' < |SLOTS|
      ensures IntendedMetaTarget(fingers[i'], SLOTS[j']) != n
    {
      FingersDistinct(fingers[i'], f, SLOTS[j'], SLOTS[j]);
    }
    AllWritesLast(gen, fingers, IntendedMetaTarget, i, n, meta[n].roll);
    var block := Block(gen, f, IntendedMetaTarget);
    forall j' | j < j' < |block|
      ensures block[j'].name != n
    {
      SlotsDistinct(f, j, j');
    }
    LastRollUnique(block, j, n, meta[n].roll);
  }

  // ------------------------------------------------ the five fingers of the rig

  /** Every source finger bone takes the roll of the generated bone of the
      same name (as written and corrected alike). */
  lemma AdjustFingerRollSource(source: Skeleton, meta: Skeleton, gen: Skeleton, i: nat, j: nat)
    requires RollsPresent(source, meta, gen, FINGER_BONES, AsWrittenMetaTarget)
    requires i < |FINGER_BONES| && j < |SLOTS|
    ensures
      var n := SourceTarget(FINGER_BONES[i], SLOTS[j]);
      && n in source && n in gen
      && AdjustFingerRoll(source, meta, gen).value.source[n] == source[n].(roll := gen[n].roll)
  {
    FingerBonesDistinct();
    AdjustRollsSource(source, meta, gen, FINGER_BONES, AsWrittenMetaTarget, i, j);
  }

  /** As written, each finger's first left meta bone takes the roll of the
      generated third right segment. */
  lemma AdjustFingerRollFirstMeta(source: Skeleton, meta: Skeleton, gen: Skeleton, i: nat)
    requires RollsPresent(source, meta, gen, FINGER_BONES, AsWrittenMetaTarget)
    requires i < |FINGER_BONES|
    ensures
      var n := MetaFingerName(FINGER_BONES[i], 1, Left);
      var g := FingerName(FINGER_BONES[i], 3, Right);
      && n in meta && g in gen
      && AdjustFingerRoll(source, meta, gen).value.meta[n] == meta[n].(roll := gen[g].roll)
  {
    FingerBonesDistinct();
    AsWrittenMeta(source, meta, gen, FINGER_BONES, i);
  }

  /** As written, a finger's other meta bones keep their roll whatever the
      generated rig holds. */
  lemma AdjustFingerRollOtherMeta(source: Skeleton, meta: Skeleton, gen: Skeleton, i: nat, j: nat)
    requires RollsPresent(source, meta, gen, FINGER_BONES, AsWrittenMetaTarget)
    requires i < |FINGER_BONES| && 0 < j < |SLOTS|
    requires IntendedMetaTarget(FINGER_BONES[i], SLOTS[j]) in meta
    ensures
      var n := IntendedMetaTarget(FINGER_BONES[i], SLOTS[j]);
      AdjustFingerRoll(source, meta, gen).value.meta[n] == meta[n]
  {
    AsWrittenMissesSegments(source, meta, gen, FINGER_BONES, i, j);
  }

  /** Corrected: every meta finger bone takes the roll of the generated bone
      of the same segment and side. */
  lemma AdjustFingerRollIntendedMeta(source: Skeleton, meta: Skeleton, gen: Skeleton, i: nat, j: nat)
    requires RollsPresent(source, meta, gen, FINGER_BONES, IntendedMetaTarget)
    requires i < |FINGER_BONES| && j < |SLOTS|
    ensures
      var n := IntendedMetaTarget(FINGER_BONES[i], SLOTS[j]);
      var g := SourceTarget(FINGER_BONES[i], SLOTS[j]);
      && n in meta && g in gen
      && AdjustFingerRollIntended(source, meta, gen).value.meta[n] == meta[n].(roll := gen[g].roll)
  {
    FingerBonesDistinct();
    IntendedMeta(source, meta, gen, FINGER_BONES, i, j);
  }
}
