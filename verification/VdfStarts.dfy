/** Where the VDF of a signage point starts. */
module VdfStarts {
  import opened Coins
  import opened Arith
  import opened PotIterations
  import opened Headers
  import opened SignagePoints
  import opened HeaderValidation

  /** The VDF runs from the start of a sub-slot, named by its reward-chain hash, or from the infusion
      of the block at a height. */
  datatype Source = SlotBegins(rc: nat) | Infusion(height: nat)

  datatype VdfInfo = VdfInfo(cc: nat, from: Source, iters: int)

  // ---- What the result should be ---------------------------------------------------------------------------

  /** When the `i`-th of the sub-slots finished since the previous block ended. */
  function SlotEnd(k: Constants, b: Rec, i: nat): int
    requires k.numSps > 0
  {
    SlotStart(k, b) - b.ssi * (|b.finished| - 1 - i)
  }

  function GenesisSlot(genesis: nat): Slot { Slot(genesis, genesis, genesis, genesis, 0) }

  ghost predicate EndsAt(k: Constants, c: seq<Rec>, j: int, i: int, s: Slot, t: int)
    requires k.numSps > 0
  {
    0 <= j < |c| && 0 <= i < |c[j].finished| && c[j].finished[i] == s && SlotEnd(k, c[j], i) == t
  }

  /** `s` names the sub-slot that begins at `t`: the one that ended there, or the genesis challenge. */
  ghost predicate Opens(k: Constants, genesis: nat, c: seq<Rec>, s: Slot, t: int)
    requires k.numSps > 0
  {
    (t == 0 && s == GenesisSlot(genesis)) || exists j, i :: EndsAt(k, c, j, i, s, t)
  }

  /** No block is infused strictly between `lo` and `hi`. */
  predicate NoInfusion(c: seq<Rec>, lo: int, hi: int)
  {
    forall j :: 0 <= j < |c| ==> !(lo < c[j].totalIters < hi)
  }

  /** The start lies in the signage point's own sub-slot, nothing is infused between it and the
      signage point, and the iterations lead exactly there; the challenges name that sub-slot. */
  ghost predicate Correct(k: Constants, genesis: nat, c: seq<Rec>, b: Rec, info: VdfInfo)
    requires k.numSps > 0
  {
    exists s :: CorrectIn(k, genesis, c, b, info, s)
  }

  ghost predicate CorrectIn(k: Constants, genesis: nat, c: seq<Rec>, b: Rec, info: VdfInfo, s: Slot)
    requires k.numSps > 0
  {
    && Opens(k, genesis, c + [b], s, SpSlotStart(k, b)) && info.cc == s.cc && info.iters >= 0
    && match info.from
       case SlotBegins(rc) =>
         && rc == s.rc && SpSlotStart(k, b) + info.iters == SpTotal(k, b)
         && NoInfusion(c, SpSlotStart(k, b), SpTotal(k, b))
       case Infusion(i) =>
         && i < |c| && c[i].ssi == b.ssi && SlotStart(k, c[i]) == SpSlotStart(k, b)
         && c[i].totalIters + info.iters == SpTotal(k, b) && info.iters > 0
         && NoInfusion(c, c[i].totalIters, SpTotal(k, b))
  }

  // ---- Walks ---------------------------------------------------------------------------------------------------

  predicate FirstInSlot(c: seq<Rec>, i: nat)
    requires i < |c|
  {
    i == 0 || c[i].finished != []
  }

  /** The slot hashes a record holds when it is the first of its sub-slot. */
  function SlotsOf(genesis: nat, b: Rec): (r: seq<Slot>)
    ensures r != []
  {
    if b.finished == [] then [GenesisSlot(genesis)] else b.finished
  }

  function LastSlot(genesis: nat, b: Rec): Slot
  {
    SlotsOf(genesis, b)[|SlotsOf(genesis, b)| - 1]
  }

  function Reverse(s: seq<Slot>): (r: seq<Slot>)
    ensures |r| == |s| && forall i :: 0 <= i < |s| ==> r[i] == s[|s| - 1 - i]
  {
    seq(|s|, i requires 0 <= i < |s| => s[|s| - 1 - i])
  }

  /** What a chain gives the walks: the blocks flow, and genesis starts after its own sub-slots. */
  predicate Base(k: Constants, c: seq<Rec>)
    requires k.numSps > 0
  {
    Flows(k, c) && (c != [] ==> SlotStart(k, c[0]) == c[0].ssi * |c[0].finished| && SpTotal(k, c[0]) >= 0)
  }

  lemma ValidBase(k: Constants, c: seq<Rec>)
    requires k.Ok() && ValidHeaders(k, c)
    ensures Base(k, c)
  {
    ValidFlows(k, c);
    if c != [] {
      HeaderAt(k, c, 0);
      hide ValidHeaders, Flows, SpTotal, SlotStart;
      assert ItersOk(k, [], c[0]) by { assert c[..0] == []; }
    }
  }

  lemma LastSlotOpens(k: Constants, genesis: nat, c: seq<Rec>, f: nat)
    requires k.Ok() && Base(k, c) && f < |c| && FirstInSlot(c, f)
    ensures Opens(k, genesis, c, LastSlot(genesis, c[f]), SlotStart(k, c[f]))
  {
    hide SlotStart, Flows, SpTotal;
    if c[f].finished != [] {
      assert EndsAt(k, c, f, |c[f].finished| - 1, LastSlot(genesis, c[f]), SlotStart(k, c[f]));
    }
  }

  /** Every earlier block is infused before a sub-slot that starts after it. */
  lemma InfusedBefore(k: Constants, c: seq<Rec>, j: nat, f: nat)
    requires k.Ok() && Flows(k, c) && j < f < |c| && c[f].finished != []
    ensures c[j].totalIters < SlotStart(k, c[f])
  {
    hide SlotStart, Flows, SpTotal;
    SlotsTile(k, c, j, f);
    FlowSized(k, c, j);
    InfusedAfterSp(k, c[j]);
  }

  lemma FlowSized(k: Constants, c: seq<Rec>, j: nat)
    requires k.numSps > 0 && Flows(k, c) && j < |c|
    ensures Sized(k, c[j])
  {
  }

  lemma FlowStep(k: Constants, c: seq<Rec>, j: nat)
    requires k.numSps > 0 && Flows(k, c) && 0 < j < |c|
    ensures Follows(k, c[j - 1], c[j])
  {
    assert FollowsAt(k, c, j);
  }

  lemma NoneAfterBlock(k: Constants, c: seq<Rec>, b: Rec, i: nat, sp: int)
    requires k.Ok() && Flows(k, c + [b]) && i < |c|
    requires forall j :: i < j < |c| ==> c[j].totalIters > sp
    ensures NoInfusion(c, c[i].totalIters, sp)
  {
    var d := c + [b];
    forall j | 0 <= j <= i ensures c[j].totalIters <= c[i].totalIters { TotalsNeverGoBack(k, d, j, i); }
  }

  lemma NoneAfterSlot(k: Constants, c: seq<Rec>, b: Rec, f: nat, sp: int)
    requires k.Ok() && Flows(k, c + [b]) && f < |c| && FirstInSlot(c, f)
    requires forall j :: f <= j < |c| ==> c[j].totalIters > sp
    ensures NoInfusion(c, SlotStart(k, c[f]), sp)
  {
    hide SlotStart, Flows;
    var d := c + [b];
    forall j | 0 <= j < f ensures c[j].totalIters <= SlotStart(k, c[f]) { InfusedBefore(k, d, j, f); }
  }

  // ---- Cases 4 and 6: the signage point lies in the sub-slot of the previous block --------------------------

  /** The sub-slot of the signage point is that of the previous block. */
  predicate InPrevSlot(k: Constants, c: seq<Rec>, b: Rec)
    requires k.numSps > 0
  {
    c != [] && SpSlotStart(k, b) == SlotStart(k, c[|c| - 1]) && b.ssi == c[|c| - 1].ssi
  }

  method StartInPrevSlot(k: Constants, genesis: nat, c: seq<Rec>, b: Rec) returns (info: VdfInfo)
    requires k.Ok() && Base(k, c + [b]) && InPrevSlot(k, c, b)
    ensures Correct(k, genesis, c, b, info)
  {
    ghost var d := c + [b];
    var spTotal := SpTotal(k, b);
    hide SlotStart, Flows, Follows, FollowsAt, Opens;
    var curr := |c| - 1;
    while !FirstInSlot(c, curr) && c[curr].totalIters > spTotal
      invariant 0 <= curr < |c|
      invariant forall j :: curr < j < |c| ==> c[j].totalIters > spTotal
      invariant SlotStart(k, c[curr]) == SpSlotStart(k, b) && c[curr].ssi == b.ssi
      decreases curr
    {
      SameSlot(k, d, curr);
      curr := curr - 1;
    }
    SpIsNotInfusion(k, d, curr, |c|);
    FlowSized(k, d, |c|);
    InfusedAfterSp(k, b);
    var from, iters;
    if c[curr].totalIters < spTotal {
      NoneAfterBlock(k, c, b, curr, spTotal);
      from, iters := Infusion(curr), spTotal - c[curr].totalIters;
    } else {
      NoneAfterSlot(k, c, b, curr, spTotal);
      from, iters := SlotBegins(LastSlot(genesis, c[curr]).rc), SpIters(k, b.ssi, b.spIndex);
    }
    while !FirstInSlot(c, curr)
      invariant 0 <= curr < |c|
      invariant SlotStart(k, c[curr]) == SpSlotStart(k, b)
      invariant from.SlotBegins? ==> FirstInSlot(c, curr) && from.rc == LastSlot(genesis, c[curr]).rc
      decreases curr
    {
      SameSlot(k, d, curr);
      curr := curr - 1;
    }
    info := VdfInfo(LastSlot(genesis, c[curr]).cc, from, iters);
    LastSlotOpens(k, genesis, d, curr);
    assert CorrectIn(k, genesis, c, b, info, LastSlot(genesis, c[curr]));
  }

  lemma SameSlot(k: Constants, c: seq<Rec>, j: nat)
    requires k.Ok() && Flows(k, c) && 0 < j < |c| && c[j].finished == []
    ensures SlotStart(k, c[j - 1]) == SlotStart(k, c[j]) && c[j - 1].ssi == c[j].ssi
    ensures Overflow(k, c[j]) ==> Overflow(k, c[j - 1])
  {
    FlowStep(k, c, j);
    if Overflow(k, c[j]) { OverflowsFirst(k, c[j - 1], c[j]); }
  }

  // ---- Case 5: an overflow block in the sub-slot of the previous block ----------------------------------------

  /** The last block, an overflow block, lies in the sub-slot that the block at `f` opened. */
  predicate OverflowsFrom(k: Constants, c: seq<Rec>, b: Rec, f: nat)
    requires k.numSps > 0
  {
    && f < |c| && FirstInSlot(c, f) && Overflow(k, b) && b.finished == []
    && (forall j :: f < j < |c| ==> c[j].finished == [])
  }

  lemma {:induction false} AllOverflow(k: Constants, c: seq<Rec>, b: Rec, f: nat, j: nat)
    requires k.Ok() && Flows(k, c + [b]) && OverflowsFrom(k, c, b, f) && f <= j < |c|
    ensures Overflow(k, c[j]) && SlotStart(k, c[j]) == SlotStart(k, b) && c[j].ssi == b.ssi
    ensures c[j].totalIters > SpTotal(k, b)
    decreases |c| - j
  {
    hide SlotStart, Flows, Overflow;
    var d := c + [b];
    if j + 1 < |c| { AllOverflow(k, c, b, f, j + 1); }
    SameSlot(k, d, j + 1);
    FlowSized(k, d, j);
    FlowSized(k, d, |c|);
    InfusedAfterSp(k, c[j]);
    InfusedAfterSp(k, b);
  }

  /** The sub-slot before the one that `f` opened is the signage point's: the second-to-last that `f`
      finished or, when it finished only one, the sub-slot of the block before. */
  lemma PrevSlotOpens(k: Constants, genesis: nat, c: seq<Rec>, b: Rec, f: nat)
    requires k.Ok() && Base(k, c + [b]) && OverflowsFrom(k, c, b, f)
    ensures c[f].finished != []
    ensures |c[f].finished| >= 2 ==>
      Opens(k, genesis, c + [b], c[f].finished[|c[f].finished| - 2], SpSlotStart(k, b))
    ensures |c[f].finished| == 1 && f > 0 ==>
      SlotStart(k, c[f - 1]) == SpSlotStart(k, b) && c[f - 1].ssi == b.ssi
  {
    var d, n := c + [b], |c[f].finished|;
    AllOverflow(k, c, b, f, f);
    if f == 0 { GenesisOverflowsAfterSlots(k, d); }
    if n >= 2 {
      assert SlotEnd(k, c[f], n - 2) == SpSlotStart(k, b);
      assert EndsAt(k, d, f, n - 2, c[f].finished[n - 2], SpSlotStart(k, b));
    } else if n == 1 && f > 0 {
      FlowStep(k, d, f);
    }
  }

  lemma GenesisOverflowsAfterSlots(k: Constants, c: seq<Rec>)
    requires k.Ok() && Base(k, c) && c != [] && Overflow(k, c[0])
    ensures c[0].finished != []
  {
    FlowSized(k, c, 0);
    InfusedAfterSp(k, c[0]);
  }

  /** The walk's state at height `curr`: the last block seen that is infused before the signage
      point, and the slot hashes seen, latest first. */
  datatype Walk = Walk(curr: nat, pre: Option<nat>, found: seq<Slot>)

  predicate PreSp(c: seq<Rec>, sp: int, curr: nat, pre: Option<nat>)
  {
    match pre
    case None => forall j :: curr < j < |c| ==> c[j].totalIters > sp
    case Some(i) => curr < i < |c| && c[i].totalIters < sp && forall j :: i < j < |c| ==> c[j].totalIters > sp
  }

  function Hashes(genesis: nat, c: seq<Rec>, i: nat): seq<Slot>
    requires i < |c|
  {
    if FirstInSlot(c, i) then Reverse(SlotsOf(genesis, c[i])) else []
  }

  /** Down to the block at `f` the walk has only that block's hashes; below, while that is only one,
      it is in the sub-slot of the signage point. */
  predicate WalkOk(k: Constants, genesis: nat, c: seq<Rec>, b: Rec, f: nat, w: Walk)
    requires k.numSps > 0 && f < |c|
  {
    && w.curr < |c| && PreSp(c, SpTotal(k, b), w.curr, w.pre)
    && (w.curr >= f ==> w.found == Hashes(genesis, c, w.curr) && w.pre.None?)
    && (w.curr < f ==>
          && |c[f].finished| == 1 && w.found == c[f].finished + Hashes(genesis, c, w.curr)
          && SlotStart(k, c[w.curr]) == SpSlotStart(k, b) && c[w.curr].ssi == b.ssi)
    && (w.pre.Some? ==> SlotStart(k, c[w.pre.value]) == SpSlotStart(k, b) && c[w.pre.value].ssi == b.ssi)
  }

  function NotePre(c: seq<Rec>, sp: int, w: Walk): Option<nat>
    requires w.curr < |c|
  {
    if w.pre.None? && c[w.curr].totalIters < sp then Some(w.curr) else w.pre
  }

  lemma NotePreOk(k: Constants, genesis: nat, c: seq<Rec>, b: Rec, f: nat, w: Walk)
    requires k.Ok() && Base(k, c + [b]) && OverflowsFrom(k, c, b, f) && WalkOk(k, genesis, c, b, f, w)
    ensures var pre := NotePre(c, SpTotal(k, b), w);
      && (w.curr >= f ==> pre.None?)
      && (pre.None? ==> forall j :: w.curr <= j < |c| ==> c[j].totalIters > SpTotal(k, b))
      && (pre.Some? ==>
            && w.curr <= pre.value < |c| && c[pre.value].totalIters < SpTotal(k, b)
            && SlotStart(k, c[pre.value]) == SpSlotStart(k, b) && c[pre.value].ssi == b.ssi
            && forall j :: pre.value < j < |c| ==> c[j].totalIters > SpTotal(k, b))
  {
    hide SlotStart, Flows, SpTotal, Overflow, Hashes;
    SpIsNotInfusion(k, c + [b], w.curr, |c|);
    if w.curr >= f { AllOverflow(k, c, b, f, w.curr); }
  }

  lemma WalkStep(k: Constants, genesis: nat, c: seq<Rec>, b: Rec, f: nat, w: Walk)
    requires k.Ok() && Base(k, c + [b]) && OverflowsFrom(k, c, b, f) && WalkOk(k, genesis, c, b, f, w)
    requires f < |c| && |w.found| < 2 && 0 < w.curr < |c|
    ensures WalkOk(k, genesis, c, b, f,
                   Walk(w.curr - 1, NotePre(c, SpTotal(k, b), w), w.found + Hashes(genesis, c, w.curr - 1)))
  {
    hide SlotStart, SpSlotStart, Flows, SpTotal, Overflow, Opens, Hashes, NotePre, Base, OverflowsFrom, PreSp;
    NotePreOk(k, genesis, c, b, f, w);
    PrevSlotOpens(k, genesis, c, b, f);
    FoundSoFar(k, genesis, c, b, f, w);
    assert [] + Hashes(genesis, c, w.curr - 1) == Hashes(genesis, c, w.curr - 1);
    BaseSameSlot(k, c, b, w.curr);
    NotePreSp(c, SpTotal(k, b), w);
  }

  lemma NotePreSp(c: seq<Rec>, sp: int, w: Walk)
    requires 0 < w.curr < |c|
    requires var pre := NotePre(c, sp, w);
      && (pre.None? ==> forall j :: w.curr <= j < |c| ==> c[j].totalIters > sp)
      && (pre.Some? ==> w.curr <= pre.value < |c| && c[pre.value].totalIters < sp
                        && forall j :: pre.value < j < |c| ==> c[j].totalIters > sp)
    ensures PreSp(c, sp, w.curr - 1, NotePre(c, sp, w))
  {
  }

  lemma BaseSameSlot(k: Constants, c: seq<Rec>, b: Rec, curr: nat)
    requires k.Ok() && Base(k, c + [b]) && 0 < curr < |c|
    ensures c[curr].finished == [] ==>
      SlotStart(k, c[curr - 1]) == SlotStart(k, c[curr]) && c[curr - 1].ssi == c[curr].ssi
  {
    if c[curr].finished == [] { SameSlot(k, c + [b], curr); }
  }

  lemma FoundSoFar(k: Constants, genesis: nat, c: seq<Rec>, b: Rec, f: nat, w: Walk)
    requires k.numSps > 0 && OverflowsFrom(k, c, b, f) && WalkOk(k, genesis, c, b, f, w)
    requires |w.found| < 2 && c[f].finished != []
    ensures if w.curr > f then w.found == [] else w.found == c[f].finished && |c[f].finished| == 1
    ensures w.curr < f ==> !FirstInSlot(c, w.curr)
  {
  }

  lemma WalkEnds(k: Constants, genesis: nat, c: seq<Rec>, b: Rec, f: nat, w: Walk)
    requires k.Ok() && Base(k, c + [b]) && OverflowsFrom(k, c, b, f) && WalkOk(k, genesis, c, b, f, w)
    requires |w.found| >= 2 || w.curr == 0
    ensures |w.found| < 2 <==> f == 0 && |c[0].finished| == 1
    ensures |w.found| >= 2 ==>
      w.curr <= f && FirstInSlot(c, w.curr) && Opens(k, genesis, c + [b], w.found[1], SpSlotStart(k, b))
    ensures |w.found| >= 2 && w.curr < f ==> SlotStart(k, c[w.curr]) == SpSlotStart(k, b)
  {
    PrevSlotOpens(k, genesis, c, b, f);
    hide SlotStart, SpSlotStart, Flows, SpTotal, Overflow, Opens, PreSp;
    if w.curr < f && FirstInSlot(c, w.curr) { LastSlotOpens(k, genesis, c + [b], w.curr); }
  }

  lemma NoneBeforeSp(k: Constants, c: seq<Rec>, b: Rec, f: nat, curr: nat)
    requires k.Ok() && Base(k, c + [b]) && OverflowsFrom(k, c, b, f) && curr <= f && FirstInSlot(c, curr)
    requires curr < f ==> SlotStart(k, c[curr]) == SpSlotStart(k, b)
    requires curr == f ==> |c[f].finished| >= 2
    requires forall j :: curr <= j < |c| ==> c[j].totalIters > SpTotal(k, b)
    ensures NoInfusion(c, SpSlotStart(k, b), SpTotal(k, b))
  {
    hide Flows, Overflow, NoInfusion;
    if curr < f {
      NoneAfterSlot(k, c, b, curr, SpTotal(k, b));
    } else {
      NoneInEmptySlot(k, c, b, f);
    }
  }

  /** Where the block at `f` finished two sub-slots, the second is empty. */
  lemma NoneInEmptySlot(k: Constants, c: seq<Rec>, b: Rec, f: nat)
    requires k.Ok() && Base(k, c + [b]) && OverflowsFrom(k, c, b, f) && |c[f].finished| >= 2
    requires forall j :: f <= j < |c| ==> c[j].totalIters > SpTotal(k, b)
    ensures NoInfusion(c, SpSlotStart(k, b), SpTotal(k, b))
  {
    var d, n := c + [b], |c[f].finished|;
    AllOverflow(k, c, b, f, f);
    if f > 0 {
      FlowStep(k, d, f);
      MulMono(1, n - 1, b.ssi);
      FlowSized(k, d, f - 1);
      InfusedAfterSp(k, c[f - 1]);
      assert c[f - 1].totalIters <= SpSlotStart(k, b);
      hide SlotStart, Flows, SpTotal, Overflow;
      forall j | 0 <= j < f ensures c[j].totalIters <= SpSlotStart(k, b) { TotalsNeverGoBack(k, d, j, f - 1); }
    }
  }

  lemma WalkBegins(k: Constants, genesis: nat, c: seq<Rec>, b: Rec)
    requires k.numSps > 0 && c != [] && Overflow(k, b) && b.finished == []
    ensures OverflowsFrom(k, c, b, FirstOfSlot(c))
    ensures WalkOk(k, genesis, c, b, FirstOfSlot(c), Walk(|c| - 1, None, Hashes(genesis, c, |c| - 1)))
  {
    hide SlotStart, SpSlotStart, SpTotal, Overflow, Hashes;
  }

  method OverflowInSameSlot(k: Constants, genesis: nat, c: seq<Rec>, b: Rec) returns (r: Option<VdfInfo>)
    requires k.Ok() && Base(k, c + [b]) && c != [] && Overflow(k, b) && b.finished == []
    ensures r.None? <==> FirstOfSlot(c) == 0 && |c[0].finished| == 1
    ensures r.Some? ==> Correct(k, genesis, c, b, r.value)
  {
    hide SlotStart, SpSlotStart, SpTotal, Base, Opens, FirstOfSlot, Overflow, OverflowsFrom, WalkOk, NoInfusion,
      Correct, Reverse, SlotsOf, IsPow2;
    WalkBegins(k, genesis, c, b);
    ghost var f := FirstOfSlot(c);
    var spTotal := SpTotal(k, b);
    var curr, pre: Option<nat> := |c| - 1, None;
    var found := if FirstInSlot(c, curr) then Reverse(SlotsOf(genesis, c[curr])) else [];
    while |found| < 2 && curr > 0
      invariant 0 <= curr < |c|
      invariant WalkOk(k, genesis, c, b, f, Walk(curr, pre, found))
      decreases curr
    {
      WalkStep(k, genesis, c, b, f, Walk(curr, pre, found));
      if pre.None? && c[curr].totalIters < spTotal { pre := Some(curr); }
      curr := curr - 1;
      found := found + (if FirstInSlot(c, curr) then Reverse(SlotsOf(genesis, c[curr])) else []);
    }
    WalkResult(k, genesis, c, b, f, Walk(curr, pre, found));
    if pre.None? && c[curr].totalIters < spTotal { pre := Some(curr); }
    if |found| < 2 { return None; }
    if pre.Some? {
      r := Some(VdfInfo(found[1].cc, Infusion(pre.value), spTotal - c[pre.value].totalIters));
    } else {
      r := Some(VdfInfo(found[1].cc, SlotBegins(found[1].rc), SpIters(k, b.ssi, b.spIndex)));
    }
  }

  lemma WalkResult(k: Constants, genesis: nat, c: seq<Rec>, b: Rec, f: nat, w: Walk)
    requires k.Ok() && Base(k, c + [b]) && f < |c| && OverflowsFrom(k, c, b, f)
    requires WalkOk(k, genesis, c, b, f, w) && w.curr < |c| && (|w.found| >= 2 || w.curr == 0)
    ensures |w.found| < 2 <==> f == 0 && |c[0].finished| == 1
    ensures |w.found| >= 2 ==>
      var pre := NotePre(c, SpTotal(k, b), w);
      if pre.Some?
      then pre.value < |c| && Correct(k, genesis, c, b,
             VdfInfo(w.found[1].cc, Infusion(pre.value), SpTotal(k, b) - c[pre.value].totalIters))
      else Correct(k, genesis, c, b,
             VdfInfo(w.found[1].cc, SlotBegins(w.found[1].rc), SpIters(k, b.ssi, b.spIndex)))
  {
    hide SlotStart, SpSlotStart, SpTotal, Base, Opens, Overflow, OverflowsFrom, WalkOk, NoInfusion, NotePre;
    NotePreOk(k, genesis, c, b, f, w);
    WalkEnds(k, genesis, c, b, f, w);
    var pre := NotePre(c, SpTotal(k, b), w);
    if |w.found| >= 2 {
      if pre.Some? {
        NoneAfter(k, c, b, pre.value);
        assert CorrectIn(k, genesis, c, b,
                         VdfInfo(w.found[1].cc, Infusion(pre.value), SpTotal(k, b) - c[pre.value].totalIters),
                         w.found[1]);
      } else {
        FoundAtOpening(k, genesis, c, b, f, w);
        NoneBeforeSp(k, c, b, f, w.curr);
        SpItersFromSlot(k, c, b);
        assert CorrectIn(k, genesis, c, b,
                         VdfInfo(w.found[1].cc, SlotBegins(w.found[1].rc), SpIters(k, b.ssi, b.spIndex)), w.found[1]);
      }
    }
  }

  lemma NoneAfter(k: Constants, c: seq<Rec>, b: Rec, i: nat)
    requires k.Ok() && Base(k, c + [b]) && i < |c|
    requires forall j :: i < j < |c| ==> c[j].totalIters > SpTotal(k, b)
    ensures NoInfusion(c, c[i].totalIters, SpTotal(k, b))
  {
    hide SpTotal, Flows;
    NoneAfterBlock(k, c, b, i, SpTotal(k, b));
  }

  lemma FoundAtOpening(k: Constants, genesis: nat, c: seq<Rec>, b: Rec, f: nat, w: Walk)
    requires k.Ok() && Base(k, c + [b]) && OverflowsFrom(k, c, b, f) && WalkOk(k, genesis, c, b, f, w)
    requires w.curr == f ==> |w.found| >= 2
    ensures w.curr == f ==> |c[f].finished| >= 2
  {
  }

  lemma SpItersFromSlot(k: Constants, c: seq<Rec>, b: Rec)
    requires k.Ok() && Base(k, c + [b])
    ensures SpSlotStart(k, b) + SpIters(k, b.ssi, b.spIndex) == SpTotal(k, b)
  {
  }

  // ---- All cases ------------------------------------------------------------------------------------------------

  /** The search fails for an overflow block in the sub-slot of a genesis block that came after a
      single empty sub-slot: the sub-slot before, the very first, is in no record. */
  predicate NoSecondSlot(k: Constants, c: seq<Rec>, b: Rec)
  {
    c != [] && b.finished == [] && Overflow(k, b) && FirstOfSlot(c) == 0 && |c[0].finished| == 1
  }

  /** Nothing is infused in the signage point's sub-slot before a block that finished it. */
  lemma NoneAfterSlots(k: Constants, c: seq<Rec>, b: Rec)
    requires k.Ok() && Base(k, c + [b]) && b.finished != [] && (Overflow(k, b) ==> |b.finished| >= 2)
    ensures NoInfusion(c, SpSlotStart(k, b), SpTotal(k, b))
  {
    var d := c + [b];
    if c != [] {
      FlowStep(k, d, |c|);
      AfterPrevSlot(k, c[|c| - 1], b);
      hide SlotStart, SpSlotStart, Flows, SpTotal, Follows;
      forall j | 0 <= j < |c| ensures c[j].totalIters <= SpSlotStart(k, b) {
        TotalsNeverGoBack(k, d, j, |c| - 1);
      }
    }
  }

  lemma AfterPrevSlot(k: Constants, p: Rec, b: Rec)
    requires k.Ok() && Follows(k, p, b) && b.finished != [] && (Overflow(k, b) ==> |b.finished| >= 2)
    ensures p.totalIters < SpSlotStart(k, b)
  {
    InfusedAfterSp(k, p);
    hide SlotStart, SpTotal;
    MulMono(0, |b.finished| - 1, b.ssi);
    if Overflow(k, b) { MulMono(1, |b.finished| - 1, b.ssi); }
  }

  lemma SlotEndIs(k: Constants, b: Rec)
    requires k.numSps > 0 && b.finished != []
    ensures SlotEnd(k, b, |b.finished| - 1) == SlotStart(k, b)
    ensures |b.finished| >= 2 ==> SlotEnd(k, b, |b.finished| - 2) == SlotStart(k, b) - b.ssi
  {
  }

  /** Cases 1 and 2: after finished sub-slots. */
  lemma AfterSlots(k: Constants, genesis: nat, c: seq<Rec>, b: Rec)
    requires k.Ok() && Base(k, c + [b]) && b.finished != [] && (Overflow(k, b) ==> |b.finished| >= 2)
    ensures var s := b.finished[|b.finished| - (if Overflow(k, b) then 2 else 1)];
      Correct(k, genesis, c, b, VdfInfo(s.cc, SlotBegins(s.rc), SpIters(k, b.ssi, b.spIndex)))
  {
    var d, i := c + [b], |b.finished| - (if Overflow(k, b) then 2 else 1);
    NoneAfterSlots(k, c, b);
    SlotEndIs(k, b);
    hide SlotStart, NoInfusion, Flows, SlotEnd, Overflow, SpIters, Base;
    assert EndsAt(k, d, |c|, i, b.finished[i], SpSlotStart(k, b));
    assert CorrectIn(k, genesis, c, b,
                     VdfInfo(b.finished[i].cc, SlotBegins(b.finished[i].rc), SpIters(k, b.ssi, b.spIndex)),
                     b.finished[i]);
  }

  /** Case 3: genesis in the first sub-slot, or overflowing from it. */
  lemma AtGenesis(k: Constants, genesis: nat, b: Rec)
    requires k.Ok() && Base(k, [b]) && (b.finished == [] || (Overflow(k, b) && |b.finished| == 1))
    ensures Correct(k, genesis, [], b, VdfInfo(genesis, SlotBegins(genesis), SpIters(k, b.ssi, b.spIndex)))
  {
    if Overflow(k, b) { GenesisOverflowsAfterSlots(k, [b]); }
    assert [b][0] == b;
    assert CorrectIn(k, genesis, [], b,
                     VdfInfo(genesis, SlotBegins(genesis), SpIters(k, b.ssi, b.spIndex)), GenesisSlot(genesis));
  }

  lemma PrevSlotIs(k: Constants, c: seq<Rec>, b: Rec)
    requires k.Ok() && Base(k, c + [b]) && c != []
    requires if Overflow(k, b) then |b.finished| == 1 else b.finished == []
    ensures InPrevSlot(k, c, b)
  {
    FlowStep(k, c + [b], |c|);
  }

  /** Challenges, input and iterations of the VDF to the signage point of `b`, the block after `c`. */
  method SignagePointVdfInfo(k: Constants, genesis: nat, c: seq<Rec>, b: Rec) returns (r: Option<VdfInfo>)
    requires k.Ok() && ValidHeaders(k, c) && ValidNext(k, c, b)
    ensures r.None? <==> NoSecondSlot(k, c, b)
    ensures r.Some? ==> Correct(k, genesis, c, b, r.value)
  {
    hide ValidHeaders, ValidNext, Base, Correct, Overflow, FirstOfSlot, InPrevSlot, IsPow2;
    Extend(k, c, b);
    ValidBase(k, c + [b]);
    var n, overflow, spIters := |b.finished|, Overflow(k, b), SpIters(k, b.ssi, b.spIndex);
    if n > 0 && !overflow {
      AfterSlots(k, genesis, c, b);
      return Some(VdfInfo(b.finished[n - 1].cc, SlotBegins(b.finished[n - 1].rc), spIters));
    } else if n > 1 {
      AfterSlots(k, genesis, c, b);
      return Some(VdfInfo(b.finished[n - 2].cc, SlotBegins(b.finished[n - 2].rc), spIters));
    } else if c == [] {
      assert c + [b] == [b];
      AtGenesis(k, genesis, b);
      return Some(VdfInfo(genesis, SlotBegins(genesis), spIters));
    } else if n == 1 || !overflow {
      PrevSlotIs(k, c, b);
      var info := StartInPrevSlot(k, genesis, c, b);
      return Some(info);
    } else {
      r := OverflowInSameSlot(k, genesis, c, b);
    }
  }

  // ---- The failing case happens -----------------------------------------------------------------------------------

  const LATE_GENESIS := Rec(7, 0x800_0001, 61, 1, 0x800_0000, 15, Some(1), [Slot(0, 0, 1, 1, 16)], false)
  const SECOND := Rec(14, 0x800_0002, 61, 2, 0x800_0000, 14, None, [], false)

  lemma LateGenesisIsValid()
    ensures DEFAULT.Ok() && ValidNext(DEFAULT, [], LATE_GENESIS)
  {
    DefaultOk();
    hide IsPow2;
  }

  lemma SecondHasParams()
    ensures DEFAULT.Ok() && ParamsOk(DEFAULT, [LATE_GENESIS], SECOND)
  {
    DefaultOk();
    hide IsPow2, MeasureStart, MeasureEnd, StartsEpoch;
  }

  lemma SecondFollows()
    ensures ItersOk(DEFAULT, [LATE_GENESIS], SECOND) && TxOk(DEFAULT, [LATE_GENESIS], SECOND)
  {
    assert Interval(DEFAULT, 0x800_0000) == 0x20_0000;
    assert SlotStart(DEFAULT, SECOND) == SlotStart(DEFAULT, LATE_GENESIS) == 0x800_0000;
    assert SpTotal(DEFAULT, SECOND) == 61 * 0x20_0000;
    hide SlotStart, SpTotal;
    assert LastTxHeight([LATE_GENESIS]) == 0;
  }

  lemma SecondIsPlain()
    ensures SummaryOk(DEFAULT, [LATE_GENESIS], SECOND) && SlotSizeOk(DEFAULT, [LATE_GENESIS], SECOND)
    ensures OverflowOk(DEFAULT, [LATE_GENESIS], SECOND) && DeficitOk(DEFAULT, [LATE_GENESIS], SECOND)
    ensures NoSecondSlot(DEFAULT, [LATE_GENESIS], SECOND)
  {
    assert FirstOfSlot([LATE_GENESIS]) == 0;
  }

  /** With the default constants, a genesis block that overflows from the first sub-slot can be
      followed by a header that meets every chain rule and for which no record names that sub-slot. */
  lemma SecondSlotIsMissed()
    ensures DEFAULT.Ok() && ValidHeaders(DEFAULT, [LATE_GENESIS])
    ensures ValidNext(DEFAULT, [LATE_GENESIS], SECOND) && NoSecondSlot(DEFAULT, [LATE_GENESIS], SECOND)
  {
    hide ParamsOk, ItersOk, SummaryOk, OverflowOk, TxOk, SlotSizeOk, DeficitOk, NoSecondSlot, IsPow2;
    LateGenesisIsValid();
    SecondHasParams();
    SecondFollows();
    SecondIsPlain();
    assert ValidHeaders(DEFAULT, []);
    Extend(DEFAULT, [], LATE_GENESIS);
    assert [] + [LATE_GENESIS] == [LATE_GENESIS];
  }
}
