/** The challenge a block's proof of space answers, and the VDF that leads to its signage point. */
module BlockChallenges {
  import opened Coins
  import opened Arith
  import opened PotIterations
  import opened Headers
  import opened SignagePoints
  import opened HeaderValidation
  import opened VdfStarts
  import opened SubSlotStores

  /** The sub-slots whose hashes the records of a chain hold, in order. */
  function SlotsOn(genesis: nat, c: seq<Rec>): seq<Slot>
  {
    if c == [] then []
    else SlotsOn(genesis, c[..|c| - 1]) + (if FirstInSlot(c, |c| - 1) then SlotsOf(genesis, c[|c| - 1]) else [])
  }

  /** How far back among them the challenge is. With `skip` the last sub-slot of an overflow block is not
      there yet. */
  function LookBack(k: Constants, b: Rec, skip: bool): (n: nat)
    ensures 1 <= n <= 2
  {
    if Overflow(k, b) && !skip then 2 else 1
  }

  function Challenge(k: Constants, genesis: nat, c: seq<Rec>, b: Rec, skip: bool): Option<nat>
  {
    if b.finished != [] then
      var last := b.finished[|b.finished| - 1];
      Some(if LookBack(k, b, skip) == 2 then last.ccChallenge else last.cc)
    else if c == [] then Some(genesis)
    else
      var s, n := SlotsOn(genesis, c), LookBack(k, b, skip);
      if |s| < n then None else Some(s[|s| - n].cc)
  }

  lemma SlotsOnStep(genesis: nat, c: seq<Rec>, i: nat)
    requires i < |c|
    ensures SlotsOn(genesis, c[..i + 1]) ==
            SlotsOn(genesis, c[..i]) + (if FirstInSlot(c, i) then SlotsOf(genesis, c[i]) else [])
  {
    assert c[..i + 1][..i] == c[..i] && c[..i + 1][i] == c[i];
  }

  lemma ReverseAppend(s: seq<Slot>, t: seq<Slot>)
    ensures Reverse(s + Reverse(t)) == t + Reverse(s)
  {
  }

  /** Look the challenge up; the walk back stops at genesis, and then the list may be too short. */
  method GetBlockChallenge(k: Constants, genesis: nat, c: seq<Rec>, b: Rec, skip: bool) returns (r: Option<nat>)
    ensures r == Challenge(k, genesis, c, b, skip)
  {
    hide SlotsOf, Overflow, FirstInSlot;
    if b.finished != [] {
      var last := b.finished[|b.finished| - 1];
      return Some(if Overflow(k, b) && !skip then last.ccChallenge else last.cc);
    }
    if c == [] { return Some(genesis); }
    var n := LookBack(k, b, skip);
    var found: seq<Slot>, curr := [], |c| - 1;
    assert c[..|c|] == c && Reverse(found) == [];
    while |found| < n
      invariant 0 <= curr < |c|
      invariant SlotsOn(genesis, c) == SlotsOn(genesis, c[..curr + 1]) + Reverse(found)
      decreases curr
    {
      SlotsOnStep(genesis, c, curr);
      if FirstInSlot(c, curr) {
        ReverseAppend(found, SlotsOf(genesis, c[curr]));
        found := found + Reverse(SlotsOf(genesis, c[curr]));
      }
      assert SlotsOn(genesis, c) == SlotsOn(genesis, c[..curr]) + Reverse(found);
      if curr == 0 { break; }
      curr := curr - 1;
    }
    ghost var s := SlotsOn(genesis, c);
    if |found| < n {
      assert s == Reverse(found);
      return None;
    }
    assert s[|s| - n] == Reverse(found)[|found| - n] == found[n - 1];
    return Some(found[n - 1].cc);
  }

  // ---- When the lookup fails -----------------------------------------------------------------------------------

  lemma {:induction false} SlotsCounted(genesis: nat, c: seq<Rec>)
    requires c != []
    ensures SlotsOn(genesis, c) != []
    ensures |SlotsOn(genesis, c)| < 2 <==> FirstOfSlot(c) == 0 && |c[0].finished| <= 1
  {
    if |c| > 1 { SlotsCounted(genesis, c[..|c| - 1]); }
  }

  /** The lookup fails exactly for an overflow block, not missing its sub-slot, in the sub-slot of a genesis
      block that came after at most one; on a chain that obeys the rules, after exactly one. */
  lemma LookupFailsIff(k: Constants, genesis: nat, c: seq<Rec>, b: Rec, skip: bool)
    ensures Challenge(k, genesis, c, b, skip).None? <==>
            !skip && Overflow(k, b) && b.finished == [] && c != [] && FirstOfSlot(c) == 0 && |c[0].finished| <= 1
    ensures k.Ok() && ValidHeaders(k, c) && ValidNext(k, c, b) ==>
      (Challenge(k, genesis, c, b, skip).None? <==> !skip && NoSecondSlot(k, c, b))
  {
    hide ValidHeaders, ValidNext, IsPow2, FirstOfSlot, Overflow;
    if c != [] { SlotsCounted(genesis, c); }
    if k.Ok() && ValidHeaders(k, c) && ValidNext(k, c, b) && c != [] && Overflow(k, b) && b.finished == [] {
      OpenerHasSlots(k, genesis, c, b);
    }
  }

  lemma OpenerHasSlots(k: Constants, genesis: nat, c: seq<Rec>, b: Rec)
    requires k.Ok() && ValidHeaders(k, c) && ValidNext(k, c, b) && c != [] && Overflow(k, b) && b.finished == []
    ensures c[FirstOfSlot(c)].finished != []
  {
    hide ValidHeaders, ValidNext, IsPow2, Base, WalkOk;
    Extend(k, c, b);
    ValidBase(k, c + [b]);
    WalkBegins(k, genesis, c, b);
    PrevSlotOpens(k, genesis, c, b, FirstOfSlot(c));
  }

  // ---- What the challenge is -----------------------------------------------------------------------------------

  /** The last sub-slot a chain holds is the one its last block lies in. */
  lemma {:induction false} LastOn(genesis: nat, c: seq<Rec>)
    requires c != []
    ensures var s := SlotsOn(genesis, c);
      s != [] && s[|s| - 1] == LastSlot(genesis, c[FirstOfSlot(c)])
  {
    if !FirstInSlot(c, |c| - 1) {
      LastOn(genesis, c[..|c| - 1]);
      assert SlotsOn(genesis, c) == SlotsOn(genesis, c[..|c| - 1]);
    }
  }

  /** `s` is the sub-slot before the one the last block lies in: finished by the same block, or the last
      that the blocks before it hold. */
  predicate IsSlotBefore(genesis: nat, c: seq<Rec>, s: Slot)
    requires c != []
  {
    var f := FirstOfSlot(c);
    && (|c[f].finished| >= 2 ==> s == c[f].finished[|c[f].finished| - 2])
    && (|c[f].finished| == 1 && f > 0 ==> s == LastSlot(genesis, c[FirstOfSlot(c[..f])]))
  }

  lemma {:induction false} SecondLastOn(genesis: nat, c: seq<Rec>)
    requires c != [] && |SlotsOn(genesis, c)| >= 2 && c[FirstOfSlot(c)].finished != []
    ensures IsSlotBefore(genesis, c, SlotsOn(genesis, c)[|SlotsOn(genesis, c)| - 2])
  {
    var front := c[..|c| - 1];
    if FirstInSlot(c, |c| - 1) {
      SecondAtOpener(genesis, c, front);
    } else {
      NotFirst(genesis, c, front);
      hide SlotsOn, FirstOfSlot, IsSlotBefore;
      SecondLastOn(genesis, front);
      SameSlotBefore(genesis, c, front, SlotsOn(genesis, c)[|SlotsOn(genesis, c)| - 2]);
    }
  }

  lemma {:induction false} SameSlotBefore(genesis: nat, c: seq<Rec>, front: seq<Rec>, s: Slot)
    requires c != [] && front == c[..|c| - 1] && !FirstInSlot(c, |c| - 1)
    ensures front != [] && (IsSlotBefore(genesis, front, s) <==> IsSlotBefore(genesis, c, s))
  {
    NotFirst(genesis, c, front);
    hide FirstOfSlot;
  }

  lemma {:induction false} SecondAtOpener(genesis: nat, c: seq<Rec>, front: seq<Rec>)
    requires c != [] && front == c[..|c| - 1] && FirstInSlot(c, |c| - 1) && c[|c| - 1].finished != []
    requires |SlotsOn(genesis, c)| >= 2
    ensures IsSlotBefore(genesis, c, SlotsOn(genesis, c)[|SlotsOn(genesis, c)| - 2])
  {
    assert FirstOfSlot(c) == |c| - 1;
    assert SlotsOn(genesis, c) == SlotsOn(genesis, front) + c[|c| - 1].finished;
    if |c| > 1 { LastOn(genesis, front); }
    hide SlotsOn, FirstOfSlot;
  }

  lemma {:induction false} NotFirst(genesis: nat, c: seq<Rec>, front: seq<Rec>)
    requires c != [] && front == c[..|c| - 1] && !FirstInSlot(c, |c| - 1)
    ensures front != [] && FirstOfSlot(c) == FirstOfSlot(front) && SlotsOn(genesis, c) == SlotsOn(genesis, front)
    ensures c[FirstOfSlot(c)] == front[FirstOfSlot(c)] && c[..FirstOfSlot(c)] == front[..FirstOfSlot(c)]
    ensures FirstOfSlot(c) > 0 ==> c[FirstOfSlot(c[..FirstOfSlot(c)])] == front[FirstOfSlot(c[..FirstOfSlot(c)])]
  {
  }

  /** `cc` is the challenge-chain hash at the start of the sub-slot that begins at `t`. */
  ghost predicate Names(k: Constants, genesis: nat, c: seq<Rec>, cc: nat, t: int)
    requires k.numSps > 0
  {
    exists s :: Opens(k, genesis, c, s, t) && s.cc == cc
  }

  lemma SlotOfPrev(k: Constants, genesis: nat, c: seq<Rec>, b: Rec, j: nat)
    requires k.Ok() && Base(k, c + [b]) && j < |c|
    ensures Names(k, genesis, c + [b], LastSlot(genesis, c[FirstOfSlot(c[..j + 1])]).cc, SlotStart(k, c[j]))
  {
    hide SlotStart, Opens, SpTotal, SlotsOf;
    var d, f := c + [b], FirstOfSlot(c[..j + 1]);
    assert forall x :: 0 <= x <= j ==> c[..j + 1][x] == c[x] == d[x];
    SameSlotBack(k, d, f, j);
    LastSlotOpens(k, genesis, d, f);
  }

  /** After finished sub-slots: the hash of the last, or for an overflow block its challenge, which is where
      the one before it ended. */
  lemma AfterSlotsNames(k: Constants, genesis: nat, c: seq<Rec>, b: Rec)
    requires k.Ok() && Base(k, c + [b]) && SlotsLink(genesis, c, b) && b.finished != []
    ensures Names(k, genesis, c + [b], Challenge(k, genesis, c, b, false).value, SpSlotStart(k, b))
  {
    var d, n := c + [b], |b.finished|;
    SlotEndIs(k, b);
    assert StartsFrom(b.finished, n - 1, ChallengeAfter(genesis, c));
    hide SlotsLink, SlotEnd;
    if !Overflow(k, b) {
      assert EndsAt(k, d, |c|, n - 1, b.finished[n - 1], SpSlotStart(k, b));
    } else if n >= 2 {
      assert EndsAt(k, d, |c|, n - 2, b.finished[n - 2], SpSlotStart(k, b));
    } else if c != [] {
      assert c[..|c|] == c;
      SlotOfPrev(k, genesis, c, b, |c| - 1);
      PrevSlotIs(k, c, b);
    } else {
      assert d == [b];
      assert Opens(k, genesis, d, GenesisSlot(genesis), 0);
    }
  }

  lemma WithoutSlotsNames(k: Constants, genesis: nat, c: seq<Rec>, b: Rec)
    requires k.Ok() && Base(k, c + [b]) && b.finished == [] && Challenge(k, genesis, c, b, false).Some?
    ensures Names(k, genesis, c + [b], Challenge(k, genesis, c, b, false).value, SpSlotStart(k, b))
  {
    var d := c + [b];
    if c == [] {
      assert d == [b];
      if Overflow(k, b) { GenesisOverflowsAfterSlots(k, d); }
      assert Opens(k, genesis, d, GenesisSlot(genesis), 0);
    } else if !Overflow(k, b) {
      LastOn(genesis, c);
      assert c[..|c|] == c;
      SlotOfPrev(k, genesis, c, b, |c| - 1);
      PrevSlotIs(k, c, b);
    } else {
      OverflowNames(k, genesis, c, b);
    }
  }

  lemma OverflowNames(k: Constants, genesis: nat, c: seq<Rec>, b: Rec)
    requires k.Ok() && Base(k, c + [b]) && c != [] && b.finished == [] && Overflow(k, b)
    requires Challenge(k, genesis, c, b, false).Some?
    ensures Names(k, genesis, c + [b], Challenge(k, genesis, c, b, false).value, SpSlotStart(k, b))
  {
    hide Base, Overflow, SlotStart, SpSlotStart, Opens, SlotsOn, FirstOfSlot;
    var f := FirstOfSlot(c);
    WalkBegins(k, genesis, c, b);
    PrevSlotOpens(k, genesis, c, b, f);
    SlotsCounted(genesis, c);
    SecondLastOn(genesis, c);
    if |c[f].finished| == 1 {
      SlotOfPrev(k, genesis, c, b, f - 1);
    }
  }

  /** On a linked chain the challenge found is that of the sub-slot in which the signage point lies. */
  lemma ChallengeNamesSpSlot(k: Constants, genesis: nat, c: seq<Rec>, b: Rec)
    requires k.Ok() && ValidHeaders(k, c) && ValidNext(k, c, b) && SlotsLink(genesis, c, b)
    requires Challenge(k, genesis, c, b, false).Some?
    ensures Names(k, genesis, c + [b], Challenge(k, genesis, c, b, false).value, SpSlotStart(k, b))
  {
    hide ValidHeaders, ValidNext, IsPow2, Base, Names, Challenge, SlotsLink, SpSlotStart;
    Extend(k, c, b);
    ValidBase(k, c + [b]);
    if b.finished != [] {
      AfterSlotsNames(k, genesis, c, b);
    } else {
      WithoutSlotsNames(k, genesis, c, b);
    }
  }

  /** An overflow block whose last sub-slot is still missing gets the challenge it will have with it. */
  lemma SkippedIsCompleted(k: Constants, genesis: nat, c: seq<Rec>, b: Rec, s: Slot)
    requires Overflow(k, b)
    requires s.ccChallenge == if b.finished != [] then b.finished[|b.finished| - 1].cc else ChallengeAfter(genesis, c)
    ensures Challenge(k, genesis, c, b, true) == Challenge(k, genesis, c, b.(finished := b.finished + [s]), false)
  {
    if c != [] { LastOn(genesis, c); }
  }

  // ---- The sub-slots kept for a peak -----------------------------------------------------------------------------

  /** The entry's sub-slot is the one that begins at its total; none for the first. */
  ghost predicate EntryOpens(k: Constants, genesis: nat, c: seq<Rec>, e: Entry)
    requires k.numSps > 0
  {
    match e.slot
    case Some(s) => Opens(k, genesis, c, s, e.totalIters)
    case None => e.totalIters == 0
  }

  /** What is kept for a peak are the sub-slots of its infusion and, for an overflow block, of its signage
      point, but for the two cases next to genesis. */
  lemma PeakEntriesOpen(k: Constants, genesis: nat, c: seq<Rec>)
    requires k.Ok() && c != [] && ValidHeaders(k, c)
    ensures var e, peak := PeakEntries(k, c), c[|c| - 1];
      && e != [] && e[|e| - 1].totalIters == SlotStart(k, peak) && EntryOpens(k, genesis, c, e[|e| - 1])
      && (|e| == 2 <==> Overflow(k, peak) && !PassesGenesis(c) && c[FirstOfSlot(c)].finished != [])
      && (|e| == 2 ==> e[0].totalIters == SpSlotStart(k, peak))
      && (|e| == 2 && !TakesOwnSlot(c) ==> EntryOpens(k, genesis, c, e[0]))
  {
    PeakEntriesEnd(k, c);
    ValidBase(k, c);
    hide ValidHeaders, IsPow2, Base;
    var f := FirstOfSlot(c);
    LastEntryOpens(k, genesis, c, f);
    if Overflow(k, c[|c| - 1]) && c[f].finished != [] && !TakesOwnSlot(c) { FirstEntryOpens(k, genesis, c, f); }
  }

  lemma LastEntryOpens(k: Constants, genesis: nat, c: seq<Rec>, f: nat)
    requires k.Ok() && c != [] && Base(k, c) && f == FirstOfSlot(c)
    ensures LastFinished(c[f]).Some? ==> Opens(k, genesis, c, LastFinished(c[f]).value, SlotStart(k, c[|c| - 1]))
  {
    hide SlotStart, SpTotal, Opens;
    SameSlotBack(k, c, f, |c| - 1);
    LastSlotOpens(k, genesis, c, f);
  }

  lemma FirstEntryOpens(k: Constants, genesis: nat, c: seq<Rec>, f: nat)
    requires k.Ok() && c != [] && Base(k, c) && f == FirstOfSlot(c) && c[f].finished != [] && !TakesOwnSlot(c)
    requires Overflow(k, c[|c| - 1])
    ensures EntryOpens(k, genesis, c, Entry(SlotBefore(c, f), SpSlotStart(k, c[|c| - 1])))
  {
    SpSlotOfPeak(k, c);
    PeakSpSlot(k, c, f);
    hide FirstOfSlot, Base, Overflow, SpSlotStart, SlotStart, IsPow2;
    if |c[f].finished| >= 2 { OwnSlotOpens(k, genesis, c, f); } else { EarlierSlotOpens(k, genesis, c, f); }
  }

  lemma PeakSpSlot(k: Constants, c: seq<Rec>, f: nat)
    requires k.Ok() && c != [] && Base(k, c) && f == FirstOfSlot(c) && Overflow(k, c[|c| - 1])
    ensures Overflow(k, c[f]) && SpSlotStart(k, c[|c| - 1]) == SlotStart(k, c[f]) - c[f].ssi
  {
    hide SlotStart, SpTotal, IsPow2;
    SameSlotBack(k, c, f, |c| - 1);
  }

  lemma OwnSlotOpens(k: Constants, genesis: nat, c: seq<Rec>, f: nat)
    requires k.Ok() && f < |c| && |c[f].finished| >= 2
    ensures Opens(k, genesis, c, c[f].finished[|c[f].finished| - 2], SlotStart(k, c[f]) - c[f].ssi)
  {
    SlotEndIs(k, c[f]);
    hide SlotStart, SlotEnd, IsPow2;
    assert EndsAt(k, c, f, |c[f].finished| - 2, c[f].finished[|c[f].finished| - 2], SlotStart(k, c[f]) - c[f].ssi);
  }

  lemma EarlierSlotOpens(k: Constants, genesis: nat, c: seq<Rec>, f: nat)
    requires k.Ok() && Base(k, c) && 0 < f < |c| && |c[f].finished| == 1 && Overflow(k, c[f])
    ensures var g := FirstOfSlot(c[..f]);
      g < f && Opens(k, genesis, c, LastSlot(genesis, c[g]), SlotStart(k, c[f]) - c[f].ssi)
  {
    var g := FirstOfSlot(c[..f]);
    assert forall x :: 0 <= x < f ==> c[..f][x] == c[x];
    StartsOneOn(k, c, f);
    hide SlotStart, SpTotal, Opens;
    SameSlotBack(k, c, g, f - 1);
    LastSlotOpens(k, genesis, c, g);
  }

  lemma StartsOneOn(k: Constants, c: seq<Rec>, f: nat)
    requires k.Ok() && Base(k, c) && 0 < f < |c| && |c[f].finished| == 1 && Overflow(k, c[f])
    ensures SlotStart(k, c[f]) - c[f].ssi == SlotStart(k, c[f - 1])
  {
    FlowStep(k, c, f);
  }

  // ---- It is the challenge of the VDF ----------------------------------------------------------------------------

  /** A sub-slot that a block finished ended after the sub-slot of every earlier block began. */
  lemma SlotEndsAfter(k: Constants, c: seq<Rec>, j: nat, l: nat, i: nat)
    requires k.Ok() && Base(k, c) && j < l < |c| && i < |c[l].finished|
    ensures SlotEnd(k, c[l], i) > SlotStart(k, c[j])
  {
    FlowStep(k, c, l);
    SlotsTile(k, c, j, l - 1);
    FlowSized(k, c, j);
    FlowSized(k, c, l);
    hide SlotStart, Flows;
    MulMono(0, i, c[l].ssi);
    MulSum(c[l].ssi, |c[l].finished| - 1 - i, i);
  }

  lemma SlotEndsInOrder(k: Constants, b: Rec, i: nat, l: nat)
    requires k.Ok() && Sized(k, b) && i <= l < |b.finished|
    ensures SlotEnd(k, b, i) <= SlotEnd(k, b, l) <= SlotStart(k, b)
    ensures i < l ==> SlotEnd(k, b, i) < SlotEnd(k, b, l)
  {
    var n := |b.finished| - 1;
    MulSum(b.ssi, n - l, l - i);
    MulMono(0, n - l, b.ssi);
    MulMono(0, l - i, b.ssi);
    if i < l { MulPos(b.ssi, l - i); }
  }

  /** No two sub-slots end at the same time. */
  lemma EndIsUnique(k: Constants, c: seq<Rec>, j: nat, i: nat, l: nat, m: nat)
    requires k.Ok() && Base(k, c) && j <= l < |c| && i < |c[j].finished| && m < |c[l].finished|
    requires SlotEnd(k, c[j], i) == SlotEnd(k, c[l], m)
    ensures j == l && i == m
  {
    hide SlotStart, SlotEnd;
    FlowSized(k, c, j);
    if j < l {
      SlotEndsInOrder(k, c[j], i, i);
      SlotEndsAfter(k, c, j, l, m);
    } else if i < m {
      SlotEndsInOrder(k, c[j], i, m);
    } else {
      SlotEndsInOrder(k, c[j], m, i);
    }
  }

  lemma EndIsPositive(k: Constants, c: seq<Rec>, l: nat, m: nat)
    requires k.Ok() && Base(k, c) && l < |c| && m < |c[l].finished|
    ensures SlotEnd(k, c[l], m) > 0
  {
    FlowSized(k, c, 0);
    MulMono(0, |c[0].finished|, c[0].ssi);
    if l > 0 {
      SlotEndsAfter(k, c, 0, l, m);
    } else {
      MulSum(c[0].ssi, |c[0].finished| - 1 - m, m + 1);
      MulPos(c[0].ssi, m + 1);
    }
  }

  /** One sub-slot begins at a time. */
  lemma OpensOne(k: Constants, genesis: nat, c: seq<Rec>, s: Slot, u: Slot, t: int)
    requires k.Ok() && Base(k, c) && Opens(k, genesis, c, s, t) && Opens(k, genesis, c, u, t)
    ensures s == u
  {
    hide Base, SlotEnd;
    if exists j, i :: EndsAt(k, c, j, i, s, t) {
      var j, i :| EndsAt(k, c, j, i, s, t);
      EndIsPositive(k, c, j, i);
      var l, m :| EndsAt(k, c, l, m, u, t);
      if j <= l { EndIsUnique(k, c, j, i, l, m); } else { EndIsUnique(k, c, l, m, j, i); }
    } else if exists l, m :: EndsAt(k, c, l, m, u, t) {
      var l, m :| EndsAt(k, c, l, m, u, t);
      EndIsPositive(k, c, l, m);
    }
  }

  /** Whatever the VDF search finds, its challenge is the one the proof of space answers. */
  lemma ChallengeIsVdfs(k: Constants, genesis: nat, c: seq<Rec>, b: Rec, info: VdfInfo)
    requires k.Ok() && ValidHeaders(k, c) && ValidNext(k, c, b) && SlotsLink(genesis, c, b)
    requires Challenge(k, genesis, c, b, false).Some? && Correct(k, genesis, c, b, info)
    ensures info.cc == Challenge(k, genesis, c, b, false).value
  {
    ChallengeNamesSpSlot(k, genesis, c, b);
    hide ValidHeaders, ValidNext, IsPow2, Base, Challenge, SlotsLink, SpSlotStart, Opens;
    Extend(k, c, b);
    ValidBase(k, c + [b]);
    var s :| CorrectIn(k, genesis, c, b, info, s);
    var u :| Opens(k, genesis, c + [b], u, SpSlotStart(k, b)) && u.cc == Challenge(k, genesis, c, b, false).value;
    OpensOne(k, genesis, c + [b], s, u, SpSlotStart(k, b));
  }

  /** As a finished header is validated: first the challenge, then the VDF. Only the lookup can fail. */
  method ChallengeAndVdf(k: Constants, genesis: nat, c: seq<Rec>, b: Rec)
    returns (challenge: Option<nat>, info: Option<VdfInfo>)
    requires k.Ok() && ValidHeaders(k, c) && ValidNext(k, c, b)
    ensures challenge == Challenge(k, genesis, c, b, false)
    ensures challenge.None? <==> NoSecondSlot(k, c, b)
    ensures challenge.Some? ==> info.Some? && Correct(k, genesis, c, b, info.value)
    ensures challenge.Some? && SlotsLink(genesis, c, b) ==> info.value.cc == challenge.value
  {
    hide ValidHeaders, ValidNext, IsPow2, NoSecondSlot, Correct, Challenge, SlotsLink;
    LookupFailsIff(k, genesis, c, b, false);
    challenge := GetBlockChallenge(k, genesis, c, b, false);
    if challenge.None? { return challenge, None; }
    info := SignagePointVdfInfo(k, genesis, c, b);
    if SlotsLink(genesis, c, b) { ChallengeIsVdfs(k, genesis, c, b, info.value); }
  }

  /** With the default constants, a genesis block that overflows from the first sub-slot can be followed by
      a header that meets every chain rule and whose lookup fails. */
  lemma LookupCanFail()
    ensures DEFAULT.Ok() && ValidHeaders(DEFAULT, [LATE_GENESIS]) && ValidNext(DEFAULT, [LATE_GENESIS], SECOND)
    ensures ChainLinks(0, [LATE_GENESIS]) && SlotsLink(0, [LATE_GENESIS], SECOND)
    ensures Challenge(DEFAULT, 0, [LATE_GENESIS], SECOND, false).None?
  {
    SecondSlotIsMissed();
    hide ValidHeaders, ValidNext, IsPow2;
    LookupFailsIff(DEFAULT, 0, [LATE_GENESIS], SECOND, false);
    assert [LATE_GENESIS][..0] == [];
  }
}
