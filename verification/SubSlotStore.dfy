/** The finished sub-slots the node keeps beyond its peak. */
module SubSlotStores {
  import opened Coins
  import opened PotIterations
  import opened Headers
  import opened SignagePoints
  import opened VdfStarts

  // ---- Linked sub-slots ----------------------------------------------------------------------------------

  /** The challenge a sub-slot after `c` must start from. */
  function ChallengeAfter(genesis: nat, c: seq<Rec>): nat
  {
    if c == [] then genesis else LastSlot(genesis, c[FirstOfSlot(c)]).cc
  }

  /** `s` is a chain of sub-slots, each starting from the end of the one before, from `start` to
      `end`. */
  predicate GapFree(s: seq<Slot>, start: nat, end: nat)
  {
    && (forall i :: 0 <= i < |s| ==> StartsFrom(s, i, start))
    && end == if s == [] then start else s[|s| - 1].cc
  }

  predicate StartsFrom(s: seq<Slot>, i: int, start: nat)
    requires 0 <= i < |s|
  {
    s[i].ccChallenge == if i == 0 then start else s[i - 1].cc
  }

  /** Checks 2a to 2c: the sub-slots a block finishes continue from the chain without a gap. */
  predicate SlotsLink(genesis: nat, c: seq<Rec>, b: Rec)
  {
    forall i :: 0 <= i < |b.finished| ==> StartsFrom(b.finished, i, ChallengeAfter(genesis, c))
  }

  predicate ChainLinks(genesis: nat, c: seq<Rec>)
  {
    forall j :: 0 <= j < |c| ==> SlotsLink(genesis, c[..j], c[j])
  }

  // ---- The sub-slots of a block's signage point and infusion ----------------------------------------------

  function LastFinished(b: Rec): Option<Slot>
  {
    if b.finished == [] then None else Some(b.finished[|b.finished| - 1])
  }

  /** The sub-slot before the one that the block at `f` opened; none before the first. */
  function SlotBefore(c: seq<Rec>, f: nat): Option<Slot>
    requires f < |c|
  {
    if |c[f].finished| >= 2 then Some(c[f].finished[|c[f].finished| - 2])
    else if f == 0 then None
    else LastFinished(c[FirstOfSlot(c[..f])])
  }

  /** A genesis block after a single sub-slot is taken for the block before itself. */
  predicate TakesOwnSlot(c: seq<Rec>)
    requires c != []
  {
    FirstOfSlot(c) == 0 && |c[0].finished| == 1
  }

  /** The walk to the previous sub-slot reaches a genesis block with sub-slots, and passes it. */
  predicate PassesGenesis(c: seq<Rec>)
    requires c != []
  {
    var f := FirstOfSlot(c);
    f > 1 && |c[f].finished| == 1 && FirstOfSlot(c[..f]) == 0 && c[0].finished != []
  }

  lemma FirstOfSlotIs(c: seq<Rec>, n: nat, f: nat)
    requires f < n <= |c| && FirstInSlot(c, f) && forall i :: f < i < n ==> c[i].finished == []
    ensures FirstOfSlot(c[..n]) == f
  {
    var g := FirstOfSlot(c[..n]);
    assert c[..n][f] == c[f] && c[..n][g] == c[g];
  }

  /** The sub-slots in which the last block's signage point and infusion lie; none for a sub-slot not
      needed, or for the first of the chain. The signage point's is right but in two cases. */
  method SpAndIpSubSlots(k: Constants, c: seq<Rec>) returns (sp: Option<Slot>, ip: Option<Slot>)
    requires c != []
    ensures ip == LastFinished(c[FirstOfSlot(c)])
    ensures ip.None? || !Overflow(k, c[|c| - 1]) ==> sp.None?
    ensures ip.Some? && Overflow(k, c[|c| - 1]) ==>
      && (sp == SlotBefore(c, FirstOfSlot(c)) <==> !TakesOwnSlot(c) && !PassesGenesis(c))
      && (TakesOwnSlot(c) ==> sp == ip)
      && (PassesGenesis(c) ==> sp.None?)
  {
    var curr := |c| - 1;
    while !FirstInSlot(c, curr)
      invariant 0 <= curr < |c| && forall i :: curr < i < |c| ==> c[i].finished == []
      decreases curr
    {
      curr := curr - 1;
    }
    FirstOfSlotIs(c, |c|, curr);
    assert c[..|c|] == c;
    var n := |c[curr].finished|;
    if n == 0 { return None, None; }
    ip := Some(c[curr].finished[n - 1]);
    if !Overflow(k, c[|c| - 1]) { return None, ip; }
    if n > 1 { return Some(c[curr].finished[n - 2]), ip; }
    var prevBlock := if curr == 0 then curr else curr - 1;
    var prevRecord := prevBlock;
    while prevRecord > 0
      invariant 0 <= prevRecord <= prevBlock < |c| && prevBlock == (if curr == 0 then curr else curr - 1)
      invariant forall i :: prevRecord < i <= prevBlock ==> c[i].finished == []
      decreases prevRecord
    {
      if FirstInSlot(c, prevRecord) {
        FirstOfSlotIs(c, curr, prevRecord);
        return Some(c[prevRecord].finished[|c[prevRecord].finished| - 1]), ip;
      }
      prevRecord := prevRecord - 1;
    }
    if curr > 0 { FirstOfSlotIs(c, curr, 0); }
    return LastFinished(c[prevBlock]), ip;
  }

  /** A sub-slot and the one before it on a linked chain are linked. */
  lemma SlotBeforeLinks(genesis: nat, c: seq<Rec>, f: nat)
    requires ChainLinks(genesis, c) && f < |c| && c[f].finished != []
    ensures LastFinished(c[f]).value.ccChallenge == match SlotBefore(c, f) case Some(s) => s.cc case None => genesis
  {
    var n := |c[f].finished|;
    assert SlotsLink(genesis, c[..f], c[f]);
    assert StartsFrom(c[f].finished, n - 1, ChallengeAfter(genesis, c[..f]));
  }

  // ---- The store ------------------------------------------------------------------------------------------------

  /** A sub-slot, none for the first of the chain, and where the next one starts. */
  datatype Entry = Entry(slot: Option<Slot>, totalIters: int)

  /** What of the peak the store looks at. */
  datatype Peak = Peak(totalIters: nat, ssi: nat, infusion: nat)

  datatype SlotResult = Rejected | AlreadyPresent | Appended

  function HashOf(genesis: nat, e: Entry): nat
  {
    match e.slot case Some(s) => s.cc case None => genesis
  }

  predicate Joins(genesis: nat, e: Entry, next: Entry)
  {
    next.slot.Some? && next.slot.value.ccChallenge == HashOf(genesis, e)
  }

  predicate JoinsAt(genesis: nat, entries: seq<Entry>, i: int)
    requires 0 < i < |entries|
  {
    Joins(genesis, entries[i - 1], entries[i])
  }

  /** The sub-slots that wait for an infusion. */
  function Waiting(futureSlots: map<nat, seq<Slot>>, infusion: nat): seq<Slot>
  {
    if infusion in futureSlots then futureSlots[infusion] else []
  }

  class SubSlotStore {
    const k: Constants
    const genesis: nat
    /** The checks of proofs and of the infused challenge chain over a number of iterations. */
    const proofOk: (Slot, int) -> bool
    var finished: seq<Entry>
    var futureSlots: map<nat, seq<Slot>>

    /** There is always an entry, from the second on they are linked, and a sub-slot waits for the infusion
        it starts from. */
    ghost predicate Valid()
      reads this
    {
      && finished != [] && (|finished| > 1 ==> finished[1].slot.Some?)
      && (forall i :: 1 < i < |finished| ==> JoinsAt(genesis, finished, i))
      && forall i, s :: i in futureSlots && s in futureSlots[i] ==> s.rcChallenge == i
    }

    /** All entries are linked. */
    ghost predicate AllJoined()
      reads this
    {
      finished != [] && forall i :: 0 < i < |finished| ==> JoinsAt(genesis, finished, i)
    }

    constructor (k: Constants, genesis: nat, proofOk: (Slot, int) -> bool)
      ensures Valid() && AllJoined() && this.k == k && this.genesis == genesis && finished == [Entry(None, 0)]
    {
      this.k, this.genesis, this.proofOk := k, genesis, proofOk;
      finished, futureSlots := [Entry(None, 0)], map[];
    }

    method InitializeGenesisSubSlot()
      modifies this`finished
      ensures AllJoined() && finished == [Entry(None, 0)] && (old(Valid()) ==> Valid())
    {
      finished := [Entry(None, 0)];
    }

    predicate Present(slot: Slot)
      reads this
    {
      exists i :: 0 <= i < |finished| && finished[i].slot == Some(slot)
    }

    /** The sub-slot starts where the last one ended. */
    predicate Continues(slot: Slot)
      requires finished != []
      reads this
    {
      slot.ccChallenge == HashOf(genesis, finished[|finished| - 1])
    }

    function NextTotal(peak: Option<Peak>): int
      requires finished != []
      reads this
    {
      finished[|finished| - 1].totalIters + if peak.Some? then peak.value.ssi else k.ssiStarting
    }

    /** The peak was infused in the sub-slot now ending. */
    predicate PeakInside(peak: Option<Peak>)
      requires finished != []
      reads this
    {
      peak.Some? && peak.value.totalIters > finished[|finished| - 1].totalIters
    }

    /** Append a finished sub-slot that starts where the last one ends and whose proof covers the rest of
        it from the peak; keep one for later that waits for an infusion; leave the rest alone. */
    method NewFinishedSubSlot(slot: Slot, peak: Option<Peak>) returns (r: SlotResult)
      requires Valid()
      modifies this
      ensures Valid() && (AllJoined() <==> old(AllJoined()))
      ensures r.AlreadyPresent? <==> old(Present(slot))
      ensures r.Appended? <==>
        && !old(Present(slot)) && old(Continues(slot))
        && (old(PeakInside(peak)) ==>
              peak.value.totalIters <= old(NextTotal(peak)) && peak.value.infusion == slot.rcChallenge)
        && proofOk(slot, old(NextTotal(peak)) - if old(PeakInside(peak)) then peak.value.totalIters
                                                else old(finished)[|old(finished)| - 1].totalIters)
      ensures finished == old(finished) + if r.Appended? then [Entry(Some(slot), old(NextTotal(peak)))] else []
      ensures futureSlots == if !old(Present(slot)) && old(Continues(slot)) && old(PeakInside(peak))
                                && peak.value.totalIters <= old(NextTotal(peak))
                                && peak.value.infusion != slot.rcChallenge
        then old(futureSlots)[slot.rcChallenge := Waiting(old(futureSlots), slot.rcChallenge) + [slot]]
        else old(futureSlots)
    {
      var last := finished[|finished| - 1];
      for i := 0 to |finished|
        invariant forall j :: 0 <= j < i ==> finished[j].slot != Some(slot)
      {
        if finished[i].slot == Some(slot) { return AlreadyPresent; }
      }
      if slot.ccChallenge != HashOf(genesis, last) { return Rejected; }
      var ssi := if peak.Some? then peak.value.ssi else k.ssiStarting;
      var total, iters := last.totalIters + ssi, ssi;
      if peak.Some? && peak.value.totalIters > last.totalIters {
        if total < peak.value.totalIters { return Rejected; }
        iters := total - peak.value.totalIters;
        if peak.value.infusion != slot.rcChallenge {
          futureSlots := futureSlots[slot.rcChallenge := Waiting(futureSlots, slot.rcChallenge) + [slot]];
          return Rejected;
        }
      }
      if !proofOk(slot, iters) { return Rejected; }
      AppendLinks(genesis, finished, Entry(Some(slot), total));
      finished := finished + [Entry(Some(slot), total)];
      return Appended;
    }

    /** Keep only the sub-slots of the peak's infusion and, for an overflow block, of its signage
        point. */
    method ResetToPeak(c: seq<Rec>)
      requires k.Ok() && c != [] && ValidHeaders(k, c)
      modifies this`finished
      ensures finished == PeakEntries(k, c)
    {
      var sp, ip := SpAndIpSubSlots(k, c);
      var peak := c[|c| - 1];
      ValidBase(k, c);
      SlotStartOfPeak(k, c);
      SpSlotOfPeak(k, c);
      hide ValidHeaders, Base, FirstOfSlot, SlotStart, Overflow, TakesOwnSlot, PassesGenesis, SlotBefore;
      if ip.None? {
        InitializeGenesisSubSlot();
      } else {
        finished := [];
        var spTotal := SpSlotStart(k, peak);
        if sp.Some? || spTotal == 0 {
          assert Overflow(k, peak) || spTotal != 0;
          finished := finished + [Entry(sp, spTotal)];
        }
        finished := finished + [Entry(ip, SlotStart(k, peak))];
      }
    }

    /** `w` is one of the sub-slots kept for the peak. */
    predicate KeptForPeak(c: seq<Rec>, w: Slot)
      requires c != [] && k.numSps > 0
    {
      exists i :: 0 <= i < |PeakEntries(k, c)| && PeakEntries(k, c)[i].slot == Some(w)
    }

    /** `w` starts where the last of them ends, and its proof covers the rest from the peak's infusion. */
    predicate FollowsPeak(c: seq<Rec>, w: Slot)
      requires c != [] && k.numSps > 0
    {
      var e, peak := PeakEntries(k, c), c[|c| - 1];
      && w.ccChallenge == HashOf(genesis, e[|e| - 1])
      && proofOk(w, e[|e| - 1].totalIters + peak.ssi - peak.totalIters)
    }

    /** The search among waiting sub-slots stops at `i`: at the first that is kept already or follows. */
    ghost predicate StopsAt(c: seq<Rec>, w: seq<Slot>, i: int)
      requires c != [] && k.numSps > 0
    {
      && 0 <= i <= |w|
      && (forall j :: 0 <= j < i ==> !KeptForPeak(c, w[j]) && !FollowsPeak(c, w[j]))
      && (i < |w| ==> KeptForPeak(c, w[i]) || FollowsPeak(c, w[i]))
    }

    /** The entries once that one is taken in, unless it is kept already. */
    function Taken(c: seq<Rec>, w: seq<Slot>, i: int): seq<Entry>
      requires c != [] && k.numSps > 0 && 0 <= i <= |w|
    {
      var e := PeakEntries(k, c);
      if i < |w| && !KeptForPeak(c, w[i]) then e + [Entry(Some(w[i]), e[|e| - 1].totalIters + c[|c| - 1].ssi)] else e
    }

    method TakeWaiting(c: seq<Rec>, w: seq<Slot>, infusion: nat) returns (ghost i: nat)
      requires Valid() && k.Ok() && c != [] && finished == PeakEntries(k, c)
      requires finished[|finished| - 1].totalIters < c[|c| - 1].totalIters
      requires c[|c| - 1].totalIters <= finished[|finished| - 1].totalIters + c[|c| - 1].ssi
      requires forall s :: s in w ==> s.rcChallenge == infusion
      modifies this
      ensures Valid() && (AllJoined() <==> old(AllJoined())) && futureSlots == old(futureSlots)
      ensures StopsAt(c, w, i) && finished == Taken(c, w, i)
    {
      hide PeakEntries, AllJoined;
      var peak := Peak(c[|c| - 1].totalIters, c[|c| - 1].ssi, infusion);
      for n := 0 to |w|
        invariant Valid() && (AllJoined() <==> old(AllJoined())) && finished == PeakEntries(k, c)
        invariant futureSlots == old(futureSlots)
        invariant forall j :: 0 <= j < n ==> !KeptForPeak(c, w[j]) && !FollowsPeak(c, w[j])
      {
        assert Present(w[n]) <==> KeptForPeak(c, w[n]);
        var r := NewFinishedSubSlot(w[n], Some(peak));
        if !r.Rejected? { return n; }
      }
      return |w|;
    }

    /** A new peak resets the sub-slots, then takes in the first that waited for this infusion and follows
        the peak's sub-slots. */
    method NewPeak(c: seq<Rec>, infusion: nat) returns (ghost i: nat)
      requires Valid() && k.Ok() && c != [] && ValidHeaders(k, c) && ChainLinks(genesis, c)
      modifies this
      ensures Valid() && futureSlots == old(futureSlots) - {infusion}
      ensures StopsAt(c, Waiting(old(futureSlots), infusion), i)
      ensures finished == Taken(c, Waiting(old(futureSlots), infusion), i)
      ensures AllJoined() <==> !RepeatsSlot(k, genesis, c)
    {
      hide Headers.ValidHeaders, ChainLinks, RepeatsSlot, StopsAt, Taken;
      ResetToPeak(c);
      PeakEntriesLink(k, genesis, c);
      PeakEntriesEnd(k, c);
      hide PeakEntries;
      i := TakeWaiting(c, Waiting(futureSlots, infusion), infusion);
      futureSlots := futureSlots - {infusion};
    }

    /** The sub-slots from the last challenge in the chain up to a given one: a result is a chain
        without gaps, and there is none only if no entries after the first lead from one to the other. */
    method GetFinishedSubSlots(c: seq<Rec>, lastChallenge: nat) returns (r: Option<seq<Slot>>)
      requires Valid() && (c == [] ==> finished[0].slot.None?)
      ensures r.Some? ==> GapFree(r.value, ChallengeAfter(genesis, c), lastChallenge)
      ensures r.Some? && r.value != [] ==> exists n :: IsStretch(finished, n, r.value)
      ensures r.None? ==>
        && lastChallenge != ChallengeAfter(genesis, c)
        && forall i, j :: 0 < i <= j < |finished| ==> !Leads(finished, i, j, ChallengeAfter(genesis, c), lastChallenge)
    {
      var start := genesis;
      if c != [] {
        var curr := |c| - 1;
        while !FirstInSlot(c, curr)
          invariant FirstOfSlot(c) <= curr < |c|
          decreases curr
        {
          curr := curr - 1;
        }
        start := LastSlot(genesis, c[curr]).cc;
      }
      if lastChallenge == start { return Some([]); }
      var collected: seq<Slot>, connecting := [], false;
      for n := 1 to |finished|
        invariant !connecting ==> collected == [] && forall i :: 0 < i < n ==> !StartsAt(finished, i, start)
        invariant connecting ==> collected != [] && GapFree(collected, start, collected[|collected| - 1].cc)
        invariant connecting ==> IsStretch(finished, n - |collected|, collected)
        invariant forall i, j :: 0 < i <= j < n ==> !Leads(finished, i, j, start, lastChallenge)
      {
        ghost var was := connecting;
        if n > 1 { assert JoinsAt(genesis, finished, n); }
        var slot := finished[n].slot.value;
        if slot.ccChallenge == start { connecting := true; }
        if connecting {
          ExtendGapFree(collected, start, slot);
          collected := collected + [slot];
          assert IsStretch(finished, n + 1 - |collected|, collected);
        }
        if connecting && slot.cc == lastChallenge { return Some(collected); }
      }
      return None;
    }
  }

  /** `slots` are the sub-slots of the entries from `n` on, the first entry aside. */
  predicate IsStretch(entries: seq<Entry>, n: int, slots: seq<Slot>)
  {
    0 < n && n + |slots| <= |entries| && forall i :: 0 <= i < |slots| ==> entries[n + i].slot == Some(slots[i])
  }

  predicate StartsAt(entries: seq<Entry>, i: int, start: nat)
    requires 0 < i < |entries|
  {
    entries[i].slot.Some? && entries[i].slot.value.ccChallenge == start
  }

  /** Entry `i` starts from `start` and entry `j` ends in `end`. */
  predicate Leads(entries: seq<Entry>, i: int, j: int, start: nat, end: nat)
    requires 0 < i <= j < |entries|
  {
    StartsAt(entries, i, start) && entries[j].slot.Some? && entries[j].slot.value.cc == end
  }

  lemma ExtendGapFree(s: seq<Slot>, start: nat, slot: Slot)
    requires s != [] ==> GapFree(s, start, slot.ccChallenge)
    requires s == [] ==> slot.ccChallenge == start
    ensures GapFree(s + [slot], start, slot.cc)
  {
    forall i | 0 <= i < |s + [slot]| ensures StartsFrom(s + [slot], i, start) {
      if i < |s| { assert StartsFrom(s, i, start); }
    }
  }

  /** Sub-slots handed out for a block pass checks 2a to 2c in it. */
  lemma HandedOutSlotsLink(genesis: nat, c: seq<Rec>, b: Rec, lastChallenge: nat)
    requires GapFree(b.finished, ChallengeAfter(genesis, c), lastChallenge)
    ensures SlotsLink(genesis, c, b)
    ensures c != [] && b.finished != [] ==> ChallengeAfter(genesis, c + [b]) == lastChallenge
  {
    if c != [] && b.finished != [] { FirstOfSlotIs(c + [b], |c| + 1, |c|); assert (c + [b])[..|c| + 1] == c + [b]; }
  }

  // ---- Where the peak's sub-slots lie -------------------------------------------------------------------------

  /** The peak overflowed into the sub-slot of a genesis block that came after a single sub-slot,
      whose hash is not the genesis challenge itself. */
  predicate RepeatsSlot(k: Constants, genesis: nat, c: seq<Rec>)
    requires c != []
  {
    Overflow(k, c[|c| - 1]) && TakesOwnSlot(c) && c[0].finished[0].cc != genesis
  }

  lemma {:induction false} SameSlotBack(k: Constants, c: seq<Rec>, i: nat, j: nat)
    requires k.Ok() && Flows(k, c) && i <= j < |c| && forall x :: i < x <= j ==> c[x].finished == []
    ensures SlotStart(k, c[i]) == SlotStart(k, c[j]) && c[i].ssi == c[j].ssi
    ensures Overflow(k, c[j]) ==> Overflow(k, c[i])
    decreases j
  {
    hide SlotStart, Flows, Overflow;
    if i < j {
      SameSlot(k, c, j);
      SameSlotBack(k, c, i, j - 1);
    }
  }

  lemma SlotsBeforeSomething(k: Constants, c: seq<Rec>, f: nat)
    requires k.Ok() && Base(k, c) && f < |c| && c[f].finished != []
    ensures SlotStart(k, c[f]) > 0
  {
    FlowSized(k, c, 0);
    Arith.MulMono(0, |c[0].finished|, c[0].ssi);
    if f > 0 {
      SlotsTile(k, c, 0, f);
    } else {
      Arith.MulPos(c[0].ssi, |c[0].finished|);
    }
  }

  /** The infusion's sub-slot is the first exactly when no sub-slot was finished. */
  lemma SlotStartOfPeak(k: Constants, c: seq<Rec>)
    requires k.Ok() && Base(k, c) && c != []
    ensures LastFinished(c[FirstOfSlot(c)]).None? <==> SlotStart(k, c[|c| - 1]) == 0
    ensures SlotStart(k, c[|c| - 1]) >= 0
  {
    hide SlotStart, Flows, SpTotal;
    var f := FirstOfSlot(c);
    SameSlotBack(k, c, f, |c| - 1);
    if c[f].finished != [] { SlotsBeforeSomething(k, c, f); }
  }

  /** An overflow block's signage point is in the first sub-slot exactly when there is no sub-slot
      before the infusion's; where the walk passes genesis, it is not. */
  lemma SpSlotOfPeak(k: Constants, c: seq<Rec>)
    requires k.Ok() && Base(k, c) && c != []
    ensures Overflow(k, c[|c| - 1]) && PassesGenesis(c) ==> SpSlotStart(k, c[|c| - 1]) > 0
    ensures Overflow(k, c[|c| - 1]) && SlotBefore(c, FirstOfSlot(c)).None? && c[FirstOfSlot(c)].finished != [] ==>
      SpSlotStart(k, c[|c| - 1]) == 0
  {
    var h, f := |c| - 1, FirstOfSlot(c);
    if Overflow(k, c[h]) && |c[f].finished| == 1 {
      SameSlotBack(k, c, f, h);
      if f > 0 {
        FlowStep(k, c, f);
        assert SpSlotStart(k, c[h]) == SlotStart(k, c[f - 1]);
        PrevOpener(k, c, f);
      }
    }
  }

  lemma PrevOpener(k: Constants, c: seq<Rec>, f: nat)
    requires k.Ok() && Base(k, c) && 0 < f < |c|
    ensures var g := FirstOfSlot(c[..f]);
      && g < f && (c[g].finished != [] ==> SlotStart(k, c[f - 1]) > 0)
      && (c[g].finished == [] ==> SlotStart(k, c[f - 1]) == 0)
  {
    hide SlotStart, SpTotal;
    var g := FirstOfSlot(c[..f]);
    assert forall x :: 0 <= x < f ==> c[..f][x] == c[x];
    SameSlotBack(k, c, g, f - 1);
    if c[g].finished != [] { SlotsBeforeSomething(k, c, g); }
  }

  /** What is kept for a peak: its infusion's sub-slot and, for an overflow block, the one before it,
      but for the two cases next to genesis. */
  function PeakEntries(k: Constants, c: seq<Rec>): seq<Entry>
    requires c != [] && k.numSps > 0
  {
    var f, peak := FirstOfSlot(c), c[|c| - 1];
    var ip := Entry(LastFinished(c[f]), SlotStart(k, peak));
    if ip.slot.None? then [Entry(None, 0)]
    else if !Overflow(k, peak) || PassesGenesis(c) then [ip]
    else [Entry(if TakesOwnSlot(c) then ip.slot else SlotBefore(c, f), SpSlotStart(k, peak)), ip]
  }

  /** The last is the sub-slot now running: it began before the peak's infusion and does not end before it. */
  lemma PeakEntriesEnd(k: Constants, c: seq<Rec>)
    requires k.Ok() && c != [] && ValidHeaders(k, c)
    ensures var e, peak := PeakEntries(k, c), c[|c| - 1];
      e != [] && e[|e| - 1].totalIters == SlotStart(k, peak) < peak.totalIters <= SlotStart(k, peak) + peak.ssi
  {
    ValidBase(k, c);
    SlotStartOfPeak(k, c);
    FlowSized(k, c, |c| - 1);
    InfusedAfterSp(k, c[|c| - 1]);
    hide ValidHeaders, Flows, FirstOfSlot, TakesOwnSlot, PassesGenesis, SlotBefore;
  }

  /** They are linked unless a genesis block after a single sub-slot overflowed from the first one: its
      own sub-slot is then listed twice. */
  lemma PeakEntriesLink(k: Constants, genesis: nat, c: seq<Rec>)
    requires k.Ok() && c != [] && ValidHeaders(k, c) && ChainLinks(genesis, c)
    ensures var e := PeakEntries(k, c);
      && 1 <= |e| <= 2 && (|e| == 2 ==> e[1].slot.Some?)
      && (|e| == 2 ==> (JoinsAt(genesis, e, 1) <==> !RepeatsSlot(k, genesis, c)))
      && (|e| == 1 ==> !RepeatsSlot(k, genesis, c))
  {
    hide ValidHeaders, SlotStart, SpSlotStart, FirstOfSlot;
    var f := FirstOfSlot(c);
    if c[f].finished != [] { SlotBeforeLinks(genesis, c, f); }
  }

  lemma AppendLinks(genesis: nat, entries: seq<Entry>, e: Entry)
    requires entries != [] && Joins(genesis, entries[|entries| - 1], e)
    ensures JoinsAt(genesis, entries + [e], |entries|)
    ensures forall i :: 0 < i < |entries| ==> (JoinsAt(genesis, entries + [e], i) <==> JoinsAt(genesis, entries, i))
  {
  }

  // ---- The two cases happen ---------------------------------------------------------------------------------------

  /** A genesis block after a single sub-slot, overflowing from the first, repeats its own sub-slot. */
  lemma SlotCanRepeat()
    ensures DEFAULT.Ok() && ValidHeaders(DEFAULT, [LATE_GENESIS]) && ChainLinks(0, [LATE_GENESIS])
    ensures RepeatsSlot(DEFAULT, 0, [LATE_GENESIS])
  {
    SecondSlotIsMissed();
    assert [LATE_GENESIS][..0] == [];
    assert FirstOfSlot([LATE_GENESIS]) == 0;
  }

  const SLOT_GENESIS := Rec(7, 0x860_0001, 0, 1, 0x800_0000, 15, Some(1), [Slot(0, 0, 1, 1, 16)], false)
  const SAME_SLOT := Rec(14, 0x9A0_0001, 10, 1, 0x800_0000, 14, Some(2), [], false)
  const NEXT_SLOT := Rec(21, 0x1000_0001, 61, 1, 0x800_0000, 13, Some(3), [Slot(1, 0, 2, 2, 14)], false)

  lemma SlotGenesisIsValid()
    ensures DEFAULT.Ok() && ValidHeaders(DEFAULT, [SLOT_GENESIS])
  {
    DefaultOk();
    hide IsPow2;
    assert [SLOT_GENESIS][..0] == [];
    assert ValidNext(DEFAULT, [], SLOT_GENESIS);
  }

  lemma SameSlotIsValid()
    ensures DEFAULT.Ok() && ValidNext(DEFAULT, [SLOT_GENESIS], SAME_SLOT)
  {
    DefaultOk();
    hide IsPow2, MeasureStart, MeasureEnd, StartsEpoch;
    assert LastTxHeight([SLOT_GENESIS]) == 0 && FirstOfSlot([SLOT_GENESIS]) == 0;
  }

  lemma NextSlotIsValid()
    ensures DEFAULT.Ok() && ValidNext(DEFAULT, [SLOT_GENESIS, SAME_SLOT], NEXT_SLOT)
  {
    DefaultOk();
    hide IsPow2, MeasureStart, MeasureEnd, StartsEpoch;
    assert LastTxHeight([SLOT_GENESIS, SAME_SLOT]) == 1;
  }

  /** An overflow block in the sub-slot after that of a genesis block with sub-slots gets none for its
      signage point when genesis is not its opener's parent. */
  lemma GenesisCanBePassed()
    ensures DEFAULT.Ok() && ValidHeaders(DEFAULT, [SLOT_GENESIS, SAME_SLOT, NEXT_SLOT])
    ensures Overflow(DEFAULT, NEXT_SLOT) && PassesGenesis([SLOT_GENESIS, SAME_SLOT, NEXT_SLOT])
    ensures ChainLinks(0, [SLOT_GENESIS, SAME_SLOT, NEXT_SLOT])
  {
    SlotGenesisIsValid();
    SameSlotIsValid();
    NextSlotIsValid();
    hide ValidNext, IsPow2;
    var c := [SLOT_GENESIS, SAME_SLOT, NEXT_SLOT];
    assert c[..2] == [SLOT_GENESIS, SAME_SLOT] && c[..2][..1] == [SLOT_GENESIS];
    assert ValidHeaders(DEFAULT, c[..2]);
    assert FirstOfSlot(c) == 2;
    assert ChainLinks(0, c) by {
      assert c[..0] == [] && c[..1] == [SLOT_GENESIS] && FirstOfSlot(c[..2]) == 0;
      assert SlotsLink(0, c[..0], c[0]) && SlotsLink(0, c[..1], c[1]) && SlotsLink(0, c[..2], c[2]);
    }
  }
}
