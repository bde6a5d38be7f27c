/** Where sub-epoch summaries fall along a valid chain. */
module SubEpochs {
  import opened Arith
  import opened PotIterations
  import opened Headers
  import opened SignagePoints
  import opened TxBlocks
  import opened Deficits

  lemma SummaryAt(k: Constants, c: seq<Rec>, j: nat)
    requires k.Ok() && ValidHeaders(k, c) && j < |c|
    ensures c[j].summary <==> 0 < j && c[j].finished != [] && CanFinishSubEpoch(k, c[..j])
  {
    HeaderAt(k, c, j);
    hide ValidHeaders, ParamsOk, ItersOk, SlotSizeOk, OverflowOk, TxOk, DeficitOk, CanFinishSubEpoch;
  }

  /** An aligned window holds at most one summary, and the first window none. */
  lemma OneSummaryPerWindow(k: Constants, c: seq<Rec>, j: nat)
    requires k.Ok() && ValidHeaders(k, c) && j < |c| && c[j].summary
    ensures j >= k.subEpochBlocks
    ensures forall i :: WindowStart(k, j) <= i < |c| && i < j ==> !c[i].summary
    ensures !c[j - 1].summary
  {
    SummaryAt(k, c, j);
    hide ValidHeaders, WindowStart;
    forall i | WindowStart(k, j) <= i < j ensures !c[i].summary { assert c[..j][i] == c[i]; }
  }

  /** A block that starts a sub-slot, past the first window, when the deficit is worked off. */
  predicate Candidate(k: Constants, c: seq<Rec>, j: int)
  {
    0 < j < |c| && j >= k.subEpochBlocks && c[j].finished != [] && c[j - 1].deficit == 0
  }

  /** The last height at which the summary of the window starting at `w` can come. */
  function LastSummaryHeight(k: Constants, w: nat): int
  {
    w + 2 * k.maxSlotBlocks + k.minBlocks - 2
  }

  ghost predicate SummaryIn(c: seq<Rec>, a: nat, b: int)
  {
    exists x :: a <= x <= b && x < |c| && c[x].summary
  }

  lemma InWindow(k: Constants, w: nat, x: nat)
    requires k.Ok() && w % k.subEpochBlocks == 0 && w <= x < w + k.subEpochBlocks
    ensures WindowStart(k, x) == w
  {
    var m := k.subEpochBlocks;
    DivExact(w, m);
    DivModIs(x, m, w / m, x - w);
  }

  lemma PrevWindow(k: Constants, w: nat)
    requires k.Ok() && w % k.subEpochBlocks == 0 && w > 0
    ensures w >= k.subEpochBlocks && (w - k.subEpochBlocks) % k.subEpochBlocks == 0
  {
    var m := k.subEpochBlocks;
    DivExact(w, m);
    MulDiff(m, w / m, 1);
    MulMono(1, w / m, m);
    ModMultiple(w / m - 1, m);
  }

  /** A sub-slot that starts when the deficit is 0 comes with a summary, if its window has none. */
  lemma SlotBringsSummary(k: Constants, c: seq<Rec>, w: nat, x: nat)
    requires k.Ok() && ValidHeaders(k, c) && w % k.subEpochBlocks == 0 && w > 0
    requires w <= x < w + k.subEpochBlocks && x < |c|
    requires c[x].finished != [] && c[x - 1].deficit == 0
    requires forall i :: w - 1 <= i < x ==> !c[i].summary
    ensures c[x].summary
  {
    SummaryAt(k, c, x);
    InWindow(k, w, x);
    PrevWindow(k, w);
    hide ValidHeaders;
    forall j | WindowStart(k, x) <= j < x ensures !c[..x][j].summary { assert c[..x][j] == c[j]; }
  }

  /** A deficit of 0 stays until the next sub-slot. */
  lemma {:induction false} ZeroUntilSlot(k: Constants, c: seq<Rec>, j: nat, b: nat) returns (x: nat)
    requires k.Ok() && ValidHeaders(k, c) && SlotEndsIn(c, j, b) && j < |c| && c[j].deficit == 0
    ensures j < x <= b && x < |c| && c[x].finished != [] && c[x - 1].deficit == 0
    decreases |c| - j
  {
    hide ValidHeaders;
    if c[j + 1].finished != [] {
      x := j + 1;
    } else {
      DeficitAt(k, c, j + 1);
      x := ZeroUntilSlot(k, c, j + 1, b);
    }
  }

  lemma SlotIn(c: seq<Rec>, a: nat, b: nat) returns (x: nat)
    requires SlotEndsIn(c, a, b)
    ensures a < x <= b && x < |c| && c[x].finished != []
  {
    x :| 0 < x < |c| && a < x <= b && c[x].finished != [];
  }

  /** A new sub-slot takes one off any positive deficit. */
  lemma SlotLowersDeficit(k: Constants, c: seq<Rec>, j: nat)
    requires k.Ok() && ValidHeaders(k, c) && 0 < j < |c| && c[j].finished != [] && c[j - 1].deficit > 0
    ensures c[j].deficit < k.minBlocks
  {
    DeficitRange(k, c, j - 1);
    DeficitAt(k, c, j);
  }

  /** The deficit is worked off, and then the next sub-slot comes. */
  lemma WorkedOff(k: Constants, c: seq<Rec>, j: nat) returns (x: nat)
    requires k.Ok() && ValidHeaders(k, c) && j + k.minBlocks - 1 + k.maxSlotBlocks < |c|
    requires c[j].deficit < k.minBlocks
    ensures j < x <= j + k.minBlocks - 1 + k.maxSlotBlocks && c[x].finished != [] && c[x - 1].deficit == 0
  {
    hide ValidHeaders, SlotEndsIn;
    var d := c[j].deficit;
    DeficitFalls(k, c, j, d);
    SlotEndsWithin(k, c, j + d);
    x := ZeroUntilSlot(k, c, j + d, j + d + k.maxSlotBlocks);
  }

  /** From the first sub-slot in a window on, the deficit is worked off and the next sub-slot comes,
      before the window's last summary height. */
  lemma SlotAtZero(k: Constants, c: seq<Rec>, w: nat) returns (x: nat)
    requires k.Ok() && ValidHeaders(k, c) && w > 0 && LastSummaryHeight(k, w) < |c|
    ensures w <= x <= LastSummaryHeight(k, w) && c[x].finished != [] && c[x - 1].deficit == 0
  {
    hide ValidHeaders, SlotEndsIn;
    SlotEndsWithin(k, c, w - 1);
    x := SlotIn(c, w - 1, w - 1 + k.maxSlotBlocks);
    if c[x - 1].deficit > 0 {
      SlotLowersDeficit(k, c, x);
      x := WorkedOff(k, c, x);
    }
  }

  /** Every later window gets its summary within `2 * maxSlotBlocks + minBlocks - 2` blocks of its
      start. */
  lemma {:induction false} SummaryIsForced(k: Constants, c: seq<Rec>, w: nat)
    requires k.Ok() && ValidHeaders(k, c) && w % k.subEpochBlocks == 0 && w > 0
    requires LastSummaryHeight(k, w) < |c|
    ensures SummaryIn(c, w, LastSummaryHeight(k, w))
    decreases w, 1
  {
    hide ValidHeaders;
    var x := SlotAtZero(k, c, w);
    NoSummaryAtWindowEnd(k, c, w);
    if forall i :: w <= i < x ==> !c[i].summary {
      SlotBringsSummary(k, c, w, x);
    }
  }

  lemma {:induction false} NoSummaryAtWindowEnd(k: Constants, c: seq<Rec>, w: nat)
    requires k.Ok() && ValidHeaders(k, c) && w % k.subEpochBlocks == 0 && 0 < w <= |c|
    ensures !c[w - 1].summary
    decreases w, 0
  {
    hide ValidHeaders;
    PrevWindow(k, w);
    if c[w - 1].summary {
      OneSummaryPerWindow(k, c, w - 1);
      var v := w - k.subEpochBlocks;
      InWindow(k, v, w - 1);
      SummaryIsForced(k, c, v);
    }
  }

  lemma SummaryIsCandidate(k: Constants, c: seq<Rec>, j: nat)
    requires k.Ok() && ValidHeaders(k, c) && j < |c| && c[j].summary
    ensures Candidate(k, c, j)
  {
    SummaryAt(k, c, j);
    hide ValidHeaders;
    assert c[..j][j - 1] == c[j - 1];
  }

  /** Summaries fall exactly on the first candidate of each window. */
  lemma {:induction false} SummaryIff(k: Constants, c: seq<Rec>, j: nat)
    requires k.Ok() && ValidHeaders(k, c) && j < |c|
    ensures c[j].summary <==>
            Candidate(k, c, j) && forall i :: WindowStart(k, j) <= i < j ==> !Candidate(k, c, i)
  {
    if c[j].summary {
      SummaryIsCandidate(k, c, j);
      OneSummaryPerWindow(k, c, j);
      hide ValidHeaders;
      forall i | WindowStart(k, j) <= i < j ensures !Candidate(k, c, i) {
        if Candidate(k, c, i) { EarlierCandidate(k, c, i, j); }
      }
    } else if Candidate(k, c, j) && forall i :: WindowStart(k, j) <= i < j ==> !Candidate(k, c, i) {
      hide ValidHeaders;
      var w := WindowStart(k, j);
      AlignedStart(k, j);
      forall i | w <= i < j ensures !c[i].summary {
        if c[i].summary { SummaryIsCandidate(k, c, i); }
      }
      NoSummaryAtWindowEnd(k, c, w);
      SlotBringsSummary(k, c, w, j);
    }
  }

  lemma AlignedStart(k: Constants, j: nat)
    requires k.Ok() && j >= k.subEpochBlocks
    ensures WindowStart(k, j) % k.subEpochBlocks == 0 && WindowStart(k, j) > 0
  {
    var m := k.subEpochBlocks;
    DivMod(j, m);
    ModMultiple(j / m, m);
  }

  /** A candidate before `j` in its window brought the summary, or came after it. */
  lemma {:induction false} EarlierCandidate(k: Constants, c: seq<Rec>, i: nat, j: nat)
    requires k.Ok() && ValidHeaders(k, c) && i < j < |c| && Candidate(k, c, i) && WindowStart(k, j) <= i
    ensures exists x :: WindowStart(k, j) <= x < j && c[x].summary
  {
    var w := WindowStart(k, j);
    AlignedStart(k, j);
    NoSummaryAtWindowEnd(k, c, w);
    hide ValidHeaders;
    if forall x :: w <= x < i ==> !c[x].summary { SlotBringsSummary(k, c, w, i); }
  }
}
