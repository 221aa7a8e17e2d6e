/** Rate segments: what they release ledger by ledger, and the two loops that add it up. */
module Segments {
  import opened Wrappers
  import opened Machine

  datatype Segment = Segment(end: U32, rate: I128)

  predicate Ascending(segs: seq<Segment>) {
    forall i, j :: 0 <= i < j < |segs| ==> segs[i].end < segs[j].end
  }

  predicate PositiveRates(segs: seq<Segment>) {
    forall i :: 0 <= i < |segs| ==> segs[i].rate > 0
  }

  /** The rate at one ledger: that of the first segment which ends after it. */
  function RateAt(segs: seq<Segment>, l: int): int {
    if segs == [] then 0
    else if l < segs[0].end then segs[0].rate
    else RateAt(segs[1..], l)
  }

  /** What is released from ledger `from` up to, not including, ledger `until`. */
  function Released(segs: seq<Segment>, from: int, until: int): int
    decreases until - from
  {
    if from >= until then 0 else Released(segs, from, until - 1) + RateAt(segs, until - 1)
  }

  lemma {:induction false} ReleasedSplit(segs: seq<Segment>, from: int, mid: int, until: int)
    requires from <= mid <= until
    ensures Released(segs, from, until) == Released(segs, from, mid) + Released(segs, mid, until)
    decreases until - mid
  {
    if mid < until { ReleasedSplit(segs, from, mid, until - 1); }
  }

  lemma {:induction false} RateIsPositive(segs: seq<Segment>, l: int)
    requires PositiveRates(segs)
    ensures RateAt(segs, l) >= 0
    ensures segs != [] && l < Last(segs).end ==> RateAt(segs, l) > 0
  {
    if segs != [] && l >= segs[0].end { RateIsPositive(segs[1..], l); }
  }

  lemma {:induction false} ReleasedSigns(segs: seq<Segment>, from: int, until: int)
    requires PositiveRates(segs)
    ensures Released(segs, from, until) >= 0
    ensures segs != [] && from < until && from < Last(segs).end ==> Released(segs, from, until) > 0
    decreases until - from
  {
    if from < until {
      RateIsPositive(segs, until - 1);
      ReleasedSigns(segs, from, until - 1);
    }
  }

  /** Releasing over a longer span releases no less. */
  lemma ReleasedMonotone(segs: seq<Segment>, from: int, a: int, b: int, until: int)
    requires PositiveRates(segs) && from <= a <= b <= until
    ensures Released(segs, a, b) <= Released(segs, from, until)
  {
    ReleasedSplit(segs, from, a, until);
    ReleasedSplit(segs, a, b, until);
    ReleasedSigns(segs, from, a);
    ReleasedSigns(segs, b, until);
  }

  lemma {:induction false} RateInSegment(segs: seq<Segment>, i: nat, l: int)
    requires i < |segs| && l < segs[i].end
    requires forall j :: 0 <= j < i ==> segs[j].end <= l
    ensures RateAt(segs, l) == segs[i].rate
  {
    if i > 0 {
      assert segs[0].end <= l;
      RateInSegment(segs[1..], i - 1, l);
    }
  }

  lemma {:induction false} RatePastEnd(segs: seq<Segment>, l: int)
    requires forall j :: 0 <= j < |segs| ==> segs[j].end <= l
    ensures RateAt(segs, l) == 0
  {
    if segs != [] {
      assert segs[0].end <= l;
      RatePastEnd(segs[1..], l);
    }
  }

  /** Inside one segment the release is the rate times the number of ledgers. */
  lemma {:induction false} ReleasedInSegment(segs: seq<Segment>, i: nat, a: int, b: int)
    requires i < |segs| && a <= b <= segs[i].end
    requires forall j :: 0 <= j < i ==> segs[j].end <= a
    ensures Released(segs, a, b) == segs[i].rate * (b - a)
    decreases b - a
  {
    if a < b {
      RateInSegment(segs, i, b - 1);
      ReleasedInSegment(segs, i, a, b - 1);
      MulAdd(segs[i].rate, b - 1 - a, 1);
    }
  }

  lemma {:induction false} ReleasedPastEnd(segs: seq<Segment>, a: int, b: int)
    requires forall j :: 0 <= j < |segs| ==> segs[j].end <= a
    ensures Released(segs, a, b) == 0
    decreases b - a
  {
    if a < b {
      RatePastEnd(segs, b - 1);
      ReleasedPastEnd(segs, a, b - 1);
    }
  }

  /** How far a walk over the first `i` segments has got: no further than `until`. */
  function Reached(segs: seq<Segment>, i: nat, from: int, until: int): int
    requires i <= |segs|
  {
    if i == 0 then Min(from, until) else Min(Max(from, segs[i - 1].end), until)
  }

  /** One more segment moves the walk from `Reached(i)` to `Reached(i + 1)`. */
  lemma WalkOneSegment(segs: seq<Segment>, i: nat, from: int, until: int)
    requires Ascending(segs) && i < |segs|
    ensures var (a, b) := (Reached(segs, i, from, until), Reached(segs, i + 1, from, until));
            && a <= b
            && Released(segs, from, b) == Released(segs, from, a) + segs[i].rate * (b - a)
  {
    var (a, b) := (Reached(segs, i, from, until), Reached(segs, i + 1, from, until));
    if from <= until {
      assert i > 0 ==> segs[i - 1].end < segs[i].end;
      ReleasedSplit(segs, from, a, b);
      if a < b {
        ReleasedInSegment(segs, i, a, b);
      }
    }
  }

  /** Once a segment reaches `until`, or the segments run out, everything has been counted. */
  lemma WalkDone(segs: seq<Segment>, i: nat, from: int, until: int)
    requires Ascending(segs) && i <= |segs|
    requires i == |segs| || (i > 0 && segs[i - 1].end >= until)
    ensures Released(segs, from, until) == Released(segs, from, Reached(segs, i, from, until))
  {
    var a := Reached(segs, i, from, until);
    if from < until && a < until {
      ReleasedSplit(segs, from, a, until);
      ReleasedPastEnd(segs, a, until);
    }
  }

  /** The product and the partial sum of one step are at most the whole release. */
  lemma StepFits(segs: seq<Segment>, i: nat, from: int, until: int)
    requires Ascending(segs) && PositiveRates(segs) && i < |segs|
    ensures var (a, b) := (Reached(segs, i, from, until), Reached(segs, i + 1, from, until));
            && 0 <= Released(segs, from, a) <= Released(segs, from, b) <= Released(segs, from, until)
            && 0 <= segs[i].rate * (b - a) <= Released(segs, from, until)
            && Released(segs, from, b) == Released(segs, from, a) + segs[i].rate * (b - a)
  {
    var (a, b) := (Reached(segs, i, from, until), Reached(segs, i + 1, from, until));
    WalkOneSegment(segs, i, from, until);
    ReleasedSigns(segs, from, a);
    MulMono(segs[i].rate, 0, b - a);
    if from <= until { ReleasedMonotone(segs, from, from, b, until); }
  }

  /** Where segment `i` overlaps the span `[from, until)`, the walk moves over the overlap. */
  lemma Overlap(segs: seq<Segment>, i: nat, from: int, until: int, segStart: int)
    requires Ascending(segs) && i < |segs|
    requires Max(from, segStart) == if i == 0 then from else Max(from, segs[i - 1].end)
    ensures var (x, y) := (Max(from, segStart), Min(until, segs[i].end));
            var (a, b) := (Reached(segs, i, from, until), Reached(segs, i + 1, from, until));
            if y > x then x == a && y == b else a == b
  {
    assert i > 0 ==> segs[i - 1].end < segs[i].end;
  }

  lemma SaturatingSum(a: int, part: int)
    requires 0 <= a && 0 <= part
    ensures SaturatingI128(Min(a, I128_MAX) + SaturatingI128(part)) == Min(a + part, I128_MAX)
  {}

  // ----- the two loops -----

  /** What the two loops return: the ledger-by-ledger release, from the start at the earliest and only if
      it fits, or from `from` and capped. */
  function CheckedWalk(segs: seq<Segment>, from: U32, until: U32, start: U32): Option<I128> {
    Checked(Released(segs, Max(from, start), until))
  }

  function SaturatingWalk(segs: seq<Segment>, from: U32, until: U32): int {
    Min(Released(segs, from, until), I128_MAX)
  }

  /** The walk with plain arithmetic, which never counts a ledger before the start. It aborts on
      overflow, that is exactly when the release itself does not fit. */
  method ComputeChecked(segs: seq<Segment>, from: U32, until: U32, start: U32) returns (r: Option<I128>)
    requires Ascending(segs) && PositiveRates(segs)
    requires start <= from || segs == [] || start < segs[0].end
    ensures r == CheckedWalk(segs, from, until, start)
  {
    ghost var first := Max(from, start);
    var total: I128 := 0;
    var segStart: U32 := start;
    var i := 0;
    while i < |segs|
      invariant 0 <= i <= |segs|
      invariant segStart == if i == 0 then start else segs[i - 1].end
      invariant total == Released(segs, first, Reached(segs, i, first, until))
    {
      StepFits(segs, i, first, until);
      assert i > 0 ==> segs[0].end <= segs[i - 1].end;
      Overlap(segs, i, first, until, segStart);
      var overlapStart: U32 := Max(from, segStart);
      var overlapEnd: U32 := Min(until, segs[i].end);
      if overlapEnd > overlapStart {
        var part := Checked(segs[i].rate * (overlapEnd - overlapStart));
        if part.None? { return None; }
        var sum := Checked(total + part.value);
        if sum.None? { return None; }
        total := sum.value;
      }
      segStart := segs[i].end;
      i := i + 1;
      if segStart >= until { break; }
    }
    WalkDone(segs, i, first, until);
    return Some(total);
  }

  /** The walk with saturating arithmetic, which is told the start but does not look at it. */
  method ComputeSaturating(segs: seq<Segment>, from: U32, until: U32, start: U32) returns (r: I128)
    requires Ascending(segs) && PositiveRates(segs)
    ensures r == SaturatingWalk(segs, from, until)
  {
    var claimable: I128 := 0;
    var prevEnd: U32 := from;
    var i := 0;
    while i < |segs|
      invariant 0 <= i <= |segs|
      invariant prevEnd == if i == 0 then from else segs[i - 1].end
      invariant claimable == Min(Released(segs, from, Reached(segs, i, from, until)), I128_MAX)
    {
      StepFits(segs, i, from, until);
      Overlap(segs, i, from, until, prevEnd);
      var seg := segs[i];
      if seg.end <= from {
        prevEnd := seg.end;
        i := i + 1;
        continue;
      }
      var segStart: U32 := Max(prevEnd, from);
      var segEnd: U32 := Min(seg.end, until);
      if segEnd > segStart {
        SaturatingSum(Released(segs, from, Reached(segs, i, from, until)), seg.rate * (segEnd - segStart));
        claimable := SaturatingI128(claimable + SaturatingI128(seg.rate * (segEnd - segStart)));
      }
      prevEnd := seg.end;
      i := i + 1;
      if seg.end >= until { break; }
    }
    WalkDone(segs, i, from, until);
    return claimable;
  }

  /** So the two loops return the same exactly when there are no segments; or, on a span that does not begin
      before the start or is empty, the release fits; or, on one that does, where only the second loop
      counts the ledgers before the start, the release after the start is already the largest i128. */
  lemma WalksAgree(segs: seq<Segment>, from: U32, until: U32, start: U32)
    requires Ascending(segs) && PositiveRates(segs)
    requires start <= from || segs == [] || start < segs[0].end
    ensures CheckedWalk(segs, from, until, start) == Some(SaturatingWalk(segs, from, until))
       <==> segs == []
            || if start <= from || until <= from then Released(segs, from, until) <= I128_MAX
               else Released(segs, start, until) == I128_MAX
  {
    if segs == [] {
      ReleasedPastEnd(segs, from, until);
      ReleasedPastEnd(segs, Max(from, start), until);
      return;
    }
    ReleasedSigns(segs, from, until);
    ReleasedSigns(segs, Max(from, start), until);
    if from < start && from < until {
      assert segs[0].end <= Last(segs).end;
      ReleasedSplit(segs, from, Min(start, until), until);
      ReleasedSigns(segs, from, Min(start, until));
      ReleasedSigns(segs, start, until);
    }
  }

  /** On a span from the start, overflow alone parts them: one aborts, the other saturates. */
  lemma WalksPartOnOverflow()
    ensures var segs := [Segment(3, I128_MAX)];
            CheckedWalk(segs, 0, 2, 0) == None && SaturatingWalk(segs, 0, 2) == I128_MAX
  {
    ReleasedInSegment([Segment(3, I128_MAX)], 0, 0, 2);
  }

  /** On a span that begins before the start they part in general, and meet at the largest i128. */
  lemma WalksBeforeStart()
    ensures CheckedWalk([Segment(10, 3)], 2, 8, 5) == Some(9) && SaturatingWalk([Segment(10, 3)], 2, 8) == 18
    ensures var segs := [Segment(2, I128_MAX)];
            CheckedWalk(segs, 0, 2, 1) == Some(I128_MAX) && SaturatingWalk(segs, 0, 2) == I128_MAX
  {
    ReleasedInSegment([Segment(10, 3)], 0, 5, 8);
    ReleasedInSegment([Segment(10, 3)], 0, 2, 8);
    ReleasedInSegment([Segment(2, I128_MAX)], 0, 1, 2);
    ReleasedInSegment([Segment(2, I128_MAX)], 0, 0, 2);
  }
}
