/** The assembly step of concatenate_dats: the epoch-sorted series are joined
    into one, each gap between two series is filled with the overall mean, and
    the result is padded with the mean up to the length choose_good_N picks.
    The float time arithmetic stays outside: for each boundary the model is
    given whether the earlier series runs past the start of the next one, and
    the fill count int(gap seconds / dt). */
module Concatenate {
  import opened Wrappers
  import opened GoodLength

  /** One input series: its samples and the bin width of its .inf file. */
  datatype Segment = Segment(samples: seq<real>, dt: real)

  /** The boundary between series i and i + 1. */
  datatype Gap = Gap(overlaps: bool, fillPoints: int)

  /** The two ValueErrors the assembly raises. */
  datatype AssemblyError = InconsistentBinWidths | Overlap(index: nat)

  /** There is one gap per pair of neighbouring series. */
  predicate GapsFit(segs: seq<Segment>, gaps: seq<Gap>) {
    |gaps| == if |segs| == 0 then 0 else |segs| - 1
  }

  /** len(set(dt_values)) == 1: at least one series, all with one bin width. */
  predicate SameBinWidth(segs: seq<Segment>) {
    |segs| > 0 && forall i :: 0 <= i < |segs| ==> segs[i].dt == segs[0].dt
  }

  /** np.full(n, v) when n > 0, and nothing otherwise. */
  function Fill(n: int, v: real): (r: seq<real>)
    ensures |r| == if n > 0 then n else 0
    ensures forall j :: 0 <= j < |r| ==> r[j] == v
  {
    if n > 0 then seq(n, _ => v) else []
  }

  /** The first overlapping boundary at or after k, or -1. */
  function FirstOverlap(gaps: seq<Gap>, k: nat): (i: int)
    requires k <= |gaps|
    ensures i == -1 || k <= i < |gaps|
    ensures i == -1 ==> forall j :: k <= j < |gaps| ==> !gaps[j].overlaps
    ensures i >= 0 ==> gaps[i].overlaps && forall j :: k <= j < i ==> !gaps[j].overlaps
    decreases |gaps| - k
  {
    if k == |gaps| then -1
    else if gaps[k].overlaps then k
    else FirstOverlap(gaps, k + 1)
  }

  /** The first n series with their gaps filled: what final_data holds after
      the loop has handled boundary n - 2. */
  function Assembled(segs: seq<Segment>, gaps: seq<Gap>, mean: real, n: nat): seq<real>
    requires GapsFit(segs, gaps) && 1 <= n <= |segs|
  {
    if n == 1 then segs[0].samples
    else Assembled(segs, gaps, mean, n - 1) + Fill(gaps[n - 2].fillPoints, mean) + segs[n - 1].samples
  }

  /** Where series k starts in the assembled output. */
  function Offset(segs: seq<Segment>, gaps: seq<Gap>, k: nat): nat
    requires GapsFit(segs, gaps) && k < |segs|
  {
    if k == 0 then 0
    else Offset(segs, gaps, k - 1) + |segs[k - 1].samples| + |Fill(gaps[k - 1].fillPoints, 0.0)|
  }

  /** The final padding: the mean appended up to target, when target is larger. */
  function Padded(data: seq<real>, target: int, mean: real): seq<real> {
    if target > |data| then data + Fill(target - |data|, mean) else data
  }

  /** The length choose_good_N returns for n. */
  ghost predicate GoodTarget(n: int, target: int) {
    (n <= 0 ==> target == 0) && (n > 0 ==> LeastGoodAtLeast(n, target))
  }

  /** An Ok result: the assembled series padded to the good length of expected. */
  ghost predicate PaddedToGood(data: seq<real>, out: seq<real>, expected: int, mean: real) {
    exists target :: GoodTarget(expected, target) && out == Padded(data, target, mean)
  }

  /** concatenate_dats from the bin-width test to the padding. final_data
      grows by appending, as np.append does. */
  method Assemble(segs: seq<Segment>, gaps: seq<Gap>, mean: real, expected: int)
    returns (r: Result<seq<real>, AssemblyError>)
    requires GapsFit(segs, gaps)
    ensures !SameBinWidth(segs) ==> r == Err(InconsistentBinWidths)
    ensures SameBinWidth(segs) && FirstOverlap(gaps, 0) >= 0 ==> r == Err(Overlap(FirstOverlap(gaps, 0)))
    ensures SameBinWidth(segs) && FirstOverlap(gaps, 0) == -1 ==>
      r.Ok? && PaddedToGood(Assembled(segs, gaps, mean, |segs|), r.value, expected, mean)
  {
    var same := |segs| > 0;
    var j := 0;
    while j < |segs|
      invariant 0 <= j <= |segs|
      invariant same <==> |segs| > 0 && forall m :: 0 <= m < j ==> segs[m].dt == segs[0].dt
    {
      if segs[j].dt != segs[0].dt {
        same := false;
      }
      j := j + 1;
    }
    if !same {
      return Err(InconsistentBinWidths);
    }
    var out := segs[0].samples;
    var i := 0;
    while i < |segs| - 1
      invariant 0 <= i <= |segs| - 1
      invariant FirstOverlap(gaps, 0) == FirstOverlap(gaps, i)
      invariant out == Assembled(segs, gaps, mean, i + 1)
    {
      if gaps[i].overlaps {
        return Err(Overlap(i));
      }
      if gaps[i].fillPoints > 0 {
        out := out + Fill(gaps[i].fillPoints, mean);
      }
      out := out + segs[i + 1].samples;
      i := i + 1;
    }
    var optimal := ChooseGoodN(expected);
    assert GoodTarget(expected, optimal);
    if optimal > |out| {
      out := out + Fill(optimal - |out|, mean);
    }
    return Ok(out);
  }

  /** The output only grows: the first m series' assembly is a prefix of the
      first n series' one. */
  lemma {:induction false} AssembledPrefix(segs: seq<Segment>, gaps: seq<Gap>, mean: real, m: nat, n: nat)
    requires GapsFit(segs, gaps) && 1 <= m <= n <= |segs|
    ensures |Assembled(segs, gaps, mean, m)| <= |Assembled(segs, gaps, mean, n)|
    ensures forall j :: 0 <= j < |Assembled(segs, gaps, mean, m)| ==>
      Assembled(segs, gaps, mean, n)[j] == Assembled(segs, gaps, mean, m)[j]
    decreases n
  {
    if m < n {
      AssembledPrefix(segs, gaps, mean, m, n - 1);
    }
  }

  /** The first n series end where the last of them starts plus its length. */
  lemma {:induction false} AssembledLength(segs: seq<Segment>, gaps: seq<Gap>, mean: real, n: nat)
    requires GapsFit(segs, gaps) && 1 <= n <= |segs|
    ensures |Assembled(segs, gaps, mean, n)| == Offset(segs, gaps, n - 1) + |segs[n - 1].samples|
    decreases n
  {
    if n > 1 {
      AssembledLength(segs, gaps, mean, n - 1);
      assert |Fill(gaps[n - 2].fillPoints, mean)| == |Fill(gaps[n - 2].fillPoints, 0.0)|;
    }
  }

  /** The first k + 1 series: the first k, the gap after series k - 1, then
      series k, starting at its offset. */
  lemma {:induction false} AssembledStep(segs: seq<Segment>, gaps: seq<Gap>, mean: real, k: nat)
    requires GapsFit(segs, gaps) && 1 <= k < |segs|
    ensures var before := Assembled(segs, gaps, mean, k) + Fill(gaps[k - 1].fillPoints, mean);
      && Assembled(segs, gaps, mean, k + 1) == before + segs[k].samples
      && |before| == Offset(segs, gaps, k)
      && |Assembled(segs, gaps, mean, k)| == Offset(segs, gaps, k - 1) + |segs[k - 1].samples|
  {
    AssembledLength(segs, gaps, mean, k);
    assert |Fill(gaps[k - 1].fillPoints, mean)| == |Fill(gaps[k - 1].fillPoints, 0.0)|;
  }

  /** Each series lies whole in the assembled output, at its offset. */
  lemma {:induction false} SegmentPlacement(segs: seq<Segment>, gaps: seq<Gap>, mean: real, n: nat, k: nat)
    requires GapsFit(segs, gaps) && 1 <= n <= |segs| && k < n
    decreases n
    ensures Offset(segs, gaps, k) + |segs[k].samples| <= |Assembled(segs, gaps, mean, n)|
    ensures Assembled(segs, gaps, mean, n)[Offset(segs, gaps, k)..Offset(segs, gaps, k) + |segs[k].samples|]
      == segs[k].samples
  {
    if n == k + 1 {
      SegmentAtEnd(segs, gaps, mean, k);
    } else {
      SegmentPlacement(segs, gaps, mean, n - 1, k);
      AssemblyKeepsSlice(segs, gaps, mean, n, Offset(segs, gaps, k), Offset(segs, gaps, k) + |segs[k].samples|);
    }
  }

  /** Adding series n - 1 leaves any slice of the earlier output unchanged. */
  lemma AssemblyKeepsSlice(segs: seq<Segment>, gaps: seq<Gap>, mean: real, n: nat, lo: int, hi: int)
    requires GapsFit(segs, gaps) && 2 <= n <= |segs|
    requires 0 <= lo <= hi <= |Assembled(segs, gaps, mean, n - 1)|
    ensures hi <= |Assembled(segs, gaps, mean, n)|
    ensures Assembled(segs, gaps, mean, n)[lo..hi] == Assembled(segs, gaps, mean, n - 1)[lo..hi]
  {
    var prev := Assembled(segs, gaps, mean, n - 1);
    var tail := Fill(gaps[n - 2].fillPoints, mean) + segs[n - 1].samples;
    assert Assembled(segs, gaps, mean, n) == prev + tail;
    SliceOfPrefix(prev, tail, lo, hi);
  }

  /** A slice that lies inside x is the same slice of x + y. */
  lemma SliceOfPrefix(x: seq<real>, y: seq<real>, lo: int, hi: int)
    requires 0 <= lo <= hi <= |x|
    ensures (x + y)[lo..hi] == x[lo..hi]
  {
  }

  /** Series k closes the assembly of the first k + 1 series. */
  lemma {:induction false} SegmentAtEnd(segs: seq<Segment>, gaps: seq<Gap>, mean: real, k: nat)
    requires GapsFit(segs, gaps) && k < |segs|
    ensures Offset(segs, gaps, k) + |segs[k].samples| == |Assembled(segs, gaps, mean, k + 1)|
    ensures Assembled(segs, gaps, mean, k + 1)[Offset(segs, gaps, k)..Offset(segs, gaps, k) + |segs[k].samples|]
      == segs[k].samples
  {
    AssembledLength(segs, gaps, mean, k + 1);
    if k > 0 {
      AssembledStep(segs, gaps, mean, k);
    }
  }

  /** Between the end of series k and the start of series k + 1 every sample is
      the mean, as many as the positive fill count asks. */
  lemma {:induction false} GapPlacement(segs: seq<Segment>, gaps: seq<Gap>, mean: real, n: nat, k: nat)
    requires GapsFit(segs, gaps) && 1 <= n <= |segs| && k + 1 < n
    ensures Offset(segs, gaps, k + 1) - Offset(segs, gaps, k) - |segs[k].samples|
      == (if gaps[k].fillPoints > 0 then gaps[k].fillPoints else 0)
    ensures Offset(segs, gaps, k + 1) <= |Assembled(segs, gaps, mean, n)|
    ensures forall j :: Offset(segs, gaps, k) + |segs[k].samples| <= j < Offset(segs, gaps, k + 1) ==>
      Assembled(segs, gaps, mean, n)[j] == mean
  {
    AssembledStep(segs, gaps, mean, k + 1);
    AssembledPrefix(segs, gaps, mean, k + 2, n);
  }

  /** Padding only appends the mean and reaches the target when it is larger. */
  lemma PaddingOnlyAppends(data: seq<real>, target: int, mean: real)
    ensures var out := Padded(data, target, mean);
      && |out| == (if target > |data| then target else |data|)
      && out[..|data|] == data
      && forall j :: |data| <= j < |out| ==> out[j] == mean
  {
  }
}
