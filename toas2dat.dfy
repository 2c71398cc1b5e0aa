/**
 * toas2dat: turns a list of times of arrival (TOAs) into a binned time
 * series.  The TOAs are sorted in place, rewritten in place as offsets from
 * an epoch, and then dropped one by one into a zeroed block buffer of
 * WorkLen bins that is written out block after block.
 *
 * Doubles are modelled as exact reals, so the rounding of the C arithmetic
 * (and the float cast of the output buffer) is abstracted away.
 */
module Toas2Dat {
  import opened Wrappers

  /** Bins in one output block. */
  const WorkLen: nat := 65536
  /** Seconds in a day. */
  const SecPerDay: nat := 86400

  // ---------------------------------------------------------------------
  // The qsort comparator and the in-place sort
  // ---------------------------------------------------------------------

  /** The qsort comparator: 1, 0 or -1 as `a` is greater, equal or less. */
  function CompareDoubles(a: real, b: real): (r: int)
    ensures r == 1 <==> a > b
    ensures r == 0 <==> a == b
    ensures r == -1 <==> a < b
  {
    (if a > b then 1 else 0) - (if a < b then 1 else 0)
  }

  /** The comparator is antisymmetric and transitive, so it is a total order. */
  lemma CompareIsTotalOrder(a: real, b: real, c: real)
    ensures CompareDoubles(a, b) == -CompareDoubles(b, a)
    ensures CompareDoubles(a, b) <= 0 && CompareDoubles(b, c) <= 0 ==> CompareDoubles(a, c) <= 0
  {
  }

  ghost predicate Ascending(s: seq<real>)
  {
    forall i, j :: 0 <= i < j < |s| ==> s[i] <= s[j]
  }

  /**
   * Sorts the TOAs in place in the order of the comparator, as the qsort
   * call does; the algorithm behind qsort is not the program's own, so an
   * insertion sort of adjacent swaps stands in for it.
   */
  method SortToas(a: array<real>)
    modifies a
    ensures Ascending(a[..])
    ensures multiset(a[..]) == multiset(old(a[..]))
  {
    var i := 0;
    while i < a.Length
      invariant 0 <= i <= a.Length
      invariant Ascending(a[..i])
      invariant multiset(a[..]) == multiset(old(a[..]))
    {
      InsertLast(a, i);
      i := i + 1;
    }
    assert a[..a.Length] == a[..];
  }

  /** Moves a[i] down past every greater entry of the ascending a[..i]. */
  method InsertLast(a: array<real>, i: nat)
    requires i < a.Length
    requires Ascending(a[..i])
    modifies a
    ensures Ascending(a[..i + 1])
    ensures multiset(a[..]) == multiset(old(a[..]))
  {
    var j := i;
    while 0 < j && CompareDoubles(a[j - 1], a[j]) > 0
      invariant 0 <= j <= i
      invariant multiset(a[..]) == multiset(old(a[..]))
      // a[..i+1] is ascending except across position j
      invariant forall p, q :: 0 <= p < q <= i && q != j && p != j ==> a[p] <= a[q]
      invariant forall q :: j < q <= i ==> a[j] < a[q]
    {
      SwapDown(a, j);
      j := j - 1;
    }
  }

  /** Exchanges a[j-1] and a[j]. */
  method SwapDown(a: array<real>, j: nat)
    requires 0 < j < a.Length
    modifies a
    ensures a[..] == old(a[..])[j - 1 := old(a[j])][j := old(a[j - 1])]
    ensures multiset(a[..]) == multiset(old(a[..]))
  {
    a[j - 1], a[j] := a[j], a[j - 1];
  }

  // ---------------------------------------------------------------------
  // Offsets from the epoch
  // ---------------------------------------------------------------------

  /**
   * The epoch the offsets are measured from: t0 when one is set, otherwise
   * the first TOA (the earliest, once sorted).  With no t0 and no TOAs the
   * program reads past its buffer, which the precondition rules out.
   */
  function Epoch(t0: Option<real>, toas: seq<real>): real
    requires t0.Some? || |toas| > 0
  {
    if t0.Some? then t0.value else toas[0]
  }

  /** A TOA as an offset from the epoch: in seconds from MJD days, or unscaled. */
  function Offset(t: real, epoch: real, sec: bool): real
  {
    if sec then t - epoch else (t - epoch) * (SecPerDay as real)
  }

  /** The inverse of Offset: the TOA an offset stands for. */
  function TimeOfOffset(o: real, epoch: real, sec: bool): real
  {
    if sec then epoch + o else epoch + o / (SecPerDay as real)
  }

  ghost function Offsets(s: seq<real>, epoch: real, sec: bool): (r: seq<real>)
    ensures |r| == |s|
  {
    seq(|s|, k requires 0 <= k < |s| => Offset(s[k], epoch, sec))
  }

  /** No TOA is lost in the conversion: every offset gives its TOA back. */
  lemma OffsetRoundTrip(t: real, epoch: real, sec: bool)
    ensures TimeOfOffset(Offset(t, epoch, sec), epoch, sec) == t
    ensures Offset(TimeOfOffset(t, epoch, sec), epoch, sec) == t
  {
  }

  /** The conversion keeps the TOAs in order, strictly and not. */
  lemma OffsetMonotone(x: real, y: real, epoch: real, sec: bool)
    ensures x <= y <==> Offset(x, epoch, sec) <= Offset(y, epoch, sec)
    ensures x < y <==> Offset(x, epoch, sec) < Offset(y, epoch, sec)
  {
  }

  /** Sorted TOAs give sorted offsets. */
  lemma OffsetsAscending(s: seq<real>, epoch: real, sec: bool)
    requires Ascending(s)
    ensures Ascending(Offsets(s, epoch, sec))
  {
    forall i, j | 0 <= i < j < |s|
      ensures Offsets(s, epoch, sec)[i] <= Offsets(s, epoch, sec)[j]
    {
      OffsetMonotone(s[i], s[j], epoch, sec);
    }
  }

  /**
   * Without a t0 the epoch is the earliest TOA: the first offset is zero
   * and none is negative.
   */
  lemma EpochIsEarliest(s: seq<real>, sec: bool)
    requires |s| > 0 && Ascending(s)
    ensures Offsets(s, Epoch(None, s), sec)[0] == 0.0
    ensures forall k :: 0 <= k < |s| ==> Offsets(s, Epoch(None, s), sec)[k] >= 0.0
  {
    forall k | 0 <= k < |s|
      ensures Offsets(s, Epoch(None, s), sec)[k] >= 0.0
    {
      OffsetMonotone(s[0], s[k], s[0], sec);
    }
  }

  /** Rewrites the sorted TOAs in place as offsets from the epoch. */
  method ToOffsets(a: array<real>, t0: Option<real>, sec: bool)
    requires t0.Some? || a.Length > 0
    modifies a
    ensures a[..] == Offsets(old(a[..]), Epoch(t0, old(a[..])), sec)
  {
    var epoch: real;
    if t0.Some? {
      epoch := t0.value;
    } else {
      epoch := a[0];
    }
    var i := 0;
    while i < a.Length
      invariant 0 <= i <= a.Length
      invariant forall k :: 0 <= k < i ==> a[k] == Offset(old(a[k]), epoch, sec)
      invariant forall k :: i <= k < a.Length ==> a[k] == old(a[k])
    {
      if sec {
        a[i] := a[i] - epoch;
      } else {
        a[i] := (a[i] - epoch) * (SecPerDay as real);
      }
      i := i + 1;
    }
  }

  // ---------------------------------------------------------------------
  // Settings from an .inf file
  // ---------------------------------------------------------------------

  /** The command-line values the .inf file can supply, each with its "set" flag. */
  datatype Settings = Settings(dt: real, dtP: bool, numout: int, numoutP: bool, t0: real, t0P: bool)

  /** What the .inf file provides: sample time, number of bins, epoch as MJD. */
  datatype InfData = InfData(dt: real, n: int, mjdI: int, mjdF: real)

  /**
   * Reading an .inf file: its sample time and length always replace the
   * command line's, its epoch only when no t0 was given.
   */
  function WithInf(c: Settings, inf: InfData): (r: Settings)
    ensures r.dtP && r.numoutP && r.t0P
    ensures r.dt == inf.dt && r.numout == inf.n
    ensures r.t0 == (if c.t0P then c.t0 else inf.mjdI as real + inf.mjdF)
  {
    var t0 := if c.t0P then c.t0 else inf.mjdI as real + inf.mjdF;
    Settings(inf.dt, true, inf.n, true, t0, true)
  }

  /** Loading the same .inf file again changes nothing. */
  lemma WithInfIdempotent(c: Settings, inf: InfData)
    ensures WithInf(WithInf(c, inf), inf) == WithInf(c, inf)
  {
  }

  /**
   * Once a t0 is set it survives every later .inf file, while the sample
   * time and length always come from the last one.
   */
  lemma WithInfKeepsEpoch(c: Settings, inf1: InfData, inf2: InfData)
    ensures WithInf(WithInf(c, inf1), inf2).t0 == WithInf(c, inf1).t0
    ensures WithInf(WithInf(c, inf1), inf2) == WithInf(c, inf1).(dt := inf2.dt, numout := inf2.n)
  {
  }

  /** The parsed command line, whose fields the .inf file overrides in place. */
  class Cmdline {
    var dt: real
    var dtP: bool
    var numout: int
    var numoutP: bool
    var t0: real
    var t0P: bool

    ghost function Values(): Settings
      reads this
    {
      Settings(dt, dtP, numout, numoutP, t0, t0P)
    }

    constructor (s: Settings)
      ensures Values() == s
    {
      dt, dtP, numout, numoutP, t0, t0P := s.dt, s.dtP, s.numout, s.numoutP, s.t0, s.t0P;
    }

    /** The -inf override of the settings. */
    method LoadInf(inf: InfData)
      modifies this
      ensures Values() == WithInf(old(Values()), inf)
    {
      dt := inf.dt;
      numout := inf.n;
      if !t0P {
        t0 := inf.mjdI as real + inf.mjdF;
        t0P := true;
      }
      dtP := true;
      numoutP := true;
    }
  }

  // ---------------------------------------------------------------------
  // Output blocks
  // ---------------------------------------------------------------------

  /** How many blocks are written: numout / WorkLen rounded up. */
  function NumWrites(numout: nat): (r: nat)
    ensures r * WorkLen >= numout
    ensures r > 0 ==> (r - 1) * WorkLen < numout
  {
    if numout % WorkLen != 0 then numout / WorkLen + 1 else numout / WorkLen
  }

  /** Bins written by block ii: a full block, except a shorter last one. */
  function BlockLen(numout: nat, ii: nat): (r: nat)
    ensures 0 < r <= WorkLen
  {
    if numout % WorkLen != 0 && ii == NumWrites(numout) - 1 then numout % WorkLen else WorkLen
  }

  /** Bins written by the first k blocks. */
  function Written(numout: nat, k: nat): nat
  {
    if k == 0 then 0 else Written(numout, k - 1) + BlockLen(numout, k - 1)
  }

  /** Every block but the last is full, and all blocks together hold numout bins. */
  lemma {:induction false} BlocksCoverNumout(numout: nat, k: nat)
    requires k <= NumWrites(numout)
    ensures k < NumWrites(numout) ==> Written(numout, k) == k * WorkLen
    ensures k == NumWrites(numout) ==> Written(numout, k) == numout
  {
    if k > 0 {
      BlocksCoverNumout(numout, k - 1);
    }
  }

  // ---------------------------------------------------------------------
  // Binning the TOAs
  // ---------------------------------------------------------------------

  /** Start of block ii, in the same units as the offsets. */
  function LowTime(ii: nat, dt: real): real
  {
    (ii as real) * ((WorkLen as real) * dt)
  }

  /** The bin of the whole output series an offset falls in. */
  function SeriesBin(t: real, dt: real): int
    requires dt > 0.0
  {
    (t / dt).Floor
  }

  /** How many of s[..n] fall in bin i of the series. */
  ghost function BinCount(s: seq<real>, n: nat, dt: real, i: int): nat
    requires n <= |s| && dt > 0.0
  {
    if n == 0 then 0
    else BinCount(s, n - 1, dt, i) + (if SeriesBin(s[n - 1], dt) == i then 1 else 0)
  }

  /** How many of s[..n] lie in [lo, hi). */
  ghost function CountIn(s: seq<real>, n: nat, lo: real, hi: real): nat
    requires n <= |s|
  {
    if n == 0 then 0
    else CountIn(s, n - 1, lo, hi) + (if lo <= s[n - 1] < hi then 1 else 0)
  }

  /** The series the program writes: bin i counts the TOAs whose offset falls in it. */
  ghost function Series(s: seq<real>, dt: real, numout: nat): (r: seq<real>)
    requires dt > 0.0
    ensures |r| == numout
  {
    seq(numout, i requires 0 <= i < numout => BinCount(s, |s|, dt, i) as real)
  }

  /** Block edges are whole multiples of the bin width. */
  lemma LowTimeInBins(ii: nat, dt: real)
    ensures LowTime(ii, dt) == ((ii * WorkLen) as real) * dt
    ensures LowTime(ii + 1, dt) == LowTime(ii, dt) + (WorkLen as real) * dt
  {
  }

  /**
   * The source's in-block index of an offset inside block ii, counted from
   * the block's start, is its series bin less the bins of earlier blocks,
   * and lies inside the buffer.
   */
  lemma BlockIndex(t: real, ii: nat, dt: real, lotime: real, dtfract: real)
    requires dt > 0.0 && lotime == LowTime(ii, dt) && dtfract == 1.0 / dt
    requires lotime <= t < LowTime(ii + 1, dt)
    ensures 0 <= ((t - lotime) * dtfract).Floor < WorkLen
    ensures ((t - lotime) * dtfract).Floor + ii * WorkLen == SeriesBin(t, dt)
  {
    var m := ii * WorkLen;
    LowTimeInBins(ii, dt);
    var x := (t - lotime) * dtfract;
    assert x == t / dt - (m as real);
    assert x < WorkLen as real;
  }

  /** An offset below m bin widths falls in a bin below m, and one at or above it in a bin at or above m. */
  lemma BinAgainstEdge(t: real, dt: real, m: int)
    requires dt > 0.0
    ensures t < (m as real) * dt <==> SeriesBin(t, dt) < m
  {
    if t < (m as real) * dt {
      assert t / dt < m as real;
    } else {
      assert t / dt >= m as real;
    }
  }

  /** TOAs none of which falls in bin i leave its count unchanged. */
  lemma {:induction false} BinCountUnchanged(s: seq<real>, lo: nat, hi: nat, dt: real, i: int)
    requires lo <= hi <= |s| && dt > 0.0
    requires forall k :: lo <= k < hi ==> SeriesBin(s[k], dt) != i
    ensures BinCount(s, hi, dt, i) == BinCount(s, lo, dt, i)
    decreases hi
  {
    if hi > lo {
      BinCountUnchanged(s, lo, hi - 1, dt, i);
    }
  }

  /** TOAs none of which lies in [l, h) leave the count of that range unchanged. */
  lemma {:induction false} CountInUnchanged(s: seq<real>, lo: nat, hi: nat, l: real, h: real)
    requires lo <= hi <= |s|
    requires forall k :: lo <= k < hi ==> !(l <= s[k] < h)
    ensures CountIn(s, hi, l, h) == CountIn(s, lo, l, h)
    decreases hi
  {
    if hi > lo {
      CountInUnchanged(s, lo, hi - 1, l, h);
    }
  }

  /** Raising the upper end past every TOA of s[..n] does not change the count. */
  lemma {:induction false} CountInWiden(s: seq<real>, n: nat, l: real, h: real, h2: real)
    requires n <= |s| && h <= h2
    requires forall k :: 0 <= k < n ==> s[k] < h
    ensures CountIn(s, n, l, h2) == CountIn(s, n, l, h)
  {
    if n > 0 {
      CountInWiden(s, n - 1, l, h, h2);
    }
  }

  /** TOAs consumed before block ii contribute nothing to its bins or later ones. */
  lemma NothingBelowBlock(s: seq<real>, p: nat, ii: nat, dt: real)
    requires dt > 0.0 && p <= |s|
    requires forall k :: 0 <= k < p ==> s[k] < LowTime(ii, dt)
    ensures forall i :: i >= ii * WorkLen ==> BinCount(s, p, dt, i) == 0
  {
    LowTimeInBins(ii, dt);
    forall i | i >= ii * WorkLen
      ensures BinCount(s, p, dt, i) == 0
    {
      forall k | 0 <= k < p
        ensures SeriesBin(s[k], dt) != i
      {
        BinAgainstEdge(s[k], dt, ii * WorkLen);
      }
      BinCountUnchanged(s, 0, p, dt, i);
    }
  }

  /** Sorted TOAs from the first one past block ii on contribute nothing to its bins or earlier ones. */
  lemma NothingAboveBlock(s: seq<real>, p: nat, ii: nat, dt: real)
    requires dt > 0.0 && p <= |s| && Ascending(s)
    requires p < |s| ==> s[p] >= LowTime(ii + 1, dt)
    ensures forall i :: i < (ii + 1) * WorkLen ==> BinCount(s, |s|, dt, i) == BinCount(s, p, dt, i)
  {
    LowTimeInBins(ii + 1, dt);
    forall i | i < (ii + 1) * WorkLen
      ensures BinCount(s, |s|, dt, i) == BinCount(s, p, dt, i)
    {
      forall k | p <= k < |s|
        ensures SeriesBin(s[k], dt) != i
      {
        BinAgainstEdge(s[k], dt, (ii + 1) * WorkLen);
      }
      BinCountUnchanged(s, p, |s|, dt, i);
    }
  }

  /** The counts that bins m .. m + WorkLen - 1 of the series get from s[..p]. */
  ghost function BlockCounts(s: seq<real>, p: nat, dt: real, m: int): (r: seq<real>)
    requires p <= |s| && dt > 0.0
    ensures |r| == WorkLen
  {
    seq(WorkLen, j requires 0 <= j < WorkLen => BinCount(s, p, dt, m + j) as real)
  }

  /** A TOA in bin m + b adds one to entry b of the block's counts. */
  lemma BlockCountsHit(s: seq<real>, p: nat, dt: real, m: int, b: int)
    requires p < |s| && dt > 0.0 && 0 <= b < WorkLen
    requires SeriesBin(s[p], dt) == m + b
    ensures BlockCounts(s, p + 1, dt, m) == BlockCounts(s, p, dt, m)[b := BlockCounts(s, p, dt, m)[b] + 1.0]
  {
    var before, after := BlockCounts(s, p, dt, m), BlockCounts(s, p + 1, dt, m);
    forall j | 0 <= j < WorkLen
      ensures after[j] == before[b := before[b] + 1.0][j]
    {
      assert BinCount(s, p + 1, dt, m + j) == BinCount(s, p, dt, m + j) + (if j == b then 1 else 0);
    }
  }

  /** A TOA in a bin below m leaves the block's counts alone. */
  lemma BlockCountsMiss(s: seq<real>, p: nat, dt: real, m: int)
    requires p < |s| && dt > 0.0
    requires SeriesBin(s[p], dt) < m
    ensures BlockCounts(s, p + 1, dt, m) == BlockCounts(s, p, dt, m)
  {
    var before := BlockCounts(s, p, dt, m);
    forall j | 0 <= j < WorkLen
      ensures BlockCounts(s, p + 1, dt, m)[j] == before[j]
    {
      assert BinCount(s, p + 1, dt, m + j) == BinCount(s, p, dt, m + j);
    }
  }

  /** Sets every bin of the block buffer to zero. */
  method ZeroBlock(fdata: array<real>)
    modifies fdata
    ensures forall j :: 0 <= j < fdata.Length ==> fdata[j] == 0.0
  {
    var jj := 0;
    while jj < fdata.Length
      invariant 0 <= jj <= fdata.Length
      invariant forall j :: 0 <= j < jj ==> fdata[j] == 0.0
    {
      fdata[jj] := 0.0;
      jj := jj + 1;
    }
  }

  /**
   * Drops the sorted offsets from cursor p0 on into the zeroed buffer of
   * block ii: one count in bin floor((toa - lotime) / dt) for each offset
   * in [lotime, hitime), skipping those below lotime, and stopping at the
   * first offset at or past hitime, which stays for the next block.
   * Afterwards each bin holds the count of the whole series' matching bin.
   */
  method PlaceBlock(toas: array<real>, p0: nat, ii: nat, dt: real, lotime: real, hitime: real,
                    dtfract: real, fdata: array<real>, placed0: nat)
    returns (p: nat, placed: nat)
    requires dt > 0.0 && lotime == LowTime(ii, dt) && hitime == LowTime(ii + 1, dt) && dtfract == 1.0 / dt
    requires fdata.Length == WorkLen && fdata != toas
    requires p0 <= toas.Length && Ascending(toas[..])
    requires forall j :: 0 <= j < WorkLen ==> fdata[j] == 0.0
    requires forall k :: 0 <= k < p0 ==> toas[k] < lotime
    requires ii == 0 || p0 == toas.Length || toas[p0] >= lotime
    requires placed0 == CountIn(toas[..], p0, 0.0, lotime)
    modifies fdata
    ensures p0 <= p <= toas.Length
    ensures forall k :: 0 <= k < p ==> toas[k] < hitime
    ensures p == toas.Length || toas[p] >= hitime
    ensures fdata[..] == BlockCounts(toas[..], toas.Length, dt, ii * WorkLen)
    ensures placed == CountIn(toas[..], p, 0.0, hitime)
  {
    ghost var s := toas[..];
    NothingBelowBlock(s, p0, ii, dt);
    assert fdata[..] == BlockCounts(s, p0, dt, ii * WorkLen);
    LowTimeInBins(ii, dt);
    CountInWiden(s, p0, 0.0, lotime, hitime);
    p, placed := p0, placed0;
    while p < toas.Length
      invariant p0 <= p <= toas.Length
      invariant forall k :: 0 <= k < p ==> toas[k] < hitime
      invariant fdata[..] == BlockCounts(s, p, dt, ii * WorkLen)
      invariant placed == CountIn(s, p, 0.0, hitime)
    {
      if toas[p] >= hitime {
        break;
      }
      placed := PlaceToa(toas, p, p0, ii, dt, lotime, hitime, dtfract, fdata, placed);
      p := p + 1;
    }
    NothingAboveBlock(s, p, ii, dt);
    assert BlockCounts(s, p, dt, ii * WorkLen) == BlockCounts(s, |s|, dt, ii * WorkLen);
  }

  /** The series up to the end of block ii is the series up to its start and the block's counts. */
  lemma SeriesExtends(s: seq<real>, dt: real, ii: nat, len: nat)
    requires dt > 0.0 && len <= WorkLen
    ensures Series(s, dt, ii * WorkLen + len) == Series(s, dt, ii * WorkLen) + BlockCounts(s, |s|, dt, ii * WorkLen)[..len]
  {
  }

  /**
   * One step of the placement loop, for the offset under the cursor, which
   * is below hitime: counted in its bin if it is at or past lotime, skipped
   * otherwise.
   */
  method PlaceToa(toas: array<real>, p: nat, p0: nat, ii: nat, dt: real, lotime: real, hitime: real,
                  dtfract: real, fdata: array<real>, placed0: nat)
    returns (placed: nat)
    requires dt > 0.0 && lotime == LowTime(ii, dt) && hitime == LowTime(ii + 1, dt) && dtfract == 1.0 / dt
    requires fdata.Length == WorkLen && fdata != toas
    requires p0 <= p < toas.Length && Ascending(toas[..]) && toas[p] < hitime
    requires ii == 0 || toas[p0] >= lotime
    requires fdata[..] == BlockCounts(toas[..], p, dt, ii * WorkLen)
    requires placed0 == CountIn(toas[..], p, 0.0, hitime)
    modifies fdata
    ensures fdata[..] == BlockCounts(toas[..], p + 1, dt, ii * WorkLen)
    ensures placed == CountIn(toas[..], p + 1, 0.0, hitime)
  {
    ghost var s := toas[..];
    var toa := toas[p];
    placed := placed0;
    if toa >= lotime {
      BlockIndex(toa, ii, dt, lotime, dtfract);
      var bin := ((toa - lotime) * dtfract).Floor;
      BlockCountsHit(s, p, dt, ii * WorkLen, bin);
      fdata[bin] := fdata[bin] + 1.0;
      placed := placed + 1;
    } else {
      // Below the block: a negative offset, since later blocks start past every earlier one.
      LowTimeInBins(ii, dt);
      BinAgainstEdge(toa, dt, ii * WorkLen);
      BlockCountsMiss(s, p, dt, ii * WorkLen);
    }
  }

  /**
   * The block loop: numwrites blocks of WorkLen bins, each zeroed, filled
   * from the sorted offsets under a cursor that carries over from block to
   * block, and written out in full except for a shorter last block.  The
   * output is the series of bin counts, numout long; numplaced counts every
   * offset in [0, numwrites * WorkLen * dt), which includes the bins of the
   * last block that are never written.
   */
  method BinToas(toas: array<real>, numout: nat, dt: real) returns (out: seq<real>, numplaced: nat)
    requires dt > 0.0 && toas.Length > 0 && Ascending(toas[..])
    ensures out == Series(toas[..], dt, numout)
    ensures numplaced == CountIn(toas[..], toas.Length, 0.0, LowTime(NumWrites(numout), dt))
  {
    var fdata := new real[WorkLen];
    var p: nat := 0;
    numplaced := 0;
    out := [];
    var numwrites := if numout % WorkLen != 0 then numout / WorkLen + 1 else numout / WorkLen;
    var dtfract := 1.0 / dt;
    var blockt := (WorkLen as real) * dt;
    var ii := 0;
    while ii < numwrites
      invariant 0 <= ii <= numwrites && numwrites == NumWrites(numout)
      invariant BlockLoop(toas[..], numout, dt, ii, p, numplaced, out)
    {
      p, numplaced, out := WriteBlock(toas, numout, numwrites, dt, dtfract, blockt, ii, fdata, p, numplaced, out);
      ii := ii + 1;
    }
    BlocksCoverNumout(numout, ii);
    PlacedAreInRange(toas[..], p, LowTime(ii, dt));
  }

  /**
   * What holds before block ii: the cursor p has passed exactly the
   * offsets below the block's start, numplaced counts those of them that
   * are not negative, and the output holds the series up to the block.
   */
  ghost predicate BlockLoop(s: seq<real>, numout: nat, dt: real, ii: nat, p: nat, numplaced: nat, out: seq<real>)
    requires dt > 0.0
  {
    && p <= |s|
    && (forall k :: 0 <= k < p ==> s[k] < LowTime(ii, dt))
    && (ii == 0 || p == |s| || s[p] >= LowTime(ii, dt))
    && numplaced == CountIn(s, p, 0.0, LowTime(ii, dt))
    && out == Series(s, dt, Written(numout, ii))
  }

  /** Block ii appends its first BlockLen bins of counts to the series written so far. */
  lemma NextBlockOutput(s: seq<real>, numout: nat, dt: real, ii: nat)
    requires dt > 0.0 && ii < NumWrites(numout)
    ensures Series(s, dt, Written(numout, ii + 1))
         == Series(s, dt, Written(numout, ii)) + BlockCounts(s, |s|, dt, ii * WorkLen)[..BlockLen(numout, ii)]
  {
    BlocksCoverNumout(numout, ii);
    SeriesExtends(s, dt, ii, BlockLen(numout, ii));
  }

  /** One pass of the block loop: zero the buffer, place the TOAs of block ii, write it out. */
  method WriteBlock(toas: array<real>, numout: nat, numwrites: nat, dt: real, dtfract: real, blockt: real,
                    ii: nat, fdata: array<real>, p0: nat, placed0: nat, out0: seq<real>)
    returns (p: nat, numplaced: nat, out: seq<real>)
    requires dt > 0.0 && dtfract == 1.0 / dt && blockt == (WorkLen as real) * dt
    requires numwrites == NumWrites(numout) && ii < numwrites
    requires fdata.Length == WorkLen && fdata != toas && Ascending(toas[..])
    requires BlockLoop(toas[..], numout, dt, ii, p0, placed0, out0)
    modifies fdata
    ensures BlockLoop(toas[..], numout, dt, ii + 1, p, numplaced, out)
  {
    var lotime := (ii as real) * blockt;
    var hitime := ((ii + 1) as real) * blockt;
    var numtowrite := if numout % WorkLen != 0 && ii == numwrites - 1 then numout % WorkLen else WorkLen;
    assert lotime == LowTime(ii, dt) && hitime == LowTime(ii + 1, dt);
    assert numtowrite == BlockLen(numout, ii);
    ZeroBlock(fdata);
    p, numplaced := PlaceBlock(toas, p0, ii, dt, lotime, hitime, dtfract, fdata, placed0);
    NextBlockOutput(toas[..], numout, dt, ii);
    out := out0 + fdata[..numtowrite];
  }

  /**
   * Once the cursor has passed every sorted offset below h, the offsets it
   * passed with no lower bound below zero are all those in [0, h).
   */
  lemma PlacedAreInRange(s: seq<real>, p: nat, h: real)
    requires p <= |s| && Ascending(s)
    requires h == 0.0 || p == |s| || s[p] >= h
    ensures CountIn(s, |s|, 0.0, h) == CountIn(s, p, 0.0, h)
  {
    forall k | p <= k < |s|
      ensures !(0.0 <= s[k] < h)
    {
    }
    CountInUnchanged(s, p, |s|, 0.0, h);
  }

  /** An offset falls in series bin i exactly when it lies in [i * dt, (i + 1) * dt). */
  lemma SeriesBinRange(t: real, dt: real, i: int)
    requires dt > 0.0
    ensures SeriesBin(t, dt) == i <==> (i as real) * dt <= t < ((i + 1) as real) * dt
  {
    BinAgainstEdge(t, dt, i);
    BinAgainstEdge(t, dt, i + 1);
  }

  /**
   * A TOA in the last block past bin numout - 1 is counted as placed but
   * never written: one offset of 1.5 bins with numout = 1 gives the series
   * [0] and one placed TOA.
   */
  lemma UnwrittenBinIsPlaced()
    ensures Series([1.5], 1.0, 1) == [0.0]
    ensures CountIn([1.5], 1, 0.0, LowTime(NumWrites(1), 1.0)) == 1
  {
    assert SeriesBin(1.5, 1.0) == 1;
    assert BinCount([1.5], 1, 1.0, 0) == 0;
    assert NumWrites(1) == 1;
  }

  /**
   * The whole conversion: sort the TOAs in place, rewrite them in place as
   * offsets from the epoch, and bin them into numout samples of width dt.
   * The program always reads the first TOA, so at least one is required.
   */
  method ToasToSeries(toas: array<real>, numout: nat, dt: real, t0: Option<real>, sec: bool)
    returns (out: seq<real>, numplaced: nat, ghost sorted: seq<real>)
    requires dt > 0.0 && toas.Length > 0
    modifies toas
    ensures Ascending(sorted) && multiset(sorted) == multiset(old(toas[..]))
    ensures toas[..] == Offsets(sorted, Epoch(t0, sorted), sec)
    ensures out == Series(toas[..], dt, numout)
    ensures numplaced == CountIn(toas[..], toas.Length, 0.0, LowTime(NumWrites(numout), dt))
  {
    SortToas(toas);
    sorted := toas[..];
    ToOffsets(toas, t0, sec);
    OffsetsAscending(sorted, Epoch(t0, sorted), sec);
    out, numplaced := BinToas(toas, numout, dt);
  }
}
