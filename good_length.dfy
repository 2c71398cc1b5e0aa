/** The FFT-friendly length selector of bin/concatenate_dat.py: choose_good_N and
    its inner helper is_power_of_10.  Both work by updating local variables in
    loops, so both are methods; what they compute is stated with the ghost
    predicates below (a power of ten, a scaled table entry, a power of two, the
    least "good" length at or above a request). */
module GoodLength {

  // The table `goodfactors` (concatenate_dat.py:57-71), 114 strictly increasing
  // entries from 1000 to 10000.  It is declared as three displays joined
  // together only so that the verifier can index each part directly.
  const FactorsLow: seq<int> :=
    [1000, 1008, 1024, 1056, 1120, 1152, 1200, 1232, 1280, 1296, 1344, 1408, 1440,
     1536, 1568, 1584, 1600, 1680, 1728, 1760, 1792, 1920, 1936, 2000, 2016, 2048,
     2112, 2160, 2240, 2304, 2352, 2400, 2464, 2560, 2592, 2640, 2688, 2800]
  const FactorsMid: seq<int> :=
    [2816, 2880, 3024, 3072, 3136, 3168, 3200, 3360, 3456, 3520, 3584, 3600, 3696,
     3840, 3872, 3888, 3920, 4000, 4032, 4096, 4224, 4320, 4400, 4480, 4608, 4704,
     4752, 4800, 4928, 5040, 5120, 5184, 5280, 5376, 5488, 5600, 5632, 5760]
  const FactorsHigh: seq<int> :=
    [5808, 6000, 6048, 6144, 6160, 6272, 6336, 6400, 6480, 6720, 6912, 7040, 7056,
     7168, 7200, 7392, 7680, 7744, 7776, 7840, 7920, 8000, 8064, 8192, 8400, 8448,
     8624, 8640, 8800, 8960, 9072, 9216, 9408, 9504, 9600, 9680, 9856, 10000]
  const GoodFactors: seq<int> := FactorsLow + FactorsMid + FactorsHigh

  /** f * 10^k, built the way the source builds it: k passes of `small_N *= 10`. */
  function Scale(f: int, k: nat): int {
    if k == 0 then f else 10 * Scale(f, k - 1)
  }

  function Pow10(k: nat): (r: int)
    ensures r >= 1
  {
    ScaleNonNegative(1, k);
    Scale(1, k)
  }

  function Pow2(j: nat): (r: int)
    ensures r >= 1
  {
    if j == 0 then 1 else 2 * Pow2(j - 1)
  }

  ghost predicate IsPowerOf10(m: int) {
    exists k: nat :: Pow10(k) == m
  }

  /** m is 2^j with j >= 1 (the power-of-two search starts at 2). */
  ghost predicate IsPowerOf2(m: int) {
    exists j: nat :: 1 <= j && Pow2(j) == m
  }

  /** m is f * 10^k for some k >= 0. */
  ghost predicate IsScaleOf(m: int, f: int) {
    exists k: nat :: Scale(f, k) == m
  }

  /** m is a table entry times 10^k, k >= 0. */
  ghost predicate IsScaledFactor(m: int) {
    exists i: nat, k: nat :: i < |GoodFactors| && Scale(GoodFactors[i], k) == m
  }

  ghost predicate IsGoodLength(m: int) {
    IsScaledFactor(m) || IsPowerOf2(m)
  }

  /** r is the least good length that is >= n: the promise of the docstring. */
  ghost predicate LeastGoodAtLeast(n: int, r: int) {
    && r >= n
    && IsGoodLength(r)
    && forall m :: IsGoodLength(m) && m >= n ==> r <= m
  }

  ghost predicate StrictlyAscending(s: seq<int>) {
    forall i, j :: 0 <= i < j < |s| ==> s[i] < s[j]
  }

  /* ---------------- facts about scaling by ten ---------------- */

  lemma {:induction false} ScaleMonotoneInFactor(f: int, g: int, k: nat)
    requires f <= g
    ensures Scale(f, k) <= Scale(g, k)
  {
    if k > 0 {
      ScaleMonotoneInFactor(f, g, k - 1);
    }
  }

  lemma {:induction false} ScaleMonotoneInExponent(f: int, a: nat, b: nat)
    requires f >= 0 && a <= b
    ensures Scale(f, a) <= Scale(f, b)
  {
    if a < b {
      ScaleMonotoneInExponent(f, a, b - 1);
      ScaleNonNegative(f, b - 1);
    }
  }

  lemma {:induction false} ScaleNonNegative(f: int, k: nat)
    requires f >= 0
    ensures Scale(f, k) >= f
  {
    if k > 0 {
      ScaleNonNegative(f, k - 1);
    }
  }

  /** Ten times f scaled k times is f scaled k + 1 times. */
  lemma {:induction false} ScaleShift(f: int, k: nat)
    ensures Scale(10 * f, k) == Scale(f, k + 1)
  {
    if k > 0 {
      ScaleShift(f, k - 1);
    }
  }

  lemma {:induction false} ScaleIsProduct(f: int, k: nat)
    ensures Scale(f, k) == f * Pow10(k)
    decreases k
  {
    if k > 0 {
      ScaleIsProduct(f, k - 1);
      ScaleIsProduct(1, k - 1);
      assert Scale(f, k) == 10 * (f * Pow10(k - 1));
      assert Pow10(k) == 10 * Pow10(k - 1);
    }
  }

  lemma {:induction false} Pow2Monotone(a: nat, b: nat)
    requires a <= b
    ensures Pow2(a) <= Pow2(b)
  {
    if a < b {
      Pow2Monotone(a, b - 1);
    }
  }

  /** A power of ten other than 1 is divisible by ten, and dividing it by ten
      gives a power of ten again; the loop of is_power_of_10 rests on this. */
  lemma PowerOf10Step(m: int)
    requires m > 1
    ensures IsPowerOf10(m) <==> m % 10 == 0 && IsPowerOf10(m / 10)
  {
    if IsPowerOf10(m) {
      var k: nat :| Pow10(k) == m;
      assert k > 0;
      assert Pow10(k - 1) == m / 10;
    }
    if m % 10 == 0 && IsPowerOf10(m / 10) {
      var k: nat :| Pow10(k) == m / 10;
      assert Pow10(k + 1) == m;
    }
  }

  /** The test at concatenate_dat.py:106, "n % f == 0 and n // f is a power of
      ten", says exactly that n is f scaled by some power of ten. */
  lemma ExactScaleMeansScaled(n: int, f: int)
    requires f >= 1
    ensures (n % f == 0 && IsPowerOf10(n / f)) <==> IsScaleOf(n, f)
  {
    if n % f == 0 && IsPowerOf10(n / f) {
      var k: nat :| Pow10(k) == n / f;
      ScaleIsProduct(f, k);
      assert n == f * (n / f);
    }
    if IsScaleOf(n, f) {
      var k: nat :| Scale(f, k) == n;
      ScaleIsProduct(f, k);
      ProductDivides(f, Pow10(k));
    }
  }

  lemma MulMonotone(a: int, b: int, c: int)
    requires a <= b && c >= 0
    ensures a * c <= b * c
  {
  }

  lemma ProductDivides(f: int, q: int)
    requires f >= 1
    ensures (f * q) % f == 0 && (f * q) / f == q
  {
    var n := f * q;
    var d, r := n / f, n % f;
    assert n == f * d + r && 0 <= r < f;
    assert f * (d - q) == -r;
    if d - q >= 1 {
      MulMonotone(1, d - q, f);
    } else if d - q <= -1 {
      MulMonotone(d - q, -1, f);
    }
  }

  /* ---------------- is_power_of_10 (concatenate_dat.py:76-96) ---------------- */

  /** True exactly when n is 10^k for some k >= 0; false for every n <= 0. */
  method IsPowerOfTen(n: int) returns (b: bool)
    ensures b <==> IsPowerOf10(n)
    ensures n <= 0 ==> !b
  {
    if n <= 0 {
      assert !IsPowerOf10(n);
      return false;
    }
    var m := n;
    while m > 1
      invariant m >= 1
      invariant IsPowerOf10(m) <==> IsPowerOf10(n)
    {
      PowerOf10Step(m);
      if m % 10 != 0 {
        return false;
      }
      m := m / 10;
    }
    assert Pow10(0) == m;
    return true;
  }

  /* ---------------- the leading four digits (concatenate_dat.py:99-100) ---------------- */

  /** int(str(n)[:4]) for n >= 1.  The decimal string of a positive integer has
      no leading zero, so its first four characters are n with its last
      DroppedDigits(n) digits removed (see Leading4Brackets). */
  function Leading4(n: nat): (r: nat)
    requires n >= 1
    ensures 1 <= r <= 9999
    ensures n < 10000 ==> r == n
    ensures n >= 10000 ==> r >= 1000
  {
    if n < 10000 then n else Leading4(n / 10)
  }

  /** How many decimal digits of n lie beyond the first four. */
  function DroppedDigits(n: nat): nat
    requires n >= 1
  {
    if n < 10000 then 0 else DroppedDigits(n / 10) + 1
  }

  /** Leading4(n) followed by DroppedDigits(n) arbitrary digits is n. */
  lemma {:induction false} Leading4Brackets(n: nat)
    requires n >= 1
    ensures Scale(Leading4(n), DroppedDigits(n)) <= n < Scale(Leading4(n) + 1, DroppedDigits(n))
    ensures DroppedDigits(n) == 0 <==> n < 10000
  {
    if n >= 10000 {
      Leading4Brackets(n / 10);
    }
  }

  /* ---------------- the table ---------------- */

  lemma AscendingJoin(a: seq<int>, b: seq<int>)
    requires StrictlyAscending(a) && StrictlyAscending(b)
    requires |a| > 0 && |b| > 0 && a[|a| - 1] < b[0]
    ensures StrictlyAscending(a + b)
  {
    var s := a + b;
    forall i, j | 0 <= i < j < |s| ensures s[i] < s[j] {
      if j >= |a| && i < |a| {
        assert s[i] <= a[|a| - 1] && b[0] <= s[j];
      }
    }
  }

  lemma {:induction false} AdjacentToAscending(s: seq<int>)
    requires forall i :: 0 < i < |s| ==> s[i - 1] < s[i]
    ensures StrictlyAscending(s)
  {
    if |s| > 1 {
      var t := s[..|s| - 1];
      assert forall i :: 0 < i < |t| ==> t[i - 1] < t[i];
      AdjacentToAscending(t);
      forall i, j | 0 <= i < j < |s| ensures s[i] < s[j] {
        if j == |s| - 1 && i < j - 1 {
          assert s[i] == t[i] && t[i] < t[j - 1];
        }
      }
    }
  }

  lemma LowAscending()
    ensures StrictlyAscending(FactorsLow) && |FactorsLow| == 38
  {
    assert forall i :: 0 < i < |FactorsLow| ==> FactorsLow[i - 1] < FactorsLow[i];
    AdjacentToAscending(FactorsLow);
  }

  lemma MidAscending()
    ensures StrictlyAscending(FactorsMid) && |FactorsMid| == 38
  {
    assert forall i :: 0 < i < |FactorsMid| ==> FactorsMid[i - 1] < FactorsMid[i];
    AdjacentToAscending(FactorsMid);
  }

  lemma HighAscending()
    ensures StrictlyAscending(FactorsHigh) && |FactorsHigh| == 38
  {
    assert forall i :: 0 < i < |FactorsHigh| ==> FactorsHigh[i - 1] < FactorsHigh[i];
    AdjacentToAscending(FactorsHigh);
  }

  /** Every entry of an ascending sequence lies between its first and last. */
  lemma AscendingBounds(s: seq<int>)
    requires StrictlyAscending(s) && |s| > 0
    ensures forall i :: 0 <= i < |s| ==> s[0] <= s[i] <= s[|s| - 1]
  {
    forall i | 0 <= i < |s| ensures s[0] <= s[i] <= s[|s| - 1] {
      if 0 < i { assert s[0] < s[i]; }
      if i < |s| - 1 { assert s[i] < s[|s| - 1]; }
    }
  }

  /** The table is strictly increasing, starts at 1000 and ends at 10000. */
  lemma TableFacts()
    ensures |GoodFactors| == 114
    ensures StrictlyAscending(GoodFactors)
    ensures GoodFactors[0] == 1000 && GoodFactors[113] == 10000
    ensures forall i :: 0 <= i < |GoodFactors| ==> 1000 <= GoodFactors[i] <= 10000
  {
    LowAscending();
    MidAscending();
    HighAscending();
    var lm := FactorsLow + FactorsMid;
    assert lm[37] == 2800 && lm[38] == 2816 && lm[75] == 5760;
    AscendingJoin(FactorsLow, FactorsMid);
    assert FactorsHigh[0] == 5808;
    AscendingJoin(lm, FactorsHigh);
    var t := GoodFactors;
    assert t[0] == lm[0] == 1000 && t[113] == FactorsHigh[37] == 10000;
    AscendingBounds(t);
  }

  /** Two entries compare as their positions do. */
  lemma TableOrder(a: nat, b: nat)
    requires a < b < |GoodFactors|
    ensures GoodFactors[a] < GoodFactors[b]
  {
    TableFacts();
  }

  /** One entry lies between the first, 1000, and the last, 10000. */
  lemma TableEntry(i: nat)
    requires i < |GoodFactors|
    ensures 1000 <= GoodFactors[i] <= 10000 && GoodFactors[0] == 1000 && |GoodFactors| == 114
  {
    TableFacts();
  }

  /** No entry lies strictly between two neighbouring entries. */
  lemma TableNotBetween(i: nat, q: nat)
    requires i < |GoodFactors| && q + 1 < |GoodFactors|
    ensures GoodFactors[i] <= GoodFactors[q] || GoodFactors[q + 1] <= GoodFactors[i]
  {
    TableFacts();
    if i < q {
      assert GoodFactors[i] < GoodFactors[q];
    } else if i > q + 1 {
      assert GoodFactors[q + 1] < GoodFactors[i];
    }
  }

  /* ---------------- the scan over the table (concatenate_dat.py:103-111) ---------------- */

  /** Entry p is where the scan breaks: every earlier entry is <= first4 and is
      not an exact match; entry p is an exact match or exceeds first4. */
  ghost predicate ScanStopsAt(n: int, first4: int, p: nat)
    requires p < |GoodFactors|
  {
    && (forall q :: 0 <= q < p ==>
          GoodFactors[q] <= first4 && !(GoodFactors[q] == first4 && IsScaleOf(n, GoodFactors[q])))
    && ((GoodFactors[p] == first4 && IsScaleOf(n, GoodFactors[p])) || GoodFactors[p] > first4)
  }

  /** Scaling f by the least power of ten that reaches n never overshoots any
      other power-of-ten scaling of f that reaches n. */
  lemma LeastScale(f: int, n: int, k: nat, e: nat)
    requires f >= 1
    requires k > 0 ==> Scale(f, k - 1) < n
    requires Scale(f, e) >= n
    ensures Scale(f, k) <= Scale(f, e)
  {
    if k > e {
      ScaleMonotoneInExponent(f, e, k - 1);
    }
    ScaleMonotoneInExponent(f, k, e);
  }

  /** Every table entry scaled to a higher decade is at least 10^4 * 10^e. */
  lemma HigherDecade(f: int, e: nat, g: int, j: nat)
    requires 1 <= f <= 10000 && 1000 <= g && j > e
    ensures Scale(f, e) <= Scale(g, j)
  {
    ScaleMonotoneInFactor(f, 10000, e);
    ScaleShift(1000, e);
    ScaleMonotoneInExponent(1000, e + 1, j);
    ScaleMonotoneInFactor(1000, g, j);
  }

  /** Every table entry scaled to a lower decade is at most 1000 * 10^e. */
  lemma LowerDecade(e: nat, g: int, j: nat)
    requires 1 <= g <= 10000 && j < e
    ensures Scale(g, j) <= Scale(1000, e)
  {
    ScaleMonotoneInFactor(g, 10000, j);
    ScaleMonotoneInExponent(10000, j, e - 1);
    ScaleShift(1000, e - 1);
  }

  /** The arithmetic core of the minimality argument when the scan stopped at
      an entry f above the leading digits: f * 10^k (least k reaching n) is at
      most g * 10^j for every table entry g and j with g * 10^j >= n. */
  lemma NextEntryIsLeast(n: int, lead: int, e: nat, f: int, k: nat, g: int, j: nat)
    requires Scale(lead, e) <= n < Scale(lead + 1, e)
    requires 1 <= lead && (e > 0 ==> lead >= 1000)
    requires lead < f <= 10000 && 1000 <= g <= 10000
    requires Scale(f, k) >= n && (k > 0 ==> Scale(f, k - 1) < n)
    requires Scale(g, j) >= n
    requires g > lead ==> g >= f
    requires g == lead ==> !IsScaleOf(n, lead)
    requires lead == 1000 ==> !IsScaleOf(n, 1000)
    ensures Scale(f, k) <= Scale(g, j)
  {
    ScaleMonotoneInFactor(lead + 1, f, e);
    LeastScale(f, n, k, e);
    if j > e {
      HigherDecade(f, e, g, j);
    } else if j == e {
      if g < lead {
        ScaleStep(g, e);
        ScaleMonotoneInFactor(g + 1, lead, e);
      } else if g == lead {
        // then n == lead * 10^e, which the requires rule out
      } else {
        ScaleMonotoneInFactor(f, g, e);
      }
    } else {
      LowerDecade(e, g, j);
      ScaleMonotoneInFactor(1000, lead, e);
      if lead > 1000 {
        ScaleMonotoneInFactor(1001, lead, e);
        ScaleStep(1000, e);
      }
      // then n == 1000 * 10^e, which the requires rule out
    }
  }

  lemma {:induction false} ScaleStep(f: int, k: nat)
    ensures Scale(f, k) < Scale(f + 1, k)
  {
    if k > 0 {
      ScaleStep(f, k - 1);
    }
  }

  /** The entry chosen by the scan, scaled by the least power of ten that
      reaches n, is no larger than any scaled table entry that reaches n. */
  lemma ScaledCandidateIsLeast(n: int, p: nat, k: nat, i: nat, j: nat)
    requires n >= 1 && p < |GoodFactors| && i < |GoodFactors|
    requires ScanStopsAt(n, Leading4(n), p)
    requires Scale(GoodFactors[p], k) >= n
    requires k > 0 ==> Scale(GoodFactors[p], k - 1) < n
    requires Scale(GoodFactors[i], j) >= n
    ensures Scale(GoodFactors[p], k) <= Scale(GoodFactors[i], j)
  {
    var f, lead := GoodFactors[p], Leading4(n);
    if f == lead && IsScaleOf(n, f) {
      // orig_N itself is f * 10^e; the scaling loop stops exactly there.
      var e: nat :| Scale(f, e) == n;
      LeastScale(f, n, k, e);
    } else {
      ScanPassedIsLeast(n, p, k, i, j);
    }
  }

  /** The case of ScaledCandidateIsLeast where the scan stopped at an entry
      above the leading four digits. */
  lemma ScanPassedIsLeast(n: int, p: nat, k: nat, i: nat, j: nat)
    requires n >= 1 && p < |GoodFactors| && i < |GoodFactors|
    requires ScanStopsAt(n, Leading4(n), p)
    requires !(GoodFactors[p] == Leading4(n) && IsScaleOf(n, GoodFactors[p]))
    requires Scale(GoodFactors[p], k) >= n
    requires k > 0 ==> Scale(GoodFactors[p], k - 1) < n
    requires Scale(GoodFactors[i], j) >= n
    ensures Scale(GoodFactors[p], k) <= Scale(GoodFactors[i], j)
  {
    var f, g, lead := GoodFactors[p], GoodFactors[i], Leading4(n);
    ScanNeighbours(n, p, i);
    Leading4Brackets(n);
    NextEntryIsLeast(n, lead, DroppedDigits(n), f, k, g, j);
  }

  /** What the scan having passed the leading digits tells about entry p and
      any other entry i. */
  lemma ScanNeighbours(n: int, p: nat, i: nat)
    requires n >= 1 && p < |GoodFactors| && i < |GoodFactors|
    requires ScanStopsAt(n, Leading4(n), p)
    requires !(GoodFactors[p] == Leading4(n) && IsScaleOf(n, GoodFactors[p]))
    ensures var f, g, lead := GoodFactors[p], GoodFactors[i], Leading4(n);
      && lead < f <= 10000 && 1000 <= g <= 10000
      && (g > lead ==> g >= f)
      && (g == lead ==> !IsScaleOf(n, lead))
      && (lead == 1000 ==> !IsScaleOf(n, 1000))
  {
    TableEntry(p);
    TableEntry(i);
    var f, g, lead := GoodFactors[p], GoodFactors[i], Leading4(n);
    if i < p {
      assert g <= lead && !(g == lead && IsScaleOf(n, g));
    } else if i > p {
      TableOrder(p, i);
    }
    if lead == 1000 {
      assert p != 0;
      assert GoodFactors[0] <= lead && !(GoodFactors[0] == lead && IsScaleOf(n, GoodFactors[0]));
    }
  }

  /* ---------------- choose_good_N (concatenate_dat.py:26-130) ---------------- */

  /** The scan of concatenate_dat.py:103-111: the first entry that is an exact
      match for origN or exceeds its leading four digits.  The fallback to the
      last entry (lines 113-115) never runs: first4 <= 9999 and the table ends
      with 10000. */
  method ScanTable(origN: int, first4: int) returns (smallN: int, ghost p: nat)
    requires 1 <= first4 <= 9999
    ensures p < |GoodFactors| && smallN == GoodFactors[p]
    ensures ScanStopsAt(origN, first4, p)
  {
    TableFacts();
    var i := 0;
    while i < |GoodFactors|
      invariant 0 <= i <= |GoodFactors|
      invariant forall q :: 0 <= q < i ==>
        GoodFactors[q] <= first4 && !(GoodFactors[q] == first4 && IsScaleOf(origN, GoodFactors[q]))
    {
      var factor := GoodFactors[i];
      ExactScaleMeansScaled(origN, factor);
      if factor == first4 && origN % factor == 0 {
        var exact := IsPowerOfTen(origN / factor);
        if exact {
          return factor, i;
        }
      }
      if factor > first4 {
        return factor, i;
      }
      i := i + 1;
    }
    // Unreachable: entry 113 is 10000 > first4, so the loop has returned.
    assert false;
  }

  /** The smaller of the two candidates is the least good length at or above
      origN. */
  lemma CandidatesAreLeast(origN: int, p: nat, k: nat, j: nat, r: int)
    requires origN >= 1 && p < |GoodFactors| && ScanStopsAt(origN, Leading4(origN), p)
    requires Scale(GoodFactors[p], k) >= origN && (k > 0 ==> Scale(GoodFactors[p], k - 1) < origN)
    requires j >= 1 && Pow2(j) >= origN && (j > 1 ==> Pow2(j - 1) < origN)
    requires r == if Pow2(j) < Scale(GoodFactors[p], k) then Pow2(j) else Scale(GoodFactors[p], k)
    ensures LeastGoodAtLeast(origN, r)
  {
    assert IsGoodLength(r) by {
      if r == Pow2(j) { assert IsPowerOf2(r); } else { assert IsScaledFactor(r); }
    }
    forall m | IsGoodLength(m) && m >= origN ensures r <= m {
      if IsScaledFactor(m) {
        var i': nat, k': nat :| i' < |GoodFactors| && Scale(GoodFactors[i'], k') == m;
        ScaledCandidateIsLeast(origN, p, k, i', k');
      } else {
        var j': nat :| 1 <= j' && Pow2(j') == m;
        if j' < j {
          Pow2Monotone(j', j - 1);
        }
        Pow2Monotone(j, j');
      }
    }
  }

  /** The least length >= origN that is a power of two (2^j, j >= 1) or a table
      entry times a power of ten; 0 when origN <= 0. */
  method ChooseGoodN(origN: int) returns (r: int)
    ensures origN <= 0 ==> r == 0
    ensures origN > 0 ==> LeastGoodAtLeast(origN, r)
  {
    if origN <= 0 {
      return 0;
    }
    var first4 := Leading4(origN);
    var smallN;
    ghost var p;
    smallN, p := ScanTable(origN, first4);

    // Scale the entry by ten until it reaches origN.
    ghost var k: nat := 0;
    while smallN < origN
      invariant smallN == Scale(GoodFactors[p], k)
      invariant k > 0 ==> Scale(GoodFactors[p], k - 1) < origN
      decreases origN - smallN
    {
      smallN, k := smallN * 10, k + 1;
    }

    // The power of two at or above origN, starting from 2.
    var twoN := 2;
    ghost var j: nat := 1;
    while twoN < origN
      invariant j >= 1 && twoN == Pow2(j)
      invariant j > 1 ==> Pow2(j - 1) < origN
      decreases origN - twoN
    {
      twoN, j := twoN * 2, j + 1;
    }

    if twoN < smallN {
      r := twoN;
    } else {
      r := smallN;
    }
    CandidatesAreLeast(origN, p, k, j, r);
  }

  /* ---------------- consequences of the contract ---------------- */

  /** The least good length at or above n is unique, so the contract of
      ChooseGoodN determines its result. */
  lemma LeastGoodUnique(n: int, r1: int, r2: int)
    requires LeastGoodAtLeast(n, r1) && LeastGoodAtLeast(n, r2)
    ensures r1 == r2
  {
  }

  /** A larger request never gets a smaller length. */
  lemma LeastGoodMonotone(a: int, ra: int, b: int, rb: int)
    requires a <= b && LeastGoodAtLeast(a, ra) && LeastGoodAtLeast(b, rb)
    ensures ra <= rb
  {
  }

  /** Every table entry times a power of ten is returned unchanged. */
  lemma ScaledEntryIsFixedPoint(i: nat, k: nat)
    requires i < |GoodFactors|
    ensures LeastGoodAtLeast(Scale(GoodFactors[i], k), Scale(GoodFactors[i], k))
  {
    assert IsScaledFactor(Scale(GoodFactors[i], k));
  }

  /** No table entry scaled by a power of ten lies in [lo, hi) when that
      interval sits between the scaled entries q and q + 1 of decade d. */
  lemma NoScaledFactorIn(lo: int, hi: int, q: nat, d: nat)
    requires q + 1 < |GoodFactors|
    requires Scale(GoodFactors[q], d) < lo && hi <= Scale(GoodFactors[q + 1], d)
    requires d > 0 ==> Scale(10000, d - 1) < lo
    requires hi <= Scale(1000, d + 1)
    ensures forall m :: lo <= m < hi ==> !IsScaledFactor(m)
  {
    forall m | lo <= m < hi && IsScaledFactor(m) ensures false {
      var i: nat, k: nat :| i < |GoodFactors| && Scale(GoodFactors[i], k) == m;
      ScaledEntryOutside(lo, hi, q, d, i, k);
    }
  }

  /** Each single scaled entry lies outside [lo, hi). */
  lemma ScaledEntryOutside(lo: int, hi: int, q: nat, d: nat, i: nat, k: nat)
    requires q + 1 < |GoodFactors| && i < |GoodFactors|
    requires Scale(GoodFactors[q], d) < lo && hi <= Scale(GoodFactors[q + 1], d)
    requires d > 0 ==> Scale(10000, d - 1) < lo
    requires hi <= Scale(1000, d + 1)
    ensures Scale(GoodFactors[i], k) < lo || hi <= Scale(GoodFactors[i], k)
  {
    TableEntry(i);
    TableNotBetween(i, q);
    ScaledValueOutside(lo, hi, GoodFactors[q], GoodFactors[q + 1], d, GoodFactors[i], k);
  }

  /** The arithmetic of ScaledEntryOutside: g * 10^k, for a g in [1000, 10000]
      that is not strictly between the neighbours f0 and f1, misses [lo, hi). */
  lemma ScaledValueOutside(lo: int, hi: int, f0: int, f1: int, d: nat, g: int, k: nat)
    requires 1000 <= g <= 10000 && (g <= f0 || f1 <= g)
    requires Scale(f0, d) < lo && hi <= Scale(f1, d)
    requires d > 0 ==> Scale(10000, d - 1) < lo
    requires hi <= Scale(1000, d + 1)
    ensures Scale(g, k) < lo || hi <= Scale(g, k)
  {
    if k > d {
      ScaleMonotoneInFactor(1000, g, k);
      ScaleMonotoneInExponent(1000, d + 1, k);
    } else if k < d {
      ScaleMonotoneInFactor(g, 10000, k);
      ScaleMonotoneInExponent(10000, k, d - 1);
    } else if g <= f0 {
      ScaleMonotoneInFactor(g, f0, d);
    } else {
      ScaleMonotoneInFactor(f1, g, d);
    }
  }

  /** No power of two 2^j, j >= 1, lies strictly between 2^j0 and 2^(j0 + 1). */
  lemma NoPowerOf2In(lo: int, hi: int, j0: nat)
    requires Pow2(j0) < lo && hi <= Pow2(j0 + 1)
    ensures forall m :: lo <= m < hi ==> !IsPowerOf2(m)
  {
    forall m | lo <= m < hi && IsPowerOf2(m) ensures false {
      var j: nat :| 1 <= j && Pow2(j) == m;
      if j <= j0 {
        Pow2Monotone(j, j0);
      } else {
        Pow2Monotone(j0 + 1, j);
      }
    }
  }

  /** The docstring example choose_good_N(1500) == 1536 (concatenate_dat.py:50-51):
      the table entries around 1500 are 1440 and 1536, the powers of two 1024
      and 2048. */
  lemma Example1500()
    ensures LeastGoodAtLeast(1500, 1536)
  {
    TableFacts();
    assert GoodFactors[12] == 1440 && GoodFactors[13] == 1536;
    assert Pow2(10) == 1024 && Pow2(11) == 2048;
    NoScaledFactorIn(1500, 1536, 12, 0);
    NoPowerOf2In(1500, 1536, 10);
    ScaledEntryIsFixedPoint(13, 0);
  }

  /** The docstring examples choose_good_N(2000) == 2000 and
      choose_good_N(10000) == 10000 (concatenate_dat.py:52-55). */
  lemma Example2000And10000()
    ensures LeastGoodAtLeast(2000, 2000) && LeastGoodAtLeast(10000, 10000)
  {
    TableFacts();
    assert GoodFactors[23] == 2000;
    ScaledEntryIsFixedPoint(23, 0);
    ScaledEntryIsFixedPoint(113, 0);
  }

  /** choose_good_N(10001) == 10080 = 1008 * 10: just above 1000 * 10, and far
      below the power of two 16384. */
  lemma Example10001()
    ensures LeastGoodAtLeast(10001, 10080)
  {
    TableFacts();
    assert GoodFactors[0] == 1000 && GoodFactors[1] == 1008;
    assert Scale(1000, 1) == 10000 && Scale(1008, 1) == 10080;
    assert Scale(10000, 0) == 10000 && Scale(1000, 2) == 100000;
    assert Pow2(13) == 8192 && Pow2(14) == 16384;
    NoScaledFactorIn(10001, 10080, 0, 1);
    NoPowerOf2In(10001, 10080, 13);
    ScaledEntryIsFixedPoint(1, 1);
  }
}
