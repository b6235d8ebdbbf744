/**
 * The sampling histogram: a fixed 64 x 1024 grid of counters. A nonnegative sample is
 * recorded in the row of its exponent bucket and the column of its 10-bit mantissa.
 */
module SampleBuffers {
  import opened Bits

  const PrecisionBits: nat := 10
  const Rows: nat := 64
  const Cols: nat := 1024  // 1 << PrecisionBits

  // ---------------------------------------------------------------------------------------
  // Where a sample goes
  // ---------------------------------------------------------------------------------------

  /** 64 - Long.numberOfLeadingZeros(s): 64 for a negative `long`, its bit length otherwise. */
  function Msb(s: Long): nat
  {
    if s < 0 then 64 else BitLength(s)
  }

  /** max(0, msb - PRECISION_BITS): the row of the sample. */
  function Bucket(s: Long): nat
  {
    if Msb(s) > PrecisionBits then Msb(s) - PrecisionBits else 0
  }

  /** (int) (s >> bucket): Java's arithmetic shift rounds towards negative infinity. */
  function SubBucket(s: Long): int
  {
    s / Pow2(Bucket(s))
  }

  /** (long) j << i: the value a cell stands for, wrapped to 64 bits as Java does. */
  function CellValue(i: nat, j: nat): Long
  {
    WrapLong(j * Pow2(i))
  }

  /** A nonnegative sample lands in row [0, 53] and column [0, 1024), in the upper half of the
      columns whenever its row is not the first. */
  lemma SampleCoordinates(s: Long)
    requires s >= 0
    ensures Msb(s) == BitLength(s) <= 63
    ensures Bucket(s) <= 53
    ensures 0 <= SubBucket(s) < Cols
    ensures Bucket(s) > 0 ==> 512 <= SubBucket(s)
  {
    LongBitLength(s);
    if BitLength(s) > PrecisionBits {
      LargeSampleColumn(s);
    } else {
      SmallSampleColumn(s);
    }
  }

  /** A sample of more than 10 bits keeps its top 10 bits, so its column has the top bit set. */
  lemma LargeSampleColumn(s: Long)
    requires s >= 0 && BitLength(s) > PrecisionBits
    ensures Bucket(s) == BitLength(s) - PrecisionBits
    ensures 512 <= SubBucket(s) < Cols
  {
    BitLengthBounds(s);
    Pow2Small();
    var b := BitLength(s) - PrecisionBits;
    var p := Pow2(b);
    Pow2Add(b, 10);
    Pow2Add(b, 9);
    assert 512 * p <= s < 1024 * p;
    DivBounds(s, p, 1024);
    DivBounds(s, p, 512);
  }

  /** A sample of at most 10 bits stays in row 0, in its own column. */
  lemma SmallSampleColumn(s: Long)
    requires s >= 0 && BitLength(s) <= PrecisionBits
    ensures Bucket(s) == 0 && SubBucket(s) == s < Cols
  {
    BitLengthBounds(s);
    Pow2Small();
    Pow2Monotone(BitLength(s), 10);
  }

  /** A negative sample: msb is 64, the bucket is 54 and the shifted value is a negative
      column, so the array access fails. */
  lemma NegativeSampleOutOfBounds(s: Long)
    requires s < 0
    ensures Msb(s) == 64 && Bucket(s) == 54
    ensures -512 <= SubBucket(s) < 0
  {
    Pow2Large();
    var p := Pow2(54);
    assert 512 * p == LongLimit;
    DivBounds(s, p, 0);
    DivBounds(s, p, -512);
  }

  /** Splitting a sample at its bucket: s = q * 2^b + r with 0 <= r < 2^b, and q * 2^b fits a `long`. */
  lemma SplitAtBucket(s: Long)
    requires s >= 0
    ensures var p, q := Pow2(Bucket(s)), SubBucket(s);
      && 0 <= q * p <= s
      && s - q * p == s % p
      && CellValue(Bucket(s), q) == q * p
  {
    var p := Pow2(Bucket(s));
    var q := s / p;
    QuotientTimesDivisor(s, p);
    var x := q * p;
    assert WrapLong(x) == x;
  }

  /** The value stored for a sample, (long) subBucket << bucket, never exceeds it, is less than
      one bucket step below it, is exact for samples below 1024, and is within 1/512 of it. */
  lemma StoredValueApproximates(s: Long)
    requires s >= 0
    ensures var b, v := Bucket(s), CellValue(Bucket(s), SubBucket(s));
      && v <= s < v + Pow2(b)
      && (v == s <==> s % Pow2(b) == 0)
      && (s < Cols ==> v == s)
      && (b > 0 ==> 512 * (s - v) < v)
  {
    SampleCoordinates(s);
    SplitAtBucket(s);
    var b, q := Bucket(s), SubBucket(s);
    var p := Pow2(b);
    var v := q * p;
    assert CellValue(b, q) == v;
    if s < Cols {
      BitLengthBounds(s);
      Pow2Small();
      if BitLength(s) > PrecisionBits {
        Pow2Monotone(10, BitLength(s) - 1);
      }
      assert b == 0;
    }
    if b > 0 {
      MulMonotone(512, q, p);
      assert 512 * p <= v;
    }
  }

  /** Rows up to 53 never wrap: every cell there stands for j * 2^i exactly. */
  lemma CellValueExact(i: nat, j: nat)
    requires i <= 53 && j < Cols
    ensures CellValue(i, j) == j * Pow2(i) < LongLimit
  {
    Pow2Large();
    var p := Pow2(i);
    Pow2Monotone(i, 53);
    MulMonotone(0, j, p);
    MulMonotone(j, Cols - 1, p);
    var x := j * p;
    assert 0 <= x <= 1023 * p <= 1023 * 0x20_0000_0000_0000;
    assert WrapLong(x) == x;
  }

  // ---------------------------------------------------------------------------------------
  // The grid as a value
  // ---------------------------------------------------------------------------------------

  type Grid = seq<seq<int>>

  predicate IsGrid(g: Grid)
  {
    |g| == Rows && forall i :: 0 <= i < Rows ==> |g[i]| == Cols
  }

  /** Java's `v / 2` on `int`: truncates towards zero. */
  function JavaHalf(v: int): int
  {
    if v >= 0 then v / 2 else -((-v) / 2)
  }

  /** The decay of one counter: halved, unless halving would give zero. */
  function HalfCount(v: int): (r: int)
    ensures r == 0 <==> v == 0
    ensures v == 1 ==> r == 1
    ensures 0 <= v ==> 0 <= r <= v
    ensures 2 <= v ==> 2 * r <= v < 2 * r + 2
    ensures r < 0 <==> v < 0
  {
    var nV := JavaHalf(v);
    if nV != 0 then nV else v
  }

  function EmptyGrid(): (g: Grid)
    ensures IsGrid(g)
  {
    seq(Rows, i => seq(Cols, j => 0))
  }

  function Halved(g: Grid): (h: Grid)
    requires IsGrid(g)
    ensures IsGrid(h)
  {
    seq(Rows, i requires 0 <= i < Rows => seq(Cols, j requires 0 <= j < Cols => HalfCount(g[i][j])))
  }

  function Merge(g: Grid, h: Grid): (m: Grid)
    requires IsGrid(g) && IsGrid(h)
    ensures IsGrid(m)
  {
    seq(Rows, i requires 0 <= i < Rows => seq(Cols, j requires 0 <= j < Cols => g[i][j] + h[i][j]))
  }

  function Increment(g: Grid, i: nat, j: nat): (h: Grid)
    requires IsGrid(g) && i < Rows && j < Cols
    ensures IsGrid(h)
  {
    g[i := g[i][j := g[i][j] + 1]]
  }

  /** Two grids that agree cell by cell are the same grid. */
  lemma GridExtensionality(g: Grid, h: Grid)
    requires IsGrid(g) && IsGrid(h)
    requires forall i, j :: 0 <= i < Rows && 0 <= j < Cols ==> g[i][j] == h[i][j]
    ensures g == h
  {
    forall i | 0 <= i < Rows
      ensures g[i] == h[i]
    {
      assert forall j :: 0 <= j < Cols ==> g[i][j] == h[i][j];
    }
  }

  function RowSum(r: seq<int>): int
  {
    if r == [] then 0 else RowSum(r[..|r| - 1]) + r[|r| - 1]
  }

  /** The number of samples the grid holds: the sum of all its counters. */
  function Total(g: Grid): int
  {
    if g == [] then 0 else Total(g[..|g| - 1]) + RowSum(g[|g| - 1])
  }

  predicate NonNegative(g: Grid)
  {
    forall i, j :: 0 <= i < |g| && 0 <= j < |g[i]| ==> g[i][j] >= 0
  }

  /** No sample ever lands in rows 54..63, so they stay zero. */
  predicate UpperRowsUnused(g: Grid)
    requires IsGrid(g)
  {
    forall i, j :: 54 <= i < Rows && 0 <= j < Cols ==> g[i][j] == 0
  }

  lemma {:induction false} RowSumUpdate(r: seq<int>, j: nat, x: int)
    requires j < |r|
    ensures RowSum(r[j := x]) == RowSum(r) - r[j] + x
  {
    var r' := r[j := x];
    if j < |r| - 1 {
      assert r'[..|r'| - 1] == r[..|r| - 1][j := x];
      RowSumUpdate(r[..|r| - 1], j, x);
    } else {
      assert r'[..|r'| - 1] == r[..|r| - 1];
    }
  }

  lemma {:induction false} TotalUpdate(g: Grid, i: nat, row: seq<int>)
    requires i < |g|
    ensures Total(g[i := row]) == Total(g) - RowSum(g[i]) + RowSum(row)
  {
    var g' := g[i := row];
    if i < |g| - 1 {
      assert g'[..|g'| - 1] == g[..|g| - 1][i := row];
      TotalUpdate(g[..|g| - 1], i, row);
    } else {
      assert g'[..|g'| - 1] == g[..|g| - 1];
    }
  }

  /** Recording a sample adds exactly one to the number of samples held. */
  lemma IncrementTotal(g: Grid, i: nat, j: nat)
    requires IsGrid(g) && i < Rows && j < Cols
    ensures Total(Increment(g, i, j)) == Total(g) + 1
  {
    RowSumUpdate(g[i], j, g[i][j] + 1);
    TotalUpdate(g, i, g[i][j := g[i][j] + 1]);
  }

  lemma {:induction false} RowSumAdd(r: seq<int>, q: seq<int>, s: seq<int>)
    requires |r| == |q| == |s|
    requires forall j :: 0 <= j < |s| ==> s[j] == r[j] + q[j]
    ensures RowSum(s) == RowSum(r) + RowSum(q)
  {
    if s != [] {
      var n := |s| - 1;
      RowSumAdd(r[..n], q[..n], s[..n]);
    }
  }

  lemma {:induction false} TotalAdd(g: Grid, h: Grid, m: Grid)
    requires |g| == |h| == |m|
    requires forall i :: 0 <= i < |m| ==> |g[i]| == |h[i]| == |m[i]|
    requires forall i, j :: 0 <= i < |m| && 0 <= j < |m[i]| ==> m[i][j] == g[i][j] + h[i][j]
    ensures Total(m) == Total(g) + Total(h)
  {
    if m != [] {
      var n := |m| - 1;
      RowSumAdd(g[n], h[n], m[n]);
      TotalAdd(g[..n], h[..n], m[..n]);
    }
  }

  /** Merging two grids adds their sample counts. */
  lemma MergeTotal(g: Grid, h: Grid)
    requires IsGrid(g) && IsGrid(h)
    ensures Total(Merge(g, h)) == Total(g) + Total(h)
  {
    TotalAdd(g, h, Merge(g, h));
  }

  /** Merging grids does not depend on the order ... */
  lemma MergeCommutes(g: Grid, h: Grid)
    requires IsGrid(g) && IsGrid(h)
    ensures Merge(g, h) == Merge(h, g)
  {
    GridExtensionality(Merge(g, h), Merge(h, g));
  }

  /** ... nor on the grouping. */
  lemma MergeAssociates(g: Grid, h: Grid, k: Grid)
    requires IsGrid(g) && IsGrid(h) && IsGrid(k)
    ensures Merge(Merge(g, h), k) == Merge(g, Merge(h, k))
  {
    GridExtensionality(Merge(Merge(g, h), k), Merge(g, Merge(h, k)));
  }

  lemma {:induction false} RowSumMonotone(r: seq<int>, q: seq<int>)
    requires |r| == |q|
    requires forall j :: 0 <= j < |r| ==> q[j] <= r[j]
    ensures RowSum(q) <= RowSum(r)
  {
    if r != [] {
      RowSumMonotone(r[..|r| - 1], q[..|q| - 1]);
    }
  }

  lemma {:induction false} TotalMonotone(g: Grid, h: Grid)
    requires |g| == |h|
    requires forall i :: 0 <= i < |g| ==> |g[i]| == |h[i]|
    requires forall i, j :: 0 <= i < |g| && 0 <= j < |g[i]| ==> h[i][j] <= g[i][j]
    ensures Total(h) <= Total(g)
  {
    if g != [] {
      var n := |g| - 1;
      RowSumMonotone(g[n], h[n]);
      TotalMonotone(g[..n], h[..n]);
    }
  }

  /** Decay never erases a counter, never brings a zero back, and never adds samples. */
  lemma HalvedDecays(g: Grid)
    requires IsGrid(g) && NonNegative(g)
    ensures NonNegative(Halved(g))
    ensures forall i, j :: 0 <= i < Rows && 0 <= j < Cols ==>
      (Halved(g)[i][j] == 0 <==> g[i][j] == 0) && Halved(g)[i][j] <= g[i][j]
    ensures Total(Halved(g)) <= Total(g)
  {
    TotalMonotone(g, Halved(g));
  }

  /** The three grid operations keep rows 54..63 unused. */
  lemma UpperRowsStayUnused(g: Grid, h: Grid, s: Long)
    requires IsGrid(g) && IsGrid(h) && UpperRowsUnused(g) && UpperRowsUnused(h)
    ensures UpperRowsUnused(EmptyGrid())
    ensures UpperRowsUnused(Halved(g))
    ensures UpperRowsUnused(Merge(g, h))
    ensures s >= 0 ==> Bucket(s) < Rows && 0 <= SubBucket(s) < Cols && UpperRowsUnused(Increment(g, Bucket(s), SubBucket(s)))
  {
    if s >= 0 {
      SampleCoordinates(s);
    }
  }

  // ---------------------------------------------------------------------------------------
  // Statistics source: one (value, weight) observation per cell, before the multiplier
  // ---------------------------------------------------------------------------------------

  datatype Observation = Observation(value: Long, weight: int)

  /** The observations of the first m cells of row i. */
  function RowObservations(g: Grid, i: nat, m: nat): seq<Observation>
    requires IsGrid(g) && i < Rows && m <= Cols
  {
    if m == 0 then [] else RowObservations(g, i, m - 1) + [Observation(CellValue(i, m - 1), g[i][m - 1])]
  }

  /** The observations of the first n rows, row by row. */
  function Observations(g: Grid, n: nat): seq<Observation>
    requires IsGrid(g) && n <= Rows
  {
    if n == 0 then [] else Observations(g, n - 1) + RowObservations(g, n - 1, Cols)
  }

  function WeightSum(obs: seq<Observation>): int
  {
    if obs == [] then 0 else WeightSum(obs[..|obs| - 1]) + obs[|obs| - 1].weight
  }

  lemma {:induction false} RowObservationsAt(g: Grid, i: nat, m: nat)
    requires IsGrid(g) && i < Rows && m <= Cols
    ensures |RowObservations(g, i, m)| == m
    ensures forall j :: 0 <= j < m ==> RowObservations(g, i, m)[j] == Observation(CellValue(i, j), g[i][j])
  {
    if m > 0 {
      RowObservationsAt(g, i, m - 1);
    }
  }

  /** Cell (i, j) is observation i * 1024 + j, with value j << i and weight the cell's count. */
  lemma {:induction false} ObservationsAt(g: Grid, n: nat)
    requires IsGrid(g) && n <= Rows
    ensures |Observations(g, n)| == n * Cols
    ensures forall i, j :: 0 <= i < n && 0 <= j < Cols ==>
      Observations(g, n)[i * Cols + j] == Observation(CellValue(i, j), g[i][j])
  {
    if n > 0 {
      ObservationsAt(g, n - 1);
      RowObservationsAt(g, n - 1, Cols);
      forall i, j | 0 <= i < n && 0 <= j < Cols
        ensures Observations(g, n)[i * Cols + j] == Observation(CellValue(i, j), g[i][j])
      {
        if i < n - 1 {
          assert i * Cols + j < (n - 1) * Cols;
        } else {
          assert i * Cols + j == (n - 1) * Cols + j;
        }
      }
    }
  }

  lemma {:induction false} WeightSumAppend(a: seq<Observation>, b: seq<Observation>)
    ensures WeightSum(a + b) == WeightSum(a) + WeightSum(b)
  {
    if b != [] {
      assert (a + b)[..|a + b| - 1] == a + b[..|b| - 1];
      WeightSumAppend(a, b[..|b| - 1]);
    } else {
      assert a + b == a;
    }
  }

  lemma {:induction false} RowObservationsWeight(g: Grid, i: nat, m: nat)
    requires IsGrid(g) && i < Rows && m <= Cols
    ensures WeightSum(RowObservations(g, i, m)) == RowSum(g[i][..m])
  {
    if m > 0 {
      RowObservationsWeight(g, i, m - 1);
      var obs := RowObservations(g, i, m);
      assert obs == RowObservations(g, i, m - 1) + [Observation(CellValue(i, m - 1), g[i][m - 1])];
      assert obs[..|obs| - 1] == RowObservations(g, i, m - 1);
      RowSumSnoc(g[i], m);
    }
  }

  /** The sum of a row's first m counters is that of its first m - 1 plus counter m - 1. */
  lemma RowSumSnoc(row: seq<int>, m: nat)
    requires 0 < m <= |row|
    ensures RowSum(row[..m]) == RowSum(row[..m - 1]) + row[m - 1]
  {
    assert row[..m][..m - 1] == row[..m - 1];
  }

  lemma {:induction false} ObservationsWeightPrefix(g: Grid, n: nat)
    requires IsGrid(g) && n <= Rows
    ensures WeightSum(Observations(g, n)) == Total(g[..n])
  {
    if n > 0 {
      ObservationsWeightPrefix(g, n - 1);
      WeightSumAppend(Observations(g, n - 1), RowObservations(g, n - 1, Cols));
      RowObservationsWeight(g, n - 1, Cols);
      assert g[n - 1][..Cols] == g[n - 1];
      assert g[..n][..n - 1] == g[..n - 1];
    }
  }

  /** The total weight handed to the statistics equals the number of samples held. */
  lemma ObservationsWeight(g: Grid)
    requires IsGrid(g)
    ensures WeightSum(Observations(g, Rows)) == Total(g)
  {
    ObservationsWeightPrefix(g, Rows);
    assert g[..Rows] == g;
  }

  /** While rows 54..63 are unused, every observation that carries weight has the exact,
      unwrapped value j * 2^i. */
  lemma WeightedObservationsExact(g: Grid, i: nat, j: nat)
    requires IsGrid(g) && UpperRowsUnused(g) && i < Rows && j < Cols && g[i][j] != 0
    ensures CellValue(i, j) == j * Pow2(i)
  {
    CellValueExact(i, j);
  }

  // ---------------------------------------------------------------------------------------
  // The buffer, updated in place
  // ---------------------------------------------------------------------------------------

  class SampleBuffer {
    const hdr: array2<int>

    ghost predicate Valid()
    {
      hdr.Length0 == Rows && hdr.Length1 == Cols
    }

    /** The counters as a grid value. */
    ghost function Grid(): (g: Grid)
      reads hdr
      requires Valid()
      ensures IsGrid(g)
      ensures forall i, j :: 0 <= i < Rows && 0 <= j < Cols ==> g[i][j] == hdr[i, j]
    {
      seq(Rows, i reads hdr requires 0 <= i < hdr.Length0 =>
        seq(Cols, j reads hdr requires 0 <= j < hdr.Length1 => hdr[i, j]))
    }

    constructor ()
      ensures Valid() && fresh(hdr)
      ensures Grid() == EmptyGrid()
    {
      hdr := new int[Rows, Cols]((i, j) => 0);
      new;
      GridExtensionality(Grid(), EmptyGrid());
    }

    /** Decays every counter, leaving a counter alone when halving would erase it. */
    method Half()
      requires Valid()
      modifies hdr
      ensures Grid() == Halved(old(Grid()))
    {
      for i := 0 to Rows
        invariant forall p, q :: 0 <= p < i && 0 <= q < Cols ==> hdr[p, q] == HalfCount(old(hdr[p, q]))
        invariant forall p, q :: i <= p < Rows && 0 <= q < Cols ==> hdr[p, q] == old(hdr[p, q])
      {
        for j := 0 to Cols
          invariant forall p, q :: 0 <= p < i && 0 <= q < Cols ==> hdr[p, q] == HalfCount(old(hdr[p, q]))
          invariant forall q :: 0 <= q < j ==> hdr[i, q] == HalfCount(old(hdr[i, q]))
          invariant forall q :: j <= q < Cols ==> hdr[i, q] == old(hdr[i, q])
          invariant forall p, q :: i < p < Rows && 0 <= q < Cols ==> hdr[p, q] == old(hdr[p, q])
        {
          var nV := JavaHalf(hdr[i, j]);
          if nV != 0 {
            hdr[i, j] := nV;
          }
        }
      }
      GridExtensionality(Grid(), Halved(old(Grid())));
    }

    /** Records one sample. A negative sample indexes a negative column in row 54, which is an
        out-of-bounds access: ok is false and nothing is recorded. */
    method Add(sample: Long) returns (ok: bool)
      requires Valid()
      modifies hdr
      ensures ok == (sample >= 0)
      ensures ok ==> Bucket(sample) < Rows && 0 <= SubBucket(sample) < Cols
      ensures ok ==> Grid() == Increment(old(Grid()), Bucket(sample), SubBucket(sample))
      ensures !ok ==> Grid() == old(Grid())
    {
      var msb := Msb(sample);
      var bucket := if msb > PrecisionBits then msb - PrecisionBits else 0;
      var subBucket := sample / Pow2(bucket);
      if sample >= 0 {
        SampleCoordinates(sample);
      } else {
        NegativeSampleOutOfBounds(sample);
      }
      ghost var before := Grid();
      if bucket < Rows && 0 <= subBucket < Cols {
        hdr[bucket, subBucket] := hdr[bucket, subBucket] + 1;
        ok := true;
        GridExtensionality(Grid(), Increment(before, bucket, subBucket));
      } else {
        ok := false;
      }
    }

    /** One (value, weight) observation per cell, row by row: value j << i, weight hdr[i][j]. */
    method GetStatistics() returns (obs: seq<Observation>)
      requires Valid()
      ensures obs == Observations(Grid(), Rows)
    {
      ghost var g := Grid();
      obs := [];
      for i := 0 to Rows
        invariant obs == Observations(g, i)
      {
        for j := 0 to Cols
          invariant obs == Observations(g, i) + RowObservations(g, i, j)
        {
          var ns := CellValue(i, j);
          obs := obs + [Observation(ns, hdr[i, j])];
        }
      }
    }

    /** Adds the other buffer's counters into this one, cell by cell. */
    method AddAll(other: SampleBuffer)
      requires Valid() && other.Valid()
      modifies hdr
      ensures Grid() == Merge(old(Grid()), old(other.Grid()))
      ensures other.hdr != hdr ==> other.Grid() == old(other.Grid())
    {
      for i := 0 to Rows
        invariant forall p, q :: 0 <= p < i && 0 <= q < Cols ==> hdr[p, q] == old(hdr[p, q]) + old(other.hdr[p, q])
        invariant forall p, q :: i <= p < Rows && 0 <= q < Cols ==> hdr[p, q] == old(hdr[p, q])
        invariant other.hdr != hdr ==> forall p, q :: 0 <= p < Rows && 0 <= q < Cols ==> other.hdr[p, q] == old(other.hdr[p, q])
      {
        for j := 0 to Cols
          invariant forall p, q :: 0 <= p < i && 0 <= q < Cols ==> hdr[p, q] == old(hdr[p, q]) + old(other.hdr[p, q])
          invariant forall q :: 0 <= q < j ==> hdr[i, q] == old(hdr[i, q]) + old(other.hdr[i, q])
          invariant forall q :: j <= q < Cols ==> hdr[i, q] == old(hdr[i, q])
          invariant forall p, q :: i < p < Rows && 0 <= q < Cols ==> hdr[p, q] == old(hdr[p, q])
          invariant other.hdr != hdr ==> forall p, q :: 0 <= p < Rows && 0 <= q < Cols ==> other.hdr[p, q] == old(other.hdr[p, q])
        {
          hdr[i, j] := hdr[i, j] + other.hdr[i, j];
        }
      }
      GridExtensionality(Grid(), Merge(old(Grid()), old(other.Grid())));
      if other.hdr != hdr {
        GridExtensionality(other.Grid(), old(other.Grid()));
      }
    }
  }
}
