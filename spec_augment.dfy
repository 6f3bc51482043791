/** SpecAugment-style masking of a (time, frequency) feature tensor
    (`spec_augment` in utils/feature.py).

    The random draws of the original become inputs: every band is the pair
    (width, offset) that `int(np.random.uniform(0, T))` and
    `random.randint(0, axis - width)` produced for it. */
module SpecAugment {
  import opened Matrices
  import opened Outcomes

  /** One mask: `width` consecutive indices starting at `offset`. */
  datatype Band = Band(width: nat, offset: nat)

  predicate Covers(b: Band, i: int) {
    b.offset <= i < b.offset + b.width
  }

  /** Some band of `bands` covers index `i`. */
  ghost predicate AnyCovers(bands: seq<Band>, i: int) {
    exists k :: 0 <= k < |bands| && Covers(bands[k], i)
  }

  /** A band the original can draw on an axis of length `axis` with width
      limit `limit`: the width is the truncation of a draw from [0, limit),
      or limit itself through floating-point rounding, and, when an offset
      can be drawn at all, it lies in
      [0, axis - width], so the band stays inside the axis. */
  ghost predicate Drawn(b: Band, limit: nat, axis: nat) {
    b.width <= limit && (b.width <= axis ==> b.offset + b.width <= axis)
  }

  /** Number of iterations of `range(n)`. */
  function RangeLength(n: int): (r: nat)
    ensures n <= 0 ==> r == 0
    ensures n >= 0 ==> r == n
  {
    if n < 0 then 0 else n
  }

  // ---------------------------------------------------------------------
  // Specification on values

  /** `feat[t0 : t0 + t, :] = 0`: zero every row the band covers. */
  function ZeroRows(m: Matrix, b: Band): (r: Matrix)
    ensures |r| == |m| && forall i :: 0 <= i < |m| ==> |r[i]| == |m[i]|
    ensures forall i, j :: 0 <= i < |m| && 0 <= j < |m[i]| ==>
              r[i][j] == if Covers(b, i) then 0.0 else m[i][j]
  {
    seq(|m|, i requires 0 <= i < |m| => if Covers(b, i) then Zeros(|m[i]|) else m[i])
  }

  /** `feat[:, f0 : f0 + f] = 0`: zero every column the band covers. */
  function ZeroCols(m: Matrix, b: Band): (r: Matrix)
    ensures |r| == |m| && forall i :: 0 <= i < |m| ==> |r[i]| == |m[i]|
    ensures forall i, j :: 0 <= i < |m| && 0 <= j < |m[i]| ==>
              r[i][j] == if Covers(b, j) then 0.0 else m[i][j]
  {
    seq(|m|, i requires 0 <= i < |m| =>
      seq(|m[i]|, j requires 0 <= j < |m[i]| => if Covers(b, j) then 0.0 else m[i][j]))
  }

  /** The time bands applied one after the other, first band first. */
  function TimeMasked(m: Matrix, bands: seq<Band>): (r: Matrix)
    ensures |r| == |m| && forall i :: 0 <= i < |m| ==> |r[i]| == |m[i]|
    decreases |bands|
  {
    if bands == [] then m
    else ZeroRows(TimeMasked(m, bands[..|bands| - 1]), bands[|bands| - 1])
  }

  /** The frequency bands applied one after the other, first band first. */
  function FreqMasked(m: Matrix, bands: seq<Band>): (r: Matrix)
    ensures |r| == |m| && forall i :: 0 <= i < |m| ==> |r[i]| == |m[i]|
    decreases |bands|
  {
    if bands == [] then m
    else ZeroCols(FreqMasked(m, bands[..|bands| - 1]), bands[|bands| - 1])
  }

  /** Index of the first band wider than the axis (for which `randint`
      gets an empty range and raises), or |bands| if there is none. */
  function FirstTooWide(bands: seq<Band>, axis: nat): (k: nat)
    ensures k <= |bands|
    ensures forall j :: 0 <= j < k ==> bands[j].width <= axis
    ensures k < |bands| ==> bands[k].width > axis
    decreases |bands|
  {
    if bands == [] || bands[0].width > axis then 0
    else 1 + FirstTooWide(bands[1..], axis)
  }

  /** Some draw raises: a time band wider than the sequence, or a frequency
      band wider than the feature axis. */
  ghost predicate Raises(rows: nat, cols: nat, timeBands: seq<Band>, freqBands: seq<Band>) {
    (exists k :: 0 <= k < |timeBands| && timeBands[k].width > rows) ||
    (exists k :: 0 <= k < |freqBands| && freqBands[k].width > cols)
  }

  /** The time bands written before the exception (all of them if none). */
  function AppliedTimeBands(rows: nat, timeBands: seq<Band>): seq<Band> {
    timeBands[..FirstTooWide(timeBands, rows)]
  }

  /** The frequency bands written before the exception: none when a time
      band raised, since the frequency loop is never reached. */
  function AppliedFreqBands(rows: nat, cols: nat, timeBands: seq<Band>, freqBands: seq<Band>): seq<Band> {
    if FirstTooWide(timeBands, rows) < |timeBands| then []
    else freqBands[..FirstTooWide(freqBands, cols)]
  }

  /** The contents of `feat` once `spec_augment` returns or raises; it keeps
      the shape (seq_len, feat_size) of the input either way. */
  function Augmented(m: Matrix, rows: nat, cols: nat, timeBands: seq<Band>, freqBands: seq<Band>): (r: Matrix)
    ensures Shaped(m, rows, cols) ==> Shaped(r, rows, cols)
  {
    FreqMasked(TimeMasked(m, AppliedTimeBands(rows, timeBands)),
               AppliedFreqBands(rows, cols, timeBands, freqBands))
  }

  // ---------------------------------------------------------------------
  // Properties of the specification

  /** After masking with time bands, a cell whose row lies in one of the
      bands is 0; every other cell keeps its value. */
  lemma {:induction false} TimeMaskedCell(m: Matrix, bands: seq<Band>, i: nat, j: nat)
    requires i < |m| && j < |m[i]|
    ensures TimeMasked(m, bands)[i][j] == if AnyCovers(bands, i) then 0.0 else m[i][j]
    decreases |bands|
  {
    if bands != [] {
      var pre, last := bands[..|bands| - 1], bands[|bands| - 1];
      TimeMaskedCell(m, pre, i, j);
      if AnyCovers(pre, i) {
        var k :| 0 <= k < |pre| && Covers(pre[k], i);
        assert bands[k] == pre[k];
      }
      if Covers(last, i) {
        assert bands[|bands| - 1] == last;
      }
      if AnyCovers(bands, i) && !Covers(last, i) {
        var k :| 0 <= k < |bands| && Covers(bands[k], i);
        assert pre[k] == bands[k];
      }
    }
  }

  /** After masking with frequency bands, a cell whose column lies in one of
      the bands is 0; every other cell keeps its value. */
  lemma {:induction false} FreqMaskedCell(m: Matrix, bands: seq<Band>, i: nat, j: nat)
    requires i < |m| && j < |m[i]|
    ensures FreqMasked(m, bands)[i][j] == if AnyCovers(bands, j) then 0.0 else m[i][j]
    decreases |bands|
  {
    if bands != [] {
      var pre, last := bands[..|bands| - 1], bands[|bands| - 1];
      FreqMaskedCell(m, pre, i, j);
      if AnyCovers(pre, j) {
        var k :| 0 <= k < |pre| && Covers(pre[k], j);
        assert bands[k] == pre[k];
      }
      if Covers(last, j) {
        assert bands[|bands| - 1] == last;
      }
      if AnyCovers(bands, j) && !Covers(last, j) {
        var k :| 0 <= k < |bands| && Covers(bands[k], j);
        assert pre[k] == bands[k];
      }
    }
  }

  /** When no draw raises, every band is applied: a cell whose row is in some
      time band or whose column is in some frequency band is 0, and every
      other cell keeps its value. */
  lemma AugmentedCell(m: Matrix, rows: nat, cols: nat, timeBands: seq<Band>, freqBands: seq<Band>, i: nat, j: nat)
    requires Shaped(m, rows, cols) && i < rows && j < cols
    requires !Raises(rows, cols, timeBands, freqBands)
    ensures Augmented(m, rows, cols, timeBands, freqBands)[i][j] ==
            if AnyCovers(timeBands, i) || AnyCovers(freqBands, j) then 0.0 else m[i][j]
  {
    assert AppliedTimeBands(rows, timeBands) == timeBands;
    assert AppliedFreqBands(rows, cols, timeBands, freqBands) == freqBands;
    var t := TimeMasked(m, timeBands);
    TimeMaskedCell(m, timeBands, i, j);
    FreqMaskedCell(t, freqBands, i, j);
  }

  /** When the k-th time draw raises, the rows of the k bands before it are
      already zero, and the frequency bands were never applied. */
  lemma AugmentedCellOnTimeRaise(m: Matrix, rows: nat, cols: nat, timeBands: seq<Band>, freqBands: seq<Band>,
                                 k: nat, i: nat, j: nat)
    requires Shaped(m, rows, cols) && i < rows && j < cols
    requires k < |timeBands| && timeBands[k].width > rows
    requires forall p :: 0 <= p < k ==> timeBands[p].width <= rows
    ensures Augmented(m, rows, cols, timeBands, freqBands)[i][j] ==
            if AnyCovers(timeBands[..k], i) then 0.0 else m[i][j]
  {
    assert FirstTooWide(timeBands, rows) == k;
    TimeMaskedCell(m, timeBands[..k], i, j);
  }

  /** When every time draw succeeds and the k-th frequency draw raises, all
      time bands and the k frequency bands before it are applied. */
  lemma AugmentedCellOnFreqRaise(m: Matrix, rows: nat, cols: nat, timeBands: seq<Band>, freqBands: seq<Band>,
                                 k: nat, i: nat, j: nat)
    requires Shaped(m, rows, cols) && i < rows && j < cols
    requires forall p :: 0 <= p < |timeBands| ==> timeBands[p].width <= rows
    requires k < |freqBands| && freqBands[k].width > cols
    requires forall p :: 0 <= p < k ==> freqBands[p].width <= cols
    ensures Augmented(m, rows, cols, timeBands, freqBands)[i][j] ==
            if AnyCovers(timeBands, i) || AnyCovers(freqBands[..k], j) then 0.0 else m[i][j]
  {
    assert FirstTooWide(timeBands, rows) == |timeBands|;
    assert timeBands[..|timeBands|] == timeBands;
    assert FirstTooWide(freqBands, cols) == k;
    TimeMaskedCell(m, timeBands, i, j);
    FreqMaskedCell(TimeMasked(m, timeBands), freqBands[..k], i, j);
  }

  /** Bands of width 0 mask nothing; in particular, with no bands at all
      (both counts 0) the output equals the input. */
  lemma ZeroWidthIdentity(m: Matrix, rows: nat, cols: nat, timeBands: seq<Band>, freqBands: seq<Band>)
    requires Shaped(m, rows, cols)
    requires forall k :: 0 <= k < |timeBands| ==> timeBands[k].width == 0
    requires forall k :: 0 <= k < |freqBands| ==> freqBands[k].width == 0
    ensures !Raises(rows, cols, timeBands, freqBands)
    ensures Augmented(m, rows, cols, timeBands, freqBands) == m
  {
    var r := Augmented(m, rows, cols, timeBands, freqBands);
    forall i, j | 0 <= i < |m| && 0 <= j < |m[i]| ensures r[i][j] == m[i][j] {
      AugmentedCell(m, rows, cols, timeBands, freqBands, i, j);
    }
    CellwiseEqual(r, m);
  }

  /** Zeroing whole rows and whole columns commute: masking frequency first
      and time second gives the same matrix. */
  lemma TimeFreqCommute(m: Matrix, timeBands: seq<Band>, freqBands: seq<Band>)
    ensures FreqMasked(TimeMasked(m, timeBands), freqBands) == TimeMasked(FreqMasked(m, freqBands), timeBands)
  {
    var a := FreqMasked(TimeMasked(m, timeBands), freqBands);
    var b := TimeMasked(FreqMasked(m, freqBands), timeBands);
    forall i, j | 0 <= i < |a| && 0 <= j < |a[i]| ensures a[i][j] == b[i][j] {
      TimeMaskedCell(m, timeBands, i, j);
      FreqMaskedCell(TimeMasked(m, timeBands), freqBands, i, j);
      FreqMaskedCell(m, freqBands, i, j);
      TimeMaskedCell(FreqMasked(m, freqBands), timeBands, i, j);
    }
    CellwiseEqual(a, b);
  }

  /** Running the augmentation a second time with the same draws changes
      nothing more, whether or not a draw raises. */
  lemma AugmentedIdempotent(m: Matrix, rows: nat, cols: nat, timeBands: seq<Band>, freqBands: seq<Band>)
    requires Shaped(m, rows, cols)
    ensures Augmented(Augmented(m, rows, cols, timeBands, freqBands), rows, cols, timeBands, freqBands) ==
            Augmented(m, rows, cols, timeBands, freqBands)
  {
    var tb := AppliedTimeBands(rows, timeBands);
    var fb := AppliedFreqBands(rows, cols, timeBands, freqBands);
    var once := Augmented(m, rows, cols, timeBands, freqBands);
    var twice := Augmented(once, rows, cols, timeBands, freqBands);
    forall i, j | 0 <= i < |twice| && 0 <= j < |twice[i]| ensures twice[i][j] == once[i][j] {
      TimeMaskedCell(m, tb, i, j);
      FreqMaskedCell(TimeMasked(m, tb), fb, i, j);
      TimeMaskedCell(once, tb, i, j);
      FreqMaskedCell(TimeMasked(once, tb), fb, i, j);
    }
    CellwiseEqual(twice, once);
  }

  // ---------------------------------------------------------------------
  // The in-place implementation

  /** `feat[t0 : t0 + t, :] = 0` on the tensor itself. */
  method ZeroRowBand(feat: array2<real>, b: Band)
    requires b.offset + b.width <= feat.Length0
    modifies feat
    ensures MatrixOf(feat) == ZeroRows(old(MatrixOf(feat)), b)
  {
    ghost var before := MatrixOf(feat);
    for r := b.offset to b.offset + b.width
      invariant forall i, j :: 0 <= i < feat.Length0 && 0 <= j < feat.Length1 ==>
        feat[i, j] == if b.offset <= i < r then 0.0 else before[i][j]
    {
      for c := 0 to feat.Length1
        invariant forall i, j :: 0 <= i < feat.Length0 && 0 <= j < feat.Length1 ==>
          feat[i, j] == if b.offset <= i < r || (i == r && j < c) then 0.0 else before[i][j]
      {
        feat[r, c] := 0.0;
      }
    }
    CellwiseEqual(MatrixOf(feat), ZeroRows(before, b));
  }

  /** `feat[:, f0 : f0 + f] = 0` on the tensor itself. */
  method ZeroColBand(feat: array2<real>, b: Band)
    requires b.offset + b.width <= feat.Length1
    modifies feat
    ensures MatrixOf(feat) == ZeroCols(old(MatrixOf(feat)), b)
  {
    ghost var before := MatrixOf(feat);
    for r := 0 to feat.Length0
      invariant forall i, j :: 0 <= i < feat.Length0 && 0 <= j < feat.Length1 ==>
        feat[i, j] == if i < r && Covers(b, j) then 0.0 else before[i][j]
    {
      for c := b.offset to b.offset + b.width
        invariant forall i, j :: 0 <= i < feat.Length0 && 0 <= j < feat.Length1 ==>
          feat[i, j] == if (i < r || (i == r && j < c)) && Covers(b, j) then 0.0 else before[i][j]
      {
        feat[r, c] := 0.0;
      }
    }
    CellwiseEqual(MatrixOf(feat), ZeroCols(before, b));
  }

  /** The time-mask loop: applies the bands in order and stops at the first
      one wider than the sequence, reporting whether all were applied. */
  method MaskTime(feat: array2<real>, bands: seq<Band>) returns (ok: bool)
    requires forall k :: 0 <= k < |bands| ==> bands[k].width <= feat.Length0 ==>
               bands[k].offset + bands[k].width <= feat.Length0
    modifies feat
    ensures ok == (FirstTooWide(bands, feat.Length0) == |bands|)
    ensures MatrixOf(feat) == TimeMasked(old(MatrixOf(feat)), bands[..FirstTooWide(bands, feat.Length0)])
  {
    ghost var m0 := MatrixOf(feat);
    var seqLen := feat.Length0;
    for i := 0 to |bands|
      invariant forall k :: 0 <= k < i ==> bands[k].width <= seqLen
      invariant MatrixOf(feat) == TimeMasked(m0, bands[..i])
    {
      var band := bands[i];
      if band.width > seqLen {
        assert FirstTooWide(bands, seqLen) == i;
        return false;
      }
      ZeroRowBand(feat, band);
      assert bands[..i + 1][..i] == bands[..i];
    }
    assert bands[..|bands|] == bands;
    return true;
  }

  /** The frequency-mask loop: applies the bands in order and stops at the
      first one wider than the feature axis, reporting whether all were
      applied. */
  method MaskFreq(feat: array2<real>, bands: seq<Band>) returns (ok: bool)
    requires forall k :: 0 <= k < |bands| ==> bands[k].width <= feat.Length1 ==>
               bands[k].offset + bands[k].width <= feat.Length1
    modifies feat
    ensures ok == (FirstTooWide(bands, feat.Length1) == |bands|)
    ensures MatrixOf(feat) == FreqMasked(old(MatrixOf(feat)), bands[..FirstTooWide(bands, feat.Length1)])
  {
    ghost var m0 := MatrixOf(feat);
    var featSize := feat.Length1;
    for i := 0 to |bands|
      invariant forall k :: 0 <= k < i ==> bands[k].width <= featSize
      invariant MatrixOf(feat) == FreqMasked(m0, bands[..i])
    {
      var band := bands[i];
      if band.width > featSize {
        assert FirstTooWide(bands, featSize) == i;
        return false;
      }
      ZeroColBand(feat, band);
      assert bands[..i + 1][..i] == bands[..i];
    }
    assert bands[..|bands|] == bands;
    return true;
  }

  /** `spec_augment(feat, T = 70, F = 20, time_mask_num = 2, freq_mask_num = 2)`
      with the random draws given as `timeBands` and `freqBands`: exactly
      `len(range(time_mask_num))` time bands and `len(range(freq_mask_num))`
      frequency bands are drawn.  The tensor is masked in place and the same
      tensor is returned; a draw whose width exceeds its axis raises,
      leaving the bands drawn before it applied. */
  method Run(feat: array2<real>, timeBands: seq<Band>, freqBands: seq<Band>,
             T: nat := 70, F: nat := 20, timeMaskNum: int := 2, freqMaskNum: int := 2)
    returns (r: Result<array2<real>>)
    requires |timeBands| == RangeLength(timeMaskNum) && |freqBands| == RangeLength(freqMaskNum)
    requires forall k :: 0 <= k < |timeBands| ==> Drawn(timeBands[k], T, feat.Length0)
    requires forall k :: 0 <= k < |freqBands| ==> Drawn(freqBands[k], F, feat.Length1)
    modifies feat
    ensures MatrixOf(feat) == Augmented(old(MatrixOf(feat)), feat.Length0, feat.Length1, timeBands, freqBands)
    ensures r == if Raises(feat.Length0, feat.Length1, timeBands, freqBands) then Err(EmptyRange) else Ok(feat)
  {
    var timeOk := MaskTime(feat, timeBands);
    if !timeOk {
      return Err(EmptyRange);
    }
    var freqOk := MaskFreq(feat, freqBands);
    if !freqOk {
      return Err(EmptyRange);
    }
    return Ok(feat);
  }
}
