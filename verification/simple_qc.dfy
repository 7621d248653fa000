/**
  `quality_control/simple_qc.py`: every `sub-*` folder of a BIDS tree gets the mean and the
  spread of the intensities of its T1-weighted image over the voxels above zero; a subject
  whose image cannot be read gets NaN for both; subjects whose mean lies beyond 1.5
  interquartile ranges from the quartiles are flagged as outliers.  Intensities are reals,
  NaN is `None`, and the process pool is a sequential loop over the completion order.
*/
module SimpleQc {
  import opened Wrappers
  import opened Paths
  import opened Ordering
  import opened Sequences

  /**
    The two image quality metrics of one subject.  The spread is kept as the population
    variance, the square of the standard deviation numpy reports.
  */
  datatype Metrics = Metrics(mean: Option<real>, variance: Option<real>)

  /** `os.path.join(bids_dir, sub, "anat", f"{sub}_T1w.nii.gz")`. */
  function ImagePath(bidsDir: Path, sub: string): Path {
    bidsDir + [sub, "anat", sub + "_T1w.nii.gz"]
  }

  function Sum(xs: seq<real>): real {
    if xs == [] then 0.0 else Sum(xs[..|xs| - 1]) + xs[|xs| - 1]
  }

  /** `data[data > 0]`: the voxels of the brain mask, in voxel order. */
  function Positive(voxels: seq<real>): seq<real> {
    Filter(voxels, x => x > 0.0)
  }

  function Mean(xs: seq<real>): real
    requires xs != []
  {
    Sum(xs) / |xs| as real
  }

  function Variance(xs: seq<real>): real
    requires xs != []
  {
    Mean(SquaredDeviations(xs, Mean(xs)))
  }

  /** The squared distances of the values from `c`. */
  function SquaredDeviations(xs: seq<real>, c: real): seq<real> {
    Map(xs, x => (x - c) * (x - c))
  }

  /**
    `compute_iqm(sub)`.  `read` stands for `nib.load(...).get_fdata()`: `None` when it raises,
    and then both metrics are NaN.  With no voxel above zero numpy returns NaN for both without
    raising.
  */
  function ComputeIqm(read: Path -> Option<seq<real>>, bidsDir: Path, sub: string): (r: (string, Metrics))
    ensures r.0 == sub
  {
    match read(ImagePath(bidsDir, sub))
    case None => (sub, Metrics(None, None))
    case Some(data) =>
      var brain := Positive(data);
      if brain == [] then (sub, Metrics(None, None))
      else (sub, Metrics(Some(Mean(brain)), Some(Variance(brain))))
  }

  lemma {:induction false} SumBounds(xs: seq<real>, lo: real, hi: real)
    requires forall i :: 0 <= i < |xs| ==> lo <= xs[i] <= hi
    ensures |xs| as real * lo <= Sum(xs) <= |xs| as real * hi
  {
    if xs != [] {
      SumBounds(xs[..|xs| - 1], lo, hi);
    }
  }

  /** A mean lies between any lower and upper bound of its values. */
  lemma MeanBounds(xs: seq<real>, lo: real, hi: real)
    requires xs != []
    requires forall i :: 0 <= i < |xs| ==> lo <= xs[i] <= hi
    ensures lo <= Mean(xs) <= hi
  {
    SumBounds(xs, lo, hi);
    var n := |xs| as real;
    assert Mean(xs) * n == Sum(xs);
  }

  lemma SquareNotNegative(x: real)
    ensures x * x >= 0.0
  {
    if x < 0.0 {
      assert x * x == (-x) * (-x);
    }
  }

  /** Over a non-empty set of values, the mean is one of them or between two. */
  lemma MeanWithinValues(xs: seq<real>)
    requires xs != []
    ensures exists i :: 0 <= i < |xs| && xs[i] <= Mean(xs)
    ensures exists i :: 0 <= i < |xs| && Mean(xs) <= xs[i]
  {
    var lo, hi := Extremes(xs);
    MeanBounds(xs, xs[lo], xs[hi]);
  }

  /** The variance, a mean of squares, is not negative. */
  lemma VarianceNotNegative(xs: seq<real>)
    requires xs != []
    ensures Variance(xs) >= 0.0
  {
    var mu := Mean(xs);
    var squares := SquaredDeviations(xs, mu);
    forall i | 0 <= i < |squares|
      ensures squares[i] >= 0.0
    {
      SquareNotNegative(xs[i] - mu);
    }
    var _, top := Extremes(squares);
    MeanBounds(squares, 0.0, squares[top]);
  }

  /**
    The metrics of a subject are known exactly when its image was read and has a voxel above
    zero; the mean then lies between two such voxels, so it is above zero, and the variance is
    not negative.
  */
  lemma IqmOverBrainVoxels(read: Path -> Option<seq<real>>, bidsDir: Path, sub: string)
    ensures
      var m := ComputeIqm(read, bidsDir, sub).1;
      var data := read(ImagePath(bidsDir, sub));
      && (m.mean.Some? <==> data.Some? && (exists x :: x in data.value && x > 0.0))
      && (m.mean.Some? <==> m.variance.Some?)
      && (m.mean.Some? ==>
            && m.mean.value > 0.0 && m.variance.value >= 0.0
            && (exists x :: x in data.value && x > 0.0 && x <= m.mean.value)
            && (exists x :: x in data.value && x > 0.0 && m.mean.value <= x))
  {
    var data := read(ImagePath(bidsDir, sub));
    if data.Some? {
      var brain := Positive(data.value);
      assert forall x :: x in data.value && x > 0.0 <==> x in brain;
      if brain != [] {
        MeanWithinValues(brain);
        VarianceNotNegative(brain);
        var i :| 0 <= i < |brain| && brain[i] <= Mean(brain);
        var j :| 0 <= j < |brain| && Mean(brain) <= brain[j];
        assert brain[i] in brain && brain[j] in brain;
      }
    }
  }

  /**
    Only the voxels above zero count: two reads that agree on the voxels above zero give the
    same metrics, whatever zero or negative voxels lie around them.
  */
  lemma IqmIgnoresNonPositiveVoxels(read: Path -> Option<seq<real>>, read': Path -> Option<seq<real>>,
                                    bidsDir: Path, sub: string)
    requires read(ImagePath(bidsDir, sub)).Some? && read'(ImagePath(bidsDir, sub)).Some?
    requires Positive(read(ImagePath(bidsDir, sub)).value) == Positive(read'(ImagePath(bidsDir, sub)).value)
    ensures ComputeIqm(read, bidsDir, sub) == ComputeIqm(read', bidsDir, sub)
  {
  }

  /**
    When known, the metrics are the moments of the voxels above zero: the mean times their
    number is their sum, and the spread times their number is the sum of their squared
    distances from the mean (`std` with numpy's default `ddof=0`, squared).  When all those
    voxels are equal, the mean is their value and the spread is zero.
  */
  lemma IqmMoments(read: Path -> Option<seq<real>>, bidsDir: Path, sub: string, data: seq<real>)
    requires read(ImagePath(bidsDir, sub)) == Some(data)
    ensures
      var m := ComputeIqm(read, bidsDir, sub).1;
      var brain := Positive(data);
      && (m.mean.Some? <==> brain != [])
      && (brain != [] ==>
        && m.mean == Some(Mean(brain)) && m.variance == Some(Variance(brain))
        && Mean(brain) * |brain| as real == Sum(brain)
        && Variance(brain) * |brain| as real == Sum(SquaredDeviations(brain, Mean(brain)))
        && ((forall i :: 0 <= i < |brain| ==> brain[i] == brain[0]) ==> Mean(brain) == brain[0] && Variance(brain) == 0.0))
  {
    var brain := Positive(data);
    IqmOfBrain(read, bidsDir, sub, data);
    if brain != [] {
      Moments(brain);
    }
  }

  lemma IqmOfBrain(read: Path -> Option<seq<real>>, bidsDir: Path, sub: string, data: seq<real>)
    requires read(ImagePath(bidsDir, sub)) == Some(data)
    ensures
      var m := ComputeIqm(read, bidsDir, sub).1;
      var brain := Positive(data);
      && (m.mean.Some? <==> brain != [])
      && (brain != [] ==> m.mean == Some(Mean(brain)) && m.variance == Some(Variance(brain)))
  {
  }

  /** The moments of non-empty values, and those of equal values. */
  lemma Moments(xs: seq<real>)
    requires xs != []
    ensures Mean(xs) * |xs| as real == Sum(xs)
    ensures Variance(xs) * |xs| as real == Sum(SquaredDeviations(xs, Mean(xs)))
    ensures (forall i :: 0 <= i < |xs| ==> xs[i] == xs[0]) ==> Mean(xs) == xs[0] && Variance(xs) == 0.0
  {
    MeanTimesCount(xs);
    VarianceTimesCount(xs);
    if forall i :: 0 <= i < |xs| ==> xs[i] == xs[0] {
      ConstantHasZeroVariance(xs);
    }
  }

  /** The variance times the number of values is the sum of the squared deviations. */
  lemma VarianceTimesCount(xs: seq<real>)
    requires xs != []
    ensures Variance(xs) * |xs| as real == Sum(SquaredDeviations(xs, Mean(xs)))
  {
    var squares := SquaredDeviations(xs, Mean(xs));
    MeanTimesCount(squares);
  }

  /** The mean times the number of values is their sum. */
  lemma MeanTimesCount(xs: seq<real>)
    requires xs != []
    ensures Mean(xs) * |xs| as real == Sum(xs)
  {
  }

  /** Equal values have that value as their mean and zero variance. */
  lemma ConstantHasZeroVariance(xs: seq<real>)
    requires xs != []
    requires forall i :: 0 <= i < |xs| ==> xs[i] == xs[0]
    ensures Mean(xs) == xs[0] && Variance(xs) == 0.0
  {
    MeanBounds(xs, xs[0], xs[0]);
    var squares := SquaredDeviations(xs, Mean(xs));
    MeanBounds(squares, 0.0, 0.0);
  }

  /** The positions of a least and of a greatest element. */
  lemma {:induction false} Extremes(xs: seq<real>) returns (lo: nat, hi: nat)
    requires xs != []
    ensures lo < |xs| && hi < |xs|
    ensures forall i :: 0 <= i < |xs| ==> xs[lo] <= xs[i] <= xs[hi]
  {
    if |xs| == 1 {
      return 0, 0;
    }
    var l, h := Extremes(xs[..|xs| - 1]);
    var last := |xs| - 1;
    lo := if xs[last] < xs[l] then last else l;
    hi := if xs[last] > xs[h] then last else h;
  }

  /** `[d for d in os.listdir(bids_dir) if d.startswith("sub-")]`. */
  function Subjects(entries: seq<string>): (r: seq<string>)
    ensures forall d :: d in r <==> d in entries && StartsWith(d, "sub-")
    ensures IsSubsequence(r, entries)
  {
    FilterKeepsOrder(entries, d => StartsWith(d, "sub-"));
    Filter(entries, d => StartsWith(d, "sub-"))
  }

  /** The `iqm` dictionary once every future has completed: one entry per subject. */
  function IqmTable(read: Path -> Option<seq<real>>, bidsDir: Path, subjects: seq<string>): (r: map<string, Metrics>)
    ensures forall s :: s in r <==> s in subjects
    ensures forall s :: s in r ==> (r[s].mean.Some? <==> r[s].variance.Some?)
  {
    map s | s in subjects :: ComputeIqm(read, bidsDir, s).1
  }

  /**
    Lines 50 to 59.  `completion` is the order `as_completed` yields the futures in: the
    positions in `subjects` of the subjects whose computation finished, each at least once.
    Whatever that order, every subject ends up with exactly the entry its own computation
    gave, and with nothing else.
  */
  method CollectIqm(read: Path -> Option<seq<real>>, bidsDir: Path, subjects: seq<string>, completion: seq<nat>)
    returns (iqm: map<string, Metrics>)
    requires forall k :: 0 <= k < |completion| ==> completion[k] < |subjects|
    requires forall i :: 0 <= i < |subjects| ==> i in completion
    ensures iqm == IqmTable(read, bidsDir, subjects)
  {
    iqm := map[];
    for k := 0 to |completion|
      invariant iqm.Keys == set j | 0 <= j < |subjects| && j in completion[..k] :: subjects[j]
      invariant forall s :: s in iqm ==> iqm[s] == ComputeIqm(read, bidsDir, s).1
    {
      var (sub, metrics) := ComputeIqm(read, bidsDir, subjects[completion[k]]);
      iqm := iqm[sub := metrics];
      assert completion[..k + 1] == completion[..k] + [completion[k]];
    }
    assert completion[..|completion|] == completion;
    forall s | s in subjects
      ensures s in iqm
    {
      var i :| 0 <= i < |subjects| && subjects[i] == s;
      assert i in completion;
    }
  }

  /**
    Failure isolation: whatever happens when another subject's image is read (an exception
    included), a subject's own entry is unchanged, because no two subjects share an image path.
  */
  lemma OtherSubjectsUnaffected(read: Path -> Option<seq<real>>, read': Path -> Option<seq<real>>, bidsDir: Path,
                                subjects: seq<string>, failed: string, sub: string)
    requires sub in subjects && sub != failed
    requires forall p :: p != ImagePath(bidsDir, failed) ==> read(p) == read'(p)
    ensures IqmTable(read, bidsDir, subjects)[sub] == IqmTable(read', bidsDir, subjects)[sub]
  {
    assert ImagePath(bidsDir, sub)[|bidsDir|] == sub;
    assert ImagePath(bidsDir, failed)[|bidsDir|] == failed;
  }

  predicate RealLe(a: real, b: real) {
    a <= b
  }

  lemma RealLeTotalOrder()
    ensures TotalOrder(RealLe)
  {
  }

  /**
    `Series.quantile(q)` with pandas' default linear interpolation over the values sorted
    ascending: the value at the fractional position `(n - 1) * q`.
  */
  function Quantile(v: seq<real>, q: real): (r: real)
    requires v != [] && 0.0 <= q <= 1.0
    ensures Sorted(v, RealLe) ==> v[0] <= r <= v[|v| - 1]
  {
    var h := Position(|v|, q);
    if Sorted(v, RealLe) then
      InterpolateMonotone(v, h, h);
      Interpolate(v, h)
    else Interpolate(v, h)
  }

  /** The value at fractional position `h`: between `v[⌊h⌋]` and the next value. */
  function Interpolate(v: seq<real>, h: real): real
    requires 0.0 <= h <= (|v| - 1) as real
  {
    var lo := h.Floor;
    var hi := if lo + 1 < |v| then lo + 1 else lo;
    v[lo] + (h - lo as real) * (v[hi] - v[lo])
  }

  /** The interpolated value lies between the two values it interpolates. */
  lemma InterpolateBetween(v: seq<real>, h: real)
    requires Sorted(v, RealLe) && 0.0 <= h <= (|v| - 1) as real
    ensures var lo := h.Floor; var hi := if lo + 1 < |v| then lo + 1 else lo;
      v[lo] <= Interpolate(v, h) <= v[hi]
  {
    var lo := h.Floor;
    var hi := if lo + 1 < |v| then lo + 1 else lo;
    assert RealLe(v[lo], v[hi]);
    InterpolationBetween(v[lo], v[hi], h - lo as real);
  }

  /** Interpolating in sorted values grows with the position and stays between the ends. */
  lemma InterpolateMonotone(v: seq<real>, h: real, h': real)
    requires Sorted(v, RealLe) && 0.0 <= h <= h' <= (|v| - 1) as real
    ensures v[0] <= Interpolate(v, h) <= Interpolate(v, h') <= v[|v| - 1]
  {
    var n := |v|;
    var lo, lo' := h.Floor, h'.Floor;
    var hi := if lo + 1 < n then lo + 1 else lo;
    var hi' := if lo' + 1 < n then lo' + 1 else lo';
    InterpolateBetween(v, h);
    InterpolateBetween(v, h');
    assert RealLe(v[0], v[lo]) && RealLe(v[hi'], v[n - 1]);
    if lo == lo' {
      var t, t' := h - lo as real, h' - lo as real;
      var d := v[hi] - v[lo];
      assert RealLe(v[lo], v[hi]);
      ProductNotNegative(t' - t, d);
      assert (t' - t) * d == t' * d - t * d;
    } else {
      assert hi <= lo';
      assert RealLe(v[hi], v[lo']);
    }
  }

  /** The first quartile of sorted values is at most the third, and both lie between the ends. */
  lemma QuartilesMonotone(v: seq<real>)
    requires v != [] && Sorted(v, RealLe)
    ensures v[0] <= Quantile(v, 0.25) <= Quantile(v, 0.75) <= v[|v| - 1]
  {
    InterpolateMonotone(v, Position(|v|, 0.25), Position(|v|, 0.75));
  }

  /** The fractional position `(n - 1) * q` of a quantile among `n` values. */
  function Position(n: nat, q: real): (h: real)
    requires n > 0 && 0.0 <= q <= 1.0
    ensures 0.0 <= h <= (n - 1) as real
  {
    var m := (n - 1) as real;
    ProductNotNegative(m, q);
    ProductNotNegative(m, 1.0 - q);
    m * q
  }

  lemma ProductNotNegative(a: real, b: real)
    requires a >= 0.0 && b >= 0.0
    ensures a * b >= 0.0
  {
  }

  /** A point on the segment between `a <= b` lies between them. */
  lemma InterpolationBetween(a: real, b: real, t: real)
    requires a <= b && 0.0 <= t <= 1.0
    ensures a <= a + t * (b - a) <= b
  {
    assert t * (b - a) <= 1.0 * (b - a);
  }

  /** The `mean` column without its NaN entries, which `quantile` skips. */
  function KnownMeans(iqm: map<string, Metrics>): (r: seq<real>)
    ensures forall x :: x in r <==> exists s :: s in iqm && iqm[s].mean == Some(x)
  {
    StrLeTotalOrder();
    var rows := SortedElements(iqm.Keys, StrLe);
    Known(Map(rows, s => if s in iqm then iqm[s].mean else None))
  }

  /** Every known mean is kept once per subject that has it, duplicates included, as `quantile` counts them. */
  lemma KnownMeansCounted(iqm: map<string, Metrics>)
    ensures forall x :: multiset(KnownMeans(iqm))[x] == |set s | s in iqm && iqm[s].mean == Some(x)|
  {
    StrLeTotalOrder();
    var rows := SortedElements(iqm.Keys, StrLe);
    ColumnOccurrences(iqm, rows, s => if s in iqm then iqm[s].mean else None);
  }

  /** Each known mean is kept once per row of the `mean` column that holds it. */
  lemma ColumnOccurrences(iqm: map<string, Metrics>, rows: seq<string>, column: string -> Option<real>)
    requires forall i, j :: 0 <= i < j < |rows| ==> rows[i] != rows[j]
    requires forall s :: s in rows <==> s in iqm
    requires forall s :: s in iqm ==> column(s) == iqm[s].mean
    ensures forall x :: multiset(Known(Map(rows, column)))[x] == |set s | s in iqm && iqm[s].mean == Some(x)|
  {
    forall x
      ensures multiset(Known(Map(rows, column)))[x] == |set s | s in iqm && iqm[s].mean == Some(x)|
    {
      ColumnOccurrencesOf(iqm, rows, column, x);
    }
  }

  lemma ColumnOccurrencesOf(iqm: map<string, Metrics>, rows: seq<string>, column: string -> Option<real>, x: real)
    requires forall i, j :: 0 <= i < j < |rows| ==> rows[i] != rows[j]
    requires forall s :: s in rows <==> s in iqm
    requires forall s :: s in iqm ==> column(s) == iqm[s].mean
    ensures multiset(Known(Map(rows, column)))[x] == |set s | s in iqm && iqm[s].mean == Some(x)|
  {
    var means := Map(rows, column);
    KnownOccurrences(means, x);
    assert multiset(Known(means))[x] == multiset(means)[Some(x)];
    MapOccurrences(rows, column, Some(x));
    SameRows(iqm, rows, column, x);
  }

  lemma SameRows(iqm: map<string, Metrics>, rows: seq<string>, column: string -> Option<real>, x: real)
    requires forall s :: s in rows <==> s in iqm
    requires forall s :: s in iqm ==> column(s) == iqm[s].mean
    ensures Preimage(rows, column, Some(x)) == set s | s in iqm && iqm[s].mean == Some(x)
  {
  }

  lemma {:induction false} KnownOccurrences(xs: seq<Option<real>>, x: real)
    ensures multiset(Known(xs))[x] == multiset(xs)[Some(x)]
  {
    if xs != [] {
      KnownOccurrences(xs[1..], x);
      assert xs == [xs[0]] + xs[1..];
    }
  }

  function Known(xs: seq<Option<real>>): (r: seq<real>)
    ensures forall x :: x in r <==> Some(x) in xs
  {
    if xs == [] then []
    else
      assert xs == [xs[0]] + xs[1..];
      (if xs[0].Some? then [xs[0].value] else []) + Known(xs[1..])
  }

  /** The known means in ascending order. */
  function SortedMeans(iqm: map<string, Metrics>): (v: seq<real>)
    ensures Sorted(v, RealLe) && multiset(v) == multiset(KnownMeans(iqm))
  {
    RealLeTotalOrder();
    SortBy(KnownMeans(iqm), RealLe)
  }

  /** `q1, q3 = df["mean"].quantile([0.25, 0.75])`; both NaN when no mean is known. */
  function Quartiles(iqm: map<string, Metrics>): (r: (Option<real>, Option<real>))
    ensures r.0.Some? <==> r.1.Some?
    ensures r.0.Some? <==> SortedMeans(iqm) != []
    ensures r.0.Some? ==> r.0.value <= r.1.value
  {
    var v := SortedMeans(iqm);
    if v == [] then (None, None)
    else
      QuartilesMonotone(v);
      (Some(Quantile(v, 0.25)), Some(Quantile(v, 0.75)))
  }

  /**
    `(df["mean"] < lower) | (df["mean"] > upper)` for one row, with the Tukey fences
    `lower = q1 - 1.5 * iqr` and `upper = q3 + 1.5 * iqr`; a comparison with NaN is false.
  */
  function IsOutlier(mean: Option<real>, q1: Option<real>, q3: Option<real>): (b: bool)
    ensures b ==> mean.Some? && q1.Some? && q3.Some?
    ensures b && q1.value <= q3.value ==> mean.value < q1.value || mean.value > q3.value
    ensures q1.Some? && q3.Some? && q1.value <= q3.value ==>
      (b <==> mean.Some? && DistanceOutside(mean.value, q1.value, q3.value) > 1.5 * (q3.value - q1.value))
  {
    && mean.Some? && q1.Some? && q3.Some?
    && var iqr := q3.value - q1.value;
       mean.value < q1.value - 1.5 * iqr || mean.value > q3.value + 1.5 * iqr
  }

  /** How far `x` lies outside the interval `[lo, hi]`: zero inside it. */
  function DistanceOutside(x: real, lo: real, hi: real): real {
    if x < lo then lo - x else if x > hi then x - hi else 0.0
  }

  datatype QcError =
    /** `DataFrame.from_dict({})` has no `mean` column, so `df["mean"]` raises `KeyError`. */
    NoMeanColumn

  /** The `outlier` column of lines 64 to 74, keyed by subject. */
  function Outliers(iqm: map<string, Metrics>): (r: Result<map<string, bool>, QcError>)
    ensures r.Err? <==> iqm == map[]
    ensures r.Ok? ==> r.value.Keys == iqm.Keys
  {
    if iqm == map[] then Err(NoMeanColumn)
    else
      var (q1, q3) := Quartiles(iqm);
      Ok(map s | s in iqm :: IsOutlier(iqm[s].mean, q1, q3))
  }

  /** The sorted known means: empty exactly when no mean is known, with known means at both ends. */
  lemma SortedKnownMeans(iqm: map<string, Metrics>)
    ensures var v := SortedMeans(iqm);
      && (v == [] <==> forall s :: s in iqm ==> iqm[s].mean.None?)
      && (v != [] ==> exists s :: s in iqm && iqm[s].mean == Some(v[0]))
      && (v != [] ==> exists s :: s in iqm && iqm[s].mean == Some(v[|v| - 1]))
  {
    var known := KnownMeans(iqm);
    var v := SortedMeans(iqm);
    if v == [] {
      forall s | s in iqm && iqm[s].mean.Some?
        ensures false
      {
      }
    } else {
      assert v[0] in multiset(known) && v[|v| - 1] in multiset(known);
      assert v[0] in known && v[|v| - 1] in known;
    }
  }

  /**
    The quartiles are known exactly when some mean is; then the first is at most the third,
    and both lie between two known means.
  */
  lemma QuartilesOrdered(iqm: map<string, Metrics>)
    ensures Quartiles(iqm).0.Some? <==> exists s :: s in iqm && iqm[s].mean.Some?
    ensures Quartiles(iqm).0.Some? <==> Quartiles(iqm).1.Some?
    ensures Quartiles(iqm).0.Some? ==>
      && Quartiles(iqm).0.value <= Quartiles(iqm).1.value
      && (exists s :: s in iqm && iqm[s].mean.Some? && iqm[s].mean.value <= Quartiles(iqm).0.value)
      && (exists s :: s in iqm && iqm[s].mean.Some? && Quartiles(iqm).1.value <= iqm[s].mean.value)
  {
    var v := SortedMeans(iqm);
    SortedKnownMeans(iqm);
    if v != [] {
      QuartilesMonotone(v);
      var q1, q3 := Quantile(v, 0.25), Quantile(v, 0.75);
      assert Quartiles(iqm) == (Some(q1), Some(q3));
    }
  }

  /**
    A flagged subject has a known mean outside the interquartile range: a missing mean, and a
    mean between the quartiles, are never flagged.
  */
  lemma FlaggedOnlyOutsideQuartiles(iqm: map<string, Metrics>, s: string)
    requires s in iqm
    ensures Outliers(iqm).Ok?
    ensures Outliers(iqm).value[s] ==>
      && iqm[s].mean.Some? && Quartiles(iqm).0.Some?
      && (iqm[s].mean.value < Quartiles(iqm).0.value || iqm[s].mean.value > Quartiles(iqm).1.value)
  {
    QuartilesOrdered(iqm);
  }

  /**
    The Tukey rule, both ways: a subject is flagged exactly when its mean is known and lies
    below `q1 - 1.5 * iqr` or above `q3 + 1.5 * iqr`, that is, more than one and a half
    interquartile ranges away from the interquartile range.
  */
  lemma FlaggedExactlyBeyondFences(iqm: map<string, Metrics>, s: string)
    requires s in iqm
    ensures Outliers(iqm).Ok?
    ensures Outliers(iqm).value[s] <==>
      && iqm[s].mean.Some? && Quartiles(iqm).0.Some?
      && var m, q1, q3 := iqm[s].mean.value, Quartiles(iqm).0.value, Quartiles(iqm).1.value;
         m < q1 - 1.5 * (q3 - q1) || m > q3 + 1.5 * (q3 - q1)
    ensures Outliers(iqm).value[s] <==>
      && iqm[s].mean.Some? && Quartiles(iqm).0.Some?
      && var q1, q3 := Quartiles(iqm).0.value, Quartiles(iqm).1.value;
         DistanceOutside(iqm[s].mean.value, q1, q3) > 1.5 * (q3 - q1)
  {
  }

  /**
    The subjects left unflagged cover an interval of means: a known mean between two
    unflagged ones is unflagged too, so the flagged means are the lowest and the highest.
  */
  lemma UnflaggedMeansConvex(iqm: map<string, Metrics>, s: string, t: string, u: string)
    requires s in iqm && t in iqm && u in iqm
    requires iqm[s].mean.Some? && iqm[t].mean.Some? && iqm[u].mean.Some?
    requires iqm[s].mean.value <= iqm[t].mean.value <= iqm[u].mean.value
    ensures Outliers(iqm).Ok?
    ensures !Outliers(iqm).value[s] && !Outliers(iqm).value[u] ==> !Outliers(iqm).value[t]
  {
    FlaggedExactlyBeyondFences(iqm, s);
    FlaggedExactlyBeyondFences(iqm, t);
    FlaggedExactlyBeyondFences(iqm, u);
  }

  /** With no mean known at all, nobody is flagged. */
  lemma NoKnownMeanNoFlag(iqm: map<string, Metrics>)
    requires iqm != map[]
    requires forall s :: s in iqm ==> iqm[s].mean.None?
    ensures Outliers(iqm).Ok? && forall s :: s in iqm ==> !Outliers(iqm).value[s]
  {
  }
}
