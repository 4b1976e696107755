// The aerofoil data builder (vawt/aerofoil.cpp): polar rows kept sorted by
// Reynolds number, the finite-aspect-ratio rewrite of each row, resampling
// onto a shared angle grid, and the flattening that feeds the 2-D surface.

module AerofoilData {
  import opened Numerics

  /** One polar, `std::tuple<double, vector<double>, vector<double>, vector<double>>`:
      the Reynolds number and parallel samples of alpha (radians), cl and cd. */
  datatype DataRow = DataRow(re: real, alpha: seq<real>, cl: seq<real>, cd: seq<real>)

  /** The builder's list of rows. */
  type DataSet = seq<DataRow>

  /** One parsed line of a polar file: alpha in degrees, cl, cd. */
  datatype Sample = Sample(alphaDeg: real, cl: real, cd: real)

  /** The (alpha, cl, cd) triple a `DataPoint` refers to. */
  datatype Point = Point(alpha: real, cl: real, cd: real)

  /** The configured aspect ratio; the builder starts out with an infinite one. */
  datatype AspectRatio = Infinite | Finite(value: real)

  /** The exceptions the builder throws: its three messages, and the
      `std::length_error` of `reserve` asked for a negative length. */
  datatype BuildError = DuplicateRe | AsymmetricProfile | StallNotFound | LengthError

  /** Four flat, parallel columns (alpha, re, cl, cd): one entry per sample
      of every row. */
  datatype FlatData = FlatData(alpha: seq<real>, re: seq<real>, cl: seq<real>, cd: seq<real>)

  /** What `build` hands to the `Aerofoil` constructor: the flat columns and
      the symmetry flag. The bilinear surfaces built over them belong to an
      external library. */
  datatype Aerofoil = Aerofoil(columns: FlatData, symmetric: bool)

  /** `_1D::LinearInterpolator(xs, ys)(x)`, an external library. */
  type Interp1D = (seq<real>, seq<real>, real) -> real

  predicate WellFormed(row: DataRow)
  {
    |row.alpha| == |row.cl| == |row.cd|
  }

  predicate AllWellFormed(rows: DataSet)
  {
    forall i :: 0 <= i < |rows| ==> WellFormed(rows[i])
  }

  predicate SortedByRe(rows: DataSet)
  {
    forall i, j :: 0 <= i < j < |rows| ==> rows[i].re <= rows[j].re
  }

  predicate StrictlySortedByRe(rows: DataSet)
  {
    forall i, j :: 0 <= i < j < |rows| ==> rows[i].re < rows[j].re
  }

  predicate StrictlyIncreasing(s: seq<real>)
  {
    forall i, j :: 0 <= i < j < |s| ==> s[i] < s[j]
  }

  /** `contains_re`: some row already carries this Reynolds number. */
  predicate ContainsRe(rows: DataSet, re: real)
  {
    exists i :: 0 <= i < |rows| && rows[i].re == re
  }

  // ---------------------------------------------------------------------------
  // Sorted insertion (add_data)
  // ---------------------------------------------------------------------------

  /** The position `std::lower_bound` finds: the number of leading rows whose
      key is below `re`. */
  function FirstNotBelow(rows: DataSet, re: real): (p: nat)
    ensures p <= |rows|
    ensures forall j :: 0 <= j < p ==> rows[j].re < re
    ensures p < |rows| ==> re <= rows[p].re
  {
    if rows == [] || re <= rows[0].re then 0 else 1 + FirstNotBelow(rows[1..], re)
  }

  /** `vector::insert(it, row)` */
  function Inserted(rows: DataSet, p: nat, row: DataRow): DataSet
    requires p <= |rows|
  {
    rows[..p] + [row] + rows[p..]
  }

  /** `std::lower_bound` over the row keys, a binary search. */
  method LowerBound(rows: DataSet, re: real) returns (pos: nat)
    requires SortedByRe(rows)
    ensures pos <= |rows|
    ensures forall j :: 0 <= j < pos ==> rows[j].re < re
    ensures forall j :: pos <= j < |rows| ==> re <= rows[j].re
    ensures pos == FirstNotBelow(rows, re)
  {
    var lo, hi := 0, |rows|;
    while lo < hi
      invariant 0 <= lo <= hi <= |rows|
      invariant forall j :: 0 <= j < lo ==> rows[j].re < re
      invariant forall j :: hi <= j < |rows| ==> re <= rows[j].re
    {
      var mid := lo + (hi - lo) / 2;
      if rows[mid].re < re {
        lo := mid + 1;
      } else {
        hi := mid;
      }
    }
    pos := lo;
    LowerBoundIsFirstNotBelow(rows, re, pos);
  }

  /** The lower-bound conditions pin the position down to `FirstNotBelow`. */
  lemma LowerBoundIsFirstNotBelow(rows: DataSet, re: real, p: nat)
    requires p <= |rows|
    requires forall j :: 0 <= j < p ==> rows[j].re < re
    requires forall j :: p <= j < |rows| ==> re <= rows[j].re
    ensures p == FirstNotBelow(rows, re)
  {
    var q := FirstNotBelow(rows, re);
    // bring the two keys the argument turns on into play
    var atQ := if q < |rows| then rows[q].re else re;
    var atP := if p < |rows| then rows[p].re else re;
  }

  /** Where each row of `Inserted` comes from. */
  lemma InsertedAt(rows: DataSet, p: nat, row: DataRow, k: nat)
    requires p <= |rows| && k <= |rows|
    ensures var r := Inserted(rows, p, row);
            |r| == |rows| + 1 && r[k] == (if k < p then rows[k] else if k == p then row else rows[k - 1])
  {
  }

  /** Inserting at the lower bound keeps a sorted list sorted, grows it by
      one, and leaves every old row in its relative order. */
  lemma InsertAtLowerBound(rows: DataSet, row: DataRow)
    requires SortedByRe(rows)
    ensures var p := FirstNotBelow(rows, row.re);
            var r := Inserted(rows, p, row);
            && SortedByRe(r)
            && |r| == |rows| + 1
            && r[p] == row
            && r[..p] + r[p + 1..] == rows
  {
    var p := FirstNotBelow(rows, row.re);
    var r := Inserted(rows, p, row);
    forall i, j | 0 <= i < j < |r| ensures r[i].re <= r[j].re {
      InsertedAt(rows, p, row, i);
      InsertedAt(rows, p, row, j);
      if i < p && p < j {
        assert rows[i].re <= rows[p].re;
      }
    }
    InsertedKeepsOthers(rows, p, row);
  }

  /** Removing the inserted row gives back the rows as they were. */
  lemma InsertedKeepsOthers(rows: DataSet, p: nat, row: DataRow)
    requires p <= |rows|
    ensures var r := Inserted(rows, p, row); r[..p] + r[p + 1..] == rows
  {
    var r := Inserted(rows, p, row);
    assert r[..p] == rows[..p];
    assert r[p + 1..] == rows[p..];
  }

  /** When the key is new, inserting at the lower bound keeps the keys strictly increasing. */
  lemma InsertNewKeyKeepsStrictOrder(rows: DataSet, row: DataRow)
    requires StrictlySortedByRe(rows)
    requires !ContainsRe(rows, row.re)
    ensures StrictlySortedByRe(Inserted(rows, FirstNotBelow(rows, row.re), row))
  {
    var p := FirstNotBelow(rows, row.re);
    var r := Inserted(rows, p, row);
    forall i, j | 0 <= i < j < |r| ensures r[i].re < r[j].re {
      InsertedAt(rows, p, row, i);
      InsertedAt(rows, p, row, j);
      if i == p {
        assert rows[j - 1].re != row.re;
      }
    }
  }

  /** The row `load_data` assembles from the parsed lines (angles converted to radians). */
  function ParseRow(re: real, samples: seq<Sample>): (row: DataRow)
    ensures WellFormed(row) && row.re == re && |row.alpha| == |samples|
    ensures forall i :: 0 <= i < |samples| ==>
              row.alpha[i] * ToDeg == samples[i].alphaDeg && row.cl[i] == samples[i].cl && row.cd[i] == samples[i].cd
  {
    DataRow(re,
            seq(|samples|, i requires 0 <= i < |samples| => samples[i].alphaDeg * ToRad),
            seq(|samples|, i requires 0 <= i < |samples| => samples[i].cl),
            seq(|samples|, i requires 0 <= i < |samples| => samples[i].cd))
  }

  // ---------------------------------------------------------------------------
  // Aspect-ratio rewrite of one row (transform_row and its helpers)
  // ---------------------------------------------------------------------------

  /** `lanchester_prandtl`: the finite-span correction of one pre-stall sample.
      Lift is left alone; drag and angle grow by cl^2/(pi*ar) and cl/(pi*ar). */
  function LanchesterPrandtl(p: Point, ar: real): (q: Point)
    ensures q.cl == p.cl
    ensures ar > 0.0 ==> q.cd >= p.cd
    ensures ar != 0.0 ==> (q.cd - p.cd) * (Pi * ar) == p.cl * p.cl
    ensures ar != 0.0 ==> (q.alpha - p.alpha) * (Pi * ar) == p.cl
  {
    var q := Point(p.alpha + FDiv(p.cl, Pi * ar), p.cl, p.cd + FDiv(p.cl * p.cl, Pi * ar));
    assert ar > 0.0 ==> FDiv(p.cl * p.cl, Pi * ar) >= 0.0 by {
      if ar > 0.0 {
        NonNegativeQuotient(p.cl * p.cl, Pi * ar);
      }
    }
    q
  }

  lemma NonNegativeQuotient(a: real, b: real)
    requires a >= 0.0 && b > 0.0
    ensures FDiv(a, b) >= 0.0
  {
  }

  /** The post-stall maximum drag coefficient of the Viterna-Corrigan model. */
  function CdMax(ar: real): (m: real)
    ensures ar > 50.0 ==> m == 2.01
    ensures ar <= 50.0 ==> m == 1.1 + 0.018 * ar
    ensures 0.0 <= ar ==> 1.1 <= m <= 2.01
  {
    if ar > 50.0 then 2.01 else 1.1 + 0.018 * ar
  }

  /** Viterna-Corrigan lift at an angle with sine `sa` and cosine `ca` and
      double-angle sine `s2a`, anchored at a stall sample with lift `cl`
      whose angle has sine `s` and cosine `c`. */
  function ViternaLift(cdMax: real, s: real, c: real, cl: real, sa: real, ca: real, s2a: real): real
  {
    var kl := FDiv((cl - cdMax * s * c) * s, Sq(c));
    cdMax / 2.0 * s2a + FDiv(kl * Sq(ca), sa)
  }

  /** Viterna-Corrigan drag, likewise, anchored at stall drag `cd`. */
  function ViternaDrag(cdMax: real, s: real, c: real, cd: real, sa: real, ca: real): real
  {
    var kd := FDiv(cd - cdMax * Sq(s), c);
    cdMax * Sq(sa) + kd * ca
  }

  /** `viterna_corrigan`: the synthesised post-stall sample at angle `alpha`,
      anchored at the (corrected) stall sample. */
  function ViternaCorrigan(t: Trig, alpha: real, stall: Point, ar: real): (p: Point)
    ensures p.alpha == alpha
  {
    var cdMax := CdMax(ar);
    var s, c := t.sin(stall.alpha), t.cos(stall.alpha);
    Point(alpha,
          ViternaLift(cdMax, s, c, stall.cl, t.sin(alpha), t.cos(alpha), t.sin(2.0 * alpha)),
          ViternaDrag(cdMax, s, c, stall.cd, t.sin(alpha), t.cos(alpha)))
  }

  /** Evaluated at the stall angle itself, the extrapolation gives back the
      stall sample: the post-stall curve continues the measured one (given
      non-zero sine and cosine there and the double-angle identity). */
  lemma ViternaCorriganMatchesStall(t: Trig, stall: Point, ar: real)
    requires t.sin(stall.alpha) != 0.0 && t.cos(stall.alpha) != 0.0
    requires t.sin(2.0 * stall.alpha) == 2.0 * t.sin(stall.alpha) * t.cos(stall.alpha)
    ensures ViternaCorrigan(t, stall.alpha, stall, ar) == stall
  {
    var s, c := t.sin(stall.alpha), t.cos(stall.alpha);
    DragAtStall(CdMax(ar), s, c, stall.cd);
    LiftAtStall(CdMax(ar), s, c, stall.cl, t.sin(2.0 * stall.alpha));
  }

  lemma DragAtStall(cdMax: real, s: real, c: real, cd: real)
    requires c != 0.0
    ensures ViternaDrag(cdMax, s, c, cd, s, c) == cd
  {
    assert FDiv(cd - cdMax * Sq(s), c) * c == cd - cdMax * Sq(s);
  }

  lemma LiftAtStall(cdMax: real, s: real, c: real, cl: real, s2a: real)
    requires s != 0.0 && c != 0.0 && s2a == 2.0 * s * c
    ensures ViternaLift(cdMax, s, c, cl, s, c, s2a) == cl
  {
    var a := cl - cdMax * s * c;
    assert Sq(c) != 0.0;
    assert FDiv(a * s, Sq(c)) * Sq(c) == a * s;
    assert FDiv(a * s, s) == a;
    assert cdMax / 2.0 * s2a == cdMax * s * c;
  }

  /** The index of the first strict decrease of lift at or after `from`:
      the first `i - 1` with `cl[i - 1] > cl[i]`. */
  function FirstDrop(cl: seq<real>, from: nat): (r: Option<nat>)
    decreases |cl| - from
    ensures r.Some? ==> from <= r.value && r.value + 1 < |cl| && cl[r.value] > cl[r.value + 1]
    ensures r.Some? ==> forall j :: from <= j < r.value ==> cl[j] <= cl[j + 1]
    ensures r.None? ==> forall j :: from <= j && j + 1 < |cl| ==> cl[j] <= cl[j + 1]
  {
    if from + 1 >= |cl| then None
    else if cl[from] > cl[from + 1] then Some(from)
    else FirstDrop(cl, from + 1)
  }

  /** The stall index of a lift curve, if it has one. */
  function StallIndex(cl: seq<real>): Option<nat>
  {
    FirstDrop(cl, 0)
  }

  /** `s` is a stall index: lift drops right after it and never before. */
  predicate IsStallIndex(cl: seq<real>, s: nat)
  {
    s + 1 < |cl| && cl[s] > cl[s + 1] && forall j :: 0 <= j < s ==> cl[j] <= cl[j + 1]
  }

  /** `StallIndex` finds exactly the stall index, and finds none exactly when
      lift never decreases. */
  lemma StallIndexCharacterised(cl: seq<real>, s: nat)
    ensures StallIndex(cl) == Some(s) <==> IsStallIndex(cl, s)
    ensures StallIndex(cl) == None <==> forall j :: 0 <= j && j + 1 < |cl| ==> cl[j] <= cl[j + 1]
  {
    var r := StallIndex(cl);
    if r.Some? && IsStallIndex(cl, s) {
      // the two lift values that rule out a second, different stall index
      var v := r.value;
      var pair := (cl[v], cl[s]);
    }
  }

  /** The sample of a row after the pre-stall correction: index 0 as it was,
      the others corrected. */
  function CorrectedPoint(row: DataRow, j: nat, ar: real): Point
    requires WellFormed(row) && j < |row.alpha|
  {
    var p := Point(row.alpha[j], row.cl[j], row.cd[j]);
    if j == 0 then p else LanchesterPrandtl(p, ar)
  }

  /** How many whole-degree samples are synthesised after the stall sample:
      `max(0, 90 - floor(stall angle in degrees))`. */
  function PostStallCount(stall: Point): nat
  {
    var c := 90 - (stall.alpha * ToDeg).Floor;
    if c > 0 then c else 0
  }

  /** `len` of `transform_row`: `s + 91 - floor(stall angle in degrees)`,
      the bound of the post-stall loop. */
  function PostStallBound(row: DataRow, s: nat, ar: real): int
    requires WellFormed(row) && s < |row.alpha|
  {
    s + 90 + 1 - (CorrectedPoint(row, s, ar).alpha * ToDeg).Floor
  }

  /** `reserve(len)` accepts the bound: a negative `len` turns into a
      `size_t` beyond `max_size()`, and `reserve` throws `std::length_error`. */
  predicate LengthFits(row: DataRow, s: nat, ar: real)
    requires WellFormed(row) && s < |row.alpha|
  {
    PostStallBound(row, s, ar) >= 0
  }

  /** The lift drops somewhere and the post-stall length can be reserved:
      `transform_row` rewrites the row of a symmetric profile. */
  predicate Rewritable(row: DataRow, ar: real)
    requires WellFormed(row)
  {
    StallIndex(row.cl).Some? && LengthFits(row, StallIndex(row.cl).value, ar)
  }

  /** Sample `j` of the rewritten row, for stall index `s`: corrected up to
      `s`, extrapolated at `j` degrees after it. */
  function TransformedPoint(t: Trig, row: DataRow, s: nat, ar: real, j: nat): Point
    requires WellFormed(row) && s < |row.alpha|
  {
    if j <= s then CorrectedPoint(row, j, ar)
    else ViternaCorrigan(t, ToRad * j as real, CorrectedPoint(row, s, ar), ar)
  }

  /** The number of samples of the rewritten row. */
  function TransformedLength(row: DataRow, s: nat, ar: real): nat
    requires WellFormed(row) && s < |row.alpha|
  {
    s + 1 + PostStallCount(CorrectedPoint(row, s, ar))
  }

  /** The row `transform_row` leaves behind for stall index `s`. */
  function TransformedRow(t: Trig, row: DataRow, s: nat, ar: real): DataRow
    requires WellFormed(row) && s < |row.alpha|
  {
    var n := TransformedLength(row, s, ar);
    DataRow(row.re,
            seq(n, j requires 0 <= j < n => TransformedPoint(t, row, s, ar, j).alpha),
            seq(n, j requires 0 <= j < n => TransformedPoint(t, row, s, ar, j).cl),
            seq(n, j requires 0 <= j < n => TransformedPoint(t, row, s, ar, j).cd))
  }

  /** Columns that agree with the rewritten row sample by sample are it. */
  lemma TransformedRowFromColumns(t: Trig, row: DataRow, s: nat, ar: real, alpha: seq<real>, cl: seq<real>, cd: seq<real>)
    requires WellFormed(row) && s < |row.alpha|
    requires |alpha| == |cl| == |cd| == TransformedLength(row, s, ar)
    requires forall j :: 0 <= j < |alpha| ==> Point(alpha[j], cl[j], cd[j]) == TransformedPoint(t, row, s, ar, j)
    ensures DataRow(row.re, alpha, cl, cd) == TransformedRow(t, row, s, ar)
  {
    var spec := TransformedRow(t, row, s, ar);
    assert forall j :: 0 <= j < |alpha| ==> alpha[j] == spec.alpha[j] && cl[j] == spec.cl[j] && cd[j] == spec.cd[j];
  }

  /** What `transform_row` does to one row: refuse asymmetric profiles,
      refuse a row whose lift never drops, fail in `reserve` when the
      post-stall bound is negative, otherwise rewrite it. */
  function TransformRowSpec(t: Trig, row: DataRow, symmetric: bool, ar: real): Result<DataRow, BuildError>
    requires WellFormed(row)
  {
    if !symmetric then Err(AsymmetricProfile)
    else match StallIndex(row.cl)
      case None => Err(StallNotFound)
      case Some(s) => if LengthFits(row, s, ar) then Ok(TransformedRow(t, row, s, ar)) else Err(LengthError)
  }

  /** The shape of a rewritten row: same key, equal lengths, the first
      `s + 1` samples kept (index 0 verbatim, the rest with their lift kept and
      their drag raised), then `max(0, 90 - floor(stall degrees))` samples;
      the k-th of them sits at index s + k and at angle s + k whole degrees,
      counted from the stall INDEX, not from the stall angle. */
  lemma TransformedRowShape(t: Trig, row: DataRow, s: nat, ar: real)
    requires WellFormed(row) && IsStallIndex(row.cl, s)
    ensures var r := TransformedRow(t, row, s, ar);
            var stall := CorrectedPoint(row, s, ar);
            && r.re == row.re
            && WellFormed(r)
            && |r.alpha| == s + 1 + PostStallCount(stall)
            && r.alpha[0] == row.alpha[0] && r.cl[0] == row.cl[0] && r.cd[0] == row.cd[0]
            && (forall j :: 0 <= j <= s ==> r.cl[j] == row.cl[j])
            && (ar > 0.0 ==> forall j :: 0 <= j <= s ==> r.cd[j] >= row.cd[j])
            && (forall j :: s < j < |r.alpha| ==>
                  r.alpha[j] == ToRad * j as real
                  && Point(r.alpha[j], r.cl[j], r.cd[j]) == ViternaCorrigan(t, ToRad * j as real, stall, ar))
  {
    var r := TransformedRow(t, row, s, ar);
    forall j | 0 <= j <= s ensures r.cl[j] == row.cl[j] && (ar > 0.0 ==> r.cd[j] >= row.cd[j]) {
      assert r.cl[j] == CorrectedPoint(row, j, ar).cl;
    }
  }

  /** A row whose lift drops right after a stall at 95 degrees: the bound
      `0 + 91 - 95` is negative, so `reserve` throws. */
  lemma SteepStallRowThrows(t: Trig, re: real, ar: real)
    ensures TransformRowSpec(t, DataRow(re, [95.0 * ToRad, 96.0 * ToRad], [1.0, 0.5], [0.0, 0.0]), true, ar) == Err(LengthError)
  {
    var row := DataRow(re, [95.0 * ToRad, 96.0 * ToRad], [1.0, 0.5], [0.0, 0.0]);
    assert StallIndex(row.cl) == Some(0);
    assert CorrectedPoint(row, 0, ar).alpha * ToDeg == 95.0;
    assert PostStallBound(row, 0, ar) == -4;
  }

  // ---------------------------------------------------------------------------
  // The whole data set (transformed_set, resample_set, build)
  // ---------------------------------------------------------------------------

  /** `transform_row` applied to every row in order; the first row that
      throws decides the error. */
  function TransformRows(t: Trig, rows: DataSet, symmetric: bool, ar: real): Result<DataSet, BuildError>
    requires AllWellFormed(rows)
  {
    if rows == [] then Ok([])
    else match TransformRows(t, rows[..|rows| - 1], symmetric, ar)
      case Err(e) => Err(e)
      case Ok(done) =>
        match TransformRowSpec(t, rows[|rows| - 1], symmetric, ar)
        case Err(e) => Err(e)
        case Ok(last) => Ok(done + [last])
  }

  /** The correction is skipped when it is switched off or the aspect ratio
      is at least 98 (an infinite one included). */
  predicate CorrectionApplies(aspectRatio: AspectRatio, update: bool)
  {
    update && aspectRatio.Finite? && aspectRatio.value < 98.0
  }

  /** What `transformed_set` returns. */
  function TransformedSetSpec(t: Trig, data: DataSet, symmetric: bool, aspectRatio: AspectRatio, update: bool): Result<DataSet, BuildError>
    requires AllWellFormed(data)
  {
    if !CorrectionApplies(aspectRatio, update) then Ok(data)
    else TransformRows(t, data, symmetric, aspectRatio.value)
  }

  /** Rewriting the rows succeeds exactly when every row can be rewritten:
      the profile is symmetric, and each row's lift drops somewhere with a
      post-stall length `reserve` accepts. */
  lemma {:induction false} TransformRowsSucceeds(t: Trig, rows: DataSet, symmetric: bool, ar: real)
    requires AllWellFormed(rows)
    ensures TransformRows(t, rows, symmetric, ar).Ok? <==>
              (rows == [] || (symmetric && forall i :: 0 <= i < |rows| ==> Rewritable(rows[i], ar)))
  {
    if rows != [] {
      var init := rows[..|rows| - 1];
      assert forall i :: 0 <= i < |init| ==> init[i] == rows[i];
      TransformRowsSucceeds(t, init, symmetric, ar);
      TransformRowSpecShape(t, rows[|rows| - 1], symmetric, ar);
    }
  }

  /** Rewriting the rows rewrites each row on its own, in order. */
  lemma {:induction false} TransformRowsRowwise(t: Trig, rows: DataSet, symmetric: bool, ar: real)
    requires AllWellFormed(rows)
    ensures TransformRows(t, rows, symmetric, ar).Ok? ==>
              var out := TransformRows(t, rows, symmetric, ar).value;
              && |out| == |rows|
              && forall i :: 0 <= i < |rows| ==> TransformRowSpec(t, rows[i], symmetric, ar) == Ok(out[i])
  {
    if rows != [] && TransformRows(t, rows, symmetric, ar).Ok? {
      var init := rows[..|rows| - 1];
      assert forall i :: 0 <= i < |init| ==> init[i] == rows[i];
      TransformRowsRowwise(t, init, symmetric, ar);
    }
  }

  /** Rewriting every row keeps the number of rows, their order and their
      keys, and each row becomes its own rewrite. */
  lemma TransformRowsShape(t: Trig, rows: DataSet, symmetric: bool, ar: real)
    requires AllWellFormed(rows)
    ensures TransformRows(t, rows, symmetric, ar).Ok? ==>
              var out := TransformRows(t, rows, symmetric, ar).value;
              && |out| == |rows|
              && (forall i :: 0 <= i < |rows| ==> out[i].re == rows[i].re)
              && (forall i :: 0 <= i < |rows| ==> WellFormed(out[i]) && StallIndex(rows[i].cl).Some?)
              && (forall i :: 0 <= i < |rows| ==> out[i] == TransformedRow(t, rows[i], StallIndex(rows[i].cl).value, ar))
  {
    TransformRowsRowwise(t, rows, symmetric, ar);
    forall i | 0 <= i < |rows| {
      TransformRowSpecShape(t, rows[i], symmetric, ar);
    }
  }

  /** One row: rewritten exactly when the profile is symmetric and the row
      is rewritable, keeping its key and column lengths equal; otherwise the
      first failing check names the error. */
  lemma TransformRowSpecShape(t: Trig, row: DataRow, symmetric: bool, ar: real)
    requires WellFormed(row)
    ensures TransformRowSpec(t, row, symmetric, ar).Ok? <==> symmetric && Rewritable(row, ar)
    ensures !symmetric ==> TransformRowSpec(t, row, symmetric, ar) == Err(AsymmetricProfile)
    ensures symmetric && StallIndex(row.cl).None? ==> TransformRowSpec(t, row, symmetric, ar) == Err(StallNotFound)
    ensures symmetric && StallIndex(row.cl).Some? && !Rewritable(row, ar) ==> TransformRowSpec(t, row, symmetric, ar) == Err(LengthError)
    ensures TransformRowSpec(t, row, symmetric, ar).Ok? ==>
              var r := TransformRowSpec(t, row, symmetric, ar).value;
              r == TransformedRow(t, row, StallIndex(row.cl).value, ar) && r.re == row.re && WellFormed(r)
  {
    if symmetric && Rewritable(row, ar) {
      var s := StallIndex(row.cl).value;
      StallIndexCharacterised(row.cl, s);
      TransformedRowShape(t, row, s, ar);
    }
  }

  /** `transformed_set` keeps the data set's length, order and keys, and
      hands the data back untouched when the correction does not apply. */
  lemma TransformedSetKeepsKeys(t: Trig, data: DataSet, symmetric: bool, aspectRatio: AspectRatio, update: bool)
    requires AllWellFormed(data)
    ensures !CorrectionApplies(aspectRatio, update) ==> TransformedSetSpec(t, data, symmetric, aspectRatio, update) == Ok(data)
    ensures TransformedSetSpec(t, data, symmetric, aspectRatio, update).Ok? ==>
              var out := TransformedSetSpec(t, data, symmetric, aspectRatio, update).value;
              |out| == |data| && AllWellFormed(out) && forall i :: 0 <= i < |data| ==> out[i].re == data[i].re
  {
    if CorrectionApplies(aspectRatio, update) {
      TransformRowsShape(t, data, symmetric, aspectRatio.value);
    }
  }

  /** Inserts `x` into a strictly increasing sequence, dropping it if present. */
  function InsertUnique(s: seq<real>, x: real): (r: seq<real>)
    requires StrictlyIncreasing(s)
    ensures StrictlyIncreasing(r)
    ensures forall y :: y in r <==> y in s || y == x
  {
    if s == [] then [x]
    else if x < s[0] then [x] + s
    else if x == s[0] then s
    else
      var rest := InsertUnique(s[1..], x);
      forall j | 0 <= j < |rest| ensures s[0] < rest[j] {
        assert rest[j] in rest;
        if rest[j] != x {
          var k :| 0 <= k < |s[1..]| && s[1..][k] == rest[j];
          assert s[k + 1] == rest[j];
        }
      }
      PrependIncreasing(s[0], rest);
      [s[0]] + rest
  }

  lemma PrependIncreasing(h: real, rest: seq<real>)
    requires StrictlyIncreasing(rest) && forall j :: 0 <= j < |rest| ==> h < rest[j]
    ensures StrictlyIncreasing([h] + rest)
  {
    var r := [h] + rest;
    forall i, j | 0 <= i < j < |r| ensures r[i] < r[j] {
      if i > 0 {
        assert r[i] == rest[i - 1] && r[j] == rest[j - 1];
      }
    }
  }

  /** `std::sort` followed by `std::unique` and `erase`: the distinct values,
      in strictly increasing order. */
  function SortedUnique(xs: seq<real>): (r: seq<real>)
    ensures StrictlyIncreasing(r)
    ensures forall y :: y in r <==> y in xs
  {
    if xs == [] then []
    else
      var r := InsertUnique(SortedUnique(xs[..|xs| - 1]), xs[|xs| - 1]);
      assert xs == xs[..|xs| - 1] + [xs[|xs| - 1]];
      r
  }

  /** Every row's angles, row after row. */
  function AllAlphas(rows: DataSet): (all: seq<real>)
    ensures forall x :: x in all <==> exists k :: 0 <= k < |rows| && x in rows[k].alpha
  {
    if rows == [] then []
    else
      var init := rows[..|rows| - 1];
      assert forall k :: 0 <= k < |init| ==> init[k] == rows[k];
      AllAlphas(init) + rows[|rows| - 1].alpha
  }

  /** The shared angle grid of `resample_set`. */
  function Grid(rows: DataSet): seq<real>
  {
    SortedUnique(AllAlphas(rows))
  }

  /** One row moved onto the grid; the interpolators are built from the
      row's own samples. */
  function ResampleRow(row: DataRow, grid: seq<real>, interp: Interp1D): DataRow
  {
    DataRow(row.re,
            grid,
            seq(|grid|, j requires 0 <= j < |grid| => interp(row.alpha, row.cl, grid[j])),
            seq(|grid|, j requires 0 <= j < |grid| => interp(row.alpha, row.cd, grid[j])))
  }

  /** The data set after `resample_set`. */
  function Resampled(rows: DataSet, interp: Interp1D): DataSet
  {
    var grid := Grid(rows);
    seq(|rows|, k requires 0 <= k < |rows| => ResampleRow(rows[k], grid, interp))
  }

  /** After resampling every row has the same angle sequence, strictly
      increasing and made of exactly the angles some row had before; each
      row's lift and drag follow it in length; keys and row count stay. */
  lemma ResampledShape(rows: DataSet, interp: Interp1D)
    ensures var out := Resampled(rows, interp);
            var grid := Grid(rows);
            && |out| == |rows|
            && StrictlyIncreasing(grid)
            && (forall x :: x in grid <==> exists k :: 0 <= k < |rows| && x in rows[k].alpha)
            && (forall k :: 0 <= k < |rows| ==>
                  out[k].re == rows[k].re && out[k].alpha == grid && |out[k].cl| == |grid| && |out[k].cd| == |grid|)
  {
  }

  function Repeat(x: real, n: nat): (r: seq<real>)
    ensures |r| == n && forall i :: 0 <= i < n ==> r[i] == x
  {
    seq(n, _ => x)
  }

  /** Row after row, one flat entry per sample, each tagged with the row's key. */
  function Flattened(rows: DataSet): FlatData
    requires AllWellFormed(rows)
  {
    if rows == [] then FlatData([], [], [], [])
    else
      var f := Flattened(rows[..|rows| - 1]);
      var r := rows[|rows| - 1];
      FlatData(f.alpha + r.alpha, f.re + Repeat(r.re, |r.alpha|), f.cl + r.cl, f.cd + r.cd)
  }

  /** Every row has exactly `g` samples. */
  predicate Rectangular(rows: DataSet, g: nat)
  {
    forall i :: 0 <= i < |rows| ==> |rows[i].alpha| == g && |rows[i].cl| == g && |rows[i].cd| == g
  }

  lemma BlockInRange(b: nat, n: nat, g: nat, j: nat)
    requires b < n && j < g
    ensures b * g + j < n * g
  {
    var d := n - (b + 1);
    assert n * g == (b + 1) * g + d * g;
    assert d * g >= 0;
    assert (b + 1) * g == b * g + g;
  }

  /** On a rectangular data set the flat columns have `rows * g` entries. */
  lemma {:induction false} FlattenedSize(rows: DataSet, g: nat)
    requires Rectangular(rows, g)
    ensures AllWellFormed(rows)
    ensures var f := Flattened(rows);
            |f.alpha| == |rows| * g && |f.re| == |rows| * g && |f.cl| == |rows| * g && |f.cd| == |rows| * g
  {
    if rows != [] {
      var n := |rows| - 1;
      assert Rectangular(rows[..n], g);
      FlattenedSize(rows[..n], g);
      assert |rows| * g == n * g + g;
    }
  }

  /** Entry `b * g + j` of the flat columns is sample `j` of row `b`. */
  lemma {:induction false} FlattenedEntry(rows: DataSet, g: nat, b: nat, j: nat)
    requires Rectangular(rows, g) && b < |rows| && j < g
    ensures AllWellFormed(rows)
    ensures var f := Flattened(rows);
            |f.alpha| == |rows| * g && |f.re| == |rows| * g && |f.cl| == |rows| * g && |f.cd| == |rows| * g
    ensures b * g + j < |rows| * g
    ensures var f := Flattened(rows); var k := b * g + j;
            && f.alpha[k] == rows[b].alpha[j] && f.re[k] == rows[b].re
            && f.cl[k] == rows[b].cl[j] && f.cd[k] == rows[b].cd[j]
  {
    FlattenedSize(rows, g);
    BlockInRange(b, |rows|, g, j);
    var n := |rows| - 1;
    var init := rows[..n];
    assert Rectangular(init, g);
    FlattenedSize(init, g);
    var k := b * g + j;
    if b < n {
      FlattenedEntry(init, g, b, j);
      BlockInRange(b, n, g, j);
      assert rows[b] == init[b];
    } else {
      assert k - n * g == j;
    }
  }

  /** The sentinel rows: the lowest row again with key 0 in front, the
      highest row again with key `MaxDouble` at the back. */
  function WithSentinels(rows: DataSet): DataSet
    requires |rows| > 0
  {
    [rows[0].(re := 0.0)] + rows + [rows[|rows| - 1].(re := MaxDouble)]
  }

  /** The aerofoil `build` assembles from the rewritten rows: resampled,
      wrapped in sentinels and flattened. */
  function BuildFrom(rows: DataSet, interp: Interp1D, symmetric: bool): Aerofoil
    requires AllWellFormed(rows) && |rows| > 0
  {
    ResampledShape(rows, interp);
    var full := WithSentinels(Resampled(rows, interp));
    assert AllWellFormed(full);
    Aerofoil(Flattened(full), symmetric)
  }

  /** What `build` returns. */
  function BuildSpec(t: Trig, interp: Interp1D, data: DataSet, symmetric: bool, aspectRatio: AspectRatio, update: bool): Result<Aerofoil, BuildError>
    requires AllWellFormed(data) && |data| > 0
  {
    match TransformedSetSpec(t, data, symmetric, aspectRatio, update)
    case Err(e) => Err(e)
    case Ok(rows) =>
      TransformedSetKeepsKeys(t, data, symmetric, aspectRatio, update);
      Ok(BuildFrom(rows, interp, symmetric))
  }

  /** Once a prefix of the rows fails to rewrite, the whole set fails with
      the same error: the first throwing row decides. */
  lemma {:induction false} TransformRowsFailurePersists(t: Trig, rows: DataSet, k: nat, symmetric: bool, ar: real)
    requires AllWellFormed(rows) && k <= |rows|
    requires TransformRows(t, rows[..k], symmetric, ar).Err?
    ensures TransformRows(t, rows, symmetric, ar) == TransformRows(t, rows[..k], symmetric, ar)
    decreases |rows| - k
  {
    if k == |rows| {
      assert rows[..k] == rows;
    } else {
      var init := rows[..|rows| - 1];
      assert init[..k] == rows[..k];
      TransformRowsFailurePersists(t, init, k, symmetric, ar);
    }
  }

  /** The build result, entry by entry: `(rows + 2) * |grid|` entries in
      each flat column; block 0 is the lowest resampled row with key 0,
      the last block the highest one with key `MaxDouble`, and the blocks
      between are the resampled rows in order, each at the grid angles. */
  lemma BuildFromShape(rows: DataSet, interp: Interp1D, symmetric: bool, b: nat, j: nat)
    requires AllWellFormed(rows) && |rows| > 0
    ensures var out := Resampled(rows, interp);
            var g := |Grid(rows)|;
            var a := BuildFrom(rows, interp, symmetric).columns;
            && |out| == |rows|
            && BuildFrom(rows, interp, symmetric).symmetric == symmetric
            && |a.alpha| == (|rows| + 2) * g && |a.re| == (|rows| + 2) * g
            && |a.cl| == (|rows| + 2) * g && |a.cd| == (|rows| + 2) * g
            && (b < |rows| + 2 && j < g ==>
                  var k := b * g + j;
                  var src := if b == 0 then out[0] else if b == |rows| + 1 then out[|rows| - 1] else out[b - 1];
                  && k < (|rows| + 2) * g
                  && a.alpha[k] == Grid(rows)[j]
                  && a.re[k] == (if b == 0 then 0.0 else if b == |rows| + 1 then MaxDouble else rows[b - 1].re)
                  && a.cl[k] == src.cl[j] && a.cd[k] == src.cd[j])
  {
    ResampledShape(rows, interp);
    var out := Resampled(rows, interp);
    var full := WithSentinels(out);
    var g := |Grid(rows)|;
    assert Rectangular(full, g);
    FlattenedSize(full, g);
    if b < |rows| + 2 && j < g {
      FlattenedEntry(full, g, b, j);
    }
  }

  lemma BuildShape(t: Trig, interp: Interp1D, data: DataSet, symmetric: bool, aspectRatio: AspectRatio, update: bool, b: nat, j: nat)
    requires AllWellFormed(data) && |data| > 0
    ensures BuildSpec(t, interp, data, symmetric, aspectRatio, update).Ok? <==>
              TransformedSetSpec(t, data, symmetric, aspectRatio, update).Ok?
    ensures BuildSpec(t, interp, data, symmetric, aspectRatio, update).Ok? ==>
              var rows := TransformedSetSpec(t, data, symmetric, aspectRatio, update).value;
              var out := Resampled(rows, interp);
              var g := |Grid(rows)|;
              var a := BuildSpec(t, interp, data, symmetric, aspectRatio, update).value.columns;
              && |out| == |data|
              && BuildSpec(t, interp, data, symmetric, aspectRatio, update).value.symmetric == symmetric
              && |a.alpha| == (|data| + 2) * g && |a.re| == (|data| + 2) * g
              && |a.cl| == (|data| + 2) * g && |a.cd| == (|data| + 2) * g
              && (b < |data| + 2 && j < g ==>
                    var k := b * g + j;
                    var src := if b == 0 then out[0] else if b == |data| + 1 then out[|data| - 1] else out[b - 1];
                    && k < (|data| + 2) * g
                    && a.alpha[k] == Grid(rows)[j]
                    && a.re[k] == (if b == 0 then 0.0 else if b == |data| + 1 then MaxDouble else data[b - 1].re)
                    && a.cl[k] == src.cl[j] && a.cd[k] == src.cd[j])
  {
    var spec := TransformedSetSpec(t, data, symmetric, aspectRatio, update);
    if spec.Ok? {
      TransformedSetKeepsKeys(t, data, symmetric, aspectRatio, update);
      assert BuildSpec(t, interp, data, symmetric, aspectRatio, update) == Ok(BuildFrom(spec.value, interp, symmetric));
      BuildFromShape(spec.value, interp, symmetric, b, j);
    } else {
      assert BuildSpec(t, interp, data, symmetric, aspectRatio, update) == Err(spec.error);
    }
  }

  // ---------------------------------------------------------------------------
  // The procedures themselves
  // ---------------------------------------------------------------------------

  /** `resample_set`: gathers every angle, sorts and deduplicates them, then
      moves each row onto that grid, interpolating lift and drag from the
      row's own samples. */
  method ResampleSet(dataset: DataSet, interp: Interp1D) returns (out: DataSet)
    ensures out == Resampled(dataset, interp)
  {
    var all: seq<real> := [];
    for k := 0 to |dataset|
      invariant all == AllAlphas(dataset[..k])
    {
      var row := dataset[k];
      for j := 0 to |row.alpha|
        invariant all == AllAlphas(dataset[..k]) + row.alpha[..j]
      {
        all := all + [row.alpha[j]];
        assert row.alpha[..j + 1] == row.alpha[..j] + [row.alpha[j]];
      }
      assert row.alpha[..|row.alpha|] == row.alpha;
      assert dataset[..k + 1][..k] == dataset[..k];
    }
    assert dataset[..|dataset|] == dataset;
    // std::sort, std::unique and erase
    var grid := SortedUnique(all);
    out := dataset;
    for k := 0 to |out|
      invariant |out| == |dataset|
      invariant forall m :: 0 <= m < k ==> out[m] == ResampleRow(dataset[m], grid, interp)
      invariant forall m :: k <= m < |out| ==> out[m] == dataset[m]
    {
      var row := out[k];
      var cl: seq<real>, cd: seq<real> := [], [];
      for j := 0 to |grid|
        invariant |cl| == |cd| == j
        invariant forall i :: 0 <= i < j ==> cl[i] == interp(row.alpha, row.cl, grid[i]) && cd[i] == interp(row.alpha, row.cd, grid[i])
      {
        cl := cl + [interp(row.alpha, row.cl, grid[j])];
        cd := cd + [interp(row.alpha, row.cd, grid[j])];
      }
      assert DataRow(row.re, grid, cl, cd) == ResampleRow(row, grid, interp);
      out := out[k := DataRow(row.re, grid, cl, cd)];
    }
  }

  /** The flattening loop of `build`: for each row, for each sample, one
      entry in each of the four columns. */
  method FlattenRows(rows: DataSet) returns (f: FlatData)
    requires AllWellFormed(rows)
    ensures f == Flattened(rows)
  {
    var alpha: seq<real>, re: seq<real>, cl: seq<real>, cd: seq<real> := [], [], [], [];
    for b := 0 to |rows|
      invariant FlatData(alpha, re, cl, cd) == Flattened(rows[..b])
    {
      var row := rows[b];
      ghost var before := FlatData(alpha, re, cl, cd);
      for j := 0 to |row.alpha|
        invariant alpha == before.alpha + row.alpha[..j]
        invariant re == before.re + Repeat(row.re, j)
        invariant cl == before.cl + row.cl[..j]
        invariant cd == before.cd + row.cd[..j]
      {
        re := re + [row.re];
        alpha := alpha + [row.alpha[j]];
        cl := cl + [row.cl[j]];
        cd := cd + [row.cd[j]];
        assert Repeat(row.re, j + 1) == Repeat(row.re, j) + [row.re];
        assert row.alpha[..j + 1] == row.alpha[..j] + [row.alpha[j]];
        assert row.cl[..j + 1] == row.cl[..j] + [row.cl[j]];
        assert row.cd[..j + 1] == row.cd[..j] + [row.cd[j]];
      }
      assert row.alpha[..|row.alpha|] == row.alpha;
      assert row.cl[..|row.alpha|] == row.cl;
      assert row.cd[..|row.alpha|] == row.cd;
      assert rows[..b + 1][..b] == rows[..b];
    }
    assert rows[..|rows|] == rows;
    f := FlatData(alpha, re, cl, cd);
  }

  /** The scanning loop of `transform_row`: walks the lift curve until the
      first strict decrease, applying `lanchester_prandtl` to every sample it
      passes (all but index 0). Lift is never written. */
  method CorrectPreStall(row: DataRow, ar: real) returns (alpha: seq<real>, cd: seq<real>, stallIdx: Option<nat>)
    requires WellFormed(row)
    ensures stallIdx == StallIndex(row.cl)
    ensures |alpha| == |cd| == |row.alpha|
    ensures stallIdx.Some? ==> forall j :: 0 <= j <= stallIdx.value ==>
              Point(alpha[j], row.cl[j], cd[j]) == CorrectedPoint(row, j, ar)
  {
    alpha, cd := row.alpha, row.cd;
    var cl := row.cl;
    var i := 1;
    while i < |alpha|
      invariant |alpha| == |cd| == |row.alpha| == |cl|
      invariant 1 <= i <= if |alpha| > 0 then |alpha| else 1
      invariant forall j :: 1 <= j < i ==> cl[j - 1] <= cl[j]
      invariant forall j :: 0 <= j < |alpha| ==>
                  Point(alpha[j], cl[j], cd[j]) == if 1 <= j < i then CorrectedPoint(row, j, ar) else Point(row.alpha[j], row.cl[j], row.cd[j])
    {
      if cl[i - 1] > cl[i] {
        var s: nat := i - 1;
        assert IsStallIndex(cl, s) by {
          forall j | 0 <= j < s ensures cl[j] <= cl[j + 1] {
            assert 1 <= j + 1 < i;
          }
        }
        StallIndexCharacterised(cl, s);
        return alpha, cd, Some(s);
      }
      var p := LanchesterPrandtl(Point(alpha[i], cl[i], cd[i]), ar);
      alpha := alpha[i := p.alpha];
      cd := cd[i := p.cd];
      i := i + 1;
    }
    assert forall j :: 0 <= j && j + 1 < |cl| ==> cl[j] <= cl[j + 1] by {
      forall j | 0 <= j && j + 1 < |cl| ensures cl[j] <= cl[j + 1] {
        assert 1 <= j + 1 < i;
      }
    }
    StallIndexCharacterised(cl, 0);
    stallIdx := None;
  }

  /** The rest of `transform_row` once the stall index `s` is known:
      compute the bound `len = s + 91 - floor(stall degrees)`, fail in
      `reserve` if it is negative, otherwise keep samples 0..s and extend. */
  method ExtendPostStall(t: Trig, row: DataRow, s: nat, ar: real, alpha0: seq<real>, cd0: seq<real>) returns (out: Result<DataRow, BuildError>)
    requires WellFormed(row) && s < |row.alpha| && |alpha0| == |cd0| == |row.alpha|
    requires forall j :: 0 <= j <= s ==> Point(alpha0[j], row.cl[j], cd0[j]) == CorrectedPoint(row, j, ar)
    ensures out == if LengthFits(row, s, ar) then Ok(TransformedRow(t, row, s, ar)) else Err(LengthError)
  {
    var len := s + 90 + 1 - (alpha0[s] * ToDeg).Floor;
    assert len == PostStallBound(row, s, ar);
    if len < 0 {
      return Err(LengthError);
    }
    var extended := PushPostStall(t, row, s, ar, alpha0, cd0, len);
    out := Ok(extended);
  }

  /** The post-stall loop: cut the columns after sample `s`, then push one
      Viterna-Corrigan sample per whole degree `j` (as an index, `j` from
      `s + 1`) while `j < len`. */
  method PushPostStall(t: Trig, row: DataRow, s: nat, ar: real, alpha0: seq<real>, cd0: seq<real>, len: int) returns (out: DataRow)
    requires WellFormed(row) && s < |row.alpha| && |alpha0| == |cd0| == |row.alpha|
    requires forall j :: 0 <= j <= s ==> Point(alpha0[j], row.cl[j], cd0[j]) == CorrectedPoint(row, j, ar)
    requires len == PostStallBound(row, s, ar)
    ensures out == TransformedRow(t, row, s, ar)
  {
    var stall := Point(alpha0[s], row.cl[s], cd0[s]);
    var alpha, cl, cd := alpha0[..s + 1], row.cl[..s + 1], cd0[..s + 1];
    var k := s + 1;
    while k < len
      invariant s + 1 <= k && |alpha| == |cl| == |cd| == k
      invariant k == s + 1 || k <= len
      invariant forall j :: 0 <= j < k ==> Point(alpha[j], cl[j], cd[j]) == TransformedPoint(t, row, s, ar, j)
    {
      ghost var alphaBefore, clBefore, cdBefore := alpha, cl, cd;
      alpha := alpha + [ToRad * k as real];
      cl := cl + [0.0];
      cd := cd + [0.0];
      var p := ViternaCorrigan(t, alpha[k], stall, ar);
      cl := cl[k := p.cl];
      cd := cd[k := p.cd];
      assert alpha == alphaBefore + [ToRad * k as real];
      assert cl == clBefore + [p.cl] && cd == cdBefore + [p.cd];
      assert stall == CorrectedPoint(row, s, ar);
      assert Point(alpha[k], cl[k], cd[k]) == TransformedPoint(t, row, s, ar, k);
      k := k + 1;
    }
    PostStallLength(row, s, ar, len);
    TransformedRowFromColumns(t, row, s, ar, alpha, cl, cd);
    out := DataRow(row.re, alpha, cl, cd);
  }

  /** The loop bound of `transform_row` and the rewritten row's length agree
      once the bound is raised to the stall sample's own length. */
  lemma PostStallLength(row: DataRow, s: nat, ar: real, len: int)
    requires WellFormed(row) && s < |row.alpha|
    requires len == PostStallBound(row, s, ar)
    ensures TransformedLength(row, s, ar) == if len > s + 1 then len else s + 1
  {
  }

  /** `AerofoilBuilder`: the polar rows, sorted by Reynolds number, and the
      correction settings. */
  class AerofoilBuilder {
    var data: DataSet
    var symmetric: bool
    var aspectRatio: AspectRatio
    var updateAspectRatio: bool

    /** Keys strictly increasing (`load_data` refuses duplicates) and every
        row's three columns of equal length. */
    ghost predicate Valid()
      reads this
    {
      StrictlySortedByRe(data) && AllWellFormed(data)
    }

    /** An empty builder: asymmetric, infinite aspect ratio, correction off. */
    constructor()
      ensures Valid()
      ensures data == [] && !symmetric && aspectRatio == Infinite && !updateAspectRatio
    {
      data := [];
      symmetric := false;
      aspectRatio := Infinite;
      updateAspectRatio := false;
    }

    /** `set_aspect_ratio(value)`, fluent. */
    method SetAspectRatio(value: real) returns (self: AerofoilBuilder)
      modifies this`aspectRatio
      ensures self == this && aspectRatio == Finite(value)
    {
      aspectRatio := Finite(value);
      self := this;
    }

    /** `update_aspect_ratio(flag)`, fluent. */
    method UpdateAspectRatio(flag: bool) returns (self: AerofoilBuilder)
      modifies this`updateAspectRatio
      ensures self == this && updateAspectRatio == flag
    {
      updateAspectRatio := flag;
      self := this;
    }

    /** `symmetric(flag)`, fluent. */
    method Symmetric(flag: bool) returns (self: AerofoilBuilder)
      modifies this`symmetric
      ensures self == this && symmetric == flag
    {
      symmetric := flag;
      self := this;
    }

    /** `add_data`: insert the row where `std::lower_bound` points, keeping
        the rows sorted and every old row in its relative order. */
    method AddData(row: DataRow)
      requires SortedByRe(data)
      modifies this`data
      ensures data == Inserted(old(data), FirstNotBelow(old(data), row.re), row)
      ensures SortedByRe(data) && |data| == |old(data)| + 1
      ensures var p := FirstNotBelow(old(data), row.re); data[p] == row && data[..p] + data[p + 1..] == old(data)
    {
      var pos := LowerBound(data, row.re);
      InsertAtLowerBound(data, row);
      data := data[..pos] + [row] + data[pos..];
    }

    /** `load_data` once the polar file is parsed: refuse a Reynolds number
        already present, leaving the data as it was; otherwise convert the
        angles to radians and insert the row. */
    method LoadData(re: real, samples: seq<Sample>) returns (outcome: Outcome<BuildError>)
      requires Valid()
      modifies this`data
      ensures Valid()
      ensures ContainsRe(old(data), re) ==> outcome == Fail(DuplicateRe) && data == old(data)
      ensures !ContainsRe(old(data), re) ==>
                outcome == Pass && data == Inserted(old(data), FirstNotBelow(old(data), re), ParseRow(re, samples))
    {
      if ContainsRe(data, re) {
        return Fail(DuplicateRe);
      }
      var alpha: seq<real>, cl: seq<real>, cd: seq<real> := [], [], [];
      for i := 0 to |samples|
        invariant |alpha| == |cl| == |cd| == i
        invariant forall k :: 0 <= k < i ==>
                    alpha[k] == samples[k].alphaDeg * ToRad && cl[k] == samples[k].cl && cd[k] == samples[k].cd
      {
        alpha := alpha + [samples[i].alphaDeg * ToRad];
        cl := cl + [samples[i].cl];
        cd := cd + [samples[i].cd];
      }
      var row := DataRow(re, alpha, cl, cd);
      assert row == ParseRow(re, samples);
      InsertNewKeyKeepsStrictOrder(data, row);
      AddData(row);
      outcome := Pass;
    }

    /** `transform_row`: refuse an asymmetric profile, then find the stall
        index while correcting the samples before it, cut the row after it,
        and append the Viterna-Corrigan samples at whole degrees. */
    method TransformRow(t: Trig, row: DataRow) returns (r: Result<DataRow, BuildError>)
      requires WellFormed(row) && aspectRatio.Finite?
      ensures r == TransformRowSpec(t, row, symmetric, aspectRatio.value)
    {
      if !symmetric {
        return Err(AsymmetricProfile);
      }
      var ar := aspectRatio.value;
      var alpha, cd, stallIdx := CorrectPreStall(row, ar);
      if stallIdx.None? {
        return Err(StallNotFound);
      }
      r := ExtendPostStall(t, row, stallIdx.value, ar, alpha, cd);
    }

    /** `transformed_set`: the data as it is when the correction is off or
        the aspect ratio is at least 98, otherwise every row rewritten in
        order. The rows are copies: the builder's data is not changed. */
    method TransformedSet(t: Trig) returns (r: Result<DataSet, BuildError>)
      requires AllWellFormed(data)
      ensures r == TransformedSetSpec(t, data, symmetric, aspectRatio, updateAspectRatio)
    {
      if !updateAspectRatio {
        return Ok(data);
      }
      if aspectRatio.Infinite? || aspectRatio.value >= 98.0 {
        return Ok(data);
      }
      var done: DataSet := [];
      var k := 0;
      while k < |data|
        invariant 0 <= k <= |data|
        invariant TransformRows(t, data[..k], symmetric, aspectRatio.value) == Ok(done)
      {
        var row := data[k];
        assert data[..k + 1][..k] == data[..k];
        var out := TransformRow(t, row);
        if out.Err? {
          TransformRowsFailurePersists(t, data, k + 1, symmetric, aspectRatio.value);
          return Err(out.error);
        }
        done := done + [out.value];
        k := k + 1;
      }
      assert data[..k] == data;
      return Ok(done);
    }

    /** `build`: rewrite, resample, add the two sentinel rows and flatten.
        It works on a copy, so the builder's data is not changed. */
    method Build(t: Trig, interp: Interp1D) returns (r: Result<Aerofoil, BuildError>)
      requires AllWellFormed(data) && |data| > 0
      ensures r == BuildSpec(t, interp, data, symmetric, aspectRatio, updateAspectRatio)
    {
      var transformed := TransformedSet(t);
      if transformed.Err? {
        return Err(transformed.error);
      }
      TransformedSetKeepsKeys(t, data, symmetric, aspectRatio, updateAspectRatio);
      var rows := ResampleSet(transformed.value, interp);
      ResampledShape(transformed.value, interp);
      // duplicate the lowest and highest rows for extrapolation over re
      var lowest := rows[0].(re := 0.0);
      rows := [lowest] + rows;
      var highest := rows[|rows| - 1].(re := MaxDouble);
      rows := rows + [highest];
      assert rows == WithSentinels(Resampled(transformed.value, interp));
      var f := FlattenRows(rows);
      return Ok(Aerofoil(f, symmetric));
    }
  }
}
