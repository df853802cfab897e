// The radar-chart data of src/preprocess.py: the derived wellbeing
// columns, and the loop of `prepare_data` that checks each participant's
// row of each chart frame and computes the polygon and label coordinates.
// Angles are measured in turns (fractions of a full circle); cosine and
// sine of an angle are given as functions of that fraction.

module RadarData {
  import opened Outcomes

  /** A frame: its column names in order, and one record per row. */
  datatype Table = Table(columns: seq<string>, rows: seq<map<string, real>>)

  /** Every row has a value for every column. */
  predicate WellFormed(t: Table)
  {
    forall i, k :: 0 <= i < |t.rows| && 0 <= k < |t.columns| ==> t.columns[k] in t.rows[i]
  }

  /** A column of a well-formed frame has a value in every row. */
  lemma ColumnInRow(t: Table, i: nat, c: string)
    requires WellFormed(t) && i < |t.rows| && c in t.columns
    ensures c in t.rows[i]
  {
    var k :| 0 <= k < |t.columns| && t.columns[k] == c;
  }

  /** The exceptions the Python code raises. */
  datatype Error =
    | KeyError(keys: seq<string>)
    | ValueError(message: string)
    | IndexError

  const TooFewColumns := "Data should contain at least two columns."
  const TooFewProperties := "There should be at least three properties to plot."

  const WellbeingColumns: seq<string> := ["Health", "Wellbeing", "Resilience", "Hearing_ability"]

  /** The names of `wanted` that are not columns of `t`, in order. */
  function Missing(wanted: seq<string>, columns: seq<string>): (m: seq<string>)
    ensures forall c :: c in m <==> c in wanted && c !in columns
  {
    if wanted == [] then []
    else (if wanted[0] in columns then [] else [wanted[0]]) + Missing(wanted[1..], columns)
  }

  /** One row of `make_wellbeing_data`. */
  function WellbeingRow(r: map<string, real>): (w: map<string, real>)
    requires "Health" in r && "Wellbeing" in r && "Anxiety" in r && "Hearing_impairment" in r
    ensures w.Keys == {"Health", "Wellbeing", "Resilience", "Hearing_ability"}
    ensures w["Resilience"] + r["Anxiety"] == 1.0 && w["Hearing_ability"] + r["Hearing_impairment"] == 1.0
    ensures InUnit(r, "Anxiety") ==> InUnit(w, "Resilience")
    ensures InUnit(r, "Hearing_impairment") ==> InUnit(w, "Hearing_ability")
  {
    map["Health" := r["Health"], "Wellbeing" := r["Wellbeing"],
        "Resilience" := 1.0 - r["Anxiety"], "Hearing_ability" := 1.0 - r["Hearing_impairment"]]
  }

  /** `make_wellbeing_data`: `Resilience = 1 - Anxiety` and
      `Hearing_ability = 1 - Hearing_impairment`, then exactly the columns
      Health, Wellbeing, Resilience, Hearing_ability. A missing `Anxiety`
      or `Hearing_impairment` fails in the first or second `assign`, a
      missing `Health` or `Wellbeing` in the `.loc` selection. */
  function MakeWellbeingData(t: Table): (r: Result<Table, Error>)
    requires WellFormed(t)
    ensures r.Ok? <==> ("Anxiety" in t.columns && "Hearing_impairment" in t.columns &&
                        "Health" in t.columns && "Wellbeing" in t.columns)
    ensures "Anxiety" !in t.columns ==> r == Err(KeyError(["Anxiety"]))
    ensures "Anxiety" in t.columns && "Hearing_impairment" !in t.columns ==>
      r == Err(KeyError(["Hearing_impairment"]))
    ensures r.Err? && "Anxiety" in t.columns && "Hearing_impairment" in t.columns ==>
      r.error.KeyError? && forall c :: c in r.error.keys <==> c in ["Health", "Wellbeing"] && c !in t.columns
    ensures r.Ok? ==> r.value.columns == WellbeingColumns && |r.value.rows| == |t.rows| && WellFormed(r.value)
    ensures r.Ok? ==> forall i :: 0 <= i < |t.rows| ==>
      r.value.rows[i].Keys == {"Health", "Wellbeing", "Resilience", "Hearing_ability"} &&
      r.value.rows[i]["Health"] == t.rows[i]["Health"] &&
      r.value.rows[i]["Wellbeing"] == t.rows[i]["Wellbeing"] &&
      r.value.rows[i]["Resilience"] + t.rows[i]["Anxiety"] == 1.0 &&
      r.value.rows[i]["Hearing_ability"] + t.rows[i]["Hearing_impairment"] == 1.0
  {
    if "Anxiety" !in t.columns then Err(KeyError(["Anxiety"]))
    else if "Hearing_impairment" !in t.columns then Err(KeyError(["Hearing_impairment"]))
    else
      // Resilience and Hearing_ability exist once assigned, so only Health
      // and Wellbeing can be missing from the selection
      var missing := Missing(["Health", "Wellbeing"], t.columns);
      if missing != [] then
        assert missing[0] in missing;
        Err(KeyError(missing))
      else
        assert "Health" in t.columns && "Wellbeing" in t.columns by {
          assert "Health" in ["Health", "Wellbeing"] && "Wellbeing" in ["Health", "Wellbeing"];
        }
        assert forall i :: 0 <= i < |t.rows| ==>
            ("Health" in t.rows[i] && "Wellbeing" in t.rows[i] &&
             "Anxiety" in t.rows[i] && "Hearing_impairment" in t.rows[i]) by {
          forall i | 0 <= i < |t.rows|
            ensures "Health" in t.rows[i] && "Wellbeing" in t.rows[i] &&
              "Anxiety" in t.rows[i] && "Hearing_impairment" in t.rows[i]
          {
            ColumnInRow(t, i, "Health");
            ColumnInRow(t, i, "Wellbeing");
            ColumnInRow(t, i, "Anxiety");
            ColumnInRow(t, i, "Hearing_impairment");
          }
        }
        Ok(Table(WellbeingColumns, seq(|t.rows|, i requires 0 <= i < |t.rows| => WellbeingRow(t.rows[i]))))
  }

  /** The record has a value for column `c`, and it lies in [0, 1]. */
  predicate InUnit(r: map<string, real>, c: string)
  {
    c in r && 0.0 <= r[c] <= 1.0
  }

  /** Participants' answers in [0, 1] give wellbeing values in [0, 1]. */
  lemma WellbeingBounds(t: Table)
    requires WellFormed(t) && MakeWellbeingData(t).Ok?
    requires forall i :: 0 <= i < |t.rows| ==>
      InUnit(t.rows[i], "Health") && InUnit(t.rows[i], "Wellbeing") &&
      InUnit(t.rows[i], "Anxiety") && InUnit(t.rows[i], "Hearing_impairment")
    ensures var w := MakeWellbeingData(t).value;
      forall i :: 0 <= i < |w.rows| ==>
        InUnit(w.rows[i], "Health") && InUnit(w.rows[i], "Wellbeing") &&
        InUnit(w.rows[i], "Resilience") && InUnit(w.rows[i], "Hearing_ability")
  {
  }

  // ----- radar coordinates -----

  /** `np.linspace(0, 2 * np.pi, n, endpoint=False)`, in turns. */
  function RadarAngles(n: nat): (a: seq<real>)
    requires n > 0
    ensures |a| == n
  {
    seq(n, k requires 0 <= k < n => Fraction(k, n))
  }

  /** The n angles start at 0, stay below one full turn and are evenly
      spaced, one n-th of a turn apart. */
  lemma RadarAnglesSpacing(n: nat)
    requires n > 0
    ensures RadarAngles(n)[0] == 0.0
    ensures forall k :: 0 <= k < n ==> 0.0 <= RadarAngles(n)[k] < 1.0
    ensures forall k :: 0 <= k < n - 1 ==> RadarAngles(n)[k + 1] - RadarAngles(n)[k] == 1.0 / n as real
  {
    var a := RadarAngles(n);
    forall k | 0 <= k < n ensures 0.0 <= a[k] < 1.0 {
      FractionBelowOne(k, n);
    }
    forall k | 0 <= k < n - 1 ensures a[k + 1] - a[k] == 1.0 / n as real {
      FractionStep(k, n);
    }
  }

  /** `k / n` as a real number. */
  function Fraction(k: nat, n: nat): real
    requires n > 0
  {
    k as real / n as real
  }

  lemma FractionBelowOne(k: nat, n: nat)
    requires k < n
    ensures 0.0 <= Fraction(k, n) < 1.0
  {
    var q := Fraction(k, n);
    assert q * n as real == k as real;
  }

  lemma FractionStep(k: nat, n: nat)
    requires n > 0
    ensures Fraction(k + 1, n) - Fraction(k, n) == 1.0 / n as real
  {
  }

  /** The tuple stored in `charts_data_dict[df_name][i]`. */
  datatype ChartEntry = ChartEntry(
    title: string, labels: seq<string>,
    cosines: seq<real>, sines: seq<real>,
    labelsX: seq<real>, labelsY: seq<real>)

  /** The `{"x": x, "y": y}` stored in `xy_data_dict[df_name][i]`. */
  datatype Polygon = Polygon(x: seq<real>, y: seq<real>)

  /** The values of row `i` in column order (`data.values.flatten()`). */
  function RowValues(t: Table, i: nat): (v: seq<real>)
    requires WellFormed(t) && i < |t.rows|
    ensures |v| == |t.columns|
    ensures forall k :: 0 <= k < |v| ==> v[k] == t.rows[i][t.columns[k]]
  {
    seq(|t.columns|, k requires 0 <= k < |t.columns| => t.rows[i][t.columns[k]])
  }

  /** One pass of the inner loop of `prepare_data`: row `i` of chart frame
      `t` titled `title`, its two checks, the label lookup and the
      coordinates. */
  function RadarEntry(title: string, t: Table, i: nat, labelMapper: map<string, seq<string>>,
                      cosTurn: real -> real, sinTurn: real -> real): (r: Result<(ChartEntry, Polygon), Error>)
    requires WellFormed(t)
    ensures r.Ok? <==> i < |t.rows| && |t.columns| >= 3 && title in labelMapper
    ensures i < |t.rows| && |t.columns| < 2 ==> r == Err(ValueError(TooFewColumns))
    ensures i < |t.rows| && |t.columns| == 2 ==> r == Err(ValueError(TooFewProperties))
    ensures i < |t.rows| && |t.columns| >= 3 && title !in labelMapper ==> r == Err(KeyError([title]))
  {
    if i >= |t.rows| then Err(IndexError)
    else
      var n := |t.columns|;
      if n < 2 then Err(ValueError(TooFewColumns))
      else if n < 3 then Err(ValueError(TooFewProperties))
      else
        if title !in labelMapper then Err(KeyError([title]))
        else
          var v := RowValues(t, i);
          var cs, sn := Spokes(n, cosTurn), Spokes(n, sinTurn);
          Ok((ChartEntry(title, labelMapper[title], cs, sn, Times(1.2, cs), Times(1.2, sn)),
              Polygon(Pointwise(v, cs), Pointwise(v, sn))))
  }

  /** `np.cos(angles)` (or `np.sin`) for the n evenly spaced angles. */
  function Spokes(n: nat, trig: real -> real): (r: seq<real>)
    requires n > 0
    ensures |r| == n && forall k :: 0 <= k < n ==> r[k] == trig(RadarAngles(n)[k])
  {
    var angles := RadarAngles(n);
    seq(n, k requires 0 <= k < n => trig(angles[k]))
  }

  /** `a * xs` on a numpy array. */
  function Times(a: real, xs: seq<real>): (r: seq<real>)
    ensures |r| == |xs| && forall k :: 0 <= k < |xs| ==> r[k] == a * xs[k]
  {
    seq(|xs|, k requires 0 <= k < |xs| => a * xs[k])
  }

  /** `xs * ys` on numpy arrays of equal length. */
  function Pointwise(xs: seq<real>, ys: seq<real>): (r: seq<real>)
    requires |xs| == |ys|
    ensures |r| == |xs| && forall k :: 0 <= k < |xs| ==> r[k] == xs[k] * ys[k]
  {
    seq(|xs|, k requires 0 <= k < |xs| => xs[k] * ys[k])
  }

  /** The coordinates of a successful entry: spoke k points at angle k/n
      of a turn, polygon point k is value k along spoke k, and label k sits
      at distance 1.2 along spoke k. */
  lemma RadarEntryCoordinates(title: string, t: Table, i: nat, labelMapper: map<string, seq<string>>,
                              cosTurn: real -> real, sinTurn: real -> real)
    requires WellFormed(t) && RadarEntry(title, t, i, labelMapper, cosTurn, sinTurn).Ok?
    ensures var e := RadarEntry(title, t, i, labelMapper, cosTurn, sinTurn).value.0;
      var p := RadarEntry(title, t, i, labelMapper, cosTurn, sinTurn).value.1;
      e.title == title && e.labels == labelMapper[title] &&
      UnitSpokes(e, p, RowValues(t, i)) &&
      forall k :: 0 <= k < |t.columns| ==>
        e.cosines[k] == cosTurn(RadarAngles(|t.columns|)[k]) && e.sines[k] == sinTurn(RadarAngles(|t.columns|)[k])
  {
    var n := |t.columns|;
    var v := RowValues(t, i);
    var cs, sn := Spokes(n, cosTurn), Spokes(n, sinTurn);
    assert RadarEntry(title, t, i, labelMapper, cosTurn, sinTurn) ==
      Ok((ChartEntry(title, labelMapper[title], cs, sn, Times(1.2, cs), Times(1.2, sn)),
          Polygon(Pointwise(v, cs), Pointwise(v, sn))));
  }

  /** Polygon point k is value k along spoke k, and label k sits at
      distance 1.2 along spoke k. */
  predicate UnitSpokes(e: ChartEntry, p: Polygon, v: seq<real>)
  {
    |e.cosines| == |e.sines| == |e.labelsX| == |e.labelsY| == |p.x| == |p.y| == |v| &&
    forall k :: 0 <= k < |v| ==>
      p.x[k] == v[k] * e.cosines[k] && p.y[k] == v[k] * e.sines[k] &&
      e.labelsX[k] == 1.2 * e.cosines[k] && e.labelsY[k] == 1.2 * e.sines[k]
  }

  /** With `cos² + sin² = 1`, polygon point k lies at distance |value k|
      from the centre and label k at distance 1.2, so a label lies
      strictly further out than any value in [-1, 1] along its spoke. */
  lemma LabelsOutsidePolygon(e: ChartEntry, p: Polygon, v: seq<real>)
    requires UnitSpokes(e, p, v)
    requires forall k :: 0 <= k < |v| ==> UnitCircle(e.cosines[k], e.sines[k])
    ensures forall k :: 0 <= k < |v| ==>
      p.x[k] * p.x[k] + p.y[k] * p.y[k] == v[k] * v[k] &&
      e.labelsX[k] * e.labelsX[k] + e.labelsY[k] * e.labelsY[k] == 1.44 &&
      (-1.0 <= v[k] <= 1.0 ==> p.x[k] * p.x[k] + p.y[k] * p.y[k] < e.labelsX[k] * e.labelsX[k] + e.labelsY[k] * e.labelsY[k])
  {
    forall k | 0 <= k < |v| {
      SpokeRadius(v[k], e.cosines[k], e.sines[k]);
    }
  }

  /** The same for the entries `prepare_data` computes, when cosine and
      sine satisfy `cos² + sin² = 1`. */
  lemma RadarLabelsOutsidePolygon(title: string, t: Table, i: nat, labelMapper: map<string, seq<string>>,
                                  cosTurn: real -> real, sinTurn: real -> real)
    requires WellFormed(t) && RadarEntry(title, t, i, labelMapper, cosTurn, sinTurn).Ok?
    requires forall a: real :: UnitCircle(cosTurn(a), sinTurn(a))
    ensures var e := RadarEntry(title, t, i, labelMapper, cosTurn, sinTurn).value.0;
      var p := RadarEntry(title, t, i, labelMapper, cosTurn, sinTurn).value.1;
      var v := RowValues(t, i);
      forall k :: 0 <= k < |v| ==>
        e.labelsX[k] * e.labelsX[k] + e.labelsY[k] * e.labelsY[k] == 1.44 &&
        (-1.0 <= v[k] <= 1.0 ==> p.x[k] * p.x[k] + p.y[k] * p.y[k] < 1.44)
  {
    var e := RadarEntry(title, t, i, labelMapper, cosTurn, sinTurn).value.0;
    var p := RadarEntry(title, t, i, labelMapper, cosTurn, sinTurn).value.1;
    var v := RowValues(t, i);
    RadarEntryCoordinates(title, t, i, labelMapper, cosTurn, sinTurn);
    forall k | 0 <= k < |v| ensures UnitCircle(e.cosines[k], e.sines[k]) {
      var a := RadarAngles(|t.columns|)[k];
      assert e.cosines[k] == cosTurn(a) && e.sines[k] == sinTurn(a);
    }
    LabelsOutsidePolygon(e, p, v);
  }

  /** `c² + s² = 1`: (c, s) is a point of the unit circle. */
  predicate UnitCircle(c: real, s: real)
  {
    c * c + s * s == 1.0
  }

  /** A point `v` along a unit spoke lies at distance |v|, a label at
      distance 1.2. */
  lemma SpokeRadius(v: real, c: real, s: real)
    requires UnitCircle(c, s)
    ensures (v * c) * (v * c) + (v * s) * (v * s) == v * v
    ensures (1.2 * c) * (1.2 * c) + (1.2 * s) * (1.2 * s) == 1.44
    ensures -1.0 <= v <= 1.0 ==> v * v < 1.44
  {
    assert (v * c) * (v * c) + (v * s) * (v * s) == v * v * (c * c + s * s);
    assert (1.2 * c) * (1.2 * c) + (1.2 * s) * (1.2 * s) == 1.44 * (c * c + s * s);
    if -1.0 <= v <= 1.0 {
      if v >= 0.0 { assert v * v <= v * 1.0; }
      else { assert v * v <= (-v) * 1.0; }
    }
  }

  // ----- the loops of prepare_data -----

  /** The two dictionaries `prepare_data` builds. */
  datatype ChartsData = ChartsData(charts: map<string, map<nat, ChartEntry>>, xy: map<string, map<nat, Polygon>>)

  /** The entry for participant `i` of the `c`-th chart frame. */
  function EntryAt(frames: seq<(string, Table)>, c: nat, i: nat, labelMapper: map<string, seq<string>>,
                   cosTurn: real -> real, sinTurn: real -> real): Result<(ChartEntry, Polygon), Error>
    requires c < |frames| && WellFormed(frames[c].1)
  {
    RadarEntry(frames[c].0, frames[c].1, i, labelMapper, cosTurn, sinTurn)
  }

  /** Pass (c, i) comes before pass (c', i') of the nested loops. */
  predicate Before(c: nat, i: nat, c': nat, i': nat)
  {
    c < c' || (c == c' && i < i')
  }

  /** The entries and polygons of frame `c` for the participants below
      `upTo`: exactly those indices, each holding its pass's result. */
  ghost predicate FrameFilled(frames: seq<(string, Table)>, c: nat, upTo: nat,
                        entries: map<nat, ChartEntry>, points: map<nat, Polygon>,
                        labelMapper: map<string, seq<string>>, cosTurn: real -> real, sinTurn: real -> real)
    requires c < |frames| && WellFormed(frames[c].1)
  {
    (forall i :: i in entries <==> 0 <= i < upTo) &&
    (forall i :: i in points <==> 0 <= i < upTo) &&
    forall i :: 0 <= i < upTo ==>
      EntryAt(frames, c, i, labelMapper, cosTurn, sinTurn).Ok? &&
      entries[i] == EntryAt(frames, c, i, labelMapper, cosTurn, sinTurn).value.0 &&
      points[i] == EntryAt(frames, c, i, labelMapper, cosTurn, sinTurn).value.1
  }

  /** The nested loops of `prepare_data` over the chart frames (the items
      of `df_dict`, whose names are distinct) and the participants. On
      success every frame has an entry for each participant index; on
      failure the error is the one of the first failing pass. */
  method PrepareRadarData(frames: seq<(string, Table)>, participants: nat, labelMapper: map<string, seq<string>>,
                          cosTurn: real -> real, sinTurn: real -> real) returns (r: Result<ChartsData, Error>)
    requires forall c :: 0 <= c < |frames| ==> WellFormed(frames[c].1)
    requires forall a, b :: 0 <= a < b < |frames| ==> frames[a].0 != frames[b].0
    ensures r.Ok? <==> forall c, i :: 0 <= c < |frames| && 0 <= i < participants ==>
      EntryAt(frames, c, i, labelMapper, cosTurn, sinTurn).Ok?
    ensures r.Ok? ==>
      (forall name :: name in r.value.charts <==> exists c :: 0 <= c < |frames| && frames[c].0 == name) &&
      (forall name :: name in r.value.xy <==> name in r.value.charts)
    ensures r.Ok? ==> forall c :: 0 <= c < |frames| ==>
      var name := frames[c].0;
      name in r.value.charts && name in r.value.xy &&
      (forall i :: i in r.value.charts[name] <==> 0 <= i < participants) &&
      (forall i :: i in r.value.xy[name] <==> 0 <= i < participants) &&
      forall i :: 0 <= i < participants ==>
        r.value.charts[name][i] == EntryAt(frames, c, i, labelMapper, cosTurn, sinTurn).value.0 &&
        r.value.xy[name][i] == EntryAt(frames, c, i, labelMapper, cosTurn, sinTurn).value.1
    ensures r.Err? ==> exists c, i :: (0 <= c < |frames| && 0 <= i < participants &&
      EntryAt(frames, c, i, labelMapper, cosTurn, sinTurn).Err? &&
      r.error == EntryAt(frames, c, i, labelMapper, cosTurn, sinTurn).error &&
      forall c', i' :: 0 <= c' < |frames| && 0 <= i' < participants && Before(c', i', c, i) ==>
        EntryAt(frames, c', i', labelMapper, cosTurn, sinTurn).Ok?)
  {
    var chartsData: map<string, map<nat, ChartEntry>> := map[];
    var xyData: map<string, map<nat, Polygon>> := map[];
    var c := 0;
    while c < |frames|
      invariant 0 <= c <= |frames|
      invariant forall name :: name in chartsData <==> exists c' :: 0 <= c' < c && frames[c'].0 == name
      invariant forall name :: name in xyData <==> name in chartsData
      invariant forall c' :: 0 <= c' < c ==>
        frames[c'].0 in chartsData && frames[c'].0 in xyData &&
        FrameFilled(frames, c', participants, chartsData[frames[c'].0], xyData[frames[c'].0],
                    labelMapper, cosTurn, sinTurn)
    {
      var name := frames[c].0;
      var frame := PrepareFrame(frames, c, participants, labelMapper, cosTurn, sinTurn);
      if frame.Err? {
        var i := frame.error.0;
        FirstFailure(frames, c, i, participants, chartsData, xyData, labelMapper, cosTurn, sinTurn);
        r := Err(frame.error.1);
        FailureReported(frames, c, i, participants, r, labelMapper, cosTurn, sinTurn);
        return;
      }
      var (entries, points) := frame.value;
      FramesKept(frames, c, participants, chartsData, xyData, entries, points, labelMapper, cosTurn, sinTurn);
      chartsData := chartsData[name := entries];
      xyData := xyData[name := points];
      c := c + 1;
    }
    r := Ok(ChartsData(chartsData, xyData));
    AllFilled(frames, participants, chartsData, xyData, labelMapper, cosTurn, sinTurn);
  }

  /** An error from the first failing pass is reported as such. */
  lemma FailureReported(frames: seq<(string, Table)>, c: nat, i: nat, participants: nat, r: Result<ChartsData, Error>,
                        labelMapper: map<string, seq<string>>, cosTurn: real -> real, sinTurn: real -> real)
    requires forall c :: 0 <= c < |frames| ==> WellFormed(frames[c].1)
    requires c < |frames| && i < participants
    requires EntryAt(frames, c, i, labelMapper, cosTurn, sinTurn).Err?
    requires r == Err(EntryAt(frames, c, i, labelMapper, cosTurn, sinTurn).error)
    requires forall c', i' :: 0 <= c' < |frames| && 0 <= i' < participants && Before(c', i', c, i) ==>
      EntryAt(frames, c', i', labelMapper, cosTurn, sinTurn).Ok?
    ensures !(forall c, i :: 0 <= c < |frames| && 0 <= i < participants ==>
      EntryAt(frames, c, i, labelMapper, cosTurn, sinTurn).Ok?)
    ensures exists c, i :: (0 <= c < |frames| && 0 <= i < participants &&
      EntryAt(frames, c, i, labelMapper, cosTurn, sinTurn).Err? &&
      r.error == EntryAt(frames, c, i, labelMapper, cosTurn, sinTurn).error &&
      forall c', i' :: 0 <= c' < |frames| && 0 <= i' < participants && Before(c', i', c, i) ==>
        EntryAt(frames, c', i', labelMapper, cosTurn, sinTurn).Ok?)
  {
  }

  /** When every frame is filled, the dictionaries hold exactly the
      results the ensures of `PrepareRadarData` name. */
  lemma AllFilled(frames: seq<(string, Table)>, participants: nat,
                  chartsData: map<string, map<nat, ChartEntry>>, xyData: map<string, map<nat, Polygon>>,
                  labelMapper: map<string, seq<string>>, cosTurn: real -> real, sinTurn: real -> real)
    requires forall c :: 0 <= c < |frames| ==> WellFormed(frames[c].1)
    requires forall c' :: 0 <= c' < |frames| ==>
      frames[c'].0 in chartsData && frames[c'].0 in xyData &&
      FrameFilled(frames, c', participants, chartsData[frames[c'].0], xyData[frames[c'].0],
                  labelMapper, cosTurn, sinTurn)
    ensures forall c, i :: 0 <= c < |frames| && 0 <= i < participants ==>
      EntryAt(frames, c, i, labelMapper, cosTurn, sinTurn).Ok?
    ensures forall c :: 0 <= c < |frames| ==>
      var name := frames[c].0;
      name in chartsData && name in xyData &&
      (forall i :: i in chartsData[name] <==> 0 <= i < participants) &&
      (forall i :: i in xyData[name] <==> 0 <= i < participants) &&
      forall i :: 0 <= i < participants ==>
        chartsData[name][i] == EntryAt(frames, c, i, labelMapper, cosTurn, sinTurn).value.0 &&
        xyData[name][i] == EntryAt(frames, c, i, labelMapper, cosTurn, sinTurn).value.1
  {
    forall c, i | 0 <= c < |frames| && 0 <= i < participants
      ensures EntryAt(frames, c, i, labelMapper, cosTurn, sinTurn).Ok?
    {
      assert FrameFilled(frames, c, participants, chartsData[frames[c].0], xyData[frames[c].0],
                         labelMapper, cosTurn, sinTurn);
    }
  }

  /** The inner loop of `prepare_data` for the `c`-th chart frame: the
      entries of all participants, or the index and error of the first
      failing pass. */
  method PrepareFrame(frames: seq<(string, Table)>, c: nat, participants: nat, labelMapper: map<string, seq<string>>,
                      cosTurn: real -> real, sinTurn: real -> real)
    returns (r: Result<(map<nat, ChartEntry>, map<nat, Polygon>), (nat, Error)>)
    requires c < |frames| && WellFormed(frames[c].1)
    ensures r.Ok? ==> FrameFilled(frames, c, participants, r.value.0, r.value.1, labelMapper, cosTurn, sinTurn)
    ensures r.Err? ==>
      r.error.0 < participants &&
      EntryAt(frames, c, r.error.0, labelMapper, cosTurn, sinTurn).Err? &&
      r.error.1 == EntryAt(frames, c, r.error.0, labelMapper, cosTurn, sinTurn).error &&
      forall i' :: 0 <= i' < r.error.0 ==> EntryAt(frames, c, i', labelMapper, cosTurn, sinTurn).Ok?
  {
    var (name, table) := frames[c];
    var entries: map<nat, ChartEntry> := map[];
    var points: map<nat, Polygon> := map[];
    for i := 0 to participants
      invariant FrameFilled(frames, c, i, entries, points, labelMapper, cosTurn, sinTurn)
    {
      var entry := RadarEntry(name, table, i, labelMapper, cosTurn, sinTurn);
      assert entry == EntryAt(frames, c, i, labelMapper, cosTurn, sinTurn);
      if entry.Err? {
        return Err((i, entry.error));
      }
      entries := entries[i := entry.value.0];
      points := points[i := entry.value.1];
    }
    r := Ok((entries, points));
  }

  /** When pass (c, i) fails after all earlier passes succeeded, it is the
      first failing pass. */
  lemma FirstFailure(frames: seq<(string, Table)>, c: nat, i: nat, participants: nat,
                     chartsData: map<string, map<nat, ChartEntry>>, xyData: map<string, map<nat, Polygon>>,
                     labelMapper: map<string, seq<string>>, cosTurn: real -> real, sinTurn: real -> real)
    requires forall c :: 0 <= c < |frames| ==> WellFormed(frames[c].1)
    requires c < |frames| && i < participants
    requires forall c' :: 0 <= c' < c ==>
      frames[c'].0 in chartsData && frames[c'].0 in xyData &&
      FrameFilled(frames, c', participants, chartsData[frames[c'].0], xyData[frames[c'].0],
                  labelMapper, cosTurn, sinTurn)
    requires forall i' :: 0 <= i' < i ==> EntryAt(frames, c, i', labelMapper, cosTurn, sinTurn).Ok?
    ensures forall c', i' :: 0 <= c' < |frames| && 0 <= i' < participants && Before(c', i', c, i) ==>
      EntryAt(frames, c', i', labelMapper, cosTurn, sinTurn).Ok?
  {
    forall c', i' | 0 <= c' < |frames| && 0 <= i' < participants && Before(c', i', c, i)
      ensures EntryAt(frames, c', i', labelMapper, cosTurn, sinTurn).Ok?
    {
      if c' < c {
        assert FrameFilled(frames, c', participants, chartsData[frames[c'].0], xyData[frames[c'].0],
                           labelMapper, cosTurn, sinTurn);
      }
    }
  }

  /** Storing frame c's finished maps under its name keeps the maps of
      the earlier frames, whose names differ. */
  lemma FramesKept(frames: seq<(string, Table)>, c: nat, participants: nat,
                   chartsData: map<string, map<nat, ChartEntry>>, xyData: map<string, map<nat, Polygon>>,
                   entries: map<nat, ChartEntry>, points: map<nat, Polygon>,
                   labelMapper: map<string, seq<string>>, cosTurn: real -> real, sinTurn: real -> real)
    requires forall c :: 0 <= c < |frames| ==> WellFormed(frames[c].1)
    requires forall a, b :: 0 <= a < b < |frames| ==> frames[a].0 != frames[b].0
    requires c < |frames|
    requires forall c' :: 0 <= c' < c ==>
      frames[c'].0 in chartsData && frames[c'].0 in xyData &&
      FrameFilled(frames, c', participants, chartsData[frames[c'].0], xyData[frames[c'].0],
                  labelMapper, cosTurn, sinTurn)
    requires FrameFilled(frames, c, participants, entries, points, labelMapper, cosTurn, sinTurn)
    ensures forall c' :: 0 <= c' <= c ==>
      frames[c'].0 in chartsData[frames[c].0 := entries] && frames[c'].0 in xyData[frames[c].0 := points] &&
      FrameFilled(frames, c', participants, chartsData[frames[c].0 := entries][frames[c'].0],
                  xyData[frames[c].0 := points][frames[c'].0], labelMapper, cosTurn, sinTurn)
  {
    forall c' | 0 <= c' < c ensures frames[c'].0 != frames[c].0 { }
  }
}
