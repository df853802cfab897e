// The pure logic of src/plot_functions.py: the index sequence behind the
// hour-of-day colour ramp, its normalisation and the colour lookup (the
// colormap and the hex encoding are parameters), the column-title
// prettifier, and the tick labels and ticks of the two bar plots.

module ColorMap {
  import opened Outcomes

  /** `np.arange(0, 12)`. */
  function TimeRange(): (r: seq<int>)
    ensures |r| == 12 && forall k :: 0 <= k < 12 ==> r[k] == k
  {
    seq(12, k => k)
  }

  /** `np.concatenate((time_range, time_range[::-1] + 2))`: the forward
      range followed by the reversed range shifted up by two. */
  function FullTimeRange(): (f: seq<int>)
    ensures |f| == 24
  {
    var t := TimeRange();
    t + seq(|t|, k requires 0 <= k < |t| => t[|t| - 1 - k] + 2)
  }

  /** The sequence is 0, 1, ..., 11 followed by 13, 12, ..., 2. */
  lemma FullTimeRangeValues()
    ensures |FullTimeRange()| == 24
    ensures forall k :: 0 <= k < 12 ==> FullTimeRange()[k] == k
    ensures forall k :: 12 <= k < 24 ==> FullTimeRange()[k] == 25 - k
  {
  }

  /** Rising over the first half, falling over the second; the maximum 13
      is reached at position 12 and nowhere else. */
  lemma FullTimeRangeShape()
    ensures forall i, j :: 0 <= i < j < 12 ==> FullTimeRange()[i] < FullTimeRange()[j]
    ensures forall i, j :: 12 <= i < j < 24 ==> FullTimeRange()[i] > FullTimeRange()[j]
    ensures SeqMax(FullTimeRange()) == 13
    ensures forall k :: 0 <= k < 24 ==> (FullTimeRange()[k] == 13 <==> k == 12)
  {
    var f := FullTimeRange();
    FullTimeRangeValues();
    forall i, j | 0 <= i < j < 12 ensures f[i] < f[j] {
      assert f[i] == i && f[j] == j;
    }
    forall i, j | 12 <= i < j < 24 ensures f[i] > f[j] {
      assert f[i] == 25 - i && f[j] == 25 - j;
    }
    forall k | 0 <= k < 24 ensures f[k] == 13 <==> k == 12 {
      if k < 12 { assert f[k] == k; } else { assert f[k] == 25 - k; }
    }
    FullTimeRangeMax();
  }

  /** The largest value of the sequence is 13. */
  lemma FullTimeRangeMax()
    ensures SeqMax(FullTimeRange()) == 13
  {
    var f := FullTimeRange();
    FullTimeRangeValues();
    forall k | 0 <= k < 24 ensures f[k] <= 13 {
      if k < 12 { assert f[k] == k; } else { assert f[k] == 25 - k; }
    }
    assert f[12] == 13;
    SeqMaxIs(f, 13, 12);
  }

  /** numpy's `xs / xs.max()` on an integer array with a non-zero maximum. */
  function DivideByMax(xs: seq<int>): (r: seq<real>)
    requires |xs| > 0 && SeqMax(xs) != 0
    ensures |r| == |xs|
  {
    seq(|xs|, k requires 0 <= k < |xs| => xs[k] as real / SeqMax(xs) as real)
  }

  /** `full_time_range / full_time_range.max()`. */
  function NormalizedTimeRange(): (n: seq<real>)
    ensures |n| == 24
  {
    FullTimeRangeMax();
    DivideByMax(FullTimeRange())
  }

  /** Value k of the normalised range is `seq[k] / 13`. */
  lemma NormalizedAt(k: int)
    requires 0 <= k < 24
    ensures NormalizedTimeRange()[k] == FullTimeRange()[k] as real / 13.0
  {
    FullTimeRangeMax();
  }

  /** Dividing a value of 0..13 by 13 lands in [0, 1], on 1 exactly for 13. */
  lemma DivideByThirteen(v: int)
    requires 0 <= v <= 13
    ensures 0.0 <= v as real / 13.0 <= 1.0
    ensures v as real / 13.0 == 1.0 <==> v == 13
  {
  }

  /** Every normalised value is `seq[k] / 13`, lies in [0, 1], starts at 0,
      equals 1 only at position 12, and the two halves mirror each other. */
  lemma NormalizedTimeRangeShape()
    ensures forall k :: 0 <= k < 24 ==> NormalizedTimeRange()[k] == FullTimeRange()[k] as real / 13.0
    ensures forall k :: 0 <= k < 24 ==> 0.0 <= NormalizedTimeRange()[k] <= 1.0
    ensures NormalizedTimeRange()[0] == 0.0
    ensures forall k :: 0 <= k < 24 ==> (NormalizedTimeRange()[k] == 1.0 <==> k == 12)
    ensures forall i :: 2 <= i <= 11 ==> NormalizedTimeRange()[i] == NormalizedTimeRange()[25 - i]
  {
    var f := FullTimeRange();
    var n := NormalizedTimeRange();
    FullTimeRangeValues();
    forall k | 0 <= k < 24 ensures n[k] == f[k] as real / 13.0 {
      NormalizedAt(k);
    }
    forall k | 0 <= k < 24 ensures 0.0 <= n[k] <= 1.0 && (n[k] == 1.0 <==> k == 12) {
      assert 0 <= f[k] <= 13 && (f[k] == 13 <==> k == 12) by {
        if k < 12 { assert f[k] == k; } else { assert f[k] == 25 - k; }
      }
      DivideByThirteen(f[k]);
    }
    forall i | 2 <= i <= 11 ensures n[i] == n[25 - i] {
      assert f[i] == i && f[25 - i] == i;
    }
  }

  /** `create_time_color_map`: one colour per normalised value, in order.
      `cmap` stands for matplotlib's plasma colormap and `toHex` for
      `rgb2hex`; both are uninterpreted here. */
  function CreateTimeColorMap<Rgba, Hex>(cmap: real -> Rgba, toHex: Rgba -> Hex): (colors: seq<Hex>)
    ensures |colors| == 24
    ensures colors[0] == toHex(cmap(0.0)) && colors[12] == toHex(cmap(1.0))
    ensures forall i :: 2 <= i <= 11 ==> colors[i] == colors[25 - i]
  {
    NormalizedTimeRangeShape();
    var n := NormalizedTimeRange();
    seq(|n|, k requires 0 <= k < |n| => toHex(cmap(n[k])))
  }

  /** There are 24 colours; colour k is the colormap at `seq[k] / 13`; the
      first colour is the colormap's low end, position 12 its high end, and
      the ascending and descending halves give the same colours. */
  lemma TimeColorMapShape<Rgba, Hex>(cmap: real -> Rgba, toHex: Rgba -> Hex)
    ensures |CreateTimeColorMap(cmap, toHex)| == 24
    ensures forall k :: 0 <= k < 24 ==>
      CreateTimeColorMap(cmap, toHex)[k] == toHex(cmap(FullTimeRange()[k] as real / 13.0))
    ensures CreateTimeColorMap(cmap, toHex)[0] == toHex(cmap(0.0))
    ensures CreateTimeColorMap(cmap, toHex)[12] == toHex(cmap(1.0))
    ensures forall i :: 2 <= i <= 11 ==>
      CreateTimeColorMap(cmap, toHex)[i] == CreateTimeColorMap(cmap, toHex)[25 - i]
  {
    NormalizedTimeRangeShape();
  }
}

module PlotLabels {
  import opened Outcomes
  import opened Text

  /** `[word.capitalize() for word in words]`. */
  function CapitalizeAll(words: seq<string>): (caps: seq<string>)
    ensures |caps| == |words|
    ensures forall k :: 0 <= k < |words| ==> caps[k] == Capitalize(words[k])
  {
    if words == [] then [] else [Capitalize(words[0])] + CapitalizeAll(words[1..])
  }

  /** The title prettifier of `get_timeseries_plot` and `get_rel_plot`:
      split on `_`, capitalise each piece, join with single spaces. */
  function PrettyTitle(title: string): (pretty: string)
    ensures |pretty| == |title|
  {
    CapitalizedSplitLength(title, '_', ' ');
    Join(CapitalizeAll(Split(title, '_')), " ")
  }

  /** Capitalising the pieces of a split and joining them with any
      one-character separator keeps the length of the string. */
  lemma {:induction false} CapitalizedSplitLength(s: string, sep: char, glue: char)
    ensures |Join(CapitalizeAll(Split(s, sep)), [glue])| == |s|
    decreases |s|
  {
    if sep !in s {
      assert Split(s, sep) == [s];
      assert CapitalizeAll([s]) == [Capitalize(s)];
    } else {
      var k := SplitStep(s, sep);
      var rest := s[k + 1..];
      CapitalizedSplitLength(rest, sep, glue);
      var caps := CapitalizeAll(Split(s, sep));
      assert caps[0] == Capitalize(s[..k]);
      assert caps[1..] == CapitalizeAll(Split(rest, sep));
    }
  }

  /** A character-by-character description of the prettified title:
      underscores become spaces, a character at the start of a word is
      upper-cased and every other character is lower-cased. */
  function PrettyChar(title: string, i: nat): char
    requires i < |title|
  {
    if title[i] == '_' then ' '
    else if i == 0 || title[i - 1] == '_' then ToUpper(title[i])
    else ToLower(title[i])
  }

  /** When the title contains an underscore, the prettified title is the
      first word capitalised, one space, and the rest prettified. */
  lemma PrettyTitleStep(title: string) returns (k: nat)
    requires '_' in title
    ensures k < |title| && title[k] == '_' && '_' !in title[..k]
    ensures title == title[..k] + "_" + title[k + 1..]
    ensures PrettyTitle(title) == Capitalize(title[..k]) + " " + PrettyTitle(title[k + 1..])
  {
    k := SplitStep(title, '_');
    var words := Split(title, '_');
    var rest := Split(title[k + 1..], '_');
    assert words[0] == title[..k] && words[1..] == rest;
    var caps := CapitalizeAll(words);
    assert caps == [Capitalize(title[..k])] + CapitalizeAll(rest);
    assert caps[1..] == CapitalizeAll(rest);
  }

  /** One character of `Capitalize(title[..k]) + " " + rest`, where `k` is
      the first underscore and `rest` is described by `PrettyChar` on the
      text after it. */
  lemma PrettyCharAfterSplit(title: string, k: nat, rest: string, i: nat)
    requires k < |title| && title[k] == '_' && '_' !in title[..k]
    requires |rest| == |title| - k - 1
    requires forall j :: 0 <= j < |rest| ==> rest[j] == PrettyChar(title[k + 1..], j)
    requires i < |title|
    ensures |Capitalize(title[..k]) + " " + rest| == |title|
    ensures (Capitalize(title[..k]) + " " + rest)[i] == PrettyChar(title, i)
  {
    var p := Capitalize(title[..k]) + " " + rest;
    if i < k {
      assert p[i] == Capitalize(title[..k])[i];
      assert title[i] == title[..k][i];
      assert title[i] != '_';
      assert i > 0 ==> title[i - 1] == title[..k][i - 1] && title[i - 1] != '_';
    } else if i > k {
      var after := title[k + 1..];
      assert p[i] == rest[i - k - 1];
      assert after[i - k - 1] == title[i];
      assert i - k - 1 > 0 ==> after[i - k - 2] == title[i - 1];
    }
  }

  /** The prettifier keeps the length of the title and is described
      character by character by `PrettyChar`. */
  lemma {:induction false} PrettyTitleChars(title: string)
    ensures |PrettyTitle(title)| == |title|
    ensures forall i :: 0 <= i < |title| ==> PrettyTitle(title)[i] == PrettyChar(title, i)
    decreases |title|
  {
    if '_' !in title {
      assert Split(title, '_') == [title];
      assert CapitalizeAll([title]) == [Capitalize(title)];
    } else {
      var k := PrettyTitleStep(title);
      var rest := PrettyTitle(title[k + 1..]);
      PrettyTitleChars(title[k + 1..]);
      forall i | 0 <= i < |title| ensures PrettyTitle(title)[i] == PrettyChar(title, i) {
        PrettyCharAfterSplit(title, k, rest, i);
      }
    }
  }

  /** The prettified title has a space exactly where the title had an
      underscore or a space, and no underscore at all. */
  lemma PrettyTitleSpaces(title: string)
    ensures |PrettyTitle(title)| == |title|
    ensures forall i :: 0 <= i < |title| ==>
      (PrettyTitle(title)[i] == ' ' <==> title[i] == '_' || title[i] == ' ')
    ensures '_' !in PrettyTitle(title)
  {
    PrettyTitleChars(title);
  }

  /** The columns of `get_soundcat_barplot`. */
  const SoundCategoryColumns: seq<string> := [
    "SC_Nature", "SC_Human", "SC_Household", "SC_Installation",
    "SC_Signals", "SC_Traffic", "SC_Speech", "SC_Music"
  ]

  /** `col.split("_")[1]`, which needs at least one underscore in `col`. */
  function SoundCategoryLabel(col: string): (name: string)
    requires '_' in col
    ensures '_' !in name
  {
    SplitPiecesFree(col, '_');
    Split(col, '_')[1]
  }

  /** The label is the text between the first and the second underscore of
      the column name (or its end), and holds no underscore. */
  lemma SoundCategoryLabelSpan(col: string) returns (k: nat)
    requires '_' in col
    ensures '_' !in SoundCategoryLabel(col)
    ensures k < |col| && col[k] == '_' && '_' !in col[..k]
    ensures k + 1 + |SoundCategoryLabel(col)| <= |col|
    ensures col[k + 1..k + 1 + |SoundCategoryLabel(col)|] == SoundCategoryLabel(col)
    ensures k + 1 + |SoundCategoryLabel(col)| == |col| || col[k + 1 + |SoundCategoryLabel(col)|] == '_'
  {
    k := SplitStep(col, '_');
    var rest := col[k + 1..];
    var name := SoundCategoryLabel(col);
    assert name == Split(rest, '_')[0] by {
      assert Split(col, '_') == [col[..k]] + Split(rest, '_');
    }
    SplitFirstPiece(rest, '_');
    assert col[k + 1..k + 1 + |name|] == rest[..|name|];
    if |name| < |rest| {
      assert col[k + 1 + |name|] == rest[|name|];
    }
  }

  /** `x_ticks = [(i, col) for i, col in enumerate(x_cols)]`. */
  function SoundCategoryTicks(cols: seq<string>): (ticks: seq<(int, string)>)
    requires forall k :: 0 <= k < |cols| ==> '_' in cols[k]
    ensures |ticks| == |cols|
    ensures forall k :: 0 <= k < |ticks| ==> ticks[k].0 == k && '_' !in ticks[k].1
  {
    seq(|cols|, k requires 0 <= k < |cols| => (k, SoundCategoryLabel(cols[k])))
  }

  /** `p.xaxis.ticker = [i for i, _ in x_ticks]`. */
  function TickPositions(ticks: seq<(int, string)>): (positions: seq<int>)
    ensures |positions| == |ticks|
  {
    seq(|ticks|, k requires 0 <= k < |ticks| => ticks[k].0)
  }

  /** `p.xaxis.major_label_overrides = {i: label for i, label in x_ticks}`:
      pairs are entered in order, so a later pair wins over an earlier one.
      Its keys and values are stated by `LabelOverridesLookup`. */
  function LabelOverrides(ticks: seq<(int, string)>): map<int, string>
  {
    if ticks == [] then map[]
    else
      var last := ticks[|ticks| - 1];
      LabelOverrides(ticks[..|ticks| - 1])[last.0 := last.1]
  }

  /** With distinct tick positions, every pair is found in the overrides. */
  lemma {:induction false} LabelOverridesLookup(ticks: seq<(int, string)>)
    requires forall i, j :: 0 <= i < j < |ticks| ==> ticks[i].0 != ticks[j].0
    ensures forall k :: k in LabelOverrides(ticks) <==> exists j :: 0 <= j < |ticks| && ticks[j].0 == k
    ensures forall j :: 0 <= j < |ticks| ==> LabelOverrides(ticks)[ticks[j].0] == ticks[j].1
  {
    if ticks != [] {
      var init := ticks[..|ticks| - 1];
      LabelOverridesLookup(init);
      forall k ensures k in LabelOverrides(ticks) <==> exists j :: 0 <= j < |ticks| && ticks[j].0 == k {
        if k in LabelOverrides(init) {
          var j :| 0 <= j < |init| && init[j].0 == k;
          assert ticks[j].0 == k;
        }
        if j :| 0 <= j < |ticks| && ticks[j].0 == k {
          if j < |init| { assert init[j].0 == k; }
        }
      }
      forall j | 0 <= j < |ticks| ensures LabelOverrides(ticks)[ticks[j].0] == ticks[j].1 {
        if j < |init| { assert init[j] == ticks[j]; }
      }
    }
  }

  /** For any list of columns, the ticks are 0, 1, ..., one per column, and
      the label shown at tick k is the label of the k-th column. */
  lemma SoundCategoryTicksPaired(cols: seq<string>)
    requires forall k :: 0 <= k < |cols| ==> '_' in cols[k]
    ensures TickPositions(SoundCategoryTicks(cols)) == seq(|cols|, k => k)
    ensures forall k :: k in LabelOverrides(SoundCategoryTicks(cols)) <==> 0 <= k < |cols|
    ensures forall k :: 0 <= k < |cols| ==>
      k in LabelOverrides(SoundCategoryTicks(cols)) &&
      LabelOverrides(SoundCategoryTicks(cols))[k] == SoundCategoryLabel(cols[k])
  {
    var ticks := SoundCategoryTicks(cols);
    assert TickPositions(ticks) == seq(|cols|, k => k);
    LabelOverridesLookup(ticks);
    forall k ensures k in LabelOverrides(ticks) <==> 0 <= k < |cols| {
      if 0 <= k < |cols| { assert ticks[k].0 == k; }
    }
    forall k | 0 <= k < |cols| ensures LabelOverrides(ticks)[k] == SoundCategoryLabel(cols[k]) {
      assert ticks[k].0 == k;
    }
  }

  /** A name of the form `SC_<word>` where `<word>` holds no underscore. */
  predicate SoundCategoryName(col: string)
  {
    |col| >= 3 && col[..3] == "SC_" && '_' !in col[3..]
  }

  /** Such a name is labelled by `<word>`. */
  lemma SoundCategoryLabelOfPrefixed(col: string)
    requires SoundCategoryName(col)
    ensures '_' in col && SoundCategoryLabel(col) == col[3..]
  {
    assert col[2] == '_' by { assert col[..3][2] == '_'; }
    var k := SplitStep(col, '_');
    assert k == 2 by {
      assert col[..3][0] != '_' && col[..3][1] != '_';
    }
    assert Split(col[3..], '_') == [col[3..]];
  }

  /** All eight sound-category columns have that form. */
  lemma SoundCategoryColumnsNamed()
    ensures forall k :: 0 <= k < |SoundCategoryColumns| ==>
      SoundCategoryName(SoundCategoryColumns[k]) && '_' in SoundCategoryColumns[k]
  {
    forall k | 0 <= k < |SoundCategoryColumns|
      ensures SoundCategoryName(SoundCategoryColumns[k])
    {
      var col := SoundCategoryColumns[k];
      assert col[..3] == "SC_";
    }
    forall k | 0 <= k < |SoundCategoryColumns| ensures '_' in SoundCategoryColumns[k] {
      SoundCategoryLabelOfPrefixed(SoundCategoryColumns[k]);
    }
  }

  /** For columns named `SC_<word>`, the label at tick k is the k-th
      name with its `SC_` prefix removed. */
  lemma SoundCategoryTicksOfNames(cols: seq<string>)
    requires forall k :: 0 <= k < |cols| ==> SoundCategoryName(cols[k]) && '_' in cols[k]
    ensures TickPositions(SoundCategoryTicks(cols)) == seq(|cols|, k => k)
    ensures forall k :: 0 <= k < |cols| ==>
      |cols[k]| >= 3 && k in LabelOverrides(SoundCategoryTicks(cols)) &&
      LabelOverrides(SoundCategoryTicks(cols))[k] == cols[k][3..]
  {
    forall k | 0 <= k < |cols| ensures SoundCategoryLabel(cols[k]) == cols[k][3..] {
      SoundCategoryLabelOfPrefixed(cols[k]);
    }
    SoundCategoryTicksPaired(cols);
  }

  /** For the eight sound-category columns the ticks are 0..7 and the
      label at tick k is the k-th name with its `SC_` prefix removed. */
  lemma SoundCategoryLabelsConcrete()
    ensures forall k :: 0 <= k < |SoundCategoryColumns| ==>
      SoundCategoryName(SoundCategoryColumns[k]) && '_' in SoundCategoryColumns[k]
    ensures |TickPositions(SoundCategoryTicks(SoundCategoryColumns))| == 8
    ensures forall k :: 0 <= k < 8 ==> TickPositions(SoundCategoryTicks(SoundCategoryColumns))[k] == k
    ensures forall k :: 0 <= k < 8 ==>
      k in LabelOverrides(SoundCategoryTicks(SoundCategoryColumns)) &&
      LabelOverrides(SoundCategoryTicks(SoundCategoryColumns))[k] == SoundCategoryColumns[k][3..]
  {
    SoundCategoryColumnsNamed();
    SoundCategoryTicksOfNames(SoundCategoryColumns);
  }

  /** The y-ticks of `get_daily_observations_barplot`:
      `np.arange(0, max(counts) + 1, 1)`. `np.max` raises on an empty
      array, modelled as `None`. */
  function DailyObservationTicks(counts: seq<int>): (ticks: Option<seq<int>>)
    ensures ticks.None? <==> |counts| == 0
    ensures ticks.Some? ==> |ticks.value| == if SeqMax(counts) < 0 then 0 else SeqMax(counts) + 1
    ensures ticks.Some? ==> forall k :: 0 <= k < |ticks.value| ==> ticks.value[k] == k
  {
    if |counts| == 0 then None
    else
      var top := SeqMax(counts);
      Some(seq(if top < 0 then 0 else top + 1, k => k))
  }

  /** For counts that cannot be negative, the ticks are exactly the
      integers from 0 to the largest count: every count is a tick and the
      last tick is a count. */
  lemma DailyObservationTicksCover(counts: seq<int>)
    requires |counts| > 0
    requires forall k :: 0 <= k < |counts| ==> counts[k] >= 0
    ensures DailyObservationTicks(counts).Some?
    ensures forall k :: 0 <= k < |counts| ==> counts[k] in DailyObservationTicks(counts).value
    ensures forall t :: t in DailyObservationTicks(counts).value <==> 0 <= t <= SeqMax(counts)
    ensures DailyObservationTicks(counts).value[|DailyObservationTicks(counts).value| - 1] in counts
  {
    var ticks := DailyObservationTicks(counts).value;
    var top := SeqMax(counts);
    assert counts[0] <= top;
    forall t ensures t in ticks <==> 0 <= t <= top {
      if 0 <= t <= top { assert ticks[t] == t; }
    }
  }
}
