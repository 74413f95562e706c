/** erddap_stick_3d.py: `fetch_data` drops incomplete rows, returns None if
    none is left, and only then applies the time and depth windows;
    `plot_3d_stick` draws one stick per row, in the plane x = time, coloured by the cm/s
    bins, and a six-entry legend naming each bin's speed interval. */
module Stick3d {
  import opened Samples
  import opened SpeedBins
  import V2 = Stick3dV2

  /** `fetch_data` on a decoded table. `None` is the bare `return` of the
      "no data" branch; the windows come after that test, so `Some([])` is
      possible. */
  function FetchData(table: seq<Sample>, q: Query): (data: Option<seq<Sample>>)
    ensures data.None? <==> forall r :: r in table ==> !Holds(Complete, r)
    ensures data.Some? ==> forall r :: r in data.value <==>
      r in table && Holds(Complete, r) && Holds(TimeWindow(q.start, q.end), r) && Holds(DepthWindow(q.depthMin, q.depthMax), r)
  {
    var complete := Select(table, Complete);
    SelectEmptyIff(table, Complete);
    if complete == [] then None
    else
      var inTime := Select(complete, TimeWindow(q.start, q.end));
      var inDepth := Select(inTime, DepthWindow(q.depthMin, q.depthMax));
      assert forall r :: r in inDepth <==> r in inTime && Holds(DepthWindow(q.depthMin, q.depthMax), r) by {
        forall r { InSelect(inTime, DepthWindow(q.depthMin, q.depthMax), r); }
      }
      assert forall r :: r in inTime <==> r in complete && Holds(TimeWindow(q.start, q.end), r) by {
        forall r { InSelect(complete, TimeWindow(q.start, q.end), r); }
      }
      assert forall r :: r in complete <==> r in table && Holds(Complete, r) by {
        forall r { InSelect(table, Complete, r); }
      }
      Some(inDepth)
  }

  /** The rows `fetch_data` returns are the rows erddap_stick_3d_v2.py's
      `fetch_data` returns with the incomplete ones dropped, in table order:
      dropping first only moves the "no data" test. */
  lemma FetchDataDropsFirst(table: seq<Sample>, q: Query)
    requires FetchData(table, q).Some?
    ensures FetchData(table, q).value == Select(V2.FetchData(table, q), Complete)
  {
    var t, d := TimeWindow(q.start, q.end), DepthWindow(q.depthMin, q.depthMax);
    SelectCommutes(table, Complete, t);
    SelectCommutes(Select(table, t), Complete, d);
  }

  /** The stick colours, `color_palette`. */
  const Palette: seq<string> := ["pink", "skyblue", "green", "yellow", "orange", "red"]

  /** No two bins share a colour. */
  lemma PaletteDistinct(j: nat, k: nat)
    requires j < |Palette| && k < |Palette|
    ensures Palette[j] == Palette[k] <==> j == k
  {
    assert forall n :: 0 <= n < |Palette| ==> |Palette[n]| >= 3;
    var firsts := ['p', 's', 'g', 'y', 'o', 'r'];
    assert forall n :: 0 <= n < |Palette| ==> Palette[n][0] == firsts[n];
  }

  function Abs(x: real): real
  {
    if x < 0.0 then -x else x
  }

  /** One `Scatter3d` trace drawing a stick: its x, y and z endpoint pairs and its colour. */
  datatype StickTrace = StickTrace(xs: (int, int), ys: (real, real), zs: (real, real), colour: string)

  /** The stick of one row, given that row's eastward and northward
      components `uv(r)`, which are computed outside this model. */
  function StickFor(r: Sample, uv: Sample -> (real, real)): StickTrace
  {
    var (u, v) := uv(r);
    StickTrace((r.time, r.time), (r.depth, r.depth + u), (0.0, Abs(v)), Palette[CentimetreBinOf(r.speed)])
  }

  /** The first loop of `plot_3d_stick`: one stick per row, in row order,
      in the plane x = the row's time, rising from zero at the row's depth. */
  function Sticks(df: seq<Sample>, uv: Sample -> (real, real)): (sticks: seq<StickTrace>)
    ensures |sticks| == |df|
    ensures forall i :: 0 <= i < |df| ==>
      && sticks[i].xs.0 == df[i].time && sticks[i].xs.1 == df[i].time
      && sticks[i].ys.0 == df[i].depth
      && sticks[i].zs.0 == 0.0 <= sticks[i].zs.1
      && sticks[i].colour == Palette[CentimetreBinOf(df[i].speed)]
  {
    seq(|df|, i requires 0 <= i < |df| => StickFor(df[i], uv))
  }

  /** The intervals the legend labels name. */
  datatype SpeedRange = AtMost(high: nat) | Above(low: nat) | Between(low: nat, high: nat)

  predicate Contains(range: SpeedRange, s: real)
  {
    match range
    case AtMost(high) => s <= high as real
    case Above(low) => low as real < s
    case Between(low, high) => low as real < s <= high as real
  }

  function Digit(d: nat): char
    requires d < 10
  {
    "0123456789"[d]
  }

  function Numeral(n: nat): string
  {
    if n < 10 then [Digit(n)] else Numeral(n / 10) + [Digit(n % 10)]
  }

  /** The label text of an interval, in the script's wording. */
  function Label(range: SpeedRange): string
  {
    match range
    case AtMost(high) => "Speed <= " + Numeral(high)
    case Above(low) => "Speed > " + Numeral(low)
    case Between(low, high) => "Speed > " + Numeral(low) + " and <= " + Numeral(high)
  }

  /** `speed_ranges`, fastest first, as the script writes it. */
  const SpeedRangeLabels: seq<string> := ["Speed > 50", "Speed > 40 and <= 50", "Speed > 30 and <= 40",
                                          "Speed > 20 and <= 30", "Speed > 10 and <= 20", "Speed <= 10"]

  /** The intervals those labels name, in the same order. */
  const SpeedRanges: seq<SpeedRange> := [Above(50), Between(40, 50), Between(30, 40),
                                         Between(20, 30), Between(10, 20), AtMost(10)]

  /** Each label of `speed_ranges` is the text of its interval. */
  lemma LabelsNameRanges()
    ensures |SpeedRanges| == |SpeedRangeLabels|
    ensures forall k :: 0 <= k < |SpeedRanges| ==> Label(SpeedRanges[k]) == SpeedRangeLabels[k]
  {
    forall k | 0 <= k < |SpeedRanges|
      ensures Label(SpeedRanges[k]) == SpeedRangeLabels[k]
    {
      LabelText(k);
    }
  }

  lemma LabelText(k: nat)
    requires k < |SpeedRanges|
    ensures Label(SpeedRanges[k]) == SpeedRangeLabels[k]
  {
    match k
    case 0 => TopText();
    case 1 => Text40To50();
    case 2 => Text30To40();
    case 3 => Text20To30();
    case 4 => Text10To20();
    case 5 => BottomText();
  }

  lemma TopText()
    ensures Label(Above(50)) == "Speed > 50"
  {
    NumeralOfTens(5);
  }

  lemma Text40To50()
    ensures Label(Between(40, 50)) == "Speed > 40 and <= 50"
  {
    NumeralOfTens(4);
    NumeralOfTens(5);
  }

  lemma Text30To40()
    ensures Label(Between(30, 40)) == "Speed > 30 and <= 40"
  {
    NumeralOfTens(3);
    NumeralOfTens(4);
  }

  lemma Text20To30()
    ensures Label(Between(20, 30)) == "Speed > 20 and <= 30"
  {
    NumeralOfTens(2);
    NumeralOfTens(3);
  }

  lemma Text10To20()
    ensures Label(Between(10, 20)) == "Speed > 10 and <= 20"
  {
    NumeralOfTens(1);
    NumeralOfTens(2);
  }

  lemma BottomText()
    ensures Label(AtMost(10)) == "Speed <= 10"
  {
    NumeralOfTens(1);
  }

  /** The numeral of 10, 20, 30, 40 or 50. */
  lemma NumeralOfTens(j: nat)
    requires 1 <= j <= 5
    ensures Numeral(j * 10) == [Digit(j), '0']
  {
    assert (j * 10) / 10 == j && (j * 10) % 10 == 0;
  }

  function Reversed<T>(s: seq<T>): (r: seq<T>)
    ensures |r| == |s| && forall i :: 0 <= i < |s| ==> r[i] == s[|s| - 1 - i]
  {
    if s == [] then [] else Reversed(s[1..]) + [s[0]]
  }

  datatype LegendEntry = LegendEntry(name: string, colour: string)

  /** The second loop of `plot_3d_stick`: the labels taken slowest first,
      the i-th paired with `color_palette[i]`. */
  function Legend(): (legend: seq<LegendEntry>)
    ensures |legend| == BinCount
    ensures forall i :: 0 <= i < BinCount ==> legend[i] == LegendEntry(SpeedRangeLabels[5 - i], Palette[i])
  {
    var labels := Reversed(SpeedRangeLabels);
    seq(|labels|, i requires 0 <= i < |labels| => LegendEntry(labels[i], Palette[i]))
  }

  /** The legend entry at position i carries the colour the classifier
      gives bin i, and its label names exactly the speeds of bin i. */
  lemma LegendMatchesClassifier(i: nat, s: real)
    requires i < BinCount
    ensures |Legend()| == BinCount
    ensures Legend()[i].colour == Palette[i]
    ensures Legend()[i].name == Label(Reversed(SpeedRanges)[i])
    ensures Contains(Reversed(SpeedRanges)[i], s) <==> SpeedBinCentimetres(s) == i
  {
    var range := Reversed(SpeedRanges)[i];
    assert range == SpeedRanges[5 - i];
    assert Legend()[i].name == Label(range) by {
      LabelText(5 - i);
    }
    assert Contains(range, s) <==> SpeedBinCentimetres(s) == i by {
      RangeOfBin(i, s);
    }
  }

  /** Bin i takes, in the cm/s classifier, exactly the speeds of the
      (5 - i)-th interval of `speed_ranges`. */
  lemma RangeOfBin(i: nat, s: real)
    requires i < BinCount
    ensures Contains(SpeedRanges[5 - i], s) <==> SpeedBinCentimetres(s) == i
  {
  }

  /** The legend entry whose colour a stick has names the interval that
      holds the stick's speed, and no other entry has that colour. */
  lemma StickColourMatchesLegend(df: seq<Sample>, uv: Sample -> (real, real), i: nat, k: nat)
    requires i < |df| && df[i].speed.Some? && k < BinCount
    ensures Legend()[k].colour == Sticks(df, uv)[i].colour <==> Contains(Reversed(SpeedRanges)[k], df[i].speed.value)
  {
    LegendMatchesClassifier(k, df[i].speed.value);
    var bin := SpeedBinCentimetres(df[i].speed.value);
    assert Sticks(df, uv)[i].colour == Palette[bin];
    PaletteDistinct(k, bin);
  }

  datatype Figure = Figure(sticks: seq<StickTrace>, legend: seq<LegendEntry>)

  /** `plot_3d_stick`: the sticks of the rows, then the six legend entries;
      each stick has the colour of the legend entry of its speed's bin. */
  function Plot3dStick(df: seq<Sample>, uv: Sample -> (real, real)): (fig: Figure)
    ensures |fig.sticks| == |df| && |fig.legend| == BinCount
    ensures fig.legend == Legend()
    ensures forall i :: 0 <= i < |df| ==> fig.sticks[i] == StickFor(df[i], uv)
    ensures forall i :: 0 <= i < |df| ==>
      && fig.sticks[i].xs == (df[i].time, df[i].time)
      && fig.sticks[i].ys.0 == df[i].depth
      && fig.sticks[i].zs.0 == 0.0 <= fig.sticks[i].zs.1
    ensures forall i :: 0 <= i < |df| ==> fig.sticks[i].colour == fig.legend[CentimetreBinOf(df[i].speed)].colour
  {
    Figure(Sticks(df, uv), Legend())
  }

  /** The script's entry point: it plots whenever `fetch_data` did not
      return None, an empty table included. */
  function RunScript(table: seq<Sample>, q: Query, uv: Sample -> (real, real)): (fig: Option<Figure>)
    ensures fig.Some? <==> exists r :: r in table && Holds(Complete, r)
    ensures fig.Some? ==> |fig.value.sticks| == |FetchData(table, q).value| && |fig.value.legend| == BinCount
    ensures fig.Some? ==> fig.value == Plot3dStick(FetchData(table, q).value, uv)
  {
    var data := FetchData(table, q);
    if data.None? then None else Some(Plot3dStick(data.value, uv))
  }

  /** A table whose only complete row lies outside the time window gives an
      empty, non-None table, and the script still builds a figure: no
      sticks, six legend entries. */
  lemma EmptyTableStillPlotted(x: Sample, q: Query, uv: Sample -> (real, real))
    requires Holds(Complete, x) && !Holds(TimeWindow(q.start, q.end), x)
    ensures FetchData([x], q) == Some([])
    ensures RunScript([x], q, uv).Some? && RunScript([x], q, uv).value.sticks == []
  {
    SelectOne(x, Complete);
    SelectOne(x, TimeWindow(q.start, q.end));
  }
}
