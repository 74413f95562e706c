/** erddap_stick_3d_v2.py: `fetch_data` keeps the rows inside the time and
    depth windows, with no missing-value drop; `plot_3d_stick` keeps the rows
    of one timestamp, returns early if there are none, and otherwise shades
    each row by its speed normalised between the smallest and the largest
    speed present, with the axis ranges derived from those rows. */
module Stick3dV2 {
  import opened Samples

  /** `fetch_data` on a decoded table. */
  function FetchData(table: seq<Sample>, q: Query): (df: seq<Sample>)
    ensures |df| <= |table|
    ensures forall r :: r in df <==>
      r in table && Holds(TimeWindow(q.start, q.end), r) && Holds(DepthWindow(q.depthMin, q.depthMax), r)
  {
    var inTime := Select(table, TimeWindow(q.start, q.end));
    assert forall r :: r in inTime <==> r in table && Holds(TimeWindow(q.start, q.end), r) by {
      forall r { InSelect(table, TimeWindow(q.start, q.end), r); }
    }
    var inDepth := Select(inTime, DepthWindow(q.depthMin, q.depthMax));
    assert forall r :: r in inDepth <==> r in inTime && Holds(DepthWindow(q.depthMin, q.depthMax), r) by {
      forall r { InSelect(inTime, DepthWindow(q.depthMin, q.depthMax), r); }
    }
    inDepth
  }

  /** Both windows together, as one mask. */
  function Windows(q: Query): Mask
  {
    TimeDepthWindow(q.start, q.end, q.depthMin, q.depthMax)
  }

  /** The two masks keep the table's rows in table order and as often as
      they occur: the k-th returned row is the table row at the k-th
      position where both windows hold (`Positions` lists those positions,
      strictly increasing). */
  lemma FetchDataKeepsOrder(table: seq<Sample>, q: Query)
    ensures var df, idx := FetchData(table, q), Positions(table, Windows(q));
      && |df| == |idx|
      && forall k :: 0 <= k < |idx| ==> df[k] == table[idx[k]]
  {
    SelectConjunction(table, TimeWindow(q.start, q.end), DepthWindow(q.depthMin, q.depthMax), Windows(q));
    SelectKeepsOrder(table, Windows(q));
  }

  /** matplotlib's `Normalize(vmin, vmax)` applied to one speed. */
  function Normalise(s: real, vmin: real, vmax: real): (level: real)
    requires vmin < vmax
    ensures s == vmin ==> level == 0.0
    ensures s == vmax ==> level == 1.0
    ensures vmin <= s <= vmax ==> 0.0 <= level <= 1.0
    ensures level * (vmax - vmin) == s - vmin
  {
    var level := (s - vmin) / (vmax - vmin);
    NormaliseBounds(s, vmin, vmax, level);
    level
  }

  /** The bounds of a quotient `q = (s - vmin) / (vmax - vmin)`, argued on
      the product `q * (vmax - vmin)`. */
  lemma NormaliseBounds(s: real, vmin: real, vmax: real, q: real)
    requires vmin < vmax && q == (s - vmin) / (vmax - vmin)
    ensures q * (vmax - vmin) == s - vmin
    ensures s == vmin ==> q == 0.0
    ensures s == vmax ==> q == 1.0
    ensures vmin <= s ==> 0.0 <= q
    ensures s <= vmax ==> q <= 1.0
  {
    var w := vmax - vmin;
    assert q * w == s - vmin;
    assert (1.0 - q) * w == vmax - s;
    ProductSign(q, w);
    ProductSign(1.0 - q, w);
  }

  /** With a positive factor `w`, a product has the sign of its other factor. */
  lemma ProductSign(x: real, w: real)
    requires w > 0.0
    ensures x > 0.0 <==> x * w > 0.0
    ensures x < 0.0 <==> x * w < 0.0
  {
  }

  /** A faster current gets a strictly higher level. */
  lemma NormalisePreservesOrder(s: real, t: real, vmin: real, vmax: real)
    requires vmin < vmax && s < t
    ensures Normalise(s, vmin, vmax) < Normalise(t, vmin, vmax)
  {
    var w := vmax - vmin;
    assert Normalise(t, vmin, vmax) - Normalise(s, vmin, vmax) == (t - s) / w;
  }

  /** The speeds that are present, in row order: what pandas' `min` and
      `max` look at. */
  function PresentSpeeds(rows: seq<Sample>): (speeds: seq<real>)
    ensures forall i :: 0 <= i < |rows| && rows[i].speed.Some? ==> rows[i].speed.value in speeds
    ensures forall x :: x in speeds ==> exists i :: 0 <= i < |rows| && rows[i].speed == Some(x)
    ensures |speeds| <= |rows|
  {
    if rows == [] then []
    else
      var n := |rows| - 1;
      var init := PresentSpeeds(rows[..n]);
      assert forall i :: 0 <= i < n ==> rows[..n][i] == rows[i];
      init + match rows[n].speed case None => [] case Some(v) => [v]
  }

  function Least(xs: seq<real>): (m: real)
    requires |xs| > 0
    ensures m in xs && forall x :: x in xs ==> m <= x
  {
    if |xs| == 1 then xs[0]
    else
      var rest := Least(xs[1..]);
      assert forall x :: x in xs ==> x == xs[0] || x in xs[1..];
      if xs[0] <= rest then xs[0] else rest
  }

  function Greatest(xs: seq<real>): (m: real)
    requires |xs| > 0
    ensures m in xs && forall x :: x in xs ==> x <= m
  {
    if |xs| == 1 then xs[0]
    else
      var rest := Greatest(xs[1..]);
      assert forall x :: x in xs ==> x == xs[0] || x in xs[1..];
      if xs[0] >= rest then xs[0] else rest
  }

  /** The colour levels of the selected rows. `Unnormalised` stands for the
      two cases this model leaves to matplotlib: no speed present (NaN
      bounds) and a single distinct speed (`vmin == vmax`). A missing speed
      gets no level (the colormap's "bad" colour). */
  datatype Shading = Shaded(vmin: real, vmax: real, levels: seq<Option<real>>) | Unnormalised

  function Level(s: Option<real>, vmin: real, vmax: real): Option<real>
    requires vmin < vmax
  {
    match s
    case None => None
    case Some(v) => Some(Normalise(v, vmin, vmax))
  }

  /** The list comprehension over `speeds`: one level per row, in row
      order, between 0 for the slowest present speed and 1 for the fastest. */
  function Shade(rows: seq<Sample>): (shading: Shading)
    ensures shading.Unnormalised? <==> PresentSpeeds(rows) == [] || Least(PresentSpeeds(rows)) == Greatest(PresentSpeeds(rows))
    ensures shading.Shaded? ==>
      && shading.vmin < shading.vmax
      && shading.vmin == Least(PresentSpeeds(rows))
      && shading.vmax == Greatest(PresentSpeeds(rows))
      && |shading.levels| == |rows|
      && forall i :: 0 <= i < |rows| ==>
           && (shading.levels[i].Some? <==> rows[i].speed.Some?)
           && (rows[i].speed.Some? ==>
                 && shading.levels[i].value == Normalise(rows[i].speed.value, shading.vmin, shading.vmax)
                 && 0.0 <= shading.levels[i].value <= 1.0)
  {
    var speeds := PresentSpeeds(rows);
    if speeds == [] then Unnormalised
    else
      var vmin, vmax := Least(speeds), Greatest(speeds);
      if vmin == vmax then Unnormalised
      else Shaded(vmin, vmax, seq(|rows|, i requires 0 <= i < |rows| => Level(rows[i].speed, vmin, vmax)))
  }

  /** The slowest present speed gets level 0 and the fastest level 1. */
  lemma ShadeEndpoints(rows: seq<Sample>)
    requires Shade(rows).Shaded?
    ensures exists i :: 0 <= i < |rows| && Shade(rows).levels[i] == Some(0.0)
    ensures exists i :: 0 <= i < |rows| && Shade(rows).levels[i] == Some(1.0)
  {
    var speeds := PresentSpeeds(rows);
    var lo :| 0 <= lo < |rows| && rows[lo].speed == Some(Least(speeds));
    var hi :| 0 <= hi < |rows| && rows[hi].speed == Some(Greatest(speeds));
    assert Shade(rows).levels[lo] == Some(0.0);
    assert Shade(rows).levels[hi] == Some(1.0);
  }

  /** Python's built-in `max` over the speed column: it keeps the first
      value and replaces it by each later value that compares greater. A NaN
      never compares greater, and nothing compares greater than a NaN. */
  function BuiltinMax(xs: seq<Option<real>>): (m: Option<real>)
    requires |xs| > 0
    ensures xs[0].None? ==> m.None?
    ensures xs[0].Some? ==>
      && m.Some?
      && (exists i :: 0 <= i < |xs| && xs[i] == m)
      && (forall i :: 0 <= i < |xs| && xs[i].Some? ==> xs[i].value <= m.value)
  {
    if |xs| == 1 then xs[0]
    else
      var n := |xs| - 1;
      var current, next := BuiltinMax(xs[..n]), xs[n];
      assert forall i :: 0 <= i < n ==> xs[..n][i] == xs[i];
      if next.Some? && current.Some? && next.value > current.value then next else current
  }

  function SpeedColumn(rows: seq<Sample>): (column: seq<Option<real>>)
    ensures |column| == |rows| && forall i :: 0 <= i < |rows| ==> column[i] == rows[i].speed
  {
    seq(|rows|, i requires 0 <= i < |rows| => rows[i].speed)
  }

  function DepthColumn(rows: seq<Sample>): (column: seq<real>)
    ensures |column| == |rows| && forall i :: 0 <= i < |rows| ==> column[i] == rows[i].depth
  {
    seq(|rows|, i requires 0 <= i < |rows| => rows[i].depth)
  }

  /** The figure's data: the shading, the shared u/v axis range
      `[-max, max]` (`None` when `max` gives NaN) and the depth axis range,
      deepest first. */
  datatype Figure = Figure(shading: Shading, horizontalRange: Option<(real, real)>, depthRange: (real, real))

  /** The depth axis range: largest depth first, then smallest. */
  function DepthRange(rows: seq<Sample>): (range: (real, real))
    requires |rows| > 0
    ensures forall r :: r in rows ==> range.1 <= r.depth <= range.0
    ensures exists i :: 0 <= i < |rows| && rows[i].depth == range.0
    ensures exists j :: 0 <= j < |rows| && rows[j].depth == range.1
  {
    var depths := DepthColumn(rows);
    assert forall r :: r in rows ==> r.depth in depths by {
      forall r | r in rows ensures r.depth in depths {
        var i :| 0 <= i < |rows| && rows[i] == r;
        assert depths[i] == r.depth;
      }
    }
    (Greatest(depths), Least(depths))
  }

  /** The shared u/v axis range `[-m, m]`, with `m` the built-in `max` of
      the speeds; `None` when that `max` is NaN. */
  function HorizontalRange(rows: seq<Sample>): (range: Option<(real, real)>)
    requires |rows| > 0
    ensures range.None? <==> rows[0].speed.None?
    ensures range.Some? ==>
      && range.value.0 == -range.value.1
      && (exists i :: 0 <= i < |rows| && rows[i].speed == Some(range.value.1))
      && (forall i :: 0 <= i < |rows| && rows[i].speed.Some? ==> rows[i].speed.value <= range.value.1)
  {
    match BuiltinMax(SpeedColumn(rows))
    case None => None
    case Some(m) => Some((-m, m))
  }

  /** `plot_3d_stick`: `None` is the early return for a timestamp with no
      rows, before any colour is computed. */
  function PlotSticks(df: seq<Sample>, instant: int): (fig: Option<Figure>)
    ensures fig.None? <==> forall r :: r in df ==> r.time != instant
  {
    var selected := Select(df, TimeIs(instant));
    SelectEmptyIff(df, TimeIs(instant));
    if selected == [] then None
    else Some(Figure(Shade(selected), HorizontalRange(selected), DepthRange(selected)))
  }

  /** The figure is built from exactly the rows stamped with the requested
      time, in table order: their shading, their u/v range and their depth
      range, which spans every one of them. */
  lemma PlotUsesSelectedRows(df: seq<Sample>, instant: int)
    requires PlotSticks(df, instant).Some?
    ensures var selected, fig := Select(df, TimeIs(instant)), PlotSticks(df, instant).value;
      && (forall r :: r in selected <==> r in df && r.time == instant)
      && fig.shading == Shade(selected)
      && fig.horizontalRange == HorizontalRange(selected)
      && fig.depthRange == DepthRange(selected)
      && (forall r :: r in selected ==> fig.depthRange.1 <= r.depth <= fig.depthRange.0)
  {
    SelectedAtInstant(df, instant);
  }

  lemma SelectedAtInstant(df: seq<Sample>, instant: int)
    ensures forall r :: r in Select(df, TimeIs(instant)) <==> r in df && r.time == instant
  {
    forall r ensures r in Select(df, TimeIs(instant)) <==> r in df && r.time == instant {
      InSelect(df, TimeIs(instant), r);
    }
  }
}
