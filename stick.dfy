/** erddap_stick.py, `fetch_and_plot` after the ERDDAP client returns its
    table: drop rows missing a speed or a direction, convert speeds from
    cm/s to m/s in place, stop with "no data" if nothing is left, keep the
    requested depth window, then lay out one stick row per depth. The time
    window is only a constraint of the request; no local time filter runs. */
module Stick {
  import opened Samples
  import opened SpeedBins
  import opened DepthLayout

  /** The rows the "no data" test looks at: complete rows, converted. */
  function Screened(table: seq<Sample>): seq<Sample>
  {
    ScaleSpeeds(Select(table, Complete), 100.0)
  }

  /** The rows that reach the plotting loop. */
  function Plotted(table: seq<Sample>, cfg: Config): seq<Sample>
  {
    Select(Screened(table), DepthWindow(cfg.query.depthMin, cfg.query.depthMax))
  }

  /** The whole chain, as the script orders it. A drawn plot shows only
      complete rows inside the depth window, whatever their time. */
  function Plan(table: seq<Sample>, cfg: Config): (outcome: Outcome)
    ensures outcome == Failed(PaletteTooShort) <==> Plotted(table, cfg) != [] && |cfg.palette| < BinCount
    ensures outcome.Drawn? ==> forall row, r :: row in outcome.plot.rows && r in row.subset ==>
      Holds(Complete, r) && Holds(DepthWindow(cfg.query.depthMin, cfg.query.depthMax), r)
  {
    var screened := Screened(table);
    var plotted := Plotted(table, cfg);
    assert plotted != [] ==> plotted[0] in plotted && plotted[0] in screened;
    ScreenedRows(table);
    RenderedSamplesFromRows(plotted, cfg.palette);
    if screened == [] then NoData
    else Render(Select(screened, DepthWindow(cfg.query.depthMin, cfg.query.depthMax)), cfg.palette)
  }

  method FetchAndPlot(table: seq<Sample>, cfg: Config) returns (outcome: Outcome)
    ensures outcome == Plan(table, cfg)
  {
    var df := NewFrame(Select(table, Complete));
    DivideSpeedColumn(df, 100.0);
    if df.Length == 0 {
      return NoData;
    }
    var inDepth := Select(df[..], DepthWindow(cfg.query.depthMin, cfg.query.depthMax));
    outcome := DrawDepthRows(inDepth, cfg.palette);
  }

  /** Every row that reaches the "no data" test has both values present,
      and it is its table row with only the speed divided by 100: the drop
      happens before the conversion. */
  lemma ScreenedRows(table: seq<Sample>)
    ensures forall r :: r in Screened(table) ==> Holds(Complete, r)
    ensures forall r :: r in Screened(table) <==> exists x :: x in table && Holds(Complete, x) && r == ScaleRow(x, 100.0)
  {
    var complete := Select(table, Complete);
    forall r ensures r in Screened(table) <==> exists x :: x in table && Holds(Complete, x) && r == ScaleRow(x, 100.0) {
      if r in Screened(table) {
        var i :| 0 <= i < |complete| && Screened(table)[i] == r;
        assert complete[i] in complete;
      }
      if exists x :: x in table && Holds(Complete, x) && r == ScaleRow(x, 100.0) {
        var x :| x in table && Holds(Complete, x) && r == ScaleRow(x, 100.0);
        InSelect(table, Complete, x);
        var i :| 0 <= i < |complete| && complete[i] == x;
        assert Screened(table)[i] == r;
      }
    }
  }

  /** The "no data" return happens exactly when no row has both values. */
  lemma NoDataIff(table: seq<Sample>, cfg: Config)
    ensures Plan(table, cfg) == NoData <==> forall r :: r in table ==> !Holds(Complete, r)
  {
    SelectEmptyIff(table, Complete);
  }

  /** The drop and the conversion commute, so the plotted rows are the same
      as with erddap_stick_2d.py's convert-then-drop order. */
  lemma PlottedRows(table: seq<Sample>, cfg: Config)
    ensures Plotted(table, cfg) == Select(Select(ScaleSpeeds(table, 100.0), Complete), DepthWindow(cfg.query.depthMin, cfg.query.depthMax))
    ensures forall r :: r in Plotted(table, cfg) ==> cfg.query.depthMin <= r.depth <= cfg.query.depthMax
  {
    ScalingCommutesWithSelect(table, 100.0, Complete);
  }

  /** A complete row inside the depth window is plotted whatever its time:
      there is no local time filter. */
  lemma NoLocalTimeFilter(table: seq<Sample>, cfg: Config, x: Sample)
    requires x in table && Holds(Complete, x) && Holds(DepthWindow(cfg.query.depthMin, cfg.query.depthMax), x)
    ensures ScaleRow(x, 100.0) in Plotted(table, cfg)
  {
    ScreenedRows(table);
    InSelect(Screened(table), DepthWindow(cfg.query.depthMin, cfg.query.depthMax), ScaleRow(x, 100.0));
  }

  /** As in erddap_stick_2d.py, the "no data" test runs before the depth
      filter, and a depth window that removes every row makes `set_xlim`
      read an unassigned `annotation_x_position`. */
  lemma FailsWithoutDepthRows(table: seq<Sample>, cfg: Config)
    ensures Plan(table, cfg) == Failed(NoDepthRows) <==> Screened(table) != [] && Plotted(table, cfg) == []
  {
    RenderFailsOnlyWhenEmpty(Plotted(table, cfg), cfg.palette);
  }

  /** A table with a complete row, none of whose rows lies in the depth
      window, reaches that failure. */
  lemma EmptyDepthWindowFails(table: seq<Sample>, cfg: Config, x: Sample)
    requires x in table && Holds(Complete, x)
    requires forall r :: r in table ==> !Holds(DepthWindow(cfg.query.depthMin, cfg.query.depthMax), r)
    ensures Plan(table, cfg) == Failed(NoDepthRows)
  {
    ScreenedRows(table);
    assert ScaleRow(x, 100.0) in Screened(table);
    SelectEmptyIff(Screened(table), DepthWindow(cfg.query.depthMin, cfg.query.depthMax));
    FailsWithoutDepthRows(table, cfg);
  }

  /** The chain with the "no data" test after the depth filter. */
  function PlanChecked(table: seq<Sample>, cfg: Config): (outcome: Outcome)
    ensures outcome == NoData <==> Plotted(table, cfg) == []
    ensures outcome != Failed(NoDepthRows)
    ensures Plotted(table, cfg) != [] ==> outcome == Plan(table, cfg)
  {
    var plotted := Plotted(table, cfg);
    assert plotted != [] ==> Screened(table) != [] by {
      if plotted != [] {
        assert plotted[0] in plotted;
      }
    }
    RenderFailsOnlyWhenEmpty(plotted, cfg.palette);
    if plotted == [] then NoData else Render(plotted, cfg.palette)
  }
}
