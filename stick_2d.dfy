/** erddap_stick_2d.py, `fetch_and_plot` after the table is decoded: keep
    the requested time window, convert speeds from cm/s to m/s in place,
    drop rows missing a speed or a direction, stop with "no data" if
    nothing is left, keep the requested depth window, then lay out one
    stick row per depth. */
module Stick2d {
  import opened Samples
  import opened SpeedBins
  import opened DepthLayout

  /** The rows the "no data" test looks at: in the time window, converted,
      with both speed and direction present. */
  function Screened(table: seq<Sample>, cfg: Config): seq<Sample>
  {
    Select(ScaleSpeeds(Select(table, TimeWindow(cfg.query.start, cfg.query.end)), 100.0), Complete)
  }

  /** The rows that reach the plotting loop. */
  function Plotted(table: seq<Sample>, cfg: Config): seq<Sample>
  {
    Select(Screened(table, cfg), DepthWindow(cfg.query.depthMin, cfg.query.depthMax))
  }

  /** The whole chain, as the script orders it. A drawn plot shows only
      rows inside both windows with both values present, and the short
      palette fails only once some row is left to draw. */
  function Plan(table: seq<Sample>, cfg: Config): (outcome: Outcome)
    ensures outcome == Failed(PaletteTooShort) <==> Plotted(table, cfg) != [] && |cfg.palette| < BinCount
    ensures outcome.Drawn? ==> forall row, r :: row in outcome.plot.rows && r in row.subset ==>
      && Holds(TimeWindow(cfg.query.start, cfg.query.end), r)
      && Holds(Complete, r)
      && Holds(DepthWindow(cfg.query.depthMin, cfg.query.depthMax), r)
  {
    var screened := Screened(table, cfg);
    var plotted := Plotted(table, cfg);
    assert plotted != [] ==> plotted[0] in plotted && plotted[0] in screened;
    PlottedInWindows(table, cfg);
    RenderedSamplesFromRows(plotted, cfg.palette);
    if screened == [] then NoData
    else Render(Select(screened, DepthWindow(cfg.query.depthMin, cfg.query.depthMax)), cfg.palette)
  }

  /** Every plotted row lies in both windows with both values present. */
  lemma PlottedInWindows(table: seq<Sample>, cfg: Config)
    ensures forall r :: r in Plotted(table, cfg) ==>
      && Holds(TimeWindow(cfg.query.start, cfg.query.end), r)
      && Holds(Complete, r)
      && Holds(DepthWindow(cfg.query.depthMin, cfg.query.depthMax), r)
  {
    var inTime := Select(table, TimeWindow(cfg.query.start, cfg.query.end));
    var scaled := ScaleSpeeds(inTime, 100.0);
    forall r | r in Plotted(table, cfg) ensures Holds(TimeWindow(cfg.query.start, cfg.query.end), r) {
      assert r in Screened(table, cfg) && r in scaled;
      var i :| 0 <= i < |scaled| && scaled[i] == r;
      assert inTime[i] in inTime;
    }
  }

  /** The chain step by step: the masks rebind the frame, the unit
      conversion updates its speed column in place. */
  method FetchAndPlot(table: seq<Sample>, cfg: Config) returns (outcome: Outcome)
    ensures outcome == Plan(table, cfg)
  {
    var df := NewFrame(Select(table, TimeWindow(cfg.query.start, cfg.query.end)));
    DivideSpeedColumn(df, 100.0);
    var complete := Select(df[..], Complete);
    if complete == [] {
      return NoData;
    }
    var inDepth := Select(complete, DepthWindow(cfg.query.depthMin, cfg.query.depthMax));
    outcome := DrawDepthRows(inDepth, cfg.palette);
  }

  /** The "no data" return happens exactly when no row of the table lies in
      the time window with both speed and direction present. */
  lemma NoDataIff(table: seq<Sample>, cfg: Config)
    ensures Plan(table, cfg) == NoData <==>
      forall r :: r in table ==> !(Holds(TimeWindow(cfg.query.start, cfg.query.end), r) && Holds(Complete, r))
  {
    var window := TimeWindow(cfg.query.start, cfg.query.end);
    var inTime := Select(table, window);
    ScalingCommutesWithSelect(inTime, 100.0, Complete);
    assert Screened(table, cfg) == ScaleSpeeds(Select(inTime, Complete), 100.0);
    SelectEmptyIff(inTime, Complete);
    forall r ensures r in inTime <==> r in table && Holds(window, r) {
      InSelect(table, window, r);
    }
  }

  /** The plotted rows are the table's rows inside both windows with both
      values present, in table order, with only their speeds divided by 100. */
  lemma PlottedRows(table: seq<Sample>, cfg: Config)
    ensures Plotted(table, cfg) == ScaleSpeeds(
      Select(Select(Select(table, TimeWindow(cfg.query.start, cfg.query.end)), Complete), DepthWindow(cfg.query.depthMin, cfg.query.depthMax)),
      100.0)
  {
    var inTime := Select(table, TimeWindow(cfg.query.start, cfg.query.end));
    ScalingCommutesWithSelect(inTime, 100.0, Complete);
    ScalingCommutesWithSelect(Select(inTime, Complete), 100.0, DepthWindow(cfg.query.depthMin, cfg.query.depthMax));
  }

  /** The depth filter runs after the "no data" test, so the test can pass
      while no row is left to plot; the loop then never assigns
      `annotation_x_position` and `set_xlim` fails. That happens exactly when
      some row survives the time window and the drop but none survives the
      depth window. */
  lemma FailsWithoutDepthRows(table: seq<Sample>, cfg: Config)
    ensures Plan(table, cfg) == Failed(NoDepthRows) <==> Screened(table, cfg) != [] && Plotted(table, cfg) == []
  {
    RenderFailsOnlyWhenEmpty(Plotted(table, cfg), cfg.palette);
  }

  /** A table with a complete row inside the time window, none of whose
      rows lies in the depth window, reaches that failure. */
  lemma EmptyDepthWindowFails(table: seq<Sample>, cfg: Config, x: Sample)
    requires x in table && Holds(TimeWindow(cfg.query.start, cfg.query.end), x) && Holds(Complete, x)
    requires forall r :: r in table ==> !Holds(DepthWindow(cfg.query.depthMin, cfg.query.depthMax), r)
    ensures Plan(table, cfg) == Failed(NoDepthRows)
  {
    NoDataIff(table, cfg);
    PlottedRows(table, cfg);
    var complete := Select(Select(table, TimeWindow(cfg.query.start, cfg.query.end)), Complete);
    SelectEmptyIff(complete, DepthWindow(cfg.query.depthMin, cfg.query.depthMax));
    FailsWithoutDepthRows(table, cfg);
  }

  /** The chain with the "no data" test moved after the depth filter, which
      is what its message, which names the depth range, describes. */
  function PlanChecked(table: seq<Sample>, cfg: Config): (outcome: Outcome)
    ensures outcome == NoData <==> Plotted(table, cfg) == []
    ensures outcome != Failed(NoDepthRows)
    ensures Plotted(table, cfg) != [] ==> outcome == Plan(table, cfg)
  {
    var plotted := Plotted(table, cfg);
    assert plotted != [] ==> plotted[0] in plotted && plotted[0] in Screened(table, cfg);
    assert plotted != [] ==> UniqueDepths(plotted) != [] by {
      if plotted != [] {
        assert plotted[0].depth in UniqueDepths(plotted);
      }
    }
    if plotted == [] then NoData else Render(plotted, cfg.palette)
  }
}
