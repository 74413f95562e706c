# ERDDAP stick plots: the row-preparation core

The model covers four of the repository's scripts. Each asks an ERDDAP
server for ocean-current samples from one instrument and draws a stick plot:

- erddap_stick_2d.py and erddap_stick.py draw a 2D matplotlib plot with one
  horizontal row of sticks per depth;
- erddap_stick_3d.py and erddap_stick_3d_v2.py draw 3D plotly plots.

Each sample has a time, a depth, a speed and a direction. Speed and direction
may be missing.

Downloading and drawing are left out. This model covers what happens to the
table in between:

- which rows each script keeps, and in which order it applies its selections
  (time window, depth window, missing-value drop, exact timestamp);
- where each script's "no data" test sits in that chain;
- the cm/s to m/s conversion;
- the six-bin speed classifier that picks stick colours;
- the 2D layout: distinct depths deepest first, one stable subset per depth,
  row `i` at `y = i * 10`, and the y-limits;
- the 3D legend and how its labels pair with the classifier's colours;
- the min–max speed normalisation and the axis ranges of the v2 script.

Modules:

- `Samples` (samples.dfy): the table as a sequence of `Sample` records, a
  missing value as `None`, and every pandas mask as a `Mask` applied by
  `Select`. It also holds the speed conversion, both as a function and as an
  in-place method on an array (the frame).
- `SpeedBins` (speed_bins.dfy): the m/s and cm/s classifiers.
- `DepthLayout` (depth_layout.dfy): the 2D layout and the per-depth loop,
  shared by both 2D scripts.
- `Stick2d` (stick_2d.dfy) and `Stick` (stick.dfy): the two 2D chains, each
  as a specification function `Plan` and as a step-by-step method
  `FetchAndPlot` proved equal to it.
- `Stick3d` (stick_3d.dfy) and `Stick3dV2` (stick_3d_v2.dfy): the two 3D
  scripts.

The model uses exact reals throughout.

## Model

| member | source | states |
|---|---|---|
| Samples.Select | erddap_stick_2d.py:61 | A mask keeps only rows of the table on which it holds, keeps every such row, and never adds rows. |
| Samples.SelectKeepsOrder | erddap_stick_2d.py:61 | The kept rows are exactly the rows at the positions where the mask holds, taken in increasing position order, so relative order is preserved. |
| Samples.InSelect | erddap_stick_2d.py:70 | A row is in a masked table if and only if it is in the table and the mask holds on it. |
| Samples.SelectEmptyIff | erddap_stick_2d.py:64-66 | A masked table is empty if and only if the mask holds on no row. |
| Samples.SelectAllKept | erddap_stick_2d.py:64 | A mask that holds on every row leaves the table unchanged, so applying a mask twice is the same as once. |
| Samples.SelectCommutes | erddap_stick_3d.py:51-58 | Two masks give the same rows, in the same order, whichever is applied first. |
| Samples.SelectConjunction | erddap_stick_3d_v2.py:52-53 | Two masks applied one after the other keep the same rows, in the same order and multiplicity, as one mask that holds exactly where both hold. |
| Samples.ScaleSpeeds | erddap_stick_2d.py:62 | The conversion keeps the row count. Each row keeps its time, depth and direction, and whether its speed is present. A present speed times the divisor gives the original speed. |
| Samples.ScaleSpeedsRoundTrip | erddap_stick_2d.py:62 | Dividing speeds by 100 and then by 0.01 gives back the original table. |
| Samples.ScalingCommutesWithSelect | erddap_stick.py:49-50 | No mask looks at a speed's value, only at whether it is present, so converting before or after any selection gives the same rows. |
| Samples.DivideSpeedColumn | erddap_stick_2d.py:62 | The in-place update leaves the frame equal to the converted table of its old contents. |
| SpeedBins.SpeedBinMetres | erddap_stick_2d.py:93-97 | The bin is below 6. If it is below 5, the speed is at most that bin's bound (0.10–0.50). Every earlier bound is below the speed (first match wins). |
| SpeedBins.SpeedBinCentimetres | erddap_stick_3d.py:75-79 | The same first-match statement with the cm/s bounds 10–50. |
| SpeedBins.MetreBinOf | erddap_stick_2d.py:93-97 | A missing speed (NaN, which fails every comparison) gets the last bin, 5. A present speed gets its first-match m/s bin. |
| SpeedBins.CentimetreBinOf | erddap_stick_3d.py:75-79 | A missing speed gets the last bin, 5. A present speed gets its first-match cm/s bin. |
| SpeedBins.MetreBinMonotone | erddap_stick.py:82-86 | A faster speed never gets an earlier m/s bin. |
| SpeedBins.CentimetreBinMonotone | erddap_stick_3d.py:75-79 | A faster speed never gets an earlier cm/s bin. |
| SpeedBins.BoundaryInLowerBin | erddap_stick_2d.py:93-97 | A speed equal to bound k falls in bin k, on both scales. |
| SpeedBins.CentimetreBinIsMetreBinOfConverted | erddap_stick_3d.py:75-79 | Classifying a cm/s speed `s` gives the same bin as classifying `s / 100` against the m/s bounds. |
| DepthLayout.UniqueDepths | erddap_stick_2d.py:75 | The depth list is strictly descending and holds a value exactly when some row has that depth. |
| DepthLayout.UniqueDepthsOnce | erddap_stick.py:64 | Each depth present in the rows occurs exactly once in the depth list. |
| DepthLayout.DescendingIsUnique | erddap_stick_2d.py:75 | Two strictly descending lists with the same elements are equal, so the depth list is the only descending arrangement of the depths. |
| DepthLayout.DepthSubsetsPartition | erddap_stick_2d.py:83-84 | The per-depth subsets are pairwise disjoint, and together they hold every row as many times as the table does. |
| DepthLayout.DepthSubset | erddap_stick_2d.py:84 | The subset for a depth holds exactly the table rows at that depth and is no longer than the table. |
| DepthLayout.RowOffset | erddap_stick_2d.py:100 | The offset of row i is non-negative, and dividing it by the row spacing 10 gives i back. |
| DepthLayout.Colours | erddap_stick_2d.py:93-97 | There is one colour per sample, in order. Each is the palette entry of the sample's first-match m/s bin (`MetreBinOf`), so it is one of the first six entries. A missing speed gets the sixth colour, and a speed of at most 0.10 gets the first. |
| DepthLayout.VerticalLimits | erddap_stick_2d.py:110 | For n rows the y-limits are (-10, n * 10), and every row offset i * 10 with i < n lies strictly between them. |
| DepthLayout.RenderFailsOnlyWhenEmpty | erddap_stick_2d.py:83-109 | The layout reaches the x-limit call with no annotation position if and only if it is given no rows. |
| DepthLayout.Render | erddap_stick_2d.py:83-110 | The layout never reports "no data". It fails on the short palette exactly when rows exist and the palette has fewer than six entries, and it draws exactly when rows exist and the palette is long enough. |
| DepthLayout.RenderedSamplesFromRows | erddap_stick_2d.py:83-84 | Every sample a drawn plot shows is one of the rows the layout was given. |
| DepthLayout.RenderedRows | erddap_stick_2d.py:83-110 | A drawn plot has one row per distinct depth, in strictly descending depth order. The y-limits are (-10, n * 10) for n depths, and row i is at y = i * 10, strictly inside them. It holds that depth's samples in table order, each coloured by the palette entry of its m/s bin. |
| DepthLayout.DrawDepthRows | erddap_stick.py:72-99 | The per-depth loop produces exactly the outcome `Render` describes, including the failures for a short palette and for no depth rows. |
| Stick2d.FetchAndPlot | erddap_stick_2d.py:61-70 | The step-by-step chain gives the specified outcome: time window, in-place conversion, drop, "no data" test, depth window, then layout. |
| Stick2d.Plan | erddap_stick_2d.py:61-110 | The short-palette failure happens exactly when some row is left to plot and the palette has fewer than six entries. Every sample of a drawn plot lies in both windows with both values present. |
| Stick2d.PlottedInWindows | erddap_stick_2d.py:61-70 | Every row that reaches the plotting loop lies in both windows with both values present. |
| Stick2d.NoDataIff | erddap_stick_2d.py:64-68 | The "no data" return happens if and only if no row is both inside the time window and complete. |
| Stick2d.PlottedRows | erddap_stick_2d.py:61-70 | The plotted rows are the rows inside both windows with both values present, in table order, converted. |
| Stick2d.FailsWithoutDepthRows | erddap_stick_2d.py:66-70 | The script fails at the x-limit call if and only if some row passes the "no data" test but none is inside the depth window. |
| Stick2d.EmptyDepthWindowFails | erddap_stick_2d.py:66-70 | A table with one complete row in the time window, and no row in the depth window, reaches that failure. |
| Stick2d.PlanChecked | erddap_stick_2d.py:66-70 | With the test after the depth filter, the result is "no data" exactly when nothing is left to plot. The x-limit failure never occurs, and otherwise the result equals the script's. |
| Stick.FetchAndPlot | erddap_stick.py:49-59 | The step-by-step chain gives the specified outcome: drop, in-place conversion, "no data" test, depth window, then layout. |
| Stick.Plan | erddap_stick.py:49-99 | The short-palette failure happens exactly when some row is left to plot and the palette has fewer than six entries. Every sample of a drawn plot is complete and inside the depth window. |
| Stick.ScreenedRows | erddap_stick.py:49-50 | Every row reaching the "no data" test has both values present. These rows are exactly the complete table rows with only their speed divided by 100. |
| Stick.NoDataIff | erddap_stick.py:49-54 | The "no data" return happens if and only if no row of the table is complete. |
| Stick.PlottedRows | erddap_stick.py:59 | The plotted rows are the same as with the convert-then-drop order. Every plotted row is inside the inclusive depth window. |
| Stick.NoLocalTimeFilter | erddap_stick.py:30-33 | A complete row inside the depth window is plotted whatever its time, because the time window is only a request constraint. |
| Stick.FailsWithoutDepthRows | erddap_stick.py:52-59 | The script fails at the x-limit call if and only if some complete row exists but none is inside the depth window. |
| Stick.EmptyDepthWindowFails | erddap_stick.py:52-59 | A table with one complete row, and no row in the depth window, reaches that failure. |
| Stick.PlanChecked | erddap_stick.py:52-59 | With the test after the depth filter, the result is "no data" exactly when nothing is left to plot. The x-limit failure never occurs, and otherwise the result equals the script's. |
| Stick3d.FetchData | erddap_stick_3d.py:51-60 | The function returns None if and only if no row is complete. Otherwise it returns exactly the complete rows inside both inclusive windows. |
| Stick3d.FetchDataDropsFirst | erddap_stick_3d.py:51-58 | The returned rows equal the rows of erddap_stick_3d_v2.py's `fetch_data` (both windows, no drop) with the incomplete ones dropped, in table order: dropping first only moves the "no data" test. |
| Stick3d.Sticks | erddap_stick_3d.py:84-88 | There is one stick per row, in row order. Both x endpoints are the row's time, y starts at the row's depth, z runs from 0 to a non-negative height, and the colour is the palette entry of the row's cm/s bin. |
| Stick3d.LabelsNameRanges | erddap_stick_3d.py:101-102 | Each of the six legend strings is the text of its speed interval. |
| Stick3d.LabelText | erddap_stick_3d.py:101-102 | The k-th legend string is the text of the k-th speed interval. |
| Stick3d.PaletteDistinct | erddap_stick_3d.py:74 | The six stick colours are pairwise different, so a colour identifies its bin. |
| Stick3d.RangeOfBin | erddap_stick_3d.py:75-79 | The cm/s classifier puts a speed in bin i if and only if the speed lies in the (5 - i)-th interval of the label list. |
| Stick3d.Legend | erddap_stick_3d.py:104-113 | The legend has six entries. Entry i carries the labels read slowest first (label 5 - i) and palette colour i. |
| Stick3d.LegendMatchesClassifier | erddap_stick_3d.py:101-113 | Legend entry i has palette colour i. Its label names an interval holding a speed if and only if the cm/s classifier puts that speed in bin i. |
| Stick3d.StickColourMatchesLegend | erddap_stick_3d.py:75-113 | A legend entry has a stick's colour if and only if its interval holds that stick's speed. |
| Stick3d.RunScript | erddap_stick_3d.py:131-137 | A figure is built if and only if some row is complete. It is the plot of exactly the rows `fetch_data` returned, in their order: one stick per returned row and six legend entries. |
| Stick3d.Plot3dStick | erddap_stick_3d.py:62-129 | The figure has one stick per row, in row order, and the six-entry legend. Stick i is the trace of row i: both x ends at its time, y starting at its depth, z from 0 to a non-negative height. Each stick has the colour of the legend entry of its speed's bin. |
| Stick3d.EmptyTableStillPlotted | erddap_stick_3d.py:53-58 | When the only complete row is outside the time window, the function returns an empty, non-None table. The script still builds a figure, with no sticks. |
| Stick3dV2.FetchData | erddap_stick_3d_v2.py:52-53 | The function keeps exactly the table rows inside both inclusive windows, missing values included, and the result is no longer than the table. |
| Stick3dV2.FetchDataKeepsOrder | erddap_stick_3d_v2.py:52-53 | The k-th returned row is the table row at the k-th position where both windows hold. These positions strictly increase, so table order and duplicates are kept. |
| Stick3dV2.Normalise | erddap_stick_3d_v2.py:74-76 | With vmin < vmax, the level is linear in the speed: level * (vmax - vmin) == s - vmin. So vmin maps to 0 and vmax maps to 1, and every speed between them maps into [0, 1]. |
| Stick3dV2.NormaliseBounds | erddap_stick_3d_v2.py:74 | For q = (s - vmin) / (vmax - vmin) with vmin < vmax: q * (vmax - vmin) == s - vmin, and q is 0 at vmin and 1 at vmax, non-negative from vmin up, and at most 1 up to vmax. |
| Stick3dV2.NormalisePreservesOrder | erddap_stick_3d_v2.py:74-76 | A strictly faster speed gets a strictly higher level. |
| Stick3dV2.PresentSpeeds | erddap_stick_3d_v2.py:74 | The speeds pandas' `min` and `max` look at: every present speed of the rows, and nothing else, no more of them than rows. |
| Stick3dV2.Least | erddap_stick_3d_v2.py:74 | The result is one of the values and at most every value (pandas' `min`). |
| Stick3dV2.Greatest | erddap_stick_3d_v2.py:74 | The result is one of the values and at least every value (pandas' `max`). |
| Stick3dV2.Shade | erddap_stick_3d_v2.py:74-76 | Shading is left unnormalised exactly when no speed is present or the smallest and largest present speeds are equal. Otherwise vmin and vmax are those speeds and there is one level per row, in row order. A row has a level exactly when its speed is present; the level is that speed normalised, and lies in [0, 1]. |
| Stick3dV2.ShadeEndpoints | erddap_stick_3d_v2.py:74-76 | Some selected row gets level 0 and some gets level 1. |
| Stick3dV2.BuiltinMax | erddap_stick_3d_v2.py:101-102 | Python's `max` over the speed column gives NaN if the first speed is NaN. Otherwise it gives a speed of the column that is at least every present speed. |
| Stick3dV2.HorizontalRange | erddap_stick_3d_v2.py:101-102 | The u/v range is None exactly when the first speed is NaN. Otherwise it is symmetric, [-m, m], where m is a speed of the rows and at least every present speed. |
| Stick3dV2.DepthRange | erddap_stick_3d_v2.py:103 | The depth axis runs from the largest selected depth to the smallest (reversed), so it spans every selected depth. |
| Stick3dV2.PlotSticks | erddap_stick_3d_v2.py:58-61 | No figure is built, and no colour computed, if and only if no row has the requested timestamp. |
| Stick3dV2.PlotUsesSelectedRows | erddap_stick_3d_v2.py:58-76 | The figure is built from exactly the rows with the requested timestamp. Its shading, its u/v range `[-max, max]` and its depth range (max, min) are theirs, and the depth range spans all of them. |

## Left out

- HTTP requests, status codes, temporary files, NetCDF decoding (`Dataset`, `num2date`), the erddapy client and YAML loading are I/O or foreign libraries. The model starts from the decoded table, with times as integer epochs.
- The try/except around erddap_stick.py's fetch (46-57) only reports a client or decoding error. It is not modelled.
- The u/v components (sine and cosine of the direction) are floating-point trigonometry. In erddap_stick_3d.py they are an opaque input `uv`. The 2D quiver vectors and the v2 stick endpoints built from them are not modelled.
- Drawing is not modelled: quiver, Scatter3d traces, layout, titles, hover text, `savefig`/`write_html`/`show`, and the fixed stick origin (7.5, -2.5) of the v2 traces.
- The x-axis of the 2D plots is left out: `date2num`, the time minimum and maximum, the annotation position and the x-limit padding are float days. The model records only the case where the annotation position is never assigned.
- The figure size (`total_height`) is left out, because it only sizes the canvas.
- The viridis colormap lookup and the RGBA string formatting are a foreign library. `Stick3dV2.Shade` stops at the normalised level.
- Stick3dV2.Shade: uses `Unnormalised` when no speed is present (NaN bounds) or when all present speeds are equal (vmin == vmax), and says nothing more about those cases. matplotlib's behaviour there is not visible in this code.
- The model uses exact reals, not binary floats. A speed whose float value lies next to a bound (0.1 is not exact in binary) may be binned differently at runtime, and `CentimetreBinIsMetreBinOfConverted` holds only over exact reals.
- NaN and masked values are modelled only as "missing" (`None`), and NaT times are not modelled. A missing depth is not modelled: depths are always present.
- The 2D palette is read from the configuration and is kept as a list of strings. A palette of fewer than six entries is modelled as the failure `PaletteTooShort` on the first depth row.

## Findings

| source | as written | input that shows it | evidently intended | confidence | as-written member | corrected member |
|---|---|---|---|---|---|---|
| erddap_stick_2d.py:66-70 | The "no data" test runs before the depth filter. An empty depth window skips the loop, so `annotation_x_position` is never assigned and the x-limit call raises UnboundLocalError. | A table with one complete row inside the time window whose depth is outside the depth range | The test guards the depth-filtered table, as its message, which names the depth range, says, and returns early | not executed | Stick2d.EmptyDepthWindowFails | Stick2d.PlanChecked |
| erddap_stick.py:52-59 | The "no data" test runs before the depth filter, with the same unassigned annotation position at the x-limit call (98). | A table with one complete row whose depth is outside the depth range | The test guards the depth-filtered table and returns early | not executed | Stick.EmptyDepthWindowFails | Stick.PlanChecked |
