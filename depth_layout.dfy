/** The 2D stick-plot layout shared by erddap_stick_2d.py and
    erddap_stick.py: one horizontal row per distinct depth, deepest first,
    row i drawn at y = i * 10, each row holding the samples at that depth
    in table order and their bin colours. */
module DepthLayout {
  import opened Samples
  import opened SpeedBins

  ghost predicate StrictlyDescending(ds: seq<real>)
  {
    forall i, j :: 0 <= i < j < |ds| ==> ds[i] > ds[j]
  }

  /** Adds one depth to a strictly descending list of distinct depths. */
  function InsertDescending(ds: seq<real>, d: real): (out: seq<real>)
    requires StrictlyDescending(ds)
    ensures StrictlyDescending(out)
    ensures forall x :: x in out <==> x in ds || x == d
  {
    if ds == [] then [d]
    else if d == ds[0] then ds
    else if d > ds[0] then
      ConsDescending(d, ds);
      [d] + ds
    else
      var tail := ds[1..];
      assert StrictlyDescending(tail);
      assert forall x :: x in tail ==> x < ds[0];
      var rest := InsertDescending(tail, d);
      ConsDescending(ds[0], rest);
      [ds[0]] + rest
  }

  lemma ConsDescending(x: real, ds: seq<real>)
    requires StrictlyDescending(ds) && forall y :: y in ds ==> y < x
    ensures StrictlyDescending([x] + ds)
  {
    var out := [x] + ds;
    forall i, j | 0 <= i < j < |out| ensures out[i] > out[j] {
      assert out[j] == ds[j - 1] && ds[j - 1] in ds;
      if i > 0 {
        assert out[i] == ds[i - 1];
      }
    }
  }

  /** The distinct depths, deepest first: every depth of the table, once,
      strictly descending. */
  function UniqueDepths(rows: seq<Sample>): (ds: seq<real>)
    ensures StrictlyDescending(ds)
    ensures forall d :: d in ds <==> exists r :: r in rows && r.depth == d
  {
    if rows == [] then []
    else
      var init, last := rows[..|rows| - 1], rows[|rows| - 1];
      assert forall r :: r in rows ==> r in init || r == last;
      InsertDescending(UniqueDepths(init), last.depth)
  }

  /** No depth appears twice in `UniqueDepths`. */
  lemma {:induction false} UniqueDepthsOnce(rows: seq<Sample>, d: real)
    requires exists r :: r in rows && r.depth == d
    ensures multiset(UniqueDepths(rows))[d] == 1
  {
    DescendingCountsOnce(UniqueDepths(rows), d);
  }

  lemma {:induction false} DescendingCountsOnce(ds: seq<real>, d: real)
    requires StrictlyDescending(ds)
    ensures multiset(ds)[d] == if d in ds then 1 else 0
  {
    if ds != [] {
      assert ds == [ds[0]] + ds[1..];
      DescendingCountsOnce(ds[1..], d);
      assert d == ds[0] ==> d !in ds[1..];
    }
  }

  /** Two strictly descending lists with the same elements are the same
      list, so `UniqueDepths` is the one descending order of the depths. */
  lemma {:induction false} DescendingIsUnique(a: seq<real>, b: seq<real>)
    requires StrictlyDescending(a) && StrictlyDescending(b)
    requires forall x :: x in a <==> x in b
    ensures a == b
  {
    assert a != [] ==> a[0] in a;
    assert b != [] ==> b[0] in b;
    if a != [] && b != [] {
      var a', b' := a[1..], b[1..];
      assert a[0] == b[0] by {
        assert a[0] in b && b[0] in a;
      }
      assert StrictlyDescending(a') && StrictlyDescending(b');
      assert forall x :: x in a' <==> x in b' by {
        forall x ensures x in a' <==> x in b' {
          assert x in a' <==> x in a && x != a[0];
          assert x in b' <==> x in b && x != b[0];
        }
      }
      DescendingIsUnique(a', b');
      assert a == [a[0]] + a' && b == [b[0]] + b';
    }
  }

  /** The samples at exactly depth `d`, in table order. */
  function DepthSubset(rows: seq<Sample>, d: real): (subset: seq<Sample>)
    ensures |subset| <= |rows|
    ensures forall r :: r in subset <==> r in rows && r.depth == d
  {
    assert forall r :: r in Select(rows, DepthIs(d)) <==> r in rows && r.depth == d by {
      forall r { InSelect(rows, DepthIs(d), r); }
    }
    Select(rows, DepthIs(d))
  }

  /** The samples of all the subsets for the depths `ds`, counted together. */
  function GroupsUnion(rows: seq<Sample>, ds: seq<real>): multiset<Sample>
  {
    if ds == [] then multiset{} else multiset(DepthSubset(rows, ds[0])) + GroupsUnion(rows, ds[1..])
  }

  lemma {:induction false} GroupsUnionSnoc(rows: seq<Sample>, x: Sample, ds: seq<real>)
    requires StrictlyDescending(ds)
    ensures GroupsUnion(rows + [x], ds) == GroupsUnion(rows, ds) + if x.depth in ds then multiset{x} else multiset{}
  {
    if ds != [] {
      var d, rest := ds[0], ds[1..];
      assert StrictlyDescending(rest);
      var here: multiset<Sample> := if x.depth == d then multiset{x} else multiset{};
      var there: multiset<Sample> := if x.depth in rest then multiset{x} else multiset{};
      assert multiset(DepthSubset(rows + [x], d)) == multiset(DepthSubset(rows, d)) + here by {
        SelectSnoc(rows, x, DepthIs(d));
      }
      assert GroupsUnion(rows + [x], rest) == GroupsUnion(rows, rest) + there by {
        GroupsUnionSnoc(rows, x, rest);
      }
      assert (if x.depth in ds then multiset{x} else multiset{}) == here + there by {
        assert ds == [d] + rest;
        assert x.depth == d ==> x.depth !in rest;
      }
      Regroup(multiset(DepthSubset(rows, d)), here, GroupsUnion(rows, rest), there);
    }
  }

  lemma Regroup(a: multiset<Sample>, b: multiset<Sample>, c: multiset<Sample>, e: multiset<Sample>)
    ensures (a + b) + (c + e) == (a + c) + (b + e)
  {
  }

  lemma {:induction false} GroupsCoverRows(rows: seq<Sample>, ds: seq<real>)
    requires StrictlyDescending(ds)
    requires forall r :: r in rows ==> r.depth in ds
    ensures GroupsUnion(rows, ds) == multiset(rows)
  {
    if rows == [] {
      EmptyGroups(ds);
    } else {
      var init, last := rows[..|rows| - 1], rows[|rows| - 1];
      assert rows == init + [last];
      assert forall r :: r in init ==> r in rows;
      GroupsCoverRows(init, ds);
      GroupsUnionSnoc(init, last, ds);
    }
  }

  lemma {:induction false} EmptyGroups(ds: seq<real>)
    ensures GroupsUnion([], ds) == multiset{}
  {
    if ds != [] {
      EmptyGroups(ds[1..]);
    }
  }

  /** The per-depth subsets split the table: no sample is in two of them,
      together they hold every sample exactly as often as the table does,
      and each keeps the table's order (it is a `Select`). */
  lemma DepthSubsetsPartition(rows: seq<Sample>)
    ensures var ds := UniqueDepths(rows);
      && (forall j, k :: 0 <= j < k < |ds| ==>
            multiset(DepthSubset(rows, ds[j])) * multiset(DepthSubset(rows, ds[k])) == multiset{})
      && GroupsUnion(rows, ds) == multiset(rows)
  {
    var ds := UniqueDepths(rows);
    forall j, k | 0 <= j < k < |ds|
      ensures multiset(DepthSubset(rows, ds[j])) * multiset(DepthSubset(rows, ds[k])) == multiset{}
    {
      var a, b := DepthSubset(rows, ds[j]), DepthSubset(rows, ds[k]);
      assert ds[j] != ds[k];
      forall r ensures (multiset(a) * multiset(b))[r] == 0 {
        assert r in a ==> r.depth == ds[j];
        assert r in b ==> r.depth == ds[k];
      }
    }
    forall r | r in rows ensures r.depth in ds {
    }
    GroupsCoverRows(rows, ds);
  }

  /** The vertical distance between two depth rows. */
  const RowSpacing: real := 10.0

  /** Where row i is drawn: i row spacings above the first row. */
  function RowOffset(i: nat): (y: real)
    ensures y >= 0.0 && y / RowSpacing == i as real
  {
    i as real * RowSpacing
  }

  /** The y-limits for n rows: one spacing below the first row, and one
      spacing above the last. */
  function VerticalLimits(n: nat): (limits: (real, real))
    ensures limits.0 == -RowSpacing && limits.1 == n as real * RowSpacing
    ensures forall i: nat :: i < n ==> limits.0 < RowOffset(i) < limits.1
  {
    (-RowSpacing, (n as real - 1.0) * RowSpacing + RowSpacing)
  }

  /** The colours of one depth's samples, one per sample in order. */
  function Colours(subset: seq<Sample>, palette: seq<string>): (colours: seq<string>)
    requires |palette| >= BinCount
    ensures |colours| == |subset|
    ensures forall k :: 0 <= k < |subset| ==> colours[k] == palette[MetreBinOf(subset[k].speed)]
    ensures forall k :: 0 <= k < |subset| ==> colours[k] in palette[..BinCount]
    ensures forall k :: 0 <= k < |subset| && subset[k].speed.None? ==> colours[k] == palette[BinCount - 1]
    ensures forall k :: 0 <= k < |subset| && subset[k].speed.Some? && subset[k].speed.value <= MetreBounds[0] ==>
      colours[k] == palette[0]
  {
    seq(|subset|, k requires 0 <= k < |subset| => palette[MetreBinOf(subset[k].speed)])
  }

  /** One iteration of the per-depth loop: the depth, where it is drawn,
      the quiver's samples and their colours. */
  datatype DepthRow = DepthRow(depth: real, y: real, subset: seq<Sample>, colours: seq<string>)

  datatype Plot = Plot(rows: seq<DepthRow>, yLimits: (real, real))

  /** Why a script stops with an exception after passing its "no data" test:
      an empty depth list leaves `annotation_x_position` unassigned when
      `set_xlim` reads it; a palette of fewer than six colours fails the
      palette lookup of the first iteration. */
  datatype Failure = NoDepthRows | PaletteTooShort

  /** The configuration entries the 2D row preparation reads: the query
      (its time window is applied locally by erddap_stick_2d.py only) and
      the colour palette. */
  datatype Config = Config(query: Query, palette: seq<string>)

  datatype Outcome = NoData | Failed(cause: Failure) | Drawn(plot: Plot)

  function RowAt(rows: seq<Sample>, ds: seq<real>, palette: seq<string>, i: nat): DepthRow
    requires i < |ds| && |palette| >= BinCount
  {
    var subset := DepthSubset(rows, ds[i]);
    DepthRow(ds[i], RowOffset(i), subset, Colours(subset, palette))
  }

  /** What the per-depth loop and the axis limits produce for a table that
      passed the script's "no data" test. */
  function Render(rows: seq<Sample>, palette: seq<string>): (outcome: Outcome)
    ensures outcome != NoData
    ensures outcome == Failed(PaletteTooShort) <==> rows != [] && |palette| < BinCount
    ensures outcome.Drawn? <==> rows != [] && |palette| >= BinCount
  {
    assert rows != [] ==> rows[0] in rows && rows[0].depth in UniqueDepths(rows);
    var ds := UniqueDepths(rows);
    if ds == [] then Failed(NoDepthRows)
    else if |palette| < BinCount then Failed(PaletteTooShort)
    else Drawn(Plot(seq(|ds|, i requires 0 <= i < |ds| => RowAt(rows, ds, palette, i)), VerticalLimits(|ds|)))
  }

  /** `Render` stops at `set_xlim` exactly when it is given no rows. */
  lemma RenderFailsOnlyWhenEmpty(rows: seq<Sample>, palette: seq<string>)
    ensures Render(rows, palette) == Failed(NoDepthRows) <==> rows == []
  {
    if rows != [] {
      assert rows[0] in rows;
      assert rows[0].depth in UniqueDepths(rows);
    }
  }

  /** The plot `Render` describes: one row per distinct depth, strictly
      descending, row i at i * 10 strictly inside the y-limits, holding the
      samples of that depth in table order with their bin colours. */
  lemma RenderedRows(rows: seq<Sample>, palette: seq<string>)
    requires Render(rows, palette).Drawn?
    ensures var plot, ds := Render(rows, palette).plot, UniqueDepths(rows);
      && |plot.rows| == |ds| > 0
      && plot.yLimits == (-10.0, |ds| as real * 10.0)
      && (forall i :: 0 <= i < |ds| ==>
            && plot.rows[i].depth == ds[i]
            && plot.rows[i].y == i as real * 10.0
            && plot.yLimits.0 < plot.rows[i].y < plot.yLimits.1
            && plot.rows[i].subset == Select(rows, DepthIs(ds[i]))
            && |plot.rows[i].colours| == |plot.rows[i].subset|
            && (forall k :: 0 <= k < |plot.rows[i].subset| ==>
                  plot.rows[i].colours[k] == palette[MetreBinOf(plot.rows[i].subset[k].speed)]))
      && (forall i, j :: 0 <= i < j < |ds| ==> plot.rows[i].depth > plot.rows[j].depth)
  {
    var ds := UniqueDepths(rows);
    var drawn := seq(|ds|, i requires 0 <= i < |ds| => RowAt(rows, ds, palette, i));
    assert Render(rows, palette).plot == Plot(drawn, VerticalLimits(|ds|));
  }

  /** Every sample a drawn plot shows is one of the rows it was given. */
  lemma RenderedSamplesFromRows(rows: seq<Sample>, palette: seq<string>)
    ensures Render(rows, palette).Drawn? ==>
      forall row, r :: row in Render(rows, palette).plot.rows && r in row.subset ==> r in rows
  {
    if Render(rows, palette).Drawn? {
      var plot := Render(rows, palette).plot;
      forall row, r | row in plot.rows && r in row.subset ensures r in rows {
        var i :| 0 <= i < |plot.rows| && plot.rows[i] == row;
        RenderedRows(rows, palette);
      }
    }
  }

  /** The per-depth loop of the 2D scripts, which enumerates the distinct
      depths, followed by the y-limits. */
  method DrawDepthRows(rows: seq<Sample>, palette: seq<string>) returns (outcome: Outcome)
    ensures outcome == Render(rows, palette)
  {
    var ds := UniqueDepths(rows);
    var drawn: seq<DepthRow> := [];
    for i := 0 to |ds|
      invariant |palette| >= BinCount || i == 0
      invariant |drawn| == i
      invariant forall k :: 0 <= k < i ==> drawn[k] == RowAt(rows, ds, palette, k)
    {
      if |palette| < BinCount {
        return Failed(PaletteTooShort);
      }
      var subset := DepthSubset(rows, ds[i]);
      drawn := drawn + [DepthRow(ds[i], RowOffset(i), subset, Colours(subset, palette))];
    }
    if ds == [] {
      return Failed(NoDepthRows);
    }
    outcome := Drawn(Plot(drawn, VerticalLimits(|ds|)));
  }
}
