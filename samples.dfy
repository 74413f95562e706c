/** The sample table every script builds from the decoded response, the
    boolean masks the scripts index it with, and the cm/s to m/s speed
    conversion. */
module Samples {

  datatype Option<+T> = None | Some(value: T)

  /** One row of the table: an epoch time, a depth in metres and the speed
      and direction columns, either of which may be missing (NaN). */
  datatype Sample = Sample(time: int, depth: real, speed: Option<real>, direction: Option<real>)

  /** The request's time window and depth range. */
  datatype Query = Query(start: int, end: int, depthMin: real, depthMax: real)

  /** The row selections the scripts apply. Every one of them is a pandas
      boolean mask, except `Complete`, which is the drop of the rows
      missing a speed or a direction. */
  datatype Mask =
    | TimeWindow(start: int, end: int)
    | DepthWindow(low: real, high: real)
    | DepthIs(depth: real)
    | TimeIs(instant: int)
    | TimeDepthWindow(start: int, end: int, low: real, high: real)
    | Complete

  predicate Holds(m: Mask, r: Sample)
  {
    match m
    case TimeWindow(start, end) => start <= r.time <= end
    case DepthWindow(low, high) => low <= r.depth <= high
    case DepthIs(d) => r.depth == d
    case TimeIs(t) => r.time == t
    case TimeDepthWindow(start, end, low, high) => start <= r.time <= end && low <= r.depth <= high
    case Complete => r.speed.Some? && r.direction.Some?
  }

  /** The rows of `rows` on which `m` holds, in their original order. */
  function Select(rows: seq<Sample>, m: Mask): (kept: seq<Sample>)
    ensures |kept| <= |rows|
    ensures forall r :: r in kept ==> r in rows && Holds(m, r)
    ensures forall i :: 0 <= i < |rows| && Holds(m, rows[i]) ==> rows[i] in kept
  {
    if rows == [] then []
    else
      var init, last := Select(rows[..|rows| - 1], m), rows[|rows| - 1];
      if Holds(m, last) then init + [last] else init
  }

  /** The positions of the rows on which `m` holds, in increasing order. */
  function Positions(rows: seq<Sample>, m: Mask): (idx: seq<nat>)
    ensures forall k :: 0 <= k < |idx| ==> idx[k] < |rows|
    ensures forall k, l :: 0 <= k < l < |idx| ==> idx[k] < idx[l]
    ensures forall j :: 0 <= j < |rows| ==> (j in idx <==> Holds(m, rows[j]))
  {
    if rows == [] then []
    else
      var n := |rows| - 1;
      var init := Positions(rows[..n], m);
      assert forall j :: 0 <= j < n ==> rows[j] == rows[..n][j];
      init + if Holds(m, rows[n]) then [n] else []
  }

  /** `Select` keeps exactly the rows on which the mask holds, as a
      subsequence: the k-th kept row is the row at the k-th such position. */
  lemma {:induction false} SelectKeepsOrder(rows: seq<Sample>, m: Mask)
    ensures |Select(rows, m)| == |Positions(rows, m)|
    ensures forall k :: 0 <= k < |Positions(rows, m)| ==> Select(rows, m)[k] == rows[Positions(rows, m)[k]]
  {
    if rows != [] {
      var n := |rows| - 1;
      var init := rows[..n];
      SelectKeepsOrder(init, m);
      var kept0, idx0 := Select(init, m), Positions(init, m);
      var kept, idx := Select(rows, m), Positions(rows, m);
      assert idx == idx0 + if Holds(m, rows[n]) then [n] else [];
      assert kept == kept0 + if Holds(m, rows[n]) then [rows[n]] else [];
      forall k | 0 <= k < |idx|
        ensures kept[k] == rows[idx[k]]
      {
        if k < |idx0| {
          assert idx[k] == idx0[k] && kept[k] == kept0[k];
          assert rows[idx0[k]] == init[idx0[k]];
        }
      }
    }
  }

  /** A row is kept exactly when it is in the table and the mask holds on it. */
  lemma InSelect(rows: seq<Sample>, m: Mask, r: Sample)
    ensures r in Select(rows, m) <==> r in rows && Holds(m, r)
  {
    if r in rows && Holds(m, r) {
      var i :| 0 <= i < |rows| && rows[i] == r;
    }
  }

  /** Nothing is kept exactly when the mask holds on no row. */
  lemma SelectEmptyIff(rows: seq<Sample>, m: Mask)
    ensures Select(rows, m) == [] <==> forall r :: r in rows ==> !Holds(m, r)
  {
    if Select(rows, m) != [] {
      assert Select(rows, m)[0] in Select(rows, m);
    }
    forall r | r in rows && Holds(m, r) ensures r in Select(rows, m) {
      InSelect(rows, m, r);
    }
  }

  lemma SelectSnoc(rows: seq<Sample>, x: Sample, m: Mask)
    ensures Select(rows + [x], m) == Select(rows, m) + if Holds(m, x) then [x] else []
  {
    assert (rows + [x])[..|rows|] == rows;
  }

  lemma SelectOne(x: Sample, m: Mask)
    ensures Select([x], m) == if Holds(m, x) then [x] else []
  {
    assert [x][..0] == [];
  }

  /** Applying `a` and then `b` keeps the same rows, in the same order and
      as often, as applying a single mask `c` that holds exactly where both
      do. */
  lemma {:induction false} SelectConjunction(rows: seq<Sample>, a: Mask, b: Mask, c: Mask)
    requires forall r :: Holds(c, r) <==> Holds(a, r) && Holds(b, r)
    ensures Select(Select(rows, a), b) == Select(rows, c)
  {
    if rows != [] {
      var init, last := rows[..|rows| - 1], rows[|rows| - 1];
      assert rows == init + [last];
      SelectConjunction(init, a, b, c);
      SelectSnoc(init, last, a);
      SelectSnoc(init, last, c);
      SelectSnoc(Select(init, a), last, b);
    }
  }

  /** A table on which the mask already holds everywhere is left as it is;
      in particular applying a mask twice is the same as applying it once. */
  lemma {:induction false} SelectAllKept(rows: seq<Sample>, m: Mask)
    requires forall r :: r in rows ==> Holds(m, r)
    ensures Select(rows, m) == rows
  {
    if rows != [] {
      var init, last := rows[..|rows| - 1], rows[|rows| - 1];
      assert Holds(m, last) by {
        assert last in rows;
      }
      assert Select(rows, m) == Select(init, m) + [last];
      assert forall r :: r in init ==> r in rows;
      SelectAllKept(init, m);
      assert init + [last] == rows;
    }
  }

  /** Two masks give the same rows in whichever order they are applied. */
  lemma {:induction false} SelectCommutes(rows: seq<Sample>, a: Mask, b: Mask)
    ensures Select(Select(rows, a), b) == Select(Select(rows, b), a)
  {
    if rows != [] {
      var init, last := rows[..|rows| - 1], rows[|rows| - 1];
      assert rows == init + [last];
      SelectCommutes(init, a, b);
      SelectSnoc(init, last, a);
      SelectSnoc(init, last, b);
      SelectSnoc(Select(init, a), last, b);
      SelectSnoc(Select(init, b), last, a);
    }
  }

  function DivideOpt(x: Option<real>, divisor: real): Option<real>
    requires divisor != 0.0
  {
    match x
    case None => None
    case Some(v) => Some(v / divisor)
  }

  /** One row with its speed divided; a missing speed stays missing. */
  function ScaleRow(r: Sample, divisor: real): Sample
    requires divisor != 0.0
  {
    r.(speed := DivideOpt(r.speed, divisor))
  }

  /** The speed-column division as a value: every speed divided, nothing else touched. */
  function ScaleSpeeds(rows: seq<Sample>, divisor: real): (scaled: seq<Sample>)
    requires divisor != 0.0
    ensures |scaled| == |rows|
    ensures forall i :: 0 <= i < |rows| ==>
      && scaled[i].time == rows[i].time
      && scaled[i].depth == rows[i].depth
      && scaled[i].direction == rows[i].direction
      && scaled[i].speed.Some? == rows[i].speed.Some?
      && (rows[i].speed.Some? ==> scaled[i].speed.value * divisor == rows[i].speed.value)
  {
    seq(|rows|, i requires 0 <= i < |rows| => ScaleRow(rows[i], divisor))
  }

  /** Dividing by 100 and then by 1/100 gives back the original speeds. */
  lemma ScaleSpeedsRoundTrip(rows: seq<Sample>)
    ensures ScaleSpeeds(ScaleSpeeds(rows, 100.0), 0.01) == rows
  {
    var back := ScaleSpeeds(ScaleSpeeds(rows, 100.0), 0.01);
    forall i | 0 <= i < |rows|
      ensures back[i] == rows[i]
    {
      match rows[i].speed
      case None =>
      case Some(v) => assert v / 100.0 / 0.01 == v;
    }
  }

  lemma ScaleSpeedsSnoc(rows: seq<Sample>, x: Sample, divisor: real)
    requires divisor != 0.0
    ensures ScaleSpeeds(rows + [x], divisor) == ScaleSpeeds(rows, divisor) + [ScaleRow(x, divisor)]
  {
  }

  /** No mask looks at the value of a speed, only at whether it is there,
      so the conversion can be done before or after any selection. */
  lemma {:induction false} ScalingCommutesWithSelect(rows: seq<Sample>, divisor: real, m: Mask)
    requires divisor != 0.0
    ensures Select(ScaleSpeeds(rows, divisor), m) == ScaleSpeeds(Select(rows, m), divisor)
  {
    if rows != [] {
      var init, last := rows[..|rows| - 1], rows[|rows| - 1];
      var tail: seq<Sample> := if Holds(m, last) then [ScaleRow(last, divisor)] else [];
      calc {
        Select(ScaleSpeeds(rows, divisor), m);
        { assert rows == init + [last]; ScaleSpeedsSnoc(init, last, divisor); }
        Select(ScaleSpeeds(init, divisor) + [ScaleRow(last, divisor)], m);
        { SelectSnoc(ScaleSpeeds(init, divisor), ScaleRow(last, divisor), m); }
        Select(ScaleSpeeds(init, divisor), m) + tail;
        { ScalingCommutesWithSelect(init, divisor, m); }
        ScaleSpeeds(Select(init, m), divisor) + tail;
        { ScaleSelectSnoc(init, last, divisor, m); }
        ScaleSpeeds(Select(rows, m), divisor);
      }
    }
  }

  lemma ScaleSelectSnoc(init: seq<Sample>, last: Sample, divisor: real, m: Mask)
    requires divisor != 0.0
    ensures ScaleSpeeds(Select(init + [last], m), divisor) ==
      ScaleSpeeds(Select(init, m), divisor) + if Holds(m, last) then [ScaleRow(last, divisor)] else []
  {
    SelectSnoc(init, last, m);
    if Holds(m, last) {
      ScaleSpeedsSnoc(Select(init, m), last, divisor);
    }
  }

  /** A fresh frame holding the given rows. */
  method NewFrame(rows: seq<Sample>) returns (df: array<Sample>)
    ensures fresh(df) && df[..] == rows
  {
    df := new Sample[|rows|](i requires 0 <= i < |rows| => rows[i]);
  }

  /** The in-place division of the speed column. */
  method DivideSpeedColumn(df: array<Sample>, divisor: real)
    requires divisor != 0.0
    modifies df
    ensures df[..] == ScaleSpeeds(old(df[..]), divisor)
  {
    forall i | 0 <= i < df.Length {
      df[i] := ScaleRow(df[i], divisor);
    }
  }
}
