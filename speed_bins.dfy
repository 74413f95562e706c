/** The six-bin speed classification of the stick colours: the nested
    numpy selections over five inclusive upper bounds. The first bound the
    speed does not exceed picks the bin; a speed above every bound gets the
    last bin. */
module SpeedBins {
  import opened Samples

  /** Inclusive upper bounds of bins 0..4 in m/s (erddap_stick_2d.py, erddap_stick.py). */
  const MetreBounds: seq<real> := [0.10, 0.20, 0.30, 0.40, 0.50]

  /** Inclusive upper bounds of bins 0..4 in cm/s (erddap_stick_3d.py). */
  const CentimetreBounds: seq<real> := [10.0, 20.0, 30.0, 40.0, 50.0]

  /** The number of colours a classifier can pick from. */
  const BinCount: nat := 6

  /** The bin of a speed in m/s: the first bound it does not exceed, else 5. */
  function SpeedBinMetres(s: real): (bin: nat)
    ensures bin < BinCount
    ensures bin < |MetreBounds| ==> s <= MetreBounds[bin]
    ensures forall j :: 0 <= j < bin ==> MetreBounds[j] < s
  {
    if s <= 0.10 then 0
    else if s <= 0.20 then 1
    else if s <= 0.30 then 2
    else if s <= 0.40 then 3
    else if s <= 0.50 then 4
    else 5
  }

  /** The bin of a speed in cm/s: the first bound it does not exceed, else 5. */
  function SpeedBinCentimetres(s: real): (bin: nat)
    ensures bin < BinCount
    ensures bin < |CentimetreBounds| ==> s <= CentimetreBounds[bin]
    ensures forall j :: 0 <= j < bin ==> CentimetreBounds[j] < s
  {
    if s <= 10.0 then 0
    else if s <= 20.0 then 1
    else if s <= 30.0 then 2
    else if s <= 40.0 then 3
    else if s <= 50.0 then 4
    else 5
  }

  /** A missing speed is NaN to numpy, and NaN fails every `<=` test, so the
      nested `np.where` falls through to the last colour. */
  function MetreBinOf(s: Option<real>): (bin: nat)
    ensures bin < BinCount
    ensures s.None? ==> bin == BinCount - 1
    ensures s.Some? && bin < |MetreBounds| ==> s.value <= MetreBounds[bin]
    ensures s.Some? ==> forall j :: 0 <= j < bin ==> MetreBounds[j] < s.value
  {
    match s
    case None => 5
    case Some(v) => SpeedBinMetres(v)
  }

  /** The same fall-through for the cm/s classifier. */
  function CentimetreBinOf(s: Option<real>): (bin: nat)
    ensures bin < BinCount
    ensures s.None? ==> bin == BinCount - 1
    ensures s.Some? && bin < |CentimetreBounds| ==> s.value <= CentimetreBounds[bin]
    ensures s.Some? ==> forall j :: 0 <= j < bin ==> CentimetreBounds[j] < s.value
  {
    match s
    case None => 5
    case Some(v) => SpeedBinCentimetres(v)
  }

  /** A faster current never gets an earlier bin. */
  lemma MetreBinMonotone(s: real, t: real)
    requires s <= t
    ensures SpeedBinMetres(s) <= SpeedBinMetres(t)
  {
  }

  lemma CentimetreBinMonotone(s: real, t: real)
    requires s <= t
    ensures SpeedBinCentimetres(s) <= SpeedBinCentimetres(t)
  {
  }

  /** A speed equal to a bound belongs to the lower bin. */
  lemma BoundaryInLowerBin(k: nat)
    requires k < |MetreBounds|
    ensures SpeedBinMetres(MetreBounds[k]) == k
    ensures SpeedBinCentimetres(CentimetreBounds[k]) == k
  {
  }

  /** Over exact reals, classifying a raw cm/s speed against 10..50 picks the
      same bin as classifying the converted m/s speed against 0.10..0.50. */
  lemma CentimetreBinIsMetreBinOfConverted(s: real)
    ensures SpeedBinCentimetres(s) == SpeedBinMetres(s / 100.0)
  {
  }
}
