/**
  `to_uint8`: every band of a raster brought into the 8-bit range by the inner `scale`
  rule, in place, band by band. A band whose largest sample exceeds 255 is mapped sample by
  sample to `round(b / 10000 * 255)` and clipped at 255; any other band is kept as it is.
  `bands[i, j]` is sample `j` of band `i`, the pixels of a band taken row after row.
 */
module Rescale {
  import opened Wrappers

  /** The reflectance divisor, fixed in the code whatever `min` and `max` say. */
  const Divisor: real := 10000.0
  const ByteMax: nat := 255

  datatype RescaleError =
    | EmptyBand  // the ValueError of `np.max` on a band without samples
    | NoBands    // the ValueError of `np.dstack` on no bands at all

  /** `np.round`: the nearest integer, ties to the even one. */
  function RoundHalfEven(q: real): (n: int)
    ensures q - 0.5 <= n as real <= q + 0.5
    ensures (n as real - q == 0.5 || q - n as real == 0.5) ==> n % 2 == 0
  {
    var f := q.Floor;
    var frac := q - f as real;
    if frac < 0.5 then f
    else if frac > 0.5 then f + 1
    else if f % 2 == 0 then f
    else f + 1
  }

  /** `astype(np.uint8)`: the value modulo 256. */
  function ToByte(v: nat): nat {
    v % 256
  }

  /** One sample of a band that gets rescaled: scaled to 0..255, then clipped at 255. */
  function ScaleSample(b: nat): (s: nat)
    ensures s <= ByteMax
  {
    var v := RoundHalfEven(b as real / Divisor * 255.0);
    if v > 255 then 255 else v
  }

  /** `np.max(band)`. */
  function Max(band: seq<nat>): (m: nat)
    requires |band| > 0
    ensures m in band
    ensures forall k :: 0 <= k < |band| ==> band[k] <= m
  {
    if |band| == 1 then band[0]
    else
      var m := Max(band[..|band| - 1]);
      if band[|band| - 1] > m then band[|band| - 1] else m
  }

  /** The inner `scale(band)`. */
  function ScaleBand(band: seq<nat>): (r: seq<nat>)
    requires |band| > 0
  {
    if Max(band) > ByteMax then seq(|band|, k requires 0 <= k < |band| => ScaleSample(band[k]))
    else band
  }

  /** Band `k` of `bands`, as a sequence of samples. */
  ghost function Row(bands: array2<nat>, k: nat): seq<nat>
    requires k < bands.Length0
    reads bands
  {
    seq(bands.Length1, j requires 0 <= j < bands.Length1 reads bands => bands[k, j])
  }

  /** `scale` keeps the length and puts every sample in 0..255; a rescaled band is mapped sample by sample. */
  lemma ScaleBandBounded(band: seq<nat>)
    requires |band| > 0
    ensures |ScaleBand(band)| == |band|
    ensures forall k :: 0 <= k < |band| ==> ScaleBand(band)[k] <= ByteMax
    ensures Max(band) > ByteMax ==> forall k :: 0 <= k < |band| ==> ScaleBand(band)[k] == ScaleSample(band[k])
  {
  }

  /** `scale` leaves a band unchanged exactly when its maximum is at most 255. */
  lemma ScaleBandUnchangedIff(band: seq<nat>)
    requires |band| > 0
    ensures ScaleBand(band) == band <==> Max(band) <= ByteMax
  {
    if Max(band) > ByteMax {
      var k :| 0 <= k < |band| && band[k] == Max(band);
      assert ScaleBand(band)[k] != band[k];
    }
  }

  /** Casting a scaled band to 8 bits loses nothing. */
  lemma ScaleBandFitsByte(band: seq<nat>)
    requires |band| > 0
    ensures forall k :: 0 <= k < |band| ==> ToByte(ScaleBand(band)[k]) == ScaleBand(band)[k]
  {
    ScaleBandBounded(band);
  }

  /**
    A rescaled sample comes out as 255 exactly when it is at least 9981 (9981 / 10000 * 255 > 254.5);
    from 9981 to 10019 rounding alone reaches 255, and the clip fires only from 10020 (`ClipFiresIff`).
   */
  lemma ScaleSampleSaturatesIff(b: nat)
    ensures ScaleSample(b) == ByteMax <==> b >= 9981
  {
    var q := b as real / Divisor * 255.0;
    var n := RoundHalfEven(q);
    if b >= 9981 {
      assert q >= 9981.0 / 10000.0 * 255.0;
      assert n >= 255;
    } else {
      assert q <= 9980.0 / 10000.0 * 255.0;
      assert n <= 254;
    }
  }

  /** The clip `band[band > 255] = 255` changes a rounded sample exactly when the sample is at least 10020. */
  lemma ClipFiresIff(b: nat)
    ensures RoundHalfEven(b as real / Divisor * 255.0) > ByteMax <==> b >= 10020
  {
    var q := b as real / Divisor * 255.0;
    var n := RoundHalfEven(q);
    if b >= 10020 {
      assert q >= 10020.0 / 10000.0 * 255.0;
      assert n >= 256;
    } else {
      assert q <= 10019.0 / 10000.0 * 255.0;
      assert n <= 255;
    }
  }

  /** Rounding keeps order. */
  lemma RoundHalfEvenMonotone(p: real, q: real)
    requires p <= q
    ensures RoundHalfEven(p) <= RoundHalfEven(q)
  {
  }

  /** Rescaling keeps the order of brightness: a brighter sample never comes out darker. */
  lemma ScaleSampleMonotone(a: nat, b: nat)
    requires a <= b
    ensures ScaleSample(a) <= ScaleSample(b)
  {
    assert a as real / Divisor * 255.0 <= b as real / Divisor * 255.0;
    RoundHalfEvenMonotone(a as real / Divisor * 255.0, b as real / Divisor * 255.0);
  }

  /** A band reaching 9981 or more is rescaled and has a sample at 255 (as a band with maximum 100000 does). */
  lemma BrightBandSaturates(band: seq<nat>)
    requires |band| > 0 && Max(band) >= 9981
    ensures exists k :: 0 <= k < |band| && ScaleBand(band)[k] == ByteMax
  {
    var k :| 0 <= k < |band| && band[k] == Max(band);
    ScaleSampleSaturatesIff(band[k]);
    assert ScaleBand(band)[k] == ByteMax;
  }

  /** The value the in-place loop writes for sample `j` is sample `j` of the scaled band. */
  lemma SampleWritten(band: seq<nat>, j: nat, rescale: bool)
    requires j < |band| && rescale == (Max(band) > ByteMax)
    ensures ToByte(if rescale then ScaleSample(band[j]) else band[j]) == ScaleBand(band)[j]
  {
    var v := if rescale then ScaleSample(band[j]) else band[j];
    if rescale {
      assert ScaleBand(band)[j] == v;
    } else {
      assert ScaleBand(band) == band;
      assert band[j] <= Max(band);
    }
    ByteIdentity(v);
  }

  /** Values in 0..255 survive the 8-bit cast. */
  lemma ByteIdentity(v: nat)
    requires v <= ByteMax
    ensures ToByte(v) == v
  {
  }

  /** A band equals a sequence that agrees with it sample by sample. */
  lemma RowMatches(bands: array2<nat>, i: nat, s: seq<nat>)
    requires i < bands.Length0 && |s| == bands.Length1
    requires forall j :: 0 <= j < bands.Length1 ==> bands[i, j] == s[j]
    ensures Row(bands, i) == s
  {
  }

  /** The maximum of a prefix one sample longer. */
  lemma MaxStep(band: seq<nat>, j: nat)
    requires 0 < j < |band|
    ensures Max(band[..j + 1]) == if band[j] > Max(band[..j]) then band[j] else Max(band[..j])
  {
    assert band[..j + 1][..j] == band[..j];
  }

  /** `np.max` over band `i`. */
  method BandMax(bands: array2<nat>, i: nat) returns (m: nat)
    requires i < bands.Length0 && bands.Length1 > 0
    ensures m == Max(Row(bands, i))
  {
    ghost var band := Row(bands, i);
    var n := bands.Length1;
    m := bands[i, 0];
    var j := 1;
    while j < n
      invariant 1 <= j <= n
      invariant m == Max(band[..j])
    {
      MaxStep(band, j);
      m := if bands[i, j] > m then bands[i, j] else m;
      j := j + 1;
    }
    assert band[..n] == band;
  }

  /** `scale(band).astype(np.uint8)` written back over band `i`, which holds `band`; the other bands stay as they are. */
  method ScaleBandInPlace(bands: array2<nat>, i: nat, ghost band: seq<nat>)
    requires i < bands.Length0 && bands.Length1 > 0
    requires |band| == bands.Length1 && forall j :: 0 <= j < bands.Length1 ==> bands[i, j] == band[j]
    modifies bands
    ensures Row(bands, i) == ScaleBand(band)
    ensures forall k, j :: 0 <= k < bands.Length0 && k != i && 0 <= j < bands.Length1 ==> bands[k, j] == old(bands[k, j])
  {
    RowMatches(bands, i, band);
    ghost var scaled := ScaleBand(band);
    var m := BandMax(bands, i);
    var rescale := m > ByteMax;
    ScaleBandBounded(band);
    var n := bands.Length1;
    var j := 0;
    while j < n
      invariant 0 <= j <= n
      invariant forall jj :: 0 <= jj < j ==> bands[i, jj] == scaled[jj]
      invariant forall jj :: j <= jj < n ==> bands[i, jj] == band[jj]
      invariant forall k, jj :: 0 <= k < bands.Length0 && k != i && 0 <= jj < n ==> bands[k, jj] == old(bands[k, jj])
    {
      var v := if rescale then ScaleSample(bands[i, j]) else bands[i, j];
      SampleWritten(band, j, rescale);
      bands[i, j] := ToByte(v);
      j := j + 1;
    }
    RowMatches(bands, i, scaled);
  }

  /**
    `to_uint8` up to the write: every band rescaled in place, in order, and the band count
    that goes into the output metadata returned.
   */
  method ToUint8(bands: array2<nat>) returns (r: Result<nat, RescaleError>)
    modifies bands
    ensures bands.Length0 == 0 ==> r == Failure(NoBands)
    ensures bands.Length0 > 0 && bands.Length1 == 0 ==> r == Failure(EmptyBand)
    ensures bands.Length0 > 0 && bands.Length1 > 0 ==> r == Success(bands.Length0)
    ensures bands.Length1 > 0 ==> forall k :: 0 <= k < bands.Length0 ==> Row(bands, k) == ScaleBand(old(Row(bands, k)))
  {
    var i := 0;
    while i < bands.Length0
      invariant 0 <= i <= bands.Length0
      invariant bands.Length1 == 0 ==> i == 0
      invariant bands.Length1 > 0 ==> forall k, j :: 0 <= k < i && 0 <= j < bands.Length1 ==> bands[k, j] == ScaleBand(old(Row(bands, k)))[j]
      invariant forall k, j :: i <= k < bands.Length0 && 0 <= j < bands.Length1 ==> bands[k, j] == old(bands[k, j])
    {
      if bands.Length1 == 0 {
        return Failure(EmptyBand);
      }
      ghost var band := old(Row(bands, i));
      ScaleBandInPlace(bands, i, band);
      i := i + 1;
    }
    var count := bands.Length0;
    if count == 0 {
      return Failure(NoBands);
    }
    if bands.Length1 > 0 {
      forall k | 0 <= k < bands.Length0
        ensures Row(bands, k) == ScaleBand(old(Row(bands, k)))
      {
        ScaleBandBounded(old(Row(bands, k)));
        RowMatches(bands, k, ScaleBand(old(Row(bands, k))));
      }
    }
    r := Success(count);
  }
}
