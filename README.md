# safe-atlas imagery helpers, modelled in Dafny

`imagery_helper.py` is a set of helpers around rasterio for satellite GeoTIFF imagery. This
project models the parts of it that carry their own logic, and proves what they do:

- **PostGIS geometry text** (`postgis.dfy`). `bbox_to_corners` turns `BOX(x1 y1,x2 y2)` into
  `[x1, y1, x2, y2]`, and `point_to_lng_lat` turns `POINT(x y)` into `[x, y]`. Both parse the
  same ad hoc way. They keep the text after the last `(`, remove every `)`, strip it, split on
  `,` and then on a single space, and check the piece counts. Python's `float()` is the
  abstract partial function `num: string -> Option<real>`: a token it rejects is the
  `NotANumber` error. `bbox_to_corners` collects its points in a loop, so it is the method
  `BboxToCorners`. That method is proved equal to the loop-free function `ParseBox`, and the
  lemmas speak about `ParseBox`.
- **Python string operations** (`text.dfy`). These are `split` on one character,
  `split(c)[-1]`, `replace(c, '')` and `strip()`. `strip()` removes exactly the characters
  for which `str.isspace` holds.
- **GeoJSON documents** (`geojson.dfy`). `bbox_to_GeoJSON` and `point_to_GeoJSON` build a
  FeatureCollection in memory. It has a named CRS (`urn:ogc:def:crs:EPSG::<code>`) and one
  Polygon or Point feature. The box ring is closed and has five positions, as section
  3.1.6 of RFC 7946 asks of a linear ring. It runs counterclockwise, as the right-hand rule
  of that section asks of an exterior ring, only when the box is written lower-left corner
  first (or upper-right first on both axes). The point's coordinates keep the code's nesting, `[[lng, lat]]`.
- **Geographic position to pixel** (`pixel.dfy`). `convert_lng_lat_to_pixel` checks the
  bounds, scales from the top-right corner and truncates toward zero, as Python's `int()`
  does.
- **Rescaling to 8 bits** (`rescale.dfy`). This covers the inner `scale` rule of `to_uint8`
  and the loop that overwrites each band in place. The raster is an `array2<nat>`: band ×
  (pixels, row after row). `np.round` is rounding half to even. `astype(np.uint8)` is the
  value modulo 256.
- **CRS-code gate** (`crs.dfy`). The CRS code is the last `:`-separated segment of the CRS
  string. `pixel_in_m` gives a size only for code `4326`, and `crop` raises when the code
  differs from `bbox_crs`.

`wrappers.dfy` holds the `Option` and `Result` types.

Points of the code the model keeps as written:

- `to_uint8` takes `min` and `max` parameters but ignores both. It always divides by
  `10000.0` (imagery_helper.py:201, 214). The model has the constant `Rescale.Divisor`.
- `int()` truncates the pixel index toward zero (imagery_helper.py:434-435). The model
  truncates too.
- `float()` raises `ValueError` on a token that is not a number, and `lat` is converted
  before `lng` (imagery_helper.py:283-284, 324-325). The model returns `NotANumber` for the
  first rejected token in that order.
- Bounds with zero extent on an axis raise `ZeroDivisionError` at imagery_helper.py:428-429.
  The extent is `width_in_projected_units` or `height_in_projected_units` (lines 424-425),
  not the pixel count: a raster of zero pixels across gives `xres = 0.0` and no error. The
  model returns the `ZeroDivision` error there and does not restrict the caller.
- Samples are unsigned (`nat`). This is an assumption of the model: `satdata.read()`
  (imagery_helper.py:210) returns the raster's native dtype, which may be signed or
  floating point.

## Model

| member | source | states |
|---|---|---|
| Text.IsSpace | imagery_helper.py:262 | the characters `str.strip()` removes: those for which `str.isspace` holds |
| Text.Count | imagery_helper.py:265 | the number of occurrences of a character; the piece count of a split is one more (`Text.Split`) |
| Text.Split | imagery_helper.py:265 | `str.split(sep)` gives one piece more than there are separators |
| Text.SplitPiecesFree | imagery_helper.py:265 | no piece of a split contains the separator |
| Text.Join | imagery_helper.py:265 | the pieces joined with the separator, the inverse of `Split` (`Text.JoinSplit`, `Text.SplitJoin`) |
| Text.JoinSplit | imagery_helper.py:265 | joining the pieces of a split with the separator gives back the text |
| Text.SplitJoin | imagery_helper.py:275 | splitting the join of separator-free pieces gives back those pieces |
| Text.SplitCons | imagery_helper.py:275 | a separator-free prefix followed by the separator is split off as the first piece |
| Text.SplitNoSep | imagery_helper.py:275 | a text without the separator splits into itself alone |
| Text.CountAbsent | imagery_helper.py:265 | a character is counted zero times exactly when it does not occur |
| Text.AfterLast | imagery_helper.py:260 | `split(sep)[-1]` holds no separator |
| Text.AfterLastAppend | imagery_helper.py:260 | whatever precedes a separator does not affect `split(sep)[-1]` |
| Text.AfterLastOf | imagery_helper.py:260 | for `a + sep + b` with `b` separator-free, `split(sep)[-1]` is `b` |
| Text.AfterLastNoSep | imagery_helper.py:311 | a text without the separator is its own last piece |
| Text.RemoveAll | imagery_helper.py:261 | `replace(c, '')` leaves no `c` and drops exactly the counted occurrences |
| Text.RemoveAllConcat | imagery_helper.py:261 | removing a character distributes over concatenation |
| Text.RemoveAllKeepsAbsent | imagery_helper.py:261 | removal adds no characters that were absent |
| Text.RemoveAllAbsent | imagery_helper.py:312 | removing an absent character changes nothing |
| Text.StripLeading | imagery_helper.py:262 | `lstrip()`: drops leading whitespace, never lengthens; characterised by `Text.StripLeadingSpec` |
| Text.StripTrailing | imagery_helper.py:262 | `rstrip()`: drops trailing whitespace, never lengthens; characterised by `Text.StripTrailingSpec` |
| Text.Strip | imagery_helper.py:262 | `strip()`, trailing after leading; characterised by `Text.StripSpec` |
| Text.StripLeadingSpec | imagery_helper.py:262 | leading strip removes a whitespace prefix and leaves a non-whitespace first character |
| Text.StripTrailingSpec | imagery_helper.py:262 | trailing strip removes a whitespace suffix and leaves a non-whitespace last character |
| Text.StripSpec | imagery_helper.py:262 | `strip()` is the slice between a whitespace prefix and a whitespace suffix, with non-whitespace ends |
| Text.StripUnchanged | imagery_helper.py:274 | a text without whitespace at either end is unchanged by `strip()` |
| Text.StripAbsent | imagery_helper.py:262 | stripping adds no characters that were absent |
| PostGis.Inner | imagery_helper.py:260-262 | the text inside the parentheses holds neither `(` nor `)` |
| PostGis.ParseLngLat | imagery_helper.py:275-284 | 'Input point is invalid' exactly when the point has other than one space; every other error is a rejected number token |
| PostGis.ParseBox | imagery_helper.py:251-299 | the result of `bbox_to_corners` without its loop: split the inside on `,`, require two points, parse each, corners first point then second; properties in the `PostGis.Box*` lemmas |
| PostGis.PointToLngLat | imagery_helper.py:302-327 | `point_to_lng_lat`: the pair of the text inside the parentheses; properties in the `PostGis.Point*` lemmas |
| PostGis.BboxToCorners | imagery_helper.py:251-299 | the loop over the points returns exactly what `ParseBox` gives, errors included |
| PostGis.BoxFailsAt | imagery_helper.py:270-284 | (helper) the first of the two points that fails to parse decides the error |
| PostGis.PairTokens | imagery_helper.py:274-282 | (helper) `a b` from number tokens survives `strip` and splits into `a` and `b` |
| PostGis.PairRoundTrip | imagery_helper.py:274-287 | a `lng lat` pair of number tokens parses to `(num(lng), num(lat))` |
| PostGis.InnerOfParenthesized | imagery_helper.py:260-262 | the text inside `NAME(...)` is recovered when it has no paren and no edge whitespace |
| PostGis.BoxRoundTrip | imagery_helper.py:294-299 | parsing `BOX(a b,c d)` gives `[a, b, c, d]` in order |
| PostGis.BoxPieces | imagery_helper.py:265 | (helper) the inside of `BOX(a b,c d)` splits on `,` into its two pairs |
| PostGis.BoxOfPairs | imagery_helper.py:270-299 | (helper) two pairs that parse give the corners first pair then second pair |
| PostGis.BoxOfFailingFirst | imagery_helper.py:271-284 | a first pair that fails makes the whole box fail with its error |
| PostGis.BoxKeepsWrittenOrder | imagery_helper.py:294-299 | no min/max normalisation: a larger first x stays `MIN_X` |
| PostGis.BoxInvalidIff | imagery_helper.py:265-267 | 'Input bounding box is invalid' exactly when the inside has other than one comma |
| PostGis.BoxAfterProcessingUnreachable | imagery_helper.py:290-291 | 'Invalid bbox after processing' is never raised |
| PostGis.BoxDoubleSpaceRejected | imagery_helper.py:275-277 | two spaces between the numbers of a box point raise 'Input point is invalid' |
| PostGis.DoubleSpacePairRejected | imagery_helper.py:275-277 | a pair with two spaces splits into three tokens and is rejected |
| PostGis.PointRoundTrip | imagery_helper.py:302-327 | parsing `POINT(a b)` gives `[a, b]` |
| PostGis.PointInvalidIff | imagery_helper.py:316-318 | 'Input point is invalid' exactly when the inside has other than one space |
| PostGis.PointWithoutParenthesis | imagery_helper.py:311-315 | without `(` the whole text, with `)` removed and stripped, is the pair |
| PostGis.PointLatitudeParsedFirst | imagery_helper.py:324-325 | with both tokens rejected, the error names the latitude token |
| GeoJson.EpsgCrs | imagery_helper.py:344 | the named CRS `urn:ogc:def:crs:EPSG::<code>` (also line 388) |
| GeoJson.BoxCollection | imagery_helper.py:339-364 | the collection of the ring through the four corners; shape in `GeoJson.BoxCollectionShape` |
| GeoJson.PointCollection | imagery_helper.py:383-402 | the collection of the nested position `[[lng, lat]]`; shape in `GeoJson.PointCollectionShape` |
| GeoJson.PointToGeoJson | imagery_helper.py:374-409 | `point_to_GeoJSON`: the errors of `point_to_lng_lat`, else the point collection; `GeoJson.PointGeoJsonRoundTrip` |
| GeoJson.BboxToGeoJson | imagery_helper.py:330-371 | the errors of `bbox_to_corners` pass through; otherwise the collection built from its corners |
| GeoJson.BoxCollectionShape | imagery_helper.py:339-364 | one Polygon feature with one closed ring of five positions, starting at the first corner and going along the bottom edge first, axis-aligned edges, visiting exactly the four corners, corners recoverable, EPSG URN as CRS name |
| GeoJson.BoxRingWinding | imagery_helper.py:354-358 | the ring's signed area (shoelace) is `2 * (maxX - minX) * (maxY - minY)`, so it is counterclockwise exactly when both axes are in the same order, lower-left first or upper-right first |
| GeoJson.ProductPositiveIff | imagery_helper.py:354-358 | (helper) a product is positive exactly when both factors have the same strict sign |
| GeoJson.PointCollectionShape | imagery_helper.py:383-402 | one Point feature whose coordinates are the single nested position `[[lng, lat]]`, EPSG URN as CRS name |
| GeoJson.BoxGeoJsonRoundTrip | imagery_helper.py:336-360 | the ring built from `BOX(a b,c d)` gives back the corners `[a, b, c, d]` |
| GeoJson.PointGeoJsonRoundTrip | imagery_helper.py:380-398 | the point built from `POINT(a b)` has the position `[a, b]` |
| PixelMapping.LngLatToPixel | imagery_helper.py:412-437 | `convert_lng_lat_to_pixel`: bounds check, then the truncated scaled offsets from the top-right corner; properties in the `PixelMapping` lemmas |
| PixelMapping.Trunc | imagery_helper.py:434-435 | `int()` drops the fraction toward zero and keeps the sign |
| PixelMapping.OutsideBoundsIff | imagery_helper.py:418-421 | 'Invalid lat/lng' exactly for a position outside the closed bounds |
| PixelMapping.ZeroDivisionIff | imagery_helper.py:424-429 | division by zero exactly for an inside position of bounds with no extent on an axis |
| PixelMapping.ScaledWithin | imagery_helper.py:428-431 | (helper) the scaled offset lies between 0 and the pixel count, reaching it only at the far edge |
| PixelMapping.ScaledMonotone | imagery_helper.py:430-431 | (helper) a larger offset never scales to less |
| PixelMapping.AxisInRange | imagery_helper.py:428-435 | one axis lands in `0..n`, on the unit span holding the scaled offset, and is `n` exactly at the edge |
| PixelMapping.PixelAxes | imagery_helper.py:423-437 | (helper) inside spanning bounds, the pixel is the two truncated scaled offsets |
| PixelMapping.PixelInRange | imagery_helper.py:418-437 | inside spanning bounds: `0 <= x <= width`, `0 <= y <= height`, each on its unit span; the left edge gives `width`, the bottom edge `height` |
| PixelMapping.TopRightIsOrigin | imagery_helper.py:430-437 | the top-right corner maps to `(0, 0)` |
| PixelMapping.ColumnGrowsWestward | imagery_helper.py:430-434 | moving east never increases `x` |
| Rescale.RoundHalfEven | imagery_helper.py:214 | `np.round` lies within half of its argument and breaks ties to even |
| Rescale.ScaleSample | imagery_helper.py:214-215 | a rescaled sample is at most 255 |
| Rescale.Max | imagery_helper.py:213 | `np.max` is a sample of the band and no sample exceeds it |
| Rescale.ToByte | imagery_helper.py:220 | `astype(np.uint8)` on a non-negative integer: the value modulo 256 (`Rescale.ByteIdentity`) |
| Rescale.ScaleBand | imagery_helper.py:212-216 | the inner `scale(band)`; properties in `Rescale.ScaleBandBounded`, `Rescale.ScaleBandUnchangedIff` |
| Rescale.ScaleBandBounded | imagery_helper.py:212-216 | `scale` keeps the length and bounds every sample by 255, sample by sample when rescaled |
| Rescale.ScaleBandUnchangedIff | imagery_helper.py:213-216 | `scale` leaves a band unchanged exactly when its maximum is at most 255 |
| Rescale.ScaleBandFitsByte | imagery_helper.py:220 | `astype(np.uint8)` loses nothing on a scaled band |
| Rescale.ScaleSampleSaturatesIff | imagery_helper.py:214-215 | a rescaled sample comes out as 255 exactly when it is at least 9981; from 9981 to 10019 rounding alone gives 255 |
| Rescale.ClipFiresIff | imagery_helper.py:215 | the clip `band[band > 255] = 255` changes a rounded sample exactly when the sample is at least 10020 |
| Rescale.RoundHalfEvenMonotone | imagery_helper.py:214 | rounding keeps order |
| Rescale.ScaleSampleMonotone | imagery_helper.py:214-215 | rescaling keeps the order of brightness |
| Rescale.BrightBandSaturates | imagery_helper.py:212-216 | a band reaching 9981 has a sample at 255 after `scale` |
| Rescale.SampleWritten | imagery_helper.py:219-220 | (helper) the value written for a sample is that sample of the scaled band |
| Rescale.ByteIdentity | imagery_helper.py:220 | (helper) values up to 255 survive the 8-bit cast |
| Rescale.RowMatches | imagery_helper.py:219-220 | (helper) a band equals a sequence it agrees with sample by sample |
| Rescale.MaxStep | imagery_helper.py:213 | (helper) the maximum of a one-longer prefix is the larger of the old maximum and the new sample |
| Rescale.BandMax | imagery_helper.py:213 | the loop computes `np.max` of the band |
| Rescale.ScaleBandInPlace | imagery_helper.py:212-220 | band `i` becomes `scale` of its old samples; no other band changes |
| Rescale.ToUint8 | imagery_helper.py:201-226 | every band becomes `scale` of itself, in order; the returned count is the number of bands; an empty band or no band at all is the error `np.max` or `np.dstack` raises |
| CrsGate.CrsCode | imagery_helper.py:67-68 | the CRS code holds no `:` |
| CrsGate.CrsCodeOfAuthority | imagery_helper.py:67-68 | the code of `AUTHORITY:code` is `code` |
| CrsGate.CrsCodeWithoutColon | imagery_helper.py:67-68 | a CRS string without `:` is its own code |
| CrsGate.PixelInM | imagery_helper.py:61-93 | `pixel_in_m` with the size estimate as a parameter; `CrsGate.PixelInMGate` |
| CrsGate.PixelInMGate | imagery_helper.py:70-93 | `pixel_in_m` gives a size exactly for code `4326`, and then the estimate unchanged |
| CrsGate.PixelInMForAuthority | imagery_helper.py:67-93 | a raster in `AUTHORITY:4326` gets a size; any other code gives `None` |
| CrsGate.CropCrsCheck | imagery_helper.py:460-465 | the CRS check at the head of `crop`; `CrsGate.CropCrsCheckIff` |
| CrsGate.CropCrsCheckIff | imagery_helper.py:460-465 | `crop` raises exactly when the code differs from `bbox_crs`, naming both |
| CrsGate.CropRejectsQualifiedBboxCrs | imagery_helper.py:460-465 | a `bbox_crs` with an authority, such as `EPSG:4326`, never matches |
| CrsGate.CropAcceptsMatchingCode | imagery_helper.py:460-465 | imagery in `AUTHORITY:code` passes against the bare `code` |

## Left out

- `distance_in_m` and the numeric body of `pixel_in_m` (imagery_helper.py:42-58, 72-91) are
  floating-point trigonometry with rounding to two decimals. `PixelInM` takes the size they
  would compute as a parameter.
- `load`, `show`, `info`, `compress`, `reproject` and the masking and writing part of `crop`
  are rasterio file I/O, matplotlib display, printing and library reprojection.
- `pixel_pos_to_lng_lat` is one call into rasterio's affine transform, which is not part of
  this model.
- The optional `json.dump` writes of the GeoJSON builders and the raster write at the end of
  `to_uint8` (imagery_helper.py:246-248) are file I/O. The `dtype` and `count` metadata
  update is reduced to the returned band count.
- `np.moveaxis` and the `dstack` reshaping of `to_uint8` only change the array layout. The
  model keeps the bands as the rows of one array.
- Python's `float()` is abstract. Its accepted syntax and its rounding to the nearest double
  are not modelled. `num` returns a real or nothing, so it cannot return the `inf` or `nan`
  that `float()` gives for tokens such as `inf` and `nan` (imagery_helper.py:283-284,
  324-325). A text such as `BOX(inf 0,1 1)`, which the code parses, has no faithful result
  in the model.
- Rescale.RoundHalfEven, Rescale.ScaleSample: compute with exact rationals. Floating-point
  division by 10000 can land on the other side of a rounding tie.
- PixelMapping.LngLatToPixel: computes with exact reals, not doubles. The index of a
  position on a pixel boundary can differ by one from the floating-point result. A NaN
  `lng` or `lat` passes the comparisons at imagery_helper.py:418-421 and then makes `int()`
  raise at line 434. The model has no NaN, so it does not capture that path.
- Rescale.ToUint8: the model assumes unsigned integer samples. `satdata.read()` returns the
  raster's native dtype, so signed or floating-point rasters, and the wrap-around of their
  samples under `astype(np.uint8)`, are not covered.
- CrsGate.CropCrsCheck: models only a `str` value of `bbox_crs`. In Python, `crs != bbox_crs`
  is true for any non-`str` value, so `crop(..., bbox_crs=4326)` with an int always raises
  (imagery_helper.py:464-465). The f-strings at lines 344 and 388 would accept an int.
- `2-compress_imageFacu.py` is a one-shot script with hard-coded paths. It calls a helper
  that `imagery_helper.py` does not define, so it has no logic to model.
