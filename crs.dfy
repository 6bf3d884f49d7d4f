/**
  The CRS-code gate of `pixel_in_m` and `crop`: the code is the last `:`-separated segment
  of the CRS string (`"EPSG:4326"` gives `"4326"`).
 */
module CrsGate {
  import opened Wrappers
  import opened Text

  /** `str(crs).split(':')[-1]`. */
  function CrsCode(crs: string): (code: string)
    ensures ':' !in code
  {
    AfterLast(crs, ':')
  }

  /** The pixel size `[xres, yres]` in metres, as `pixel_in_m` would compute it from the bounds. */
  datatype PixelSize = PixelSize(xres: real, yres: real)

  /** `pixel_in_m`: the size from the haversine estimate `size` for an EPSG:4326 raster, else `None`. */
  function PixelInM(crs: string, size: PixelSize): Option<PixelSize> {
    if CrsCode(crs) == "4326" then Some(size) else None
  }

  /** The exception `crop` raises before touching the imagery. */
  datatype CropError = CrsMismatch(imagery: string, bbox: string)

  /** The check at the head of `crop`: `None` when it passes, else the mismatch it reports. */
  function CropCrsCheck(crs: string, bboxCrs: string): Option<CropError> {
    var code := CrsCode(crs);
    if code != bboxCrs then Some(CrsMismatch(code, bboxCrs)) else None
  }

  /** The code of `AUTHORITY:code` is `code`. */
  lemma CrsCodeOfAuthority(authority: string, code: string)
    requires ':' !in code
    ensures CrsCode(authority + ":" + code) == code
  {
    AfterLastOf(authority, ':', code);
  }

  /** A CRS string without `:` is its own code. */
  lemma CrsCodeWithoutColon(crs: string)
    requires ':' !in crs
    ensures CrsCode(crs) == crs
  {
    AfterLastNoSep(crs, ':');
  }

  /** `pixel_in_m` gives a size exactly when the code is `4326`, and then the estimate unchanged. */
  lemma PixelInMGate(crs: string, size: PixelSize)
    ensures PixelInM(crs, size).Some? <==> CrsCode(crs) == "4326"
    ensures PixelInM(crs, size).Some? ==> PixelInM(crs, size).value == size
  {
  }

  /** A raster in `AUTHORITY:4326` gets a pixel size; one in `AUTHORITY:code` for any other code does not. */
  lemma PixelInMForAuthority(authority: string, code: string, size: PixelSize)
    requires ':' !in code
    ensures PixelInM(authority + ":" + code, size) == if code == "4326" then Some(size) else None
  {
    CrsCodeOfAuthority(authority, code);
  }

  /** `crop` raises exactly when the imagery's code differs from `bbox_crs`, naming both. */
  lemma CropCrsCheckIff(crs: string, bboxCrs: string)
    ensures CropCrsCheck(crs, bboxCrs).None? <==> CrsCode(crs) == bboxCrs
    ensures CropCrsCheck(crs, bboxCrs).Some? ==>
      CropCrsCheck(crs, bboxCrs).value == CrsMismatch(CrsCode(crs), bboxCrs)
  {
  }

  /** A `bbox_crs` written with its authority, such as `EPSG:4326`, never matches. */
  lemma CropRejectsQualifiedBboxCrs(crs: string, bboxCrs: string)
    requires ':' in bboxCrs
    ensures CropCrsCheck(crs, bboxCrs).Some?
  {
  }

  /** Imagery in `AUTHORITY:code` passes against the bare `code`. */
  lemma CropAcceptsMatchingCode(authority: string, code: string)
    requires ':' !in code
    ensures CropCrsCheck(authority + ":" + code, code) == None
  {
    CrsCodeOfAuthority(authority, code);
  }
}
