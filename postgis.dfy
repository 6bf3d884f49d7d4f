/**
  Parsing of the PostGIS geometry text that `bbox_to_corners` and `point_to_lng_lat`
  receive: `BOX(x1 y1,x2 y2)` and `POINT(x y)`. The parsers do not follow a grammar; they
  keep the text after the last `(`, drop every `)`, strip, and split on `,` and on a single
  space, checking the piece counts. Python's `float()` is the abstract partial function `num`.
 */
module PostGis {
  import opened Wrappers
  import opened Text

  /** A coordinate pair in `[lng, lat]` order. */
  datatype Position = Position(lng: real, lat: real)

  /** The list `[MIN_X, MIN_Y, MAX_X, MAX_Y]` returned by `bbox_to_corners`. */
  datatype Corners = Corners(minX: real, minY: real, maxX: real, maxY: real)

  /** The exceptions the two parsers raise. */
  datatype GeometryError =
    | InvalidBox                 // 'Input bounding box is invalid'
    | InvalidPoint               // 'Input point is invalid'
    | NotANumber(token: string)  // the ValueError of float(token)
    | InvalidBoxAfterProcessing  // 'Invalid bbox after processing'

  /** Python's `float()` on a token: a number, or `None` where it raises. */
  type NumParser = string -> Option<real>

  /** The text between the parentheses: after the last `(`, every `)` removed, stripped. */
  function Inner(text: string): (inner: string)
    ensures '(' !in inner && ')' !in inner
  {
    var tail := AfterLast(text, '(');
    var closed := RemoveAll(tail, ')');
    RemoveAllKeepsAbsent(tail, ')', '(');
    StripAbsent(closed, '(');
    StripAbsent(closed, ')');
    Strip(closed)
  }

  /** One `lng lat` pair: split on a single space, strip both tokens, parse `lat` then `lng`. */
  function ParseLngLat(point: string, num: NumParser): (r: Result<Position, GeometryError>)
    ensures r == Failure(InvalidPoint) <==> Count(point, ' ') != 1
    ensures r.Failure? ==> r.error == InvalidPoint || r.error.NotANumber?
  {
    var lngLat := Split(point, ' ');
    if |lngLat| != 2 then Failure(InvalidPoint)
    else
      var lng, lat := Strip(lngLat[0]), Strip(lngLat[1]);
      match num(lat)
      case None => Failure(NotANumber(lat))
      case Some(y) =>
        match num(lng)
        case None => Failure(NotANumber(lng))
        case Some(x) => Success(Position(x, y))
  }

  /** `point_to_lng_lat`. */
  function PointToLngLat(text: string, num: NumParser): Result<Position, GeometryError> {
    ParseLngLat(Inner(text), num)
  }

  /** What `bbox_to_corners` computes, stated without its loop. */
  function ParseBox(text: string, num: NumParser): Result<Corners, GeometryError> {
    var points := Split(Inner(text), ',');
    if |points| != 2 then Failure(InvalidBox)
    else
      match ParseLngLat(Strip(points[0]), num)
      case Failure(e) => Failure(e)
      case Success(p) =>
        match ParseLngLat(Strip(points[1]), num)
        case Failure(e) => Failure(e)
        case Success(q) => Success(Corners(p.lng, p.lat, q.lng, q.lat))
  }

  /** The box parse fails with the error of the first of its two points that does not parse. */
  lemma BoxFailsAt(text: string, num: NumParser, i: nat, e: GeometryError)
    requires |Split(Inner(text), ',')| == 2 && i < 2
    requires forall k :: 0 <= k < i ==> ParseLngLat(Strip(Split(Inner(text), ',')[k]), num).Success?
    requires ParseLngLat(Strip(Split(Inner(text), ',')[i]), num) == Failure(e)
    ensures ParseBox(text, num) == Failure(e)
  {
    var points := Split(Inner(text), ',');
    if i == 1 {
      assert ParseLngLat(Strip(points[0]), num).Success?;
    }
  }

  /** `bbox_to_corners`: the loop over the two points that collects `clean_pts`. */
  method BboxToCorners(text: string, num: NumParser) returns (r: Result<Corners, GeometryError>)
    ensures r == ParseBox(text, num)
  {
    var geometry := AfterLast(text, '(');
    geometry := RemoveAll(geometry, ')');
    geometry := Strip(geometry);
    var points := Split(geometry, ',');
    assert points == Split(Inner(text), ',');
    if |points| != 2 {
      return Failure(InvalidBox);
    }
    var cleanPts: seq<Position> := [];
    var i := 0;
    while i < |points|
      invariant 0 <= i <= |points|
      invariant |cleanPts| == i
      invariant forall k :: 0 <= k < i ==> ParseLngLat(Strip(points[k]), num) == Success(cleanPts[k])
    {
      var point := Strip(points[i]);
      var lngLat := Split(point, ' ');
      if |lngLat| != 2 {
        BoxFailsAt(text, num, i, InvalidPoint);
        return Failure(InvalidPoint);
      }
      var lng, lat := Strip(lngLat[0]), Strip(lngLat[1]);
      var y := num(lat);
      if y.None? {
        BoxFailsAt(text, num, i, NotANumber(lat));
        return Failure(NotANumber(lat));
      }
      var x := num(lng);
      if x.None? {
        BoxFailsAt(text, num, i, NotANumber(lng));
        return Failure(NotANumber(lng));
      }
      cleanPts := cleanPts + [Position(x.value, y.value)];
      i := i + 1;
    }
    if |cleanPts| != 2 {
      // the loop has run once per point, and there are two
      assert false;
      return Failure(InvalidBoxAfterProcessing);
    }
    r := Success(Corners(cleanPts[0].lng, cleanPts[0].lat, cleanPts[1].lng, cleanPts[1].lat));
  }

  /** A number as PostGIS prints it: no whitespace and none of `(`, `)` and `,`. */
  predicate IsNumberToken(t: string) {
    |t| > 0 && forall k :: 0 <= k < |t| ==> !IsSpace(t[k]) && t[k] != '(' && t[k] != ')' && t[k] != ','
  }

  /** The text PostGIS gives for a BOX2D. */
  function FormatBox(x1: string, y1: string, x2: string, y2: string): string {
    "BOX(" + x1 + " " + y1 + "," + x2 + " " + y2 + ")"
  }

  /** The text PostGIS gives for a point. */
  function FormatPoint(x: string, y: string): string {
    "POINT(" + x + " " + y + ")"
  }

  /** A `lng lat` pair of number tokens passes through `strip` and parses back. */
  lemma PairRoundTrip(a: string, b: string, num: NumParser)
    requires IsNumberToken(a) && IsNumberToken(b)
    requires num(a).Some? && num(b).Some?
    ensures Strip(a + " " + b) == a + " " + b
    ensures ParseLngLat(a + " " + b, num) == Success(Position(num(a).value, num(b).value))
  {
    PairTokens(a, b);
  }

  /** `a b` from two number tokens splits on its space into `a` and `b`, and stripping changes none of them. */
  lemma PairTokens(a: string, b: string)
    requires IsNumberToken(a) && IsNumberToken(b)
    ensures Strip(a + " " + b) == a + " " + b
    ensures Split(a + " " + b, ' ') == [a, b]
    ensures Strip(a) == a && Strip(b) == b
  {
    var pair := a + [' '] + b;
    assert pair[0] == a[0] && pair[|pair| - 1] == b[|b| - 1];
    StripUnchanged(pair);
    assert ' ' !in a && ' ' !in b by {
      assert IsSpace(' ');
    }
    SplitCons(a, b, ' ');
    SplitNoSep(b, ' ');
    StripUnchanged(a);
    StripUnchanged(b);
  }

  /** The text between the parentheses of a `NAME(...)` text whose inside has no paren and no edge whitespace. */
  lemma InnerOfParenthesized(name: string, inner: string)
    requires '(' !in inner && ')' !in inner
    requires |inner| == 0 || (!IsSpace(inner[0]) && !IsSpace(inner[|inner| - 1]))
    ensures Inner(name + "(" + inner + ")") == inner
  {
    var text := name + "(" + inner + ")";
    var tail := inner + [')'];
    assert text == name + ['('] + tail;
    assert '(' !in tail;
    AfterLastOf(name, '(', tail);
    assert AfterLast(text, '(') == tail;
    RemoveAllConcat(inner, [')'], ')');
    RemoveAllAbsent(inner, ')');
    assert RemoveAll([')'], ')') == [];
    assert RemoveAll(tail, ')') == inner;
    StripUnchanged(inner);
  }

  /** Formatting `BOX(a b,c d)` from number tokens and parsing it gives `[a, b, c, d]`, in that order. */
  lemma BoxRoundTrip(a: string, b: string, c: string, d: string, num: NumParser)
    requires IsNumberToken(a) && IsNumberToken(b) && IsNumberToken(c) && IsNumberToken(d)
    requires num(a).Some? && num(b).Some? && num(c).Some? && num(d).Some?
    ensures ParseBox(FormatBox(a, b, c, d), num)
         == Success(Corners(num(a).value, num(b).value, num(c).value, num(d).value))
  {
    BoxPieces(a, " ", b, c, d);
    PairRoundTrip(a, b, num);
    PairRoundTrip(c, d, num);
    BoxOfPairs(FormatBox(a, b, c, d), a + " " + b, c + " " + d, num,
      Position(num(a).value, num(b).value), Position(num(c).value, num(d).value));
  }

  /** The two comma-separated pieces of `BOX(a<gap>b,c d)`. */
  lemma BoxPieces(a: string, gap: string, b: string, c: string, d: string)
    requires IsNumberToken(a) && IsNumberToken(b) && IsNumberToken(c) && IsNumberToken(d)
    requires gap == " " || gap == "  "
    ensures Split(Inner("BOX(" + a + gap + b + "," + c + " " + d + ")"), ',') == [a + gap + b, c + " " + d]
  {
    var first, second := a + gap + b, c + [' '] + d;
    var inner := first + [','] + second;
    assert Inner("BOX(" + a + gap + b + "," + c + " " + d + ")") == inner by {
      assert "BOX(" + a + gap + b + "," + c + " " + d + ")" == "BOX" + "(" + inner + ")";
      assert inner[0] == a[0] && inner[|inner| - 1] == d[|d| - 1];
      InnerOfParenthesized("BOX", inner);
    }
    assert ',' !in first && ',' !in second;
    SplitCons(first, second, ',');
    SplitNoSep(second, ',');
  }

  /** `ParseBox` on a text whose inside splits into two pieces that each parse as a pair. */
  lemma BoxOfPairs(text: string, first: string, second: string, num: NumParser, p: Position, q: Position)
    requires Split(Inner(text), ',') == [first, second]
    requires ParseLngLat(Strip(first), num) == Success(p)
    requires ParseLngLat(Strip(second), num) == Success(q)
    ensures ParseBox(text, num) == Success(Corners(p.lng, p.lat, q.lng, q.lat))
  {
  }

  /** `ParseBox` on a text whose first piece fails to parse: the first piece's error. */
  lemma BoxOfFailingFirst(text: string, first: string, second: string, num: NumParser)
    requires Split(Inner(text), ',') == [first, second]
    requires ParseLngLat(Strip(first), num).Failure?
    ensures ParseBox(text, num) == Failure(ParseLngLat(Strip(first), num).error)
  {
  }

  /** No min/max normalisation: a box written with its larger x first keeps it first. */
  lemma BoxKeepsWrittenOrder(a: string, b: string, c: string, d: string, num: NumParser)
    requires IsNumberToken(a) && IsNumberToken(b) && IsNumberToken(c) && IsNumberToken(d)
    requires num(a).Some? && num(b).Some? && num(c).Some? && num(d).Some?
    requires num(a).value > num(c).value
    ensures ParseBox(FormatBox(a, b, c, d), num).Success?
    ensures ParseBox(FormatBox(a, b, c, d), num).value.minX > ParseBox(FormatBox(a, b, c, d), num).value.maxX
  {
    BoxRoundTrip(a, b, c, d, num);
  }

  /** 'Input bounding box is invalid' is raised exactly when the inner text has no single comma. */
  lemma BoxInvalidIff(text: string, num: NumParser)
    ensures ParseBox(text, num) == Failure(InvalidBox) <==> Count(Inner(text), ',') != 1
  {
  }

  /** The re-check of `clean_pts` never fires. */
  lemma BoxAfterProcessingUnreachable(text: string, num: NumParser)
    ensures ParseBox(text, num) != Failure(InvalidBoxAfterProcessing)
  {
  }

  /** Two spaces between the numbers of a point make the split yield three tokens: the box is rejected. */
  lemma BoxDoubleSpaceRejected(a: string, b: string, c: string, d: string, num: NumParser)
    requires IsNumberToken(a) && IsNumberToken(b) && IsNumberToken(c) && IsNumberToken(d)
    ensures ParseBox("BOX(" + a + "  " + b + "," + c + " " + d + ")", num) == Failure(InvalidPoint)
  {
    BoxPieces(a, "  ", b, c, d);
    DoubleSpacePairRejected(a, b, num);
    BoxOfFailingFirst("BOX(" + a + "  " + b + "," + c + " " + d + ")", a + "  " + b, c + " " + d, num);
  }

  /** A pair written with two spaces splits into three tokens and is rejected. */
  lemma DoubleSpacePairRejected(a: string, b: string, num: NumParser)
    requires IsNumberToken(a) && IsNumberToken(b)
    ensures ParseLngLat(Strip(a + "  " + b), num) == Failure(InvalidPoint)
  {
    var pair := a + "  " + b;
    assert Strip(pair) == pair by {
      assert pair[0] == a[0] && pair[|pair| - 1] == b[|b| - 1];
      StripUnchanged(pair);
    }
    assert |Split(pair, ' ')| == 3 by {
      assert ' ' !in a && ' ' !in b by {
        assert IsSpace(' ');
      }
      assert pair == a + [' '] + ([' '] + b);
      SplitCons(a, [' '] + b, ' ');
      SplitCons([], b, ' ');
      SplitNoSep(b, ' ');
      assert [] + [' '] + b == [' '] + b;
    }
  }

  /** Formatting `POINT(a b)` from number tokens and parsing it gives `[a, b]`. */
  lemma PointRoundTrip(a: string, b: string, num: NumParser)
    requires IsNumberToken(a) && IsNumberToken(b)
    requires num(a).Some? && num(b).Some?
    ensures PointToLngLat(FormatPoint(a, b), num) == Success(Position(num(a).value, num(b).value))
  {
    var inner := a + " " + b;
    assert FormatPoint(a, b) == "POINT" + "(" + inner + ")";
    assert inner[0] == a[0] && inner[|inner| - 1] == b[|b| - 1];
    InnerOfParenthesized("POINT", inner);
    PairRoundTrip(a, b, num);
  }

  /** 'Input point is invalid' is raised exactly when the inner text has no single space. */
  lemma PointInvalidIff(text: string, num: NumParser)
    ensures PointToLngLat(text, num) == Failure(InvalidPoint) <==> Count(Inner(text), ' ') != 1
  {
  }

  /** Without a `(` the whole text, with `)` removed and stripped, is taken as the pair. */
  lemma PointWithoutParenthesis(text: string, num: NumParser)
    requires '(' !in text
    ensures PointToLngLat(text, num) == ParseLngLat(Strip(RemoveAll(text, ')')), num)
  {
    AfterLastNoSep(text, '(');
  }

  /** `float(lat)` runs before `float(lng)`: with two bad tokens the error names the latitude. */
  lemma PointLatitudeParsedFirst(a: string, b: string, num: NumParser)
    requires IsNumberToken(a) && IsNumberToken(b)
    requires num(a).None? && num(b).None?
    ensures PointToLngLat(FormatPoint(a, b), num) == Failure(NotANumber(b))
  {
    var inner := a + " " + b;
    assert FormatPoint(a, b) == "POINT" + "(" + inner + ")";
    assert inner[0] == a[0] && inner[|inner| - 1] == b[|b| - 1];
    InnerOfParenthesized("POINT", inner);
    PairTokens(a, b);
  }
}
