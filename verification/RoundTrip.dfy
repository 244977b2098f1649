// What an encoded image shows once decoded and painted: exactly its opaque pixels, if and only if
// its border is clear in the sense the encoder's bookkeeping relies on.
module RoundTrip {
  import opened Wrappers
  import opened Hex
  import opened RunLength
  import opened ImageFormat
  import opened Svg

  // The colour an image wants at a cell; None where it is transparent or not there at all.
  function Wanted(plane: Plane, palette: seq<string>, x: nat, y: nat): Option<string> {
    if y < |plane| && x < |plane[y]| && plane[y][x] != 0 then Some(Fill(palette, plane[y][x])) else None
  }

  ghost predicate RoundTrips(plane: Plane, width: nat, palette: seq<string>)
    requires IsPlane(plane, width)
  {
    var decoded := DecodeImage(Encode(plane, width));
    decoded.Some? && forall x: nat, y: nat ::
      Shown(PaintPart(decoded.value, palette), x, y) == Wanted(plane, palette, x, y)
  }

  // First and last columns transparent; and, unless row 0 is the only row in use, row 0
  // transparent and the last row too, if it is not row 31.
  ghost predicate BorderClear(plane: Plane, width: nat)
    requires IsPlane(plane, width)
  {
    && (forall y :: 0 <= y < |plane| ==> plane[y][0] == 0 && plane[y][width - 1] == 0)
    && ((exists y :: 1 <= y < |plane| && !Blank(plane[y])) ==>
          Blank(plane[0]) && (Blank(plane[|plane| - 1]) || |plane| == 32))
  }

  // Sizes the one-byte fields of the format can hold.
  ghost predicate Fits(plane: Plane, width: nat) {
    && IsPlane(plane, width)
    && width <= 256 && |plane| <= 256
    && forall y, x :: 0 <= y < |plane| && 0 <= x < width ==> plane[y][x] < 256
  }

  // ----- The body: the kept rows' trimmed runs, one row after another

  ghost predicate AllCrop(rows: Plane, b: Bounds, width: nat) {
    forall y :: 0 <= y < |rows| ==> |rows[y]| == width && Crops(Runs(rows[y]), b, width)
  }

  function AllTrimmed(rows: Plane, b: Bounds, width: nat): seq<Rect>
    requires AllCrop(rows, b, width)
  {
    if rows == [] then [] else Trimmed(Runs(rows[0]), b, width) + AllTrimmed(rows[1..], b, width)
  }

  lemma {:induction false} EncodedRowsAreTrimmed(rows: Plane, b: Bounds, width: nat)
    requires AllCrop(rows, b, width)
    ensures EncodedRows(rows, b, width) == HexBytes(ToBytes(Flatten(AllTrimmed(rows, b, width))))
  {
    if rows == [] {
      assert ToBytes([]) == [];
    } else {
      RowBytes(rows[0], b, width);
      hide Trimmed, Runs, Flatten, ToBytes, HexBytes, Crops, EncodedRow;
      var first, rest := Trimmed(Runs(rows[0]), b, width), AllTrimmed(rows[1..], b, width);
      EncodedRowsAreTrimmed(rows[1..], b, width);
      BytesOfBoth(first, rest);
    }
  }

  lemma BytesOfBoth(a: seq<Rect>, b: seq<Rect>)
    ensures HexBytes(ToBytes(Flatten(a + b))) == HexBytes(ToBytes(Flatten(a))) + HexBytes(ToBytes(Flatten(b)))
  {
    hide Flatten, ToBytes, HexBytes;
    FlattenConcat(a, b);
    ToBytesConcat(Flatten(a), Flatten(b));
    HexBytesConcat(ToBytes(Flatten(a)), ToBytes(Flatten(b)));
  }

  lemma RowBytes(row: seq<nat>, b: Bounds, width: nat)
    requires |row| == width && Crops(Runs(row), b, width)
    ensures EncodedRow(Runs(row), b, width) == HexBytes(ToBytes(Flatten(Trimmed(Runs(row), b, width))))
  {
    EmitIsTrimmed(Runs(row), b, width);
  }

  lemma ToBytesConcat(a: seq<int>, b: seq<int>)
    ensures ToBytes(a + b) == ToBytes(a) + ToBytes(b)
  {
  }

  lemma {:induction false} TrimmedFit(rows: Plane, b: Bounds, width: nat)
    requires AllCrop(rows, b, width) && b.right - b.left < 256
    requires forall y, x :: 0 <= y < |rows| && 0 <= x < width ==> rows[y][x] < 256
    ensures forall r <- AllTrimmed(rows, b, width) :: r.length <= b.right - b.left && r.colorIndex < 256
  {
    if rows != [] {
      var first := Trimmed(Runs(rows[0]), b, width);
      CropExact(rows[0], b);
      forall r <- first
        ensures r.length <= b.right - b.left && r.colorIndex < 256
      {
        LengthAtMostTotal(first, r);
        assert r.colorIndex in rows[0];
      }
      forall y, x | 0 <= y < |rows[1..]| && 0 <= x < width
        ensures rows[1..][y][x] < 256
      {
        assert rows[1..][y] == rows[y + 1];
      }
      TrimmedFit(rows[1..], b, width);
    }
  }

  lemma {:induction false} LengthAtMostTotal(rects: seq<Rect>, r: Rect)
    requires r in rects
    ensures r.length <= TotalLength(rects)
  {
    var n := |rects| - 1;
    if r != rects[n] {
      LengthAtMostTotal(rects[..n], r);
    }
  }

  // ----- The header

  lemma DecodeParts(b: Bounds, body: string)
    requires b.top < 256 && b.right < 256 && b.bottom < 256 && b.left < 256
    ensures var decoded := DecodeImage(EncodedBounds(b) + body);
            if ParseRects(body) == None then decoded == None
            else decoded == Some(DecodedImage(0, b, ParseRects(body).value))
  {
    ByteRoundTrip(b.top);
    ByteRoundTrip(b.right);
    ByteRoundTrip(b.bottom);
    ByteRoundTrip(b.left);
    var t, r, m, l := ToPaddedHex(b.top, 2), ToPaddedHex(b.right, 2), ToPaddedHex(b.bottom, 2), ToPaddedHex(b.left, 2);
    SplitHeader(t, r, m, l, body);
    assert DigitValue('0') == Some(0);
    assert "00"[..1] == "0";
    assert ParseHex("00") == Some(0);
  }

  lemma SplitHeader(t: string, r: string, m: string, l: string, body: string)
    requires |t| == 2 && |r| == 2 && |m| == 2 && |l| == 2
    ensures var image := "0x00" + t + r + m + l + body;
            && "0x" <= image
            && var data := image[2..];
            && Substring(data, 0, 2) == "00"
            && Substring(data, 2, 4) == t && Substring(data, 4, 6) == r
            && Substring(data, 6, 8) == m && Substring(data, 8, 10) == l
            && Substring(data, 10, |data| + 10) == body
  {
    var image := "0x00" + t + r + m + l + body;
    assert image[2..] == "00" + t + r + m + l + body;
  }

  // ----- What the kept rows show

  lemma CropPixels(row: seq<nat>, b: Bounds)
    requires Crops(Runs(row), b, |row|)
    ensures b.left <= b.right <= |row| && Expand(Trimmed(Runs(row), b, |row|)) == row[b.left..b.right]
  {
    CropExact(row, b);
    hide Runs, Trimmed, Expand, Flatten, EmitFrom;
  }

  lemma ShowsAt(painted: seq<SvgRect>, pixels: seq<nat>, at: Cursor, palette: seq<string>, x: nat, y: nat)
    requires ShowsRow(painted, pixels, at, palette)
    ensures Shown(painted, x, y) ==
            if y == at.y && at.x <= x < at.x + |pixels| then Wanted([pixels], palette, x - at.x, 0) else None
  {
    hide Shown;
  }

  lemma RowShows(row: seq<nat>, b: Bounds, y0: nat, palette: seq<string>, x: nat, y: nat)
    requires Crops(Runs(row), b, |row|)
    ensures Shown(RowStrokes(Trimmed(Runs(row), b, |row|), Cursor(b.left, y0), palette), x, y) ==
            if y == y0 && b.left <= x < b.right then Wanted([row], palette, x, 0) else None
  {
    hide Trimmed, Runs, Expand, RowStrokes, Shown, Crops, ShowsRow, Wanted;
    var written := Trimmed(Runs(row), b, |row|);
    CropPixels(row, b);
    RowStrokesShow(written, Cursor(b.left, y0), palette);
    ShowsAt(RowStrokes(written, Cursor(b.left, y0), palette), Expand(written), Cursor(b.left, y0), palette, x, y);
    if b.left <= x < b.right {
      SliceWanted(row, b.left, b.right, palette, x);
    }
  }

  lemma SliceWanted(row: seq<nat>, left: nat, right: nat, palette: seq<string>, x: nat)
    requires left <= x < right <= |row|
    ensures Wanted([row], palette, x, 0) == Wanted([row[left..right]], palette, x - left, 0)
  {
  }

  lemma WalkFirstRow(rows: Plane, b: Bounds, width: nat, y0: nat, palette: seq<string>)
    requires AllCrop(rows, b, width) && b.left < b.right && rows != []
    ensures Walk(AllTrimmed(rows, b, width), b, Cursor(b.left, y0), palette)
         == RowStrokes(Trimmed(Runs(rows[0]), b, width), Cursor(b.left, y0), palette)
            + Walk(AllTrimmed(rows[1..], b, width), b, Cursor(b.left, y0 + 1), palette)
  {
    hide Trimmed, Runs, Walk, RowStrokes, Expand;
    var row := Trimmed(Runs(rows[0]), b, width);
    CropExact(rows[0], b);
    ExpandNone();
    WalkRow(row, AllTrimmed(rows[1..], b, width), b, Cursor(b.left, y0), palette);
  }

  lemma WantedShift(rows: Plane, palette: seq<string>, x: nat, y: nat)
    requires rows != []
    ensures Wanted(rows, palette, x, y) == if y == 0 then Wanted([rows[0]], palette, x, 0) else Wanted(rows[1..], palette, x, y - 1)
  {
  }

  // Painting the trimmed rows from row y0 on shows their pixels between the bounds and nothing else.
  lemma {:induction false} RowsShow(rows: Plane, b: Bounds, width: nat, y0: nat, palette: seq<string>, x: nat, y: nat)
    requires AllCrop(rows, b, width) && b.left < b.right
    ensures Shown(Walk(AllTrimmed(rows, b, width), b, Cursor(b.left, y0), palette), x, y) ==
            if y0 <= y < y0 + |rows| && b.left <= x < b.right then Wanted(rows, palette, x, y - y0) else None
  {
    hide Trimmed, Runs, Walk, RowStrokes, Expand, Shown, Wanted, Crops;
    if rows == [] {
      WalkNothing(b, Cursor(b.left, y0), palette, x, y);
    } else {
      if y0 <= y { WantedShift(rows, palette, x, y - y0); }
      WalkFirstRow(rows, b, width, y0, palette);
      RowShows(rows[0], b, y0, palette, x, y);
      RowsShow(rows[1..], b, width, y0 + 1, palette, x, y);
      ShownConcat(RowStrokes(Trimmed(Runs(rows[0]), b, width), Cursor(b.left, y0), palette),
                  Walk(AllTrimmed(rows[1..], b, width), b, Cursor(b.left, y0 + 1), palette), x, y);
    }
  }

  lemma WalkNothing(b: Bounds, at: Cursor, palette: seq<string>, x: nat, y: nat)
    ensures Shown(Walk([], b, at, palette), x, y) == None
  {
  }

  // A box of no width shows nothing.
  lemma {:induction false} TrimmedToNothing(rows: Plane, b: Bounds, width: nat)
    requires AllCrop(rows, b, width) && b.left == b.right
    ensures forall r <- AllTrimmed(rows, b, width) :: r.length == 0
  {
    if rows != [] {
      TrimmedToNothing(rows[1..], b, width);
      CropExact(rows[0], b);
      forall r <- Trimmed(Runs(rows[0]), b, width)
        ensures r.length == 0
      {
        LengthAtMostTotal(Trimmed(Runs(rows[0]), b, width), r);
      }
    }
  }

  // The kept rows seen through the decoder, whenever the left bound does not exceed the right one.
  ghost predicate ShowsBox(image: string, b: Bounds, kept: Plane, palette: seq<string>) {
    var decoded := DecodeImage(image);
    && decoded.Some?
    && decoded.value.bounds == b
    && forall x: nat, y: nat ::
         Shown(PaintPart(decoded.value, palette), x, y) ==
         if b.top <= y < b.top + |kept| && b.left <= x < b.right then Wanted(kept, palette, x, y - b.top) else None
  }

  lemma BoxShown(b: Bounds, kept: Plane, width: nat, palette: seq<string>)
    requires AllCrop(kept, b, width) && b.left <= b.right < 256 && b.top < 256 && b.bottom < 256
    requires forall y, x :: 0 <= y < |kept| && 0 <= x < width ==> kept[y][x] < 256
    ensures ShowsBox(EncodedBounds(b) + EncodedRows(kept, b, width), b, kept, palette)
  {
    hide DecodeImage, Trimmed, Runs, ParseRects, EncodedRows, EncodedBounds, Walk, Shown, Wanted;
    var rects := AllTrimmed(kept, b, width);
    EncodedRowsAreTrimmed(kept, b, width);
    TrimmedFit(kept, b, width);
    ParseFlatten(rects);
    DecodeParts(b, EncodedRows(kept, b, width));
    var painted := Walk(rects, b, Cursor(b.left, b.top), palette);
    forall x: nat, y: nat
      ensures Shown(painted, x, y) ==
              if b.top <= y < b.top + |kept| && b.left <= x < b.right then Wanted(kept, palette, x, y - b.top) else None
    {
      if b.left < b.right {
        RowsShow(kept, b, width, b.top, palette, x, y);
      } else {
        TrimmedToNothing(kept, b, width);
        WalkOfNothing(rects, b, Cursor(b.left, b.top), palette);
        ShownNowhere(painted, x, y);
      }
    }
  }

  // ----- The bounds of a plane

  ghost predicate UsesLowerRows(plane: Plane) {
    exists y :: 1 <= y < |plane| && !Blank(plane[y])
  }

  // Which rows are kept: all those in use, row 0 alone, or, when the bottom is missed, none.
  lemma KeptRowsFound(plane: Plane, width: nat)
    requires IsPlane(plane, width)
    ensures var s := ScanRows(plane, width); var kept := KeptRows(plane, width);
            if UsesLowerRows(plane) then
              && s.top >= 1
              && (Blank(plane[|plane| - 1]) || |plane| == 32 ==>
                    && s.top <= s.bottom < |plane| && kept == plane[s.top..s.bottom + 1]
                    && !Blank(plane[s.top]) && !Blank(plane[s.bottom])
                    && forall y :: 1 <= y < |plane| && !Blank(plane[y]) ==> s.top <= y <= s.bottom)
              && (!Blank(plane[|plane| - 1]) && |plane| != 32 ==> kept == [])
            else
              && s == Span(0, 0)
              && kept == if plane == [] then [] else plane[..1]
  {
    ScanRowsFound(plane, width);
  }

  ghost predicate Encloses(b: Bounds, kept: Plane, width: nat) {
    && 1 <= b.left <= width && b.right < width
    && (forall y :: 0 <= y < |kept| ==>
          kept[y] != [] && b.left <= RowLeft(kept[y]) && RowRight(kept[y]) <= b.right)
    && (b.left <= b.right || b.left == width)
  }

  lemma RowBounds(row: seq<nat>)
    requires row != []
    ensures 1 <= RowLeft(row) <= |row| && RowRight(row) < |row|
    ensures |Runs(row)| > 1 ==> RowLeft(row) <= RowRight(row)
    ensures |Runs(row)| == 1 ==> RowLeft(row) == |row|
  {
    RunsExpand(row);
    FirstRun(Runs(row));
    LastRun(Runs(row));
    if |Runs(row)| > 1 {
      EndsApart(Runs(row));
    }
  }

  lemma EndsApart(rects: seq<Rect>)
    requires |rects| > 1
    ensures rects[0].length + rects[|rects| - 1].length <= |Expand(rects)|
  {
    var n := |rects| - 1;
    ExpandCons(rects[..n]);
    assert rects[..n][0] == rects[0];
    assert Expand(rects) == Expand(rects[..n]) + Repeat(rects[n].colorIndex, rects[n].length);
  }

  lemma KeptBounds(kept: Plane, width: nat, b: Bounds)
    requires kept != [] && IsPlane(kept, width)
    requires b.left == Min(Lefts(kept)) && b.right == Max(Rights(kept))
    ensures Encloses(b, kept, width)
    ensures exists y :: 0 <= y < |kept| && b.left == RowLeft(kept[y])
    ensures exists y :: 0 <= y < |kept| && b.right == RowRight(kept[y])
  {
    BoundsEnclose(kept);
    forall y | 0 <= y < |kept|
      ensures 1 <= RowLeft(kept[y]) <= width && RowRight(kept[y]) < width
      ensures |Runs(kept[y])| > 1 ==> RowLeft(kept[y]) <= RowRight(kept[y])
      ensures |Runs(kept[y])| == 1 ==> RowLeft(kept[y]) == width
    {
      RowBounds(kept[y]);
    }
    var y :| 0 <= y < |kept| && b.left == RowLeft(kept[y]);
  }

  lemma EnclosedRowsCrop(b: Bounds, kept: Plane, width: nat)
    requires IsPlane(kept, width) && Encloses(b, kept, width) && b.left <= b.right
    ensures AllCrop(kept, b, width)
  {
  }

  // ----- What an encoded plane shows, case by case

  // Only the header matters here: whatever follows it, nothing appears above the top or left of the box.
  lemma NothingOutsideCorner(b: Bounds, body: string, palette: seq<string>, x: nat, y: nat)
    requires b.top < 256 && b.right < 256 && b.bottom < 256 && b.left < 256
    requires x < b.left || y < b.top
    ensures var decoded := DecodeImage(EncodedBounds(b) + body);
            decoded.Some? ==> Shown(PaintPart(decoded.value, palette), x, y) == None
  {
    hide DecodeImage, EncodedBounds, Walk, ParseRects;
    DecodeParts(b, body);
    var decoded := DecodeImage(EncodedBounds(b) + body);
    if decoded.Some? {
      var at := Cursor(b.left, b.top);
      WalkStaysInside(decoded.value.rects, b, at, palette);
      ShownNowhere(Walk(decoded.value.rects, b, at, palette), x, y);
    }
  }

  // A left bound of 256 takes three digits and leaves the body out of step.
  lemma WideLeftUndecodable(b: Bounds, kept: Plane, width: nat)
    requires b.top < 256 && b.right < 256 && b.bottom < 256 && b.left == 256 && width == 256
    requires forall y :: 0 <= y < |kept| ==> |Runs(kept[y])| == 1
    ensures DecodeImage(EncodedBounds(b) + EncodedRows(kept, b, width)) == None
  {
    hide ToHex, PadStart, EncodedRows, DecodeImage, ParseRects, ParseHex;
    var body := EncodedRows(kept, b, width);
    SolidRowsLength(kept, b, width);
    ByteRoundTrip(b.top);
    ByteRoundTrip(b.right);
    ByteRoundTrip(b.bottom);
    ThreeDigits();
    var t, r, m := ToPaddedHex(b.top, 2), ToPaddedHex(b.right, 2), ToPaddedHex(b.bottom, 2);
    assert EncodedBounds(b) + body == "0x00" + t + r + m + "10" + ("0" + body);
    DecodeRagged(t, r, m, "10", "0" + body);
  }

  lemma ThreeDigits()
    ensures ToPaddedHex(256, 2) == "100"
  {
    assert ToHex(16) == "10";
    assert ToHex(256) == "100";
  }

  lemma DecodeRagged(t: string, r: string, m: string, l: string, body: string)
    requires |t| == 2 && |r| == 2 && |m| == 2 && |l| == 2 && |body| % 4 == 1
    ensures DecodeImage("0x00" + t + r + m + l + body) == None
  {
    hide ParseRects, ParseHex, Substring;
    SplitHeader(t, r, m, l, body);
    ParseRectsRagged(body);
  }

  lemma {:induction false} SolidRowsLength(kept: Plane, b: Bounds, width: nat)
    requires forall y :: 0 <= y < |kept| ==> |Runs(kept[y])| == 1
    ensures |EncodedRows(kept, b, width)| == 4 * |kept|
  {
    if kept != [] {
      var rects := Runs(kept[0]);
      assert |rects| == 1;
      assert EmitFrom(rects, 1, b, width) == [];
      assert |EmitFrom(rects, 0, b, width)| == 2;
      HexBytesLength(ToBytes(EmitFrom(rects, 0, b, width)));
      SolidRowsLength(kept[1..], b, width);
    }
  }

  // ----- The theorems

  ghost predicate AllBlank(plane: Plane) {
    forall y :: 0 <= y < |plane| ==> Blank(plane[y])
  }

  // A fully transparent plane is written as the fixed string; any other as its header and kept rows.
  lemma EncodeCases(plane: Plane, width: nat)
    requires Fits(plane, width)
    ensures AllBlank(plane) ==> Encode(plane, width) == EMPTY_IMAGE
    ensures !AllBlank(plane) ==>
              var b := ImageBounds(plane, width);
              Encode(plane, width) == EncodedBounds(b) + EncodedRows(KeptRows(plane, width), b, width)
    ensures var b := ImageBounds(plane, width); b.top < 256 && b.bottom < 256
  {
    hide ToPaddedHex;
    KeptRowsFound(plane, width);
    var kept := KeptRows(plane, width);
    if plane == [] {
      EmptyHeader();
    } else {
      EmptyRowIffBlank(plane[0]);
    }
  }

  lemma EmptyHeader()
    ensures EncodedBounds(Bounds(0, 0, 0, 0)) == EMPTY_IMAGE
  {
    assert ToPaddedHex(0, 2) == "00";
  }

  lemma EmptyImageShows(palette: seq<string>, x: nat, y: nat)
    ensures var decoded := DecodeImage(EMPTY_IMAGE);
            decoded.Some? && Shown(PaintPart(decoded.value, palette), x, y) == None
  {
    EmptyHeader();
    DecodeParts(Bounds(0, 0, 0, 0), []);
    assert EMPTY_IMAGE + [] == EMPTY_IMAGE;
  }

  lemma OpaqueInside(row: seq<nat>, x: nat)
    requires x < |row| && row[x] != 0
    ensures row[0] == 0 ==> RowLeft(row) <= x
    ensures row[|row| - 1] == 0 ==> x < RowRight(row)
  {
    RunsExpand(row);
    FirstRun(Runs(row));
    LastRun(Runs(row));
    assert row[0] == Runs(row)[0].colorIndex;
    assert row[|row| - 1] == Runs(row)[|Runs(row)| - 1].colorIndex;
  }

  // With a clear border, every opaque pixel lies in a kept row between the bounds.
  lemma OpaqueKept(plane: Plane, width: nat, x: nat, y: nat)
    requires Fits(plane, width) && BorderClear(plane, width)
    requires y < |plane| && x < width && plane[y][x] != 0
    ensures var b := ImageBounds(plane, width); var kept := KeptRows(plane, width);
            && IsPlane(kept, width) && Encloses(b, kept, width)
            && b.top <= y < b.top + |kept| && kept[y - b.top] == plane[y]
            && b.left <= x < b.right
  {
    hide RowLeft, RowRight, Runs, Min, Max;
    KeptRowsFound(plane, width);
    assert !Blank(plane[y]);
    var kept := KeptRows(plane, width);
    KeptBounds(kept, width, ImageBounds(plane, width));
    OpaqueInside(plane[y], x);
    assert kept[y - ScanRows(plane, width).top] == plane[y];
  }

  lemma KeptIsSlice(plane: Plane, width: nat, i: nat)
    requires IsPlane(plane, width) && i < |KeptRows(plane, width)|
    ensures var top := ScanRows(plane, width).top;
            top + i < |plane| && KeptRows(plane, width)[i] == plane[top + i]
  {
  }

  lemma BlankRoundTrips(plane: Plane, width: nat, palette: seq<string>)
    requires Fits(plane, width) && AllBlank(plane)
    ensures RoundTrips(plane, width, palette)
  {
    hide Encode, DecodeImage, Shown, PaintPart;
    EncodeCases(plane, width);
    EmptyImageShows(palette, 0, 0);
    forall x: nat, y: nat
      ensures Shown(PaintPart(DecodeImage(EMPTY_IMAGE).value, palette), x, y) == Wanted(plane, palette, x, y)
    {
      EmptyImageShows(palette, x, y);
    }
  }

  // With a clear border, the box shows all there is to show.
  lemma BoxIsEverything(plane: Plane, width: nat, palette: seq<string>, x: nat, y: nat)
    requires Fits(plane, width) && BorderClear(plane, width)
    ensures var b := ImageBounds(plane, width); var kept := KeptRows(plane, width);
            Wanted(plane, palette, x, y) ==
            if b.top <= y < b.top + |kept| && b.left <= x < b.right then Wanted(kept, palette, x, y - b.top) else None
  {
    hide KeptRows, ScanRows, Runs, Min, Max;
    if y < |plane| && x < width && plane[y][x] != 0 {
      OpaqueKept(plane, width, x, y);
    } else {
      var b, kept := ImageBounds(plane, width), KeptRows(plane, width);
      if b.top <= y < b.top + |kept| {
        KeptIsSlice(plane, width, y - b.top);
      }
    }
  }

  lemma ClearRoundTrips(plane: Plane, width: nat, palette: seq<string>)
    requires Fits(plane, width) && BorderClear(plane, width)
    ensures RoundTrips(plane, width, palette)
  {
    hide Encode, DecodeImage, Shown, Wanted, PaintPart, EncodedRows, EncodedBounds, Runs, ImageBounds, KeptRows, BorderClear;
    if AllBlank(plane) {
      BlankRoundTrips(plane, width, palette);
    } else {
      EncodeCases(plane, width);
      var b, kept := ImageBounds(plane, width), KeptRows(plane, width);
      var y0 :| 0 <= y0 < |plane| && !Blank(plane[y0]);
      var x0 :| 0 <= x0 < |plane[y0]| && plane[y0][x0] != 0;
      OpaqueKept(plane, width, x0, y0);
      EnclosedRowsCrop(b, kept, width);
      KeptFit(plane, width);
      BoxShown(b, kept, width, palette);
      forall x: nat, y: nat {
        BoxIsEverything(plane, width, palette, x, y);
      }
    }
  }

  lemma KeptFit(plane: Plane, width: nat)
    requires Fits(plane, width)
    ensures Fits(KeptRows(plane, width), width)
  {
    hide ScanRows;
    forall i | 0 <= i < |KeptRows(plane, width)|
      ensures |KeptRows(plane, width)[i]| == width
      ensures forall x :: 0 <= x < width ==> KeptRows(plane, width)[i][x] < 256
    {
      KeptIsSlice(plane, width, i);
    }
  }

  // What a plane that survives the trip cannot contain: opaque pixels beyond the box it is written with.
  lemma SurvivingPixel(plane: Plane, width: nat, palette: seq<string>, x: nat, y: nat)
    requires Fits(plane, width) && RoundTrips(plane, width, palette)
    requires y < |plane| && x < width && plane[y][x] != 0
    ensures var b := ImageBounds(plane, width); var kept := KeptRows(plane, width);
            kept != [] && b.top <= y && b.left <= x < b.right
  {
    hide Encode, DecodeImage, Shown, PaintPart, EncodedRows, EncodedBounds, Runs, KeptRows, ScanRows, Min, Max;
    var b, kept := ImageBounds(plane, width), KeptRows(plane, width);
    EncodeCases(plane, width);
    assert !Blank(plane[y]);
    assert Wanted(plane, palette, x, y) != None;
    KeptFit(plane, width);
    if kept == [] {
      assert b.left == b.right == 0;
      BoxShown(b, kept, width, palette);
      assert false;
    }
    KeptBounds(kept, width, b);
    if b.left <= b.right {
      EnclosedRowsCrop(b, kept, width);
      BoxShown(b, kept, width, palette);
    } else {
      SolidRows(kept, width, b);
      if b.left == 256 {
        WideLeftUndecodable(b, kept, width);
      } else {
        NothingOutsideCorner(b, EncodedRows(kept, b, width), palette, x, y);
      }
      assert false;
    }
  }

  lemma SolidRows(kept: Plane, width: nat, b: Bounds)
    requires IsPlane(kept, width) && Encloses(b, kept, width) && b.right < b.left
    ensures b.left == width
    ensures forall y :: 0 <= y < |kept| ==> |Runs(kept[y])| == 1
  {
    forall y | 0 <= y < |kept|
      ensures |Runs(kept[y])| == 1
    {
      RowBounds(kept[y]);
    }
  }

  lemma RoundTripsClear(plane: Plane, width: nat, palette: seq<string>)
    requires Fits(plane, width) && RoundTrips(plane, width, palette)
    ensures BorderClear(plane, width)
  {
    hide Encode, RoundTrips, Runs, ScanRows, Min, Max;
    KeptRowsFound(plane, width);
    var b, kept := ImageBounds(plane, width), KeptRows(plane, width);
    forall y, x | 0 <= y < |plane| && 0 <= x < width && plane[y][x] != 0
      ensures kept != [] && b.top <= y && 1 <= x < width - 1
    {
      SurvivingPixel(plane, width, palette, x, y);
      KeptFit(plane, width);
      KeptBounds(kept, width, b);
    }
    if UsesLowerRows(plane) {
      var y :| 1 <= y < |plane| && !Blank(plane[y]);
      var x :| 0 <= x < width && plane[y][x] != 0;
    }
  }

  // Encoding, decoding and painting show an image exactly when its border is clear.
  lemma RoundTripExact(plane: Plane, width: nat, palette: seq<string>)
    requires Fits(plane, width)
    ensures RoundTrips(plane, width, palette) <==> BorderClear(plane, width)
  {
    if RoundTrips(plane, width, palette) {
      RoundTripsClear(plane, width, palette);
    }
    if BorderClear(plane, width) {
      ClearRoundTrips(plane, width, palette);
    }
  }

  lemma KeptSpansBounds(plane: Plane, width: nat)
    requires Fits(plane, width) && BorderClear(plane, width) && !AllBlank(plane)
    ensures var b := ImageBounds(plane, width);
            && |KeptRows(plane, width)| == b.bottom - b.top + 1
            && b.bottom < |plane| && !Blank(plane[b.top]) && !Blank(plane[b.bottom])
  {
    hide Runs, Min, Max;
    KeptRowsFound(plane, width);
    var y :| 0 <= y < |plane| && !Blank(plane[y]);
  }

  lemma EdgePixels(row: seq<nat>)
    requires row != [] && row[0] == 0 && row[|row| - 1] == 0
    ensures RowLeft(row) < |row| ==> row[RowLeft(row)] != 0
    ensures 0 < RowRight(row) < |row| ==> row[RowRight(row) - 1] != 0
  {
    RunsExpand(row);
    FirstRun(Runs(row));
    LastRun(Runs(row));
    assert row[0] == Runs(row)[0].colorIndex;
    assert row[|row| - 1] == Runs(row)[|Runs(row)| - 1].colorIndex;
  }

  // The box in the header holds every opaque pixel.
  lemma BoxHolds(plane: Plane, width: nat)
    requires Fits(plane, width) && BorderClear(plane, width) && !AllBlank(plane)
    ensures HoldsOpaque(plane, ImageBounds(plane, width))
  {
    hide Runs, ScanRows, Min, Max, ImageBounds, KeptRows, BorderClear;
    var b := ImageBounds(plane, width);
    KeptSpansBounds(plane, width);
    forall y, x | 0 <= y < |plane| && 0 <= x < |plane[y]| && plane[y][x] != 0
      ensures b.top <= y <= b.bottom && b.left <= x < b.right
    {
      OpaqueKept(plane, width, x, y);
    }
  }

  // A kept row whose first or last run sets a bound has an opaque pixel there.
  lemma SideTouches(plane: Plane, width: nat, i: nat)
    requires Fits(plane, width) && BorderClear(plane, width) && i < |KeptRows(plane, width)|
    ensures var row, l := KeptRows(plane, width)[i], ScanRows(plane, width).top + i;
            && row != [] && |row| == width && l < |plane| && plane[l] == row
            && (RowLeft(row) < width ==> plane[l][RowLeft(row)] != 0)
            && (0 < RowRight(row) < width ==> plane[l][RowRight(row) - 1] != 0)
  {
    hide Runs, ScanRows, KeptRows, RowLeft, RowRight;
    KeptIsSlice(plane, width, i);
    EdgePixels(KeptRows(plane, width)[i]);
  }

  // Rows that set the left and the right side of the box.
  lemma BoxSides(plane: Plane, width: nat) returns (i: nat, j: nat)
    requires Fits(plane, width) && BorderClear(plane, width) && !AllBlank(plane)
    ensures var b, kept := ImageBounds(plane, width), KeptRows(plane, width);
            && i < |kept| && kept[i] != [] && b.left == RowLeft(kept[i])
            && j < |kept| && kept[j] != [] && b.right == RowRight(kept[j])
  {
    var b, kept := ImageBounds(plane, width), KeptRows(plane, width);
    hide Runs, ScanRows, Min, Max, KeptRows, RowLeft, RowRight, BorderClear;
    SomeOpaque(plane, width);
    KeptFit(plane, width);
    assert b.left == Min(Lefts(kept)) && b.right == Max(Rights(kept));
    hide ImageBounds;
    KeptBounds(kept, width, b);
    i :| 0 <= i < |kept| && b.left == RowLeft(kept[i]);
    j :| 0 <= j < |kept| && b.right == RowRight(kept[j]);
  }

  // Each side of the box runs along an opaque pixel.
  lemma BoxTouches(plane: Plane, width: nat) returns (l: nat, r: nat)
    requires Fits(plane, width) && BorderClear(plane, width) && !AllBlank(plane)
    ensures var b := ImageBounds(plane, width);
            && b.left < width && 0 < b.right <= width && l < |plane| && r < |plane|
            && plane[l][b.left] != 0 && plane[r][b.right - 1] != 0
  {
    hide Runs, ScanRows, KeptRows, RowLeft, RowRight, ImageBounds, BorderClear, AllBlank;
    SomeOpaque(plane, width);
    var i, j := BoxSides(plane, width);
    SideTouches(plane, width, i);
    SideTouches(plane, width, j);
    l, r := ScanRows(plane, width).top + i, ScanRows(plane, width).top + j;
  }

  lemma SomeOpaque(plane: Plane, width: nat)
    requires Fits(plane, width) && BorderClear(plane, width) && !AllBlank(plane)
    ensures var b := ImageBounds(plane, width); 1 <= b.left < b.right < width
  {
    hide KeptRows, ImageBounds, BorderClear;
    var y :| 0 <= y < |plane| && !Blank(plane[y]);
    var x :| 0 <= x < |plane[y]| && plane[y][x] != 0;
    OpaqueKept(plane, width, x, y);
  }

  // The box in the header holds every opaque pixel, and any other box that does is at least as large.
  lemma BoundingBoxExact(plane: Plane, width: nat, box: Bounds)
    requires Fits(plane, width) && BorderClear(plane, width) && !AllBlank(plane)
    ensures HoldsOpaque(plane, ImageBounds(plane, width))
    ensures HoldsOpaque(plane, box) ==>
              var b := ImageBounds(plane, width);
              box.top <= b.top && b.right <= box.right && b.bottom <= box.bottom && box.left <= b.left
  {
    hide ImageBounds, KeptRows, BorderClear, Runs;
    BoxHolds(plane, width);
    if HoldsOpaque(plane, box) {
      KeptSpansBounds(plane, width);
      var l, r := BoxTouches(plane, width);
    }
  }

  ghost predicate HoldsOpaque(plane: Plane, b: Bounds) {
    forall y, x :: 0 <= y < |plane| && 0 <= x < |plane[y]| && plane[y][x] != 0 ==>
      b.top <= y <= b.bottom && b.left <= x < b.right
  }
}
