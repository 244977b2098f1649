// An image written by packages/nouns-sdk/src/image/image.ts and drawn by
// packages/nouns-contracts/contracts/libs/MultiPartRLEToSVG.sol.
module OnchainImages {
  import opened Wrappers
  import opened Hex
  import opened RunLength
  import opened ImageFormat
  import opened Svg
  import opened RoundTrip
  import opened OnchainSvg
  import opened SvgText

  lemma {:induction false} RowDrawable(row: seq<Rect>, rest: seq<Rect>, b: Bounds, at: Cursor, colors: nat)
    requires row != [] && forall r <- row :: r.length > 0 && r.colorIndex < colors
    requires 1 <= at.x && at.x + |Expand(row)| == b.right <= TABLE_SIZE && at.y < TABLE_SIZE
    requires Drawable(rest, b, Cursor(b.left, at.y + 1), colors)
    ensures Drawable(row + rest, b, at, colors)
  {
    hide Expand, Drawable;
    var r, tail := row[0], row[1..];
    assert r in row;
    ExpandCons(row);
    assert (row + rest)[1..] == tail + rest && (row + rest)[0] == r;
    if tail == [] {
      assert tail + rest == rest;
      ExpandNone();
    } else {
      ExpandPositive(tail);
      assert forall t <- tail :: t in row;
      RowDrawable(tail, rest, b, Cursor(at.x + r.length, at.y), colors);
    }
    DrawableStep(row + rest, 0, b, at, colors);
    assert (row + rest)[0..] == row + rest;
  }

  lemma {:induction false} RowsDrawable(rows: Plane, b: Bounds, width: nat, y0: nat, colors: nat)
    requires AllCrop(rows, b, width) && 1 <= b.left < b.right <= TABLE_SIZE && y0 + |rows| <= TABLE_SIZE
    requires forall y, x :: 0 <= y < |rows| && 0 <= x < width ==> rows[y][x] < colors
    ensures Drawable(AllTrimmed(rows, b, width), b, Cursor(b.left, y0), colors)
  {
    hide Trimmed, Runs, Expand;
    if rows != [] {
      var row := Trimmed(Runs(rows[0]), b, width);
      CropExact(rows[0], b);
      ExpandNone();
      forall r <- row
        ensures r.length > 0 && r.colorIndex < colors
      {
        assert r.colorIndex in rows[0];
      }
      forall y, x | 0 <= y < |rows[1..]| && 0 <= x < width
        ensures rows[1..][y][x] < colors
      {
        assert rows[1..][y] == rows[y + 1];
      }
      RowsDrawable(rows[1..], b, width, y0 + 1, colors);
      RowDrawable(row, AllTrimmed(rows[1..], b, width), b, Cursor(b.left, y0), colors);
    }
  }

  // The bytes of an encoded plane with something to show.
  function Written(b: Bounds, rects: seq<Rect>): seq<Byte>
    requires b.top < 256 && b.right < 256 && b.bottom < 256 && b.left < 256
  {
    [0, b.top, b.right, b.bottom, b.left] + ToBytes(Flatten(rects))
  }

  lemma HexCons(first: Byte, rest: seq<Byte>)
    ensures HexBytes([first] + rest) == ToPaddedHex(first, 2) + HexBytes(rest)
  {
    assert ([first] + rest)[1..] == rest;
    hide ToPaddedHex;
  }

  lemma ZeroByte()
    ensures ToPaddedHex(0, 2) == "00" && HexBytes([]) == ""
  {
  }

  lemma HeaderText(b: Bounds)
    requires b.top < 256 && b.right < 256 && b.bottom < 256 && b.left < 256
    ensures "0x" + HexBytes([0, b.top, b.right, b.bottom, b.left]) == EncodedBounds(b)
  {
    hide ToPaddedHex, HexBytes;
    var t, r, m, l := ToPaddedHex(b.top, 2), ToPaddedHex(b.right, 2), ToPaddedHex(b.bottom, 2), ToPaddedHex(b.left, 2);
    var fromLeft: seq<Byte> := [b.left] + [];
    var fromBottom := [b.bottom] + fromLeft;
    var fromRight := [b.right] + fromBottom;
    var fromTop := [b.top] + fromRight;
    ZeroByte();
    HexCons(b.left, []);
    HexCons(b.bottom, fromLeft);
    HexCons(b.right, fromBottom);
    HexCons(b.top, fromRight);
    HexCons(0, fromTop);
    assert [0, b.top, b.right, b.bottom, b.left] == [0] + fromTop;
    assert "0x" + ("00" + (t + (r + (m + (l + ""))))) == "0x00" + t + r + m + l;
  }

  // The contract sees exactly the runs that were written.
  lemma WrittenDecodes(b: Bounds, kept: Plane, width: nat)
    requires AllCrop(kept, b, width) && b.left <= b.right < 256 && b.top < 256 && b.bottom < 256
    requires forall y, x :: 0 <= y < |kept| && 0 <= x < width ==> kept[y][x] < 256
    ensures var data := Written(b, AllTrimmed(kept, b, width));
            && HexText(data) == EncodedBounds(b) + EncodedRows(kept, b, width)
            && Decode(data) == Some(DecodedImage(0, b, AllTrimmed(kept, b, width)))
  {
    hide DecodeImage, Decode, Trimmed, Runs, ParseRects, EncodedRows, EncodedBounds, HexBytes, ToBytes, Flatten;
    var rects := AllTrimmed(kept, b, width);
    EncodedRowsAreTrimmed(kept, b, width);
    TrimmedFit(kept, b, width);
    ParseFlatten(rects);
    DecodeParts(b, EncodedRows(kept, b, width));
    HeaderText(b);
    HexBytesConcat([0, b.top, b.right, b.bottom, b.left], ToBytes(Flatten(rects)));
    DecodersAgree(Written(b, rects));
  }

  // The bytes of an encoded image, whose visible runs are in the contract's reach.
  ghost predicate Carries(data: seq<Byte>, plane: Plane, width: nat, palettes: Palettes)
    requires IsPlane(plane, width)
  {
    && HexText(data) == Encode(plane, width)
    && PartDrawable(data, palettes)
    && data != [] && data[0] == 0
  }

  // Every image of at most 32 by 32 cells with a clear border, its colours all in palette 0, can be
  // drawn by the contract from the bytes of its encoding.
  lemma EncodedCarries(plane: Plane, width: nat, palettes: Palettes) returns (data: seq<Byte>)
    requires Fits(plane, width) && BorderClear(plane, width) && width <= 32 && |plane| <= 32
    requires forall y, x :: 0 <= y < |plane| && 0 <= x < width ==> plane[y][x] < |PaletteAt(palettes, 0)|
    ensures Carries(data, plane, width, palettes)
  {
    hide Encode, DecodeImage, Decode, PaletteAt, ImageBounds, KeptRows, PaintPart, BorderClear, Drawable, HexText;
    EncodeCases(plane, width);
    if AllBlank(plane) {
      data := [0, 0, 0, 0, 0];
      BlankDrawn(palettes);
    } else {
      var b, kept := ImageBounds(plane, width), KeptRows(plane, width);
      VisibleBox(plane, width, |PaletteAt(palettes, 0)|);
      data := Written(b, AllTrimmed(kept, b, width));
      WrittenDecodes(b, kept, width);
      RowsDrawable(kept, b, width, b.top, |PaletteAt(palettes, 0)|);
    }
  }

  // ----- What is read from the text

  ghost predicate PlainNames(palette: seq<string>) {
    forall k :: 0 <= k < |palette| ==> Plain(palette[k])
  }

  lemma {:induction false} WalkPlain(rects: seq<Rect>, b: Bounds, at: Cursor, palette: seq<string>)
    requires PlainNames(palette)
    ensures PlainFills(Walk(rects, b, at, palette))
  {
    if rects != [] {
      WalkPlain(rects[1..], b, Move(at, rects[0].length, b), palette);
      assert Plain("undefined");
    }
  }

  lemma {:induction false} PaintedPlain(parts: seq<string>, palette: seq<string>)
    requires PlainNames(palette) && PaintParts(parts, palette).Some?
    ensures PlainFills(PaintParts(parts, palette).value)
  {
    hide DecodeImage;
    if parts != [] {
      var n := |parts| - 1;
      PaintedPlain(parts[..n], palette);
      var d := DecodeImage(parts[n]).value;
      WalkPlain(d.rects, d.bounds, Cursor(d.bounds.left, d.bounds.top), palette);
    }
  }

  // The picture is 320 pixels square, on the background, and shows at every pixel what the parts
  // painted over one another show at its cell.
  ghost predicate Depicts(text: Option<string>, background: string, painted: seq<SvgRect>) {
    && text.Some?
    && var picture := ReadPicture(text.value);
       && picture.Some?
       && picture.value.width == 320 && picture.value.height == 320 && picture.value.viewBox == "0 0 320 320"
       && picture.value.background == background
       && forall px: nat, py: nat :: PixelShown(picture.value.boxes, px, py) == Shown(painted, px / 10, py / 10)
  }

  lemma DocumentDepicts(painted: seq<SvgRect>, background: string)
    requires PlainFills(painted) && Plain(background)
    ensures Depicts(Some(Document(background, Elements(painted))), background, painted)
  {
    PictureReads(painted, background);
    hide ReadPicture, Document, Elements, PixelShown, Boxes, Shown, Plain;
    forall px: nat, py: nat
      ensures PixelShown(Boxes(painted), px, py) == Shown(painted, px / 10, py / 10)
    {
      PixelsShowCells(painted, px, py);
    }
  }

  // Read back, the text of buildSVG shows its parts, painted over one another in their order.
  lemma SdkDepicts(parts: seq<string>, palette: seq<string>, background: string)
    requires PlainNames(palette) && Plain(background)
    ensures PaintParts(parts, palette).Some? ==>
              Depicts(SdkSvg(parts, palette, background), background, PaintParts(parts, palette).value)
  {
    hide Depicts, PaintParts, Document, Elements, PlainFills, Plain;
    if PaintParts(parts, palette).Some? {
      PaintedPlain(parts, palette);
      DocumentDepicts(PaintParts(parts, palette).value, background);
    }
  }

  // So does the text of the contract, when it can draw the parts.
  lemma ContractDepicts(parts: seq<seq<Byte>>, palettes: Palettes, palette: seq<string>, background: string)
    requires AllDrawable(parts, palettes)
    requires forall p :: 0 <= p < |parts| && parts[p] != [] ==> PaletteAt(palettes, parts[p][0]) == palette
    requires PlainNames(palette) && Plain(background)
    ensures PaintParts(HexParts(parts), palette).Some?
    ensures Depicts(ContractSvg(parts, palettes, background), background, PaintParts(HexParts(parts), palette).value)
  {
    hide Depicts, PaintParts, HexParts, PaletteAt, SdkSvg, ContractSvg, PlainNames, Plain, PartDrawable, Elements, PartsText;
    PartsAgree(parts, palettes, palette);
    RenderersAgree(parts, palettes, palette, background);
    SdkDepicts(HexParts(parts), palette, background);
  }

  // The text the contract returns for an image's bytes shows the image, pixel for pixel.
  ghost predicate DrawsImage(data: seq<Byte>, plane: Plane, width: nat, palettes: Palettes, background: string)
    requires IsPlane(plane, width)
  {
    && HexText(data) == Encode(plane, width)
    && var text := ContractSvg([data], palettes, background);
       && text.Some?
       && var picture := ReadPicture(text.value);
          && picture.Some? && picture.value.background == background
          && forall px: nat, py: nat ::
               PixelShown(picture.value.boxes, px, py) == Wanted(plane, PaletteAt(palettes, 0), px / 10, py / 10)
  }

  // Every image of at most 32 by 32 cells with a clear border, its colours all in palette 0, is drawn
  // by the contract: the text it returns, read back, shows the image at every pixel.
  lemma ContractDraws(plane: Plane, width: nat, palettes: Palettes, background: string)
    requires Fits(plane, width) && BorderClear(plane, width) && width <= 32 && |plane| <= 32
    requires forall y, x :: 0 <= y < |plane| && 0 <= x < width ==> plane[y][x] < |PaletteAt(palettes, 0)|
    requires PlainNames(PaletteAt(palettes, 0)) && Plain(background)
    ensures exists data :: DrawsImage(data, plane, width, palettes, background)
  {
    var palette := PaletteAt(palettes, 0);
    var data := EncodedCarries(plane, width, palettes);
    hide Encode, DecodeImage, PaletteAt, PartDrawable, HexText, ContractSvg, PaintPart, BorderClear, Fits, Depicts, PlainNames, Plain, DrawsImage, Shown, Wanted;
    ContractDepicts([data], palettes, palette, background);
    OnePart(data, palette);
    RoundTripsAt(plane, width, palette);
    PixelsAre(data, plane, width, palettes, background, PaintParts(HexParts([data]), palette).value);
  }

  lemma RoundTripsAt(plane: Plane, width: nat, palette: seq<string>)
    requires Fits(plane, width) && BorderClear(plane, width)
    ensures var d := DecodeImage(Encode(plane, width));
            d.Some? && forall x: nat, y: nat :: Shown(PaintPart(d.value, palette), x, y) == Wanted(plane, palette, x, y)
  {
    ClearRoundTrips(plane, width, palette);
    hide Encode, DecodeImage, BorderClear, Fits, Wanted, Shown, PaintPart;
  }

  lemma PixelsAre(data: seq<Byte>, plane: Plane, width: nat, palettes: Palettes, background: string, painted: seq<SvgRect>)
    requires IsPlane(plane, width) && HexText(data) == Encode(plane, width)
    requires Depicts(ContractSvg([data], palettes, background), background, painted)
    requires forall x: nat, y: nat :: Shown(painted, x, y) == Wanted(plane, PaletteAt(palettes, 0), x, y)
    ensures DrawsImage(data, plane, width, palettes, background)
  {
    hide Encode, HexText, ContractSvg, PaletteAt, Shown, Wanted, ReadPicture, PixelShown;
  }

  lemma OnePart(data: seq<Byte>, palette: seq<string>)
    ensures PaintParts(HexParts([data]), palette) ==
            match DecodeImage(HexText(data))
            case None => None
            case Some(d) => Some(PaintPart(d, palette))
  {
    hide DecodeImage, HexText, PaintPart;
    var parts := [HexText(data)];
    assert HexParts([data]) == parts;
    assert parts[..0] == [] && PaintParts([], palette) == Some([]);
    var decoded := DecodeImage(parts[0]);
    assert PaintParts(parts, palette) == PaintOver(Some([]), decoded, palette);
    assert decoded.Some? ==> [] + PaintPart(decoded.value, palette) == PaintPart(decoded.value, palette);
  }

  lemma BlankDrawn(palettes: Palettes)
    ensures HexText([0, 0, 0, 0, 0]) == EMPTY_IMAGE && PartDrawable([0, 0, 0, 0, 0], palettes)
  {
    HeaderText(Bounds(0, 0, 0, 0));
    EmptyHeader();
  }

  lemma VisibleBox(plane: Plane, width: nat, colors: nat)
    requires Fits(plane, width) && BorderClear(plane, width) && !AllBlank(plane)
    requires forall y, x :: 0 <= y < |plane| && 0 <= x < width ==> plane[y][x] < colors
    ensures var b, kept := ImageBounds(plane, width), KeptRows(plane, width);
            && AllCrop(kept, b, width) && 1 <= b.left < b.right < width && b.top + |kept| <= |plane|
            && forall y, x :: 0 <= y < |kept| && 0 <= x < width ==> kept[y][x] < colors && kept[y][x] < 256
  {
    hide Encode, Runs, ScanRows, Min, Max, KeptRows, RowLeft, RowRight, BorderClear;
    var b, kept := ImageBounds(plane, width), KeptRows(plane, width);
    var y0 :| 0 <= y0 < |plane| && !Blank(plane[y0]);
    var x0 :| 0 <= x0 < |plane[y0]| && plane[y0][x0] != 0;
    OpaqueKept(plane, width, x0, y0);
    EnclosedRowsCrop(b, kept, width);
    KeptFit(plane, width);
    forall i | 0 <= i < |kept|
      ensures b.top + i < |plane| && kept[i] == plane[b.top + i]
    {
      KeptIsSlice(plane, width, i);
    }
    KeptSpansBounds(plane, width);
  }
}
