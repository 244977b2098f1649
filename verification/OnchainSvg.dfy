// The contract's renderer, packages/nouns-contracts/contracts/libs/MultiPartRLEToSVG.sol, against
// the one in packages/nouns-sdk/src/image/svg-builder.ts: a table of 33 numbers and a buffer of
// four rectangles on one side, a plain loop on the other, and the same text from both.
module OnchainSvg {
  import opened Wrappers
  import opened Hex
  import opened RunLength
  import opened ImageFormat
  import opened Svg

  // ----- Text

  function Decimal(n: nat): string {
    if n < 10 then [DIGITS[n]] else Decimal(n / 10) + [DIGITS[n % 10]]
  }

  function Element(width: string, x: string, y: string, fill: string): string {
    "<rect width=\"" + width + "\" height=\"10\" x=\"" + x + "\" y=\"" + y + "\" fill=\"#" + fill + "\" />"
  }

  function ElementOf(r: SvgRect): string {
    Element(Decimal(10 * r.width), Decimal(10 * r.x), Decimal(10 * r.y), r.fill)
  }

  function Elements(rects: seq<SvgRect>): string {
    if rects == [] then "" else ElementOf(rects[0]) + Elements(rects[1..])
  }

  function Document(background: string, body: string): string {
    "<svg width=\"320\"" + " height=\"320\"" + " viewBox=\"0 0 320 320\"" + " xmlns=\"http://www.w3.org/2000/svg\""
    + " shape-rendering=\"crispEdges\">" + "<rect width=\"100%\" height=\"100%\" fill=\"#" + background + "\" />" + body + "</svg>"
  }

  // The text of buildSVG.
  function SdkSvg(parts: seq<string>, palette: seq<string>, background: string): Option<string> {
    match PaintParts(parts, palette)
    case None => None
    case Some(rects) => Some(Document(background, Elements(rects)))
  }

  // ----- The contract

  const LOOKUP: seq<string> :=
    ["0", "10", "20", "30", "40", "50", "60", "70",
     "80", "90", "100", "110", "120", "130", "140", "150",
     "160", "170", "180", "190", "200", "210", "220", "230",
     "240", "250", "260", "270", "280", "290", "300", "310",
     "320"]

  const TABLE_SIZE: nat := 33

  function Lookup(n: nat): string
    requires n < TABLE_SIZE
  {
    LOOKUP[n]
  }

  type Palettes = map<nat, seq<string>>

  function PaletteAt(palettes: Palettes, index: nat): seq<string> {
    if index in palettes then palettes[index] else []
  }

  function RectsOf(data: seq<Byte>): seq<Rect> {
    if |data| < 2 then [] else [Rect(data[0], data[1])] + RectsOf(data[2..])
  }

  // Five bytes and then pairs; anything else reads or writes out of bounds.
  function Decode(data: seq<Byte>): Option<DecodedImage> {
    if |data| < 5 || |data| % 2 == 0 then None
    else Some(DecodedImage(data[0], Bounds(data[1], data[2], data[3], data[4]), RectsOf(data[5..])))
  }

  // Every visible run is within the table and the palette.
  predicate Drawable(rects: seq<Rect>, b: Bounds, at: Cursor, colors: nat) {
    rects == [] ||
    (&& (rects[0].colorIndex != 0 ==>
           rects[0].length < TABLE_SIZE && at.x < TABLE_SIZE && at.y < TABLE_SIZE && rects[0].colorIndex < colors)
     && Drawable(rects[1..], b, Move(at, rects[0].length, b), colors))
  }

  predicate PartDrawable(data: seq<Byte>, palettes: Palettes) {
    var d := Decode(data);
    && d.Some?
    && Drawable(d.value.rects, d.value.bounds, Cursor(d.value.bounds.left, d.value.bounds.top),
                |PaletteAt(palettes, d.value.paletteIndex)|)
  }

  // The parts are counted in eight bits.
  predicate AllDrawable(parts: seq<seq<Byte>>, palettes: Palettes) {
    |parts| < 256 && forall p :: 0 <= p < |parts| ==> PartDrawable(parts[p], palettes)
  }

  function PartText(data: seq<Byte>, palettes: Palettes): string {
    match Decode(data)
    case None => ""
    case Some(d) => Elements(PaintPart(d, PaletteAt(palettes, d.paletteIndex)))
  }

  function PartsText(parts: seq<seq<Byte>>, palettes: Palettes): string {
    if parts == [] then "" else PartsText(parts[..|parts| - 1], palettes) + PartText(parts[|parts| - 1], palettes)
  }

  // The pairs from position i on are still to be read.
  ghost predicate Read(image: seq<Byte>, done: seq<Rect>, i: nat) {
    && 5 <= i <= |image| && i == 5 + 2 * |done|
    && RectsOf(image[5..]) == done + RectsOf(image[i..])
  }

  method DecodeRleImage(image: seq<Byte>) returns (decoded: Option<DecodedImage>)
    ensures decoded == Decode(image)
  {
    if |image| < 5 {
      return None;
    }
    hide RectsOf, Read;
    var bounds := Bounds(image[1], image[2], image[3], image[4]);
    var size := (|image| - 5) / 2;
    var rects := new Rect[size];
    var i, cursor := 5, 0;
    ghost var done: seq<Rect> := [];
    NothingRead(image);
    while i < |image|
      invariant i <= |image| && i == 5 + 2 * cursor && cursor <= size
      invariant rects[..cursor] == done && Read(image, done, i)
    {
      if i + 1 >= |image| || cursor >= size {
        return None;
      }
      PairRead(image, done, i);
      rects[cursor] := Rect(image[i], image[i + 1]);
      done := done + [Rect(image[i], image[i + 1])];
      cursor := cursor + 1;
      i := i + 2;
    }
    AllRead(image, done);
    return Some(DecodedImage(image[0], bounds, rects[..cursor]));
  }

  lemma NothingRead(image: seq<Byte>)
    requires |image| >= 5
    ensures Read(image, [], 5)
  {
  }

  lemma PairRead(image: seq<Byte>, done: seq<Rect>, i: nat)
    requires Read(image, done, i) && i + 1 < |image|
    ensures Read(image, done + [Rect(image[i], image[i + 1])], i + 2)
  {
    assert image[i..][2..] == image[i + 2..];
  }

  lemma AllRead(image: seq<Byte>, done: seq<Rect>)
    requires Read(image, done, |image|)
    ensures RectsOf(image[5..]) == done
  {
  }

  // The rectangles in a filled part of the buffer, four strings each.
  function ChunkText(cells: seq<string>): string
    requires |cells| % 4 == 0
  {
    if cells == [] then ""
    else
      var k := |cells| - 4;
      ChunkText(cells[..k]) + Element(cells[k], cells[k + 1], cells[k + 2], cells[k + 3])
  }

  ghost predicate Printed(chunk: string, cells: seq<string>, i: nat) {
    i <= |cells| && i % 4 == 0 && chunk == ChunkText(cells[..i])
  }

  method GetChunk(cursor: nat, buffer: array<string>) returns (chunk: string)
    requires cursor <= buffer.Length && cursor % 4 == 0
    ensures chunk == ChunkText(buffer[..cursor])
  {
    hide Element, Printed;
    chunk := "";
    var i := 0;
    ghost var cells := buffer[..cursor];
    NothingPrinted(cells);
    while i < cursor
      invariant i <= cursor && i % 4 == 0 && Printed(chunk, cells, i)
    {
      OnePrinted(chunk, cells, i);
      chunk := chunk + Element(buffer[i], buffer[i + 1], buffer[i + 2], buffer[i + 3]);
      i := i + 4;
    }
    AllPrinted(chunk, cells);
  }

  lemma NothingPrinted(cells: seq<string>)
    ensures Printed("", cells, 0)
  {
    assert cells[..0] == [];
  }

  lemma OnePrinted(chunk: string, cells: seq<string>, i: nat)
    requires Printed(chunk, cells, i) && i + 4 <= |cells|
    ensures Printed(chunk + Element(cells[i], cells[i + 1], cells[i + 2], cells[i + 3]), cells, i + 4)
  {
    hide Element;
    assert cells[..i + 4][..i] == cells[..i];
  }

  lemma AllPrinted(chunk: string, cells: seq<string>)
    requires Printed(chunk, cells, |cells|)
    ensures chunk == ChunkText(cells)
  {
    assert cells[..|cells|] == cells;
  }

  lemma ChunkGrows(cells: seq<string>, width: string, x: string, y: string, fill: string)
    requires |cells| % 4 == 0
    ensures ChunkText(cells + [width, x, y, fill]) == ChunkText(cells) + Element(width, x, y, fill)
  {
    assert (cells + [width, x, y, fill])[..|cells|] == cells;
  }

  lemma DecimalOfTens(n: nat)
    ensures Decimal(10 * n) == if n == 0 then "0" else Decimal(n) + "0"
  {
    assert 10 * n / 10 == n && 10 * n % 10 == 0;
  }

  lemma DecimalDigits(n: nat)
    ensures n < 10 ==> Decimal(n) == [DIGITS[n]]
    ensures 10 <= n < 100 ==> Decimal(n) == [DIGITS[n / 10], DIGITS[n % 10]]
  {
  }

  lemma LookupOnes(n: nat)
    requires 1 <= n < 10
    ensures Lookup(n) == [DIGITS[n], '0']
  {
  }

  lemma LookupTens(n: nat)
    requires 10 <= n < TABLE_SIZE
    ensures Lookup(n) == [DIGITS[n / 10], DIGITS[n % 10], '0']
  {
  }

  // The table holds the decimal text of ten times the index.
  lemma LookupExact(n: nat)
    requires n < TABLE_SIZE
    ensures Lookup(n) == Decimal(10 * n)
  {
    hide Decimal;
    DecimalOfTens(n);
    DecimalDigits(n);
    if 1 <= n < 10 {
      LookupOnes(n);
    } else if n >= 10 {
      LookupTens(n);
    }
  }

  // ----- One part

  lemma ElementsCons(r: SvgRect, rest: seq<SvgRect>)
    ensures Elements([r] + rest) == ElementOf(r) + Elements(rest)
  {
    assert ([r] + rest)[1..] == rest;
  }

  // One run: its four strings from the table and the palette.
  lemma StrokeText(r: Rect, at: Cursor, palette: seq<string>, rest: seq<SvgRect>)
    requires r.colorIndex != 0 && r.length < TABLE_SIZE && at.x < TABLE_SIZE && at.y < TABLE_SIZE && r.colorIndex < |palette|
    ensures Elements(Stroke(r, at, palette) + rest)
         == Element(Lookup(r.length), Lookup(at.x), Lookup(at.y), palette[r.colorIndex]) + Elements(rest)
  {
    hide Element, Decimal, Elements;
    LookupExact(r.length);
    LookupExact(at.x);
    LookupExact(at.y);
    ElementsCons(SvgRect(r.length, at.x, at.y, palette[r.colorIndex]), rest);
  }

  lemma DrawableStep(rects: seq<Rect>, i: nat, b: Bounds, at: Cursor, colors: nat)
    requires i < |rects|
    ensures Drawable(rects[i..], b, at, colors) <==>
            && (rects[i].colorIndex != 0 ==>
                  rects[i].length < TABLE_SIZE && at.x < TABLE_SIZE && at.y < TABLE_SIZE && rects[i].colorIndex < colors)
            && Drawable(rects[i + 1..], b, Move(at, rects[i].length, b), colors)
  {
    assert rects[i..][1..] == rects[i + 1..];
  }

  // What has been written, what waits in the buffer, and what is still to come make up the part.
  ghost predicate Drawn(d: DecodedImage, palette: seq<string>, part: string, cells: seq<string>, i: nat, at: Cursor) {
    && i <= |d.rects| && |cells| % 4 == 0
    && Elements(PaintPart(d, palette)) == part + (ChunkText(cells) + Elements(Walk(d.rects[i..], d.bounds, at, palette)))
    && (Drawable(d.rects, d.bounds, Cursor(d.bounds.left, d.bounds.top), |palette|) <==>
        Drawable(d.rects[i..], d.bounds, at, |palette|))
  }

  lemma DrawnStart(d: DecodedImage, palette: seq<string>)
    ensures Drawn(d, palette, "", [], 0, Cursor(d.bounds.left, d.bounds.top))
  {
    assert d.rects[0..] == d.rects;
  }

  lemma DrawnSkip(d: DecodedImage, palette: seq<string>, part: string, cells: seq<string>, i: nat, at: Cursor)
    requires i < |d.rects| && d.rects[i].colorIndex == 0 && Drawn(d, palette, part, cells, i, at)
    ensures Drawn(d, palette, part, cells, i + 1, Move(at, d.rects[i].length, d.bounds))
  {
    hide Elements, Drawable, Walk, ChunkText, PaintPart;
    WalkStep(d.rects, i, d.bounds, at, palette);
    DrawableStep(d.rects, i, d.bounds, at, |palette|);
    var rest := Walk(d.rects[i + 1..], d.bounds, Move(at, d.rects[i].length, d.bounds), palette);
    assert [] + rest == rest;
  }

  lemma DrawnStroke(d: DecodedImage, palette: seq<string>, part: string, cells: seq<string>, i: nat, at: Cursor)
    requires i < |d.rects| && Drawn(d, palette, part, cells, i, at)
    requires var r := d.rects[i];
             r.colorIndex != 0 && r.length < TABLE_SIZE && at.x < TABLE_SIZE && at.y < TABLE_SIZE && r.colorIndex < |palette|
    ensures var r := d.rects[i];
            Drawn(d, palette, part, cells + [Lookup(r.length), Lookup(at.x), Lookup(at.y), palette[r.colorIndex]],
                  i + 1, Move(at, r.length, d.bounds))
  {
    hide Elements, Drawable, Walk, ChunkText, Element, Stroke, Lookup, PaintPart;
    var r := d.rects[i];
    WalkStep(d.rects, i, d.bounds, at, palette);
    DrawableStep(d.rects, i, d.bounds, at, |palette|);
    var rest := Walk(d.rects[i + 1..], d.bounds, Move(at, r.length, d.bounds), palette);
    StrokeText(r, at, palette, rest);
    var e := Element(Lookup(r.length), Lookup(at.x), Lookup(at.y), palette[r.colorIndex]);
    ChunkGrows(cells, Lookup(r.length), Lookup(at.x), Lookup(at.y), palette[r.colorIndex]);
    assert ChunkText(cells) + (e + Elements(rest)) == ChunkText(cells) + e + Elements(rest);
  }

  lemma DrawnFlush(d: DecodedImage, palette: seq<string>, part: string, cells: seq<string>, i: nat, at: Cursor)
    requires Drawn(d, palette, part, cells, i, at)
    ensures Drawn(d, palette, part + ChunkText(cells), [], i, at)
  {
    hide Elements, Drawable, Walk;
    var rest := Elements(Walk(d.rects[i..], d.bounds, at, palette));
    assert part + (ChunkText(cells) + rest) == part + ChunkText(cells) + ("" + rest);
  }

  lemma DrawnEnd(d: DecodedImage, palette: seq<string>, part: string, at: Cursor)
    requires Drawn(d, palette, part, [], |d.rects|, at)
    ensures part == Elements(PaintPart(d, palette))
    ensures Drawable(d.rects, d.bounds, Cursor(d.bounds.left, d.bounds.top), |palette|)
  {
    hide Walk, PaintPart;
    WalkEnd(d.rects, d.bounds, at, palette);
    assert Elements([]) == "" && ChunkText([]) == "";
    assert part + ("" + "") == part;
    assert Drawable(d.rects[|d.rects|..], d.bounds, at, |palette|);
    hide Elements, ChunkText, Drawable;
  }

  method GeneratePart(image: DecodedImage, palette: seq<string>) returns (part: Option<string>)
    ensures var b := image.bounds;
            part == if Drawable(image.rects, b, Cursor(b.left, b.top), |palette|)
                    then Some(Elements(PaintPart(image, palette))) else None
  {
    hide Drawable, Elements, ChunkText, Drawn, Element, PaintPart, Walk, Lookup;
    var text := "";
    var DecodedImage(_, bounds, rects) := image;
    var currentX: nat, currentY: nat := bounds.left, bounds.top;
    var cursor := 0;
    var buffer := new string[16];
    DrawnStart(image, palette);
    ghost var cells: seq<string> := [];
    for i := 0 to |rects|
      invariant cursor < 16 && cursor % 4 == 0
      invariant buffer[..cursor] == cells && Drawn(image, palette, text, cells, i, Cursor(currentX, currentY))
    {
      var rect := rects[i];
      if rect.colorIndex != 0 {
        if rect.length >= TABLE_SIZE || currentX >= TABLE_SIZE || currentY >= TABLE_SIZE || rect.colorIndex >= |palette| {
          OutOfTable(image, palette, text, cells, i, Cursor(currentX, currentY));
          return None;
        }
        DrawnStroke(image, palette, text, cells, i, Cursor(currentX, currentY));
        cells := cells + [Lookup(rect.length), Lookup(currentX), Lookup(currentY), palette[rect.colorIndex]];
        buffer[cursor] := Lookup(rect.length);
        buffer[cursor + 1] := Lookup(currentX);
        buffer[cursor + 2] := Lookup(currentY);
        buffer[cursor + 3] := palette[rect.colorIndex];
        cursor := cursor + 4;
        assert buffer[..cursor] == cells;
        if cursor >= 16 {
          DrawnFlush(image, palette, text, cells, i + 1, Move(Cursor(currentX, currentY), rect.length, bounds));
          var chunk := GetChunk(cursor, buffer);
          text := text + chunk;
          cursor, cells := 0, [];
        }
      } else {
        DrawnSkip(image, palette, text, cells, i, Cursor(currentX, currentY));
      }
      currentX := currentX + rect.length;
      if currentX == bounds.right {
        currentX := bounds.left;
        currentY := currentY + 1;
      }
    }
    if cursor != 0 {
      DrawnFlush(image, palette, text, cells, |rects|, Cursor(currentX, currentY));
      var chunk := GetChunk(cursor, buffer);
      text := text + chunk;
    }
    DrawnEnd(image, palette, text, Cursor(currentX, currentY));
    return Some(text);
  }

  lemma OutOfTable(d: DecodedImage, palette: seq<string>, part: string, cells: seq<string>, i: nat, at: Cursor)
    requires i < |d.rects| && Drawn(d, palette, part, cells, i, at) && d.rects[i].colorIndex != 0
    requires d.rects[i].length >= TABLE_SIZE || at.x >= TABLE_SIZE || at.y >= TABLE_SIZE || d.rects[i].colorIndex >= |palette|
    ensures !Drawable(d.rects, d.bounds, Cursor(d.bounds.left, d.bounds.top), |palette|)
  {
    hide Elements, Walk, ChunkText;
    DrawableStep(d.rects, i, d.bounds, at, |palette|);
  }

  // ----- All parts

  // The text the contract returns; None when it reverts.
  function ContractSvg(parts: seq<seq<Byte>>, palettes: Palettes, background: string): Option<string> {
    if AllDrawable(parts, palettes) then Some(Document(background, PartsText(parts, palettes))) else None
  }

  method GenerateSvg(parts: seq<seq<Byte>>, palettes: Palettes, background: string) returns (svg: Option<string>)
    ensures svg == ContractSvg(parts, palettes, background)
  {
    hide Drawable, Elements, PaintPart, Document, Decode;
    var rects := "";
    var p: nat := 0;
    while p < |parts|
      invariant p <= |parts| && p < 256
      invariant rects == PartsText(parts[..p], palettes)
      invariant forall q :: 0 <= q < p ==> PartDrawable(parts[q], palettes)
    {
      var image := DecodeRleImage(parts[p]);
      if image.None? {
        assert !PartDrawable(parts[p], palettes);
        return None;
      }
      var part := GeneratePart(image.value, PaletteAt(palettes, image.value.paletteIndex));
      if part.None? {
        assert !PartDrawable(parts[p], palettes);
        return None;
      }
      assert parts[..p + 1][..p] == parts[..p];
      rects := rects + part.value;
      if p == 255 {
        return None;
      }
      p := p + 1;
    }
    assert parts[..p] == parts;
    return Some(Document(background, rects));
  }

  // ----- The two decoders agree

  function HexText(data: seq<Byte>): string {
    "0x" + HexBytes(data)
  }

  lemma {:induction false} RectsAgree(data: seq<Byte>)
    ensures ParseRects(HexBytes(data)) == if |data| % 2 == 0 then Some(RectsOf(data)) else None
  {
    hide ToPaddedHex, ParseHex;
    if data == [] {
      assert HexBytes(data) == "";
    } else if |data| == 1 {
      OddByte(data);
    } else {
      RectsAgree(data[2..]);
      assert data == [data[0], data[1]] + data[2..];
      if |data| % 2 == 0 {
        ParseRun(Rect(data[0], data[1]), data[2..]);
      } else {
        PairThen(data);
      }
      hide ParseRects, HexBytes;
    }
  }

  lemma OddByte(data: seq<Byte>)
    requires |data| == 1
    ensures ParseRects(HexBytes(data)) == None
  {
    hide ToPaddedHex;
    ByteRoundTrip(data[0]);
    var s := HexBytes(data);
    assert HexBytes(data[1..]) == "" && s == ToPaddedHex(data[0], 2);
    assert Substring(s, 0, 4) == s && Substring(s, 2, 4) == "";
  }

  lemma PairThen(data: seq<Byte>)
    requires |data| >= 2 && ParseRects(HexBytes(data[2..])) == None
    ensures ParseRects(HexBytes(data)) == None
  {
    hide ToPaddedHex, ParseHex, ParseRects;
    var l, c := ToPaddedHex(data[0], 2), ToPaddedHex(data[1], 2);
    assert HexBytes(data) == l + c + HexBytes(data[2..]) by {
      assert data[1..][1..] == data[2..];
      assert HexBytes(data[1..]) == c + HexBytes(data[2..]);
      assert l + (c + HexBytes(data[2..])) == l + c + HexBytes(data[2..]);
    }
    ByteRoundTrip(data[0]);
    ByteRoundTrip(data[1]);
    ParseGroup(l, c, HexBytes(data[2..]));
  }

  lemma SubstringMiddle(a: string, m: string, c: string)
    ensures Substring(a + (m + c), |a|, |a| + |m|) == m
  {
  }

  lemma ByteAt(data: seq<Byte>, k: nat)
    requires k < |data|
    ensures HexBytes(data) == HexBytes(data[..k]) + (ToPaddedHex(data[k], 2) + HexBytes(data[k + 1..]))
  {
    hide ToPaddedHex;
    var rest := data[k..];
    assert rest[1..] == data[k + 1..];
    assert data == data[..k] + rest;
    HexBytesConcat(data[..k], rest);
  }

  lemma FieldText(data: seq<Byte>, k: nat)
    requires k < |data|
    ensures Substring(HexBytes(data), 2 * k, 2 * k + 2) == ToPaddedHex(data[k], 2)
  {
    hide HexBytes, ToPaddedHex, Substring;
    HexBytesLength(data[..k]);
    ByteRoundTrip(data[k]);
    ByteAt(data, k);
    SubstringMiddle(HexBytes(data[..k]), ToPaddedHex(data[k], 2), HexBytes(data[k + 1..]));
  }

  lemma HeaderField(data: seq<Byte>, k: nat)
    ensures ParseHex(Substring(HexBytes(data), 2 * k, 2 * k + 2)) == if k < |data| then Some(data[k]) else None
  {
    hide HexBytes, ToPaddedHex;
    HexBytesLength(data);
    if k < |data| {
      FieldText(data, k);
      ByteRoundTrip(data[k]);
      hide ParseHex;
    }
  }

  // The bytes and their hexadecimal text decode alike, or not at all.
  lemma DecodersAgree(data: seq<Byte>)
    ensures DecodeImage(HexText(data)) == Decode(data)
  {
    hide ToPaddedHex, ParseHex, ParseRects, RectsOf;
    assert HexText(data)[2..] == HexBytes(data);
    HeaderField(data, 0);
    HeaderField(data, 1);
    HeaderField(data, 2);
    HeaderField(data, 3);
    HeaderField(data, 4);
    HexBytesLength(data);
    if |data| >= 5 {
      assert data == data[..5] + data[5..];
      HexBytesConcat(data[..5], data[5..]);
      HexBytesLength(data[..5]);
      hide HexBytes;
      assert Substring(HexBytes(data), 10, |HexBytes(data)| + 10) == HexBytes(data[5..]);
      RectsAgree(data[5..]);
    }
  }

  // ----- The two renderers agree

  function HexParts(parts: seq<seq<Byte>>): seq<string> {
    seq(|parts|, p requires 0 <= p < |parts| => HexText(parts[p]))
  }

  lemma {:induction false} ElementsConcat(a: seq<SvgRect>, b: seq<SvgRect>)
    ensures Elements(a + b) == Elements(a) + Elements(b)
  {
    hide Elements, ElementOf;
    NoElements();
    if a == [] {
      assert a + b == b;
    } else {
      ElementsConcat(a[1..], b);
      ElementsCons(a[0], a[1..]);
      ElementsCons(a[0], a[1..] + b);
      assert [a[0]] + a[1..] == a && [a[0]] + (a[1..] + b) == a + b;
      Regrouped(ElementOf(a[0]), Elements(a[1..]), Elements(b));
    }
  }

  lemma NoElements()
    ensures Elements([]) == ""
  {
  }

  lemma {:induction false} PartsAgree(parts: seq<seq<Byte>>, palettes: Palettes, palette: seq<string>)
    requires forall p :: 0 <= p < |parts| ==> PartDrawable(parts[p], palettes)
    requires forall p :: 0 <= p < |parts| && parts[p] != [] ==> PaletteAt(palettes, parts[p][0]) == palette
    ensures PaintParts(HexParts(parts), palette).Some?
    ensures Elements(PaintParts(HexParts(parts), palette).value) == PartsText(parts, palettes)
  {
    hide DecodeImage, HexText, PaintPart, Elements, Drawable, PaletteAt;
    if parts == [] {
      NoElements();
    } else {
      var n := |parts| - 1;
      PartsAgree(parts[..n], palettes, palette);
      assert HexParts(parts)[..n] == HexParts(parts[..n]);
      DecodersAgree(parts[n]);
      assert PartDrawable(parts[n], palettes);
      ElementsConcat(PaintParts(HexParts(parts[..n]), palette).value, PaintPart(Decode(parts[n]).value, palette));
    }
  }

  // Given the same parts and palette, the contract returns the very text buildSVG does, except that
  // it reverts exactly when a visible run leaves its table or its palette or a part is malformed.
  lemma RenderersAgree(parts: seq<seq<Byte>>, palettes: Palettes, palette: seq<string>, background: string)
    requires forall p :: 0 <= p < |parts| && parts[p] != [] ==> PaletteAt(palettes, parts[p][0]) == palette
    ensures ContractSvg(parts, palettes, background) ==
            if AllDrawable(parts, palettes) then SdkSvg(HexParts(parts), palette, background) else None
  {
    hide Document, PartsText, PaintParts, Elements, PaletteAt, PartDrawable;
    if AllDrawable(parts, palettes) {
      PartsAgree(parts, palettes, palette);
    }
  }

  // ----- When the contract reverts

  // Where the runs leave the cursor.
  function CursorAfter(rects: seq<Rect>, b: Bounds, at: Cursor): Cursor {
    if rects == [] then at else CursorAfter(rects[1..], b, Move(at, rects[0].length, b))
  }

  // A run is transparent, or within the table of 33 numbers and the palette.
  predicate InReach(r: Rect, at: Cursor, colors: nat) {
    r.colorIndex == 0 || (r.length <= 32 && at.x <= 32 && at.y <= 32 && r.colorIndex < colors)
  }

  lemma {:induction false} DrawableIff(rects: seq<Rect>, b: Bounds, at: Cursor, colors: nat)
    ensures Drawable(rects, b, at, colors) <==>
              forall k :: 0 <= k < |rects| ==> InReach(rects[k], CursorAfter(rects[..k], b, at), colors)
  {
    hide InReach, Move;
    if rects != [] {
      var next := Move(at, rects[0].length, b);
      DrawableIff(rects[1..], b, next, colors);
      FirstInReach(rects, b, at, colors);
      assert rects[..0] == [];
      forall k | 0 <= k < |rects| - 1
        ensures rects[1..][k] == rects[k + 1] && CursorAfter(rects[..k + 1], b, at) == CursorAfter(rects[1..][..k], b, next)
      {
        assert rects[..k + 1][1..] == rects[1..][..k];
      }
      RestInReach(rects, b, at, colors);
    }
  }

  lemma FirstInReach(rects: seq<Rect>, b: Bounds, at: Cursor, colors: nat)
    requires rects != []
    ensures Drawable(rects, b, at, colors) <==>
              InReach(rects[0], at, colors) && Drawable(rects[1..], b, Move(at, rects[0].length, b), colors)
  {
  }

  // All but the first are in reach when the rest are, from where the first leaves the cursor.
  lemma RestInReach(rects: seq<Rect>, b: Bounds, at: Cursor, colors: nat)
    requires rects != []
    requires forall k :: 0 <= k < |rects| - 1 ==>
               rects[1..][k] == rects[k + 1] &&
               CursorAfter(rects[..k + 1], b, at) == CursorAfter(rects[1..][..k], b, Move(at, rects[0].length, b))
    ensures (forall k :: 1 <= k < |rects| ==> InReach(rects[k], CursorAfter(rects[..k], b, at), colors)) <==>
              forall k :: 0 <= k < |rects| - 1 ==>
                InReach(rects[1..][k], CursorAfter(rects[1..][..k], b, Move(at, rects[0].length, b)), colors)
  {
    hide InReach, Move, CursorAfter;
    if forall k :: 0 <= k < |rects| - 1 ==> InReach(rects[1..][k], CursorAfter(rects[1..][..k], b, Move(at, rects[0].length, b)), colors) {
      forall k | 1 <= k < |rects|
        ensures InReach(rects[k], CursorAfter(rects[..k], b, at), colors)
      {
        var j := k - 1;
        assert rects[1..][j] == rects[j + 1];
      }
    }
  }

  // The header is there and the rest is pairs.
  predicate WellFormed(data: seq<Byte>) {
    |data| >= 5 && |data| % 2 == 1
  }

  ghost predicate RunsInReach(data: seq<Byte>, palettes: Palettes)
    requires WellFormed(data)
  {
    var b, rects := Bounds(data[1], data[2], data[3], data[4]), RectsOf(data[5..]);
    forall k :: 0 <= k < |rects| ==>
      InReach(rects[k], CursorAfter(rects[..k], b, Cursor(data[4], data[1])), |PaletteAt(palettes, data[0])|)
  }

  lemma PartIff(data: seq<Byte>, palettes: Palettes)
    ensures PartDrawable(data, palettes) <==> WellFormed(data) && RunsInReach(data, palettes)
  {
    if WellFormed(data) {
      DrawableIff(RectsOf(data[5..]), Bounds(data[1], data[2], data[3], data[4]), Cursor(data[4], data[1]), |PaletteAt(palettes, data[0])|);
    }
    hide Drawable, InReach, CursorAfter, RectsOf;
  }

  // The contract returns a text exactly when there are at most 255 parts, each has its header and whole
  // pairs, and every visible run starts within 33 cells either way, is at most 32 long and has its
  // colour in the palette the part names.
  lemma RevertExact(parts: seq<seq<Byte>>, palettes: Palettes, background: string)
    ensures ContractSvg(parts, palettes, background).Some? <==>
              |parts| <= 255 && forall p :: 0 <= p < |parts| ==> WellFormed(parts[p]) && RunsInReach(parts[p], palettes)
  {
    forall p | 0 <= p < |parts|
      ensures PartDrawable(parts[p], palettes) <==> WellFormed(parts[p]) && RunsInReach(parts[p], palettes)
    {
      PartIff(parts[p], palettes);
    }
    hide PartDrawable, RunsInReach, Document, PartsText;
  }
}
