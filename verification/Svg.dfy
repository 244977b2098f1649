// Decoding and painting of encoded parts: packages/nouns-sdk/src/image/svg-builder.ts.
// An SVG is the list of its rectangles in paint order, measured in cells of ten pixels.
module Svg {
  import opened Wrappers
  import opened Hex
  import opened RunLength
  import opened ImageFormat

  datatype DecodedImage = DecodedImage(paletteIndex: nat, bounds: Bounds, rects: seq<Rect>)

  datatype SvgRect = SvgRect(width: nat, x: nat, y: nat, fill: string)

  datatype Cursor = Cursor(x: nat, y: nat)

  // String.prototype.substring, which clamps both ends to the string.
  function Substring(s: string, i: nat, j: nat): string
    requires i <= j
  {
    if |s| <= i then [] else if |s| <= j then s[i..] else s[i..j]
  }

  // Groups of up to four characters, two digits for the length and two for the colour.
  function ParseRects(s: string): Option<seq<Rect>> {
    if s == [] then Some([])
    else
      var group := Substring(s, 0, 4);
      match (ParseHex(Substring(group, 0, 2)), ParseHex(Substring(group, 2, 4)), ParseRects(s[|group|..]))
      case (Some(length), Some(colorIndex), Some(rest)) => Some([Rect(length, colorIndex)] + rest)
      case _ => None
  }

  // None stands for a result with a NaN in it.
  function DecodeImage(image: string): Option<DecodedImage> {
    var data := if "0x" <= image then image[2..] else image;
    match (ParseHex(Substring(data, 0, 2)), ParseHex(Substring(data, 2, 4)), ParseHex(Substring(data, 4, 6)),
           ParseHex(Substring(data, 6, 8)), ParseHex(Substring(data, 8, 10)),
           ParseRects(Substring(data, 10, |data| + 10)))
    case (Some(paletteIndex), Some(top), Some(right), Some(bottom), Some(left), Some(rects)) =>
      Some(DecodedImage(paletteIndex, Bounds(top, right, bottom, left), rects))
    case _ => None
  }

  // An index outside the palette prints JavaScript's undefined.
  function Fill(palette: seq<string>, colorIndex: nat): string {
    if colorIndex < |palette| then palette[colorIndex] else "undefined"
  }

  function Move(at: Cursor, length: nat, b: Bounds): Cursor {
    if at.x + length == b.right then Cursor(b.left, at.y + 1) else Cursor(at.x + length, at.y)
  }

  // The rectangle of one run, none when it is transparent.
  function Stroke(r: Rect, at: Cursor, palette: seq<string>): seq<SvgRect> {
    if r.colorIndex != 0 then [SvgRect(r.length, at.x, at.y, Fill(palette, r.colorIndex))] else []
  }

  // The rectangles painted by a run list from a cursor position on.
  function Walk(rects: seq<Rect>, b: Bounds, at: Cursor, palette: seq<string>): seq<SvgRect> {
    if rects == [] then []
    else Stroke(rects[0], at, palette) + Walk(rects[1..], b, Move(at, rects[0].length, b), palette)
  }

  function PaintPart(d: DecodedImage, palette: seq<string>): seq<SvgRect> {
    Walk(d.rects, d.bounds, Cursor(d.bounds.left, d.bounds.top), palette)
  }

  // All parts in order, later ones painted over earlier ones.
  function PaintParts(parts: seq<string>, palette: seq<string>): Option<seq<SvgRect>> {
    if parts == [] then Some([])
    else
      var n := |parts| - 1;
      PaintOver(PaintParts(parts[..n], palette), DecodeImage(parts[n]), palette)
  }

  function PaintOver(below: Option<seq<SvgRect>>, part: Option<DecodedImage>, palette: seq<string>): Option<seq<SvgRect>> {
    if below == None || part == None then None else Some(below.value + PaintPart(part.value, palette))
  }

  // One part: the callback that turns its runs into rectangles.
  method PaintRuns(d: DecodedImage, palette: seq<string>) returns (svgRects: seq<SvgRect>)
    ensures svgRects == PaintPart(d, palette)
  {
    hide Walk;
    var DecodedImage(_, bounds, rects) := d;
    svgRects := [];
    var currentX: nat, currentY: nat := bounds.left, bounds.top;
    for i := 0 to |rects|
      invariant PaintPart(d, palette) == svgRects + Walk(rects[i..], bounds, Cursor(currentX, currentY), palette)
    {
      var Rect(length, colorIndex) := rects[i];
      WalkStep(rects, i, bounds, Cursor(currentX, currentY), palette);
      if colorIndex != 0 {
        svgRects := svgRects + [SvgRect(length, currentX, currentY, Fill(palette, colorIndex))];
      }
      currentX := currentX + length;
      if currentX == bounds.right {
        currentX := bounds.left;
        currentY := currentY + 1;
      }
    }
    WalkEnd(rects, bounds, Cursor(currentX, currentY), palette);
  }

  lemma WalkEnd(rects: seq<Rect>, b: Bounds, at: Cursor, palette: seq<string>)
    ensures Walk(rects[|rects|..], b, at, palette) == []
  {
  }

  lemma WalkStep(rects: seq<Rect>, i: nat, b: Bounds, at: Cursor, palette: seq<string>)
    requires i < |rects|
    ensures Walk(rects[i..], b, at, palette) ==
            Stroke(rects[i], at, palette) + Walk(rects[i + 1..], b, Move(at, rects[i].length, b), palette)
  {
    assert rects[i..][1..] == rects[i + 1..];
  }

  method BuildSvg(parts: seq<string>, palette: seq<string>) returns (svg: Option<seq<SvgRect>>)
    ensures svg == PaintParts(parts, palette)
  {
    var result: seq<SvgRect> := [];
    for p := 0 to |parts|
      invariant PaintParts(parts[..p], palette) == Some(result)
    {
      var decoded := DecodeImage(parts[p]);
      if decoded == None {
        UndecodablePart(parts, p, palette);
        return None;
      }
      var svgRects := PaintRuns(decoded.value, palette);
      result := result + svgRects;
      assert parts[..p + 1][..p] == parts[..p];
    }
    assert parts[..|parts|] == parts;
    return Some(result);
  }

  lemma {:induction false} UndecodablePart(parts: seq<string>, p: nat, palette: seq<string>)
    requires p < |parts| && DecodeImage(parts[p]) == None
    ensures PaintParts(parts, palette) == None
  {
    hide DecodeImage, PaintPart;
    var n := |parts| - 1;
    if p < n {
      assert parts[..n][p] == parts[p];
      UndecodablePart(parts[..n], p, palette);
    }
  }

  // ----- What is seen: the last rectangle painted over a cell wins

  predicate Covers(r: SvgRect, x: nat, y: nat) {
    r.y == y && r.x <= x < r.x + r.width
  }

  function Shown(rects: seq<SvgRect>, x: nat, y: nat): Option<string> {
    if rects == [] then None
    else
      var n := |rects| - 1;
      if Covers(rects[n], x, y) then Some(rects[n].fill) else Shown(rects[..n], x, y)
  }

  lemma {:induction false} ShownConcat(below: seq<SvgRect>, above: seq<SvgRect>, x: nat, y: nat)
    ensures Shown(below + above, x, y) ==
            if Shown(above, x, y).Some? then Shown(above, x, y) else Shown(below, x, y)
  {
    if above == [] {
      assert below + above == below;
    } else {
      var n := |above| - 1;
      assert (below + above)[..|below| + n] == below + above[..n];
      ShownConcat(below, above[..n], x, y);
    }
  }

  lemma {:induction false} ShownNowhere(rects: seq<SvgRect>, x: nat, y: nat)
    requires forall r <- rects :: !Covers(r, x, y)
    ensures Shown(rects, x, y) == None
  {
    if rects != [] {
      ShownNowhere(rects[..|rects| - 1], x, y);
    }
  }

  // ----- Where a walk can paint

  // Nothing is ever painted left of the box or above it.
  lemma {:induction false} WalkStaysInside(rects: seq<Rect>, b: Bounds, at: Cursor, palette: seq<string>)
    requires b.left <= at.x && b.top <= at.y
    ensures forall r <- Walk(rects, b, at, palette) :: b.left <= r.x && b.top <= r.y
  {
    if rects != [] {
      WalkStaysInside(rects[1..], b, Move(at, rects[0].length, b), palette);
    }
  }

  // Runs of length zero paint nothing.
  lemma {:induction false} WalkOfNothing(rects: seq<Rect>, b: Bounds, at: Cursor, palette: seq<string>)
    requires forall r <- rects :: r.length == 0
    ensures forall r <- Walk(rects, b, at, palette) :: r.width == 0
  {
    if rects != [] {
      WalkOfNothing(rects[1..], b, Move(at, 0, b), palette);
    }
  }

  // What one row shows, its first pixel standing at the cursor.
  ghost predicate ShowsRow(painted: seq<SvgRect>, pixels: seq<nat>, at: Cursor, palette: seq<string>) {
    forall x: nat, y: nat :: Shown(painted, x, y) ==
      if y == at.y && at.x <= x < at.x + |pixels| && pixels[x - at.x] != 0
      then Some(Fill(palette, pixels[x - at.x])) else None
  }

  lemma ShowsRowAfter(head: seq<SvgRect>, r: Rect, after: seq<SvgRect>, pixels: seq<nat>, at: Cursor, palette: seq<string>)
    requires head == Stroke(r, at, palette)
    requires ShowsRow(after, pixels, Cursor(at.x + r.length, at.y), palette)
    ensures ShowsRow(head + after, Repeat(r.colorIndex, r.length) + pixels, at, palette)
  {
    var all := Repeat(r.colorIndex, r.length) + pixels;
    forall x: nat, y: nat
      ensures Shown(head + after, x, y) ==
              if y == at.y && at.x <= x < at.x + |all| && all[x - at.x] != 0
              then Some(Fill(palette, all[x - at.x])) else None
    {
      ShownConcat(head, after, x, y);
      ShownOne(head, r, at, x, y, palette);
    }
  }

  // The rectangles of one row, the cursor never wrapping.
  function RowStrokes(row: seq<Rect>, at: Cursor, palette: seq<string>): seq<SvgRect> {
    if row == [] then []
    else Stroke(row[0], at, palette) + RowStrokes(row[1..], Cursor(at.x + row[0].length, at.y), palette)
  }

  lemma {:induction false} RowStrokesShow(row: seq<Rect>, at: Cursor, palette: seq<string>)
    ensures ShowsRow(RowStrokes(row, at, palette), Expand(row), at, palette)
  {
    if row != [] {
      var next := Cursor(at.x + row[0].length, at.y);
      RowStrokesShow(row[1..], next, palette);
      ExpandCons(row);
      ShowsRowAfter(Stroke(row[0], at, palette), row[0], RowStrokes(row[1..], next, palette), Expand(row[1..]), at, palette);
    }
  }

  // A row whose runs end at the right bound wraps the cursor exactly once, at its end.
  lemma {:induction false} WalkRow(row: seq<Rect>, rest: seq<Rect>, b: Bounds, at: Cursor, palette: seq<string>)
    requires row != [] && forall i :: 0 <= i < |row| ==> row[i].length > 0
    requires at.x + |Expand(row)| == b.right
    ensures Walk(row + rest, b, at, palette)
         == RowStrokes(row, at, palette) + Walk(rest, b, Cursor(b.left, at.y + 1), palette)
  {
    hide Expand, Stroke;
    var r, tail := row[0], row[1..];
    ExpandCons(row);
    assert (row + rest)[1..] == tail + rest;
    if |row| == 1 {
      assert tail + rest == rest;
      ExpandNone();
    } else {
      ExpandPositive(tail);
      var next := Cursor(at.x + r.length, at.y);
      assert Move(at, r.length, b) == next;
      WalkRow(tail, rest, b, next, palette);
    }
  }

  lemma ExpandNone()
    ensures Expand([]) == []
  {
  }

  lemma ExpandCons(rects: seq<Rect>)
    requires rects != []
    ensures Expand(rects) == Repeat(rects[0].colorIndex, rects[0].length) + Expand(rects[1..])
  {
    assert rects == [rects[0]] + rects[1..];
    ExpandConcat([rects[0]], rects[1..]);
    ExpandOne(rects[0]);
  }

  lemma ShownOne(head: seq<SvgRect>, r: Rect, at: Cursor, x: nat, y: nat, palette: seq<string>)
    requires head == Stroke(r, at, palette)
    ensures Shown(head, x, y) ==
            if r.colorIndex != 0 && y == at.y && at.x <= x < at.x + r.length
            then Some(Fill(palette, r.colorIndex)) else None
  {
    if r.colorIndex != 0 {
      assert Shown(head[..0], x, y) == None;
    }
  }

  lemma ExpandPositive(rects: seq<Rect>)
    requires rects != [] && forall i :: 0 <= i < |rects| ==> rects[i].length > 0
    ensures |Expand(rects)| > 0
  {
  }

  // ----- Reading back what was printed

  lemma ParseGroup(length: string, colorIndex: string, rest: string)
    requires |length| == 2 && |colorIndex| == 2
    ensures ParseRects(length + colorIndex + rest) ==
            match (ParseHex(length), ParseHex(colorIndex), ParseRects(rest))
            case (Some(l), Some(c), Some(tail)) => Some([Rect(l, c)] + tail)
            case _ => None
  {
    var s := length + colorIndex + rest;
    var group := length + colorIndex;
    assert Substring(s, 0, 4) == group;
    assert Substring(group, 0, 2) == length;
    assert Substring(group, 2, 4) == colorIndex;
    assert s[4..] == rest;
  }

  lemma ParseRun(r: Rect, rest: seq<Byte>)
    requires r.length < 256 && r.colorIndex < 256
    requires ParseRects(HexBytes(rest)).Some?
    ensures ParseRects(HexBytes([r.length, r.colorIndex] + rest)) == Some([r] + ParseRects(HexBytes(rest)).value)
  {
    var bytes: seq<Byte> := [r.length, r.colorIndex] + rest;
    var l, c := ToPaddedHex(r.length, 2), ToPaddedHex(r.colorIndex, 2);
    assert HexBytes(bytes) == l + c + HexBytes(rest) by {
      assert bytes[1..] == [r.colorIndex] + rest;
      assert bytes[1..][1..] == rest;
      assert l + (c + HexBytes(rest)) == l + c + HexBytes(rest);
    }
    ByteRoundTrip(r.length);
    ByteRoundTrip(r.colorIndex);
    ParseGroup(l, c, HexBytes(rest));
  }

  lemma FlattenBytes(rects: seq<Rect>)
    requires rects != [] && rects[0].length < 256 && rects[0].colorIndex < 256
    ensures ToBytes(Flatten(rects)) == [rects[0].length, rects[0].colorIndex] + ToBytes(Flatten(rects[1..]))
  {
  }

  lemma {:induction false} ParseFlatten(rects: seq<Rect>)
    requires forall i :: 0 <= i < |rects| ==> rects[i].length < 256 && rects[i].colorIndex < 256
    ensures ParseRects(HexBytes(ToBytes(Flatten(rects)))) == Some(rects)
  {
    hide ParseHex, ToPaddedHex, ParseRects, HexBytes, ToBytes, Flatten;
    if rects == [] {
      NothingParses();
    } else {
      FlattenBytes(rects);
      ParseFlatten(rects[1..]);
      ParseRun(rects[0], ToBytes(Flatten(rects[1..])));
      assert rects == [rects[0]] + rects[1..];
    }
  }

  lemma NothingParses()
    ensures ParseRects(HexBytes(ToBytes(Flatten([])))) == Some([])
  {
    assert ToBytes(Flatten([])) == [];
  }

  lemma {:induction false} HexBytesConcat(a: seq<Byte>, b: seq<Byte>)
    ensures HexBytes(a + b) == HexBytes(a) + HexBytes(b)
  {
    hide HexBytes, ToPaddedHex;
    HexBytesNone();
    if a == [] {
      assert a + b == b;
    } else {
      HexBytesConcat(a[1..], b);
      HexBytesFirst(a);
      HexBytesFirst(a + b);
      assert (a + b)[1..] == a[1..] + b;
      Regrouped(ToPaddedHex(a[0], 2), HexBytes(a[1..]), HexBytes(b));
    }
  }

  lemma Regrouped(a: string, b: string, c: string)
    ensures a + (b + c) == a + b + c
  {
  }

  lemma HexBytesNone()
    ensures HexBytes([]) == ""
  {
  }

  lemma HexBytesFirst(a: seq<Byte>)
    requires a != []
    ensures HexBytes(a) == ToPaddedHex(a[0], 2) + HexBytes(a[1..])
  {
  }

  lemma {:induction false} HexBytesLength(bytes: seq<Byte>)
    ensures |HexBytes(bytes)| == 2 * |bytes|
  {
    if bytes != [] {
      ByteRoundTrip(bytes[0]);
      HexBytesLength(bytes[1..]);
    }
  }

  // A group cut short after its first digit has no colour.
  lemma {:induction false} ParseRectsRagged(s: string)
    requires |s| % 4 == 1
    ensures ParseRects(s) == None
  {
    if |s| >= 5 {
      ParseRectsRagged(s[4..]);
    }
  }

  // The prefix 0x may be left out.
  lemma PrefixOptional(digits: string)
    requires !("0x" <= digits)
    ensures DecodeImage("0x" + digits) == DecodeImage(digits)
  {
    assert ("0x" + digits)[2..] == digits;
  }

  // A run whose colour the palette does not have is still painted, in the fill undefined.
  lemma OutsidePalette(r: Rect, at: Cursor, palette: seq<string>, x: nat, y: nat)
    requires r.colorIndex != 0 && r.colorIndex >= |palette|
    ensures Shown(Stroke(r, at, palette), x, y) == if y == at.y && at.x <= x < at.x + r.length then Some("undefined") else None
  {
    ShownOne(Stroke(r, at, palette), r, at, x, y, palette);
  }
}
