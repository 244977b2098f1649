// The Image class of packages/nouns-sdk/src/image/image.ts: pixel loops that build rows of runs,
// track the bounds and print the result.
module Images {
  import opened Wrappers
  import opened Hex
  import opened RunLength
  import opened ImageFormat
  import opened Palette

  datatype RGBA = RGBA(r: Byte, g: Byte, b: Byte, a: Byte)

  datatype ImageRow = ImageRow(rects: seq<Rect>, left: nat, right: nat)

  type PixelSource = (nat, nat) -> RGBA

  function HexName(p: RGBA): string {
    RgbToHex(p.r, p.g, p.b)
  }

  // The colour index of a pixel: 0 when fully transparent.
  function IndexOf(p: RGBA, index: map<string, nat>): nat {
    if p.a == 0 || HexName(p) !in index then 0 else index[HexName(p)]
  }

  function PlaneRow(rgbaAt: PixelSource, width: nat, y: nat, index: map<string, nat>): (row: seq<nat>)
    ensures |row| == width
    ensures forall x :: 0 <= x < width ==> row[x] == IndexOf(rgbaAt(x, y), index)
  {
    seq<nat>(width, x requires 0 <= x < width => IndexOf(rgbaAt(x, y), index))
  }

  function PlaneOf(rgbaAt: PixelSource, width: nat, height: nat, index: map<string, nat>): (plane: Plane)
    ensures |plane| == height
    ensures forall y :: 0 <= y < height ==> plane[y] == PlaneRow(rgbaAt, width, y, index)
  {
    seq(height, y requires 0 <= y < height => PlaneRow(rgbaAt, width, y, index))
  }

  // The colour names met while scanning the first x pixels of row y, and all rows before it.
  function RowNames(rgbaAt: PixelSource, x: nat, y: nat): seq<string> {
    if x == 0 then [] else RowNames(rgbaAt, x - 1, y) + [HexName(rgbaAt(x - 1, y))]
  }

  function NamesAbove(rgbaAt: PixelSource, width: nat, y: nat): seq<string> {
    if y == 0 then [] else NamesAbove(rgbaAt, width, y - 1) + RowNames(rgbaAt, width, y - 1)
  }

  // Object.values of an object with integer keys below n: ascending.
  function Values(rows: map<nat, ImageRow>, n: nat): seq<ImageRow> {
    if n == 0 then []
    else if n - 1 in rows then Values(rows, n - 1) + [rows[n - 1]]
    else Values(rows, n - 1)
  }

  // Every pixel of the first n rows has its final index.
  ghost predicate Indexed(rgbaAt: PixelSource, plane: Plane, width: nat, n: nat, index: map<string, nat>) {
    && |plane| == n
    && forall y :: 0 <= y < n ==> IndexedRow(rgbaAt, plane[y], width, y, index)
  }

  ghost predicate IndexedRow(rgbaAt: PixelSource, row: seq<nat>, n: nat, y: nat, index: map<string, nat>) {
    && |row| == n
    && forall x :: 0 <= x < n ==> HexName(rgbaAt(x, y)) in index && row[x] == IndexOf(rgbaAt(x, y), index)
  }

  lemma IndexedSnoc(rgbaAt: PixelSource, plane: Plane, width: nat, row: seq<nat>, n: nat, index: map<string, nat>)
    requires Indexed(rgbaAt, plane, width, n, index) && IndexedRow(rgbaAt, row, width, n, index)
    ensures Indexed(rgbaAt, plane + [row], width, n + 1, index)
  {
    hide IndexedRow;
  }

  lemma PlaneIsIndexed(rgbaAt: PixelSource, plane: Plane, width: nat, n: nat, index: map<string, nat>)
    requires Indexed(rgbaAt, plane, width, n, index)
    ensures plane == PlaneOf(rgbaAt, width, n, index)
  {
    forall y | 0 <= y < n
      ensures plane[y] == PlaneRow(rgbaAt, width, y, index)
    {
      assert IndexedRow(rgbaAt, plane[y], width, y, index);
    }
  }

  function FinishedRow(row: seq<nat>): ImageRow
    requires row != []
  {
    ImageRow(Runs(row), RowLeft(row), RowRight(row))
  }

  ghost predicate FinishedRows(rows: map<nat, ImageRow>, plane: Plane) {
    forall y :: 0 <= y < |plane| ==> plane[y] != [] && y in rows && rows[y] == FinishedRow(plane[y])
  }

  ghost predicate SpanOf(bounds: Bounds, plane: Plane, width: nat) {
    bounds == Bounds(ScanRows(plane, width).top, 0, ScanRows(plane, width).bottom, 0)
  }

  // The rows and bounds once the rows of the plane are scanned.
  ghost predicate Scanned(rows: map<nat, ImageRow>, bounds: Bounds, plane: Plane, width: nat) {
    && IsPlane(plane, width)
    && (forall y: nat :: y in rows <==> y < |plane|)
    && FinishedRows(rows, plane)
    && SpanOf(bounds, plane, width)
  }

  // The same, with a further row begun.
  ghost predicate ScannedPart(rows: map<nat, ImageRow>, bounds: Bounds, plane: Plane, width: nat, row: seq<nat>) {
    && IsPlane(plane, width)
    && (forall y: nat :: y in rows <==> y <= |plane|)
    && FinishedRows(rows, plane)
    && rows[|plane|] == ImageRow(Runs(row), 0, 0)
    && SpanOf(bounds, plane, width)
  }

  // A pixel joins its row, which is created empty if need be.
  function AppendAt(rows: map<nat, ImageRow>, colorIndex: nat, y: nat): map<nat, ImageRow> {
    var row := if y in rows then rows[y] else ImageRow([], 0, 0);
    rows[y := row.(rects := AppendPixel(row.rects, colorIndex))]
  }

  lemma PixelAppended(rows: map<nat, ImageRow>, bounds: Bounds, plane: Plane, width: nat, row: seq<nat>, c: nat)
    requires if row == [] then Scanned(rows, bounds, plane, width) else ScannedPart(rows, bounds, plane, width, row)
    ensures ScannedPart(AppendAt(rows, c, |plane|), bounds, plane, width, row + [c])
  {
    RunsSnoc(row, c);
    assert row == [] ==> Runs(row) == [];
    hide Runs, IsPlane, SpanOf, FinishedRow, AppendPixel, FinishedRows;
    var n := |plane|;
    FinishedRowsKept(rows, AppendAt(rows, c, n), plane);
    assert AppendAt(rows, c, n)[n] == ImageRow(AppendPixel(Runs(row), c), 0, 0);
  }

  lemma FinishedRowsKept(rows: map<nat, ImageRow>, rows': map<nat, ImageRow>, plane: Plane)
    requires FinishedRows(rows, plane)
    requires forall y :: 0 <= y < |plane| && y in rows ==> y in rows' && rows'[y] == rows[y]
    ensures FinishedRows(rows', plane)
  {
    hide FinishedRow;
  }

  lemma NothingScanned(rgbaAt: PixelSource, width: nat, c: Colors)
    requires width >= 1
    ensures InsertAll(c, NamesAbove(rgbaAt, width, 0)) == c
    ensures Scanned(map[], Bounds(0, 0, 0, 0), [], width)
    ensures Indexed(rgbaAt, [], width, 0, c.index)
  {
  }

  lemma NoPixelsYet(rgbaAt: PixelSource, y: nat, c: Colors)
    ensures InsertAll(c, RowNames(rgbaAt, 0, y)) == c
    ensures IndexedRow(rgbaAt, [], 0, y, c.index)
  {
  }

  lemma IndexGrown(rgbaAt: PixelSource, plane: Plane, width: nat, row: seq<nat>, x: nat, y: nat,
                   index: map<string, nat>, index': map<string, nat>)
    requires Indexed(rgbaAt, plane, width, y, index) && IndexedRow(rgbaAt, row, x, y, index)
    requires forall k :: k in index ==> k in index' && index'[k] == index[k]
    requires HexName(rgbaAt(x, y)) in index'
    ensures Indexed(rgbaAt, plane, width, y, index')
    ensures IndexedRow(rgbaAt, row + [IndexOf(rgbaAt(x, y), index')], x + 1, y, index')
  {
    hide HexName;
    forall i | 0 <= i < y
      ensures IndexedRow(rgbaAt, plane[i], width, i, index')
    {
      assert IndexedRow(rgbaAt, plane[i], width, i, index);
    }
  }

  lemma PartFacts(rows: map<nat, ImageRow>, bounds: Bounds, plane: Plane, width: nat, row: seq<nat>)
    requires |row| == width && ScannedPart(rows, bounds, plane, width, row)
    ensures var y := |plane|;
            && row != [] && y in rows && rows[y].rects == Runs(row) != [] && Runs(row)[|Runs(row)| - 1].length <= width
            && bounds.top <= y && bounds.left == bounds.right == 0
  {
    RunsNonEmpty(row);
    LastRunFits(row);
    hide Runs;
  }

  lemma RowFinished(rows: map<nat, ImageRow>, rows': map<nat, ImageRow>, bounds: Bounds, bounds': Bounds,
                    plane: Plane, width: nat, row: seq<nat>)
    requires |row| == width && ScannedPart(rows, bounds, plane, width, row)
    requires rows' == rows[|plane| := FinishedRow(row)]
    requires var s := UpdateSpan(Span(bounds.top, bounds.bottom), |plane|, IsEmptyRow(Runs(row), width));
             bounds' == Bounds(s.top, 0, s.bottom, 0)
    ensures Scanned(rows', bounds', plane + [row], width)
  {
    hide Runs, RowLeft, RowRight, UpdateSpan, IsEmptyRow;
    var longer := plane + [row];
    assert longer[..|plane|] == plane;
    forall y | 0 <= y < |longer|
      ensures |longer[y]| == width && y in rows' && rows'[y] == FinishedRow(longer[y])
    {
    }
  }

  class Image {
    const width: nat
    const height: nat
    var rows: map<nat, ImageRow>
    var bounds: Bounds
    var rle: Option<string>

    constructor (width: nat, height: nat)
      ensures this.width == width && this.height == height
      ensures rows == map[] && bounds == Bounds(0, 0, 0, 0) && rle == None
    {
      this.width, this.height := width, height;
      rows, bounds, rle := map[], Bounds(0, 0, 0, 0), None;
    }

    // Encodes once and remembers the string.
    method ToRLE(rgbaAt: PixelSource, colors: ColorMap) returns (s: string)
      requires width >= 1
      requires rle == None ==> rows == map[] && bounds == Bounds(0, 0, 0, 0)
      modifies this, colors
      ensures rle == Some(s)
      ensures old(rle) != None ==> s == old(rle).value && colors.View() == old(colors.View())
      ensures old(rle) == None ==>
                && colors.View() == InsertAll(old(colors.View()), NamesAbove(rgbaAt, width, height))
                && s == ImageFormat.Encode(PlaneOf(rgbaAt, width, height, colors.index), width)
    {
      if rle == None {
        s := Encode(rgbaAt, colors);
        rle := Some(s);
      } else {
        s := rle.value;
      }
    }

    method Encode(rgbaAt: PixelSource, colors: ColorMap) returns (s: string)
      requires width >= 1 && rows == map[] && bounds == Bounds(0, 0, 0, 0)
      modifies `rows, `bounds, colors
      ensures colors.View() == InsertAll(old(colors.View()), NamesAbove(rgbaAt, width, height))
      ensures s == ImageFormat.Encode(PlaneOf(rgbaAt, width, height, colors.index), width)
    {
      hide Runs, Scanned, ScannedPart, Indexed, IndexedRow, InsertAll, RowNames, PlaneOf;
      ghost var plane: Plane := [];
      NothingScanned(rgbaAt, width, colors.View());
      for y := 0 to height
        invariant |plane| == y
        invariant colors.View() == InsertAll(old(colors.View()), NamesAbove(rgbaAt, width, y))
        invariant Indexed(rgbaAt, plane, width, y, colors.index)
        invariant Scanned(rows, bounds, plane, width)
      {
        ghost var row := AppendRow(rgbaAt, colors, y, plane);
        InsertAllConcat(old(colors.View()), NamesAbove(rgbaAt, width, y), RowNames(rgbaAt, width, y));
        UpdateImageBounds(y, plane, row);
        IndexedSnoc(rgbaAt, plane, width, row, y, colors.index);
        plane := plane + [row];
      }
      PlaneIsIndexed(rgbaAt, plane, width, height, colors.index);
      s := Print(plane);
    }

    // The inner pixel loop.
    method AppendRow(rgbaAt: PixelSource, colors: ColorMap, y: nat, ghost plane: Plane) returns (ghost row: seq<nat>)
      requires width >= 1 && |plane| == y && Scanned(rows, bounds, plane, width) && Indexed(rgbaAt, plane, width, y, colors.index)
      modifies `rows, colors
      ensures colors.View() == InsertAll(old(colors.View()), RowNames(rgbaAt, width, y))
      ensures |row| == width
      ensures Indexed(rgbaAt, plane, width, y, colors.index) && IndexedRow(rgbaAt, row, width, y, colors.index)
      ensures ScannedPart(rows, bounds, plane, width, row)
    {
      hide Runs, HexName, Scanned, ScannedPart, Indexed, IndexedRow, AppendAt, InsertAll;
      row := [];
      NoPixelsYet(rgbaAt, y, colors.View());
      for x := 0 to width
        invariant |row| == x
        invariant colors.View() == InsertAll(old(colors.View()), RowNames(rgbaAt, x, y))
        invariant Indexed(rgbaAt, plane, width, y, colors.index) && IndexedRow(rgbaAt, row, x, y, colors.index)
        invariant if x == 0 then Scanned(rows, bounds, plane, width) else ScannedPart(rows, bounds, plane, width, row)
      {
        var p := rgbaAt(x, y);
        var hexColor := HexName(p);
        ghost var known := colors.index;
        InsertAllSnoc(old(colors.View()), RowNames(rgbaAt, x, y), hexColor);
        if hexColor !in colors.index {
          colors.Set(hexColor, |colors.index|);
        }
        var colorIndex := if p.a == 0 then 0 else colors.index[hexColor];
        IndexGrown(rgbaAt, plane, width, row, x, y, known, colors.index);
        PixelAppended(rows, bounds, plane, width, row, colorIndex);
        AppendPixelToRect(colorIndex, y);
        row := row + [colorIndex];
      }
    }

    method AppendPixelToRect(colorIndex: nat, y: nat)
      modifies `rows
      ensures rows == AppendAt(old(rows), colorIndex, y)
    {
      if y !in rows {
        rows := rows[y := ImageRow([], 0, 0)];
      }
      var rects := rows[y].rects;
      if |rects| == 0 || rects[|rects| - 1].colorIndex != colorIndex {
        rects := rects + [Rect(1, colorIndex)];
      } else {
        rects := rects[|rects| - 1 := rects[|rects| - 1].(length := rects[|rects| - 1].length + 1)];
      }
      rows := rows[y := rows[y].(rects := rects)];
    }

    method UpdateImageBounds(y: nat, ghost plane: Plane, ghost row: seq<nat>)
      requires |row| == width && y == |plane| && ScannedPart(rows, bounds, plane, width, row)
      modifies `rows, `bounds
      ensures Scanned(rows, bounds, plane + [row], width)
    {
      PartFacts(rows, bounds, plane, width, row);
      hide Runs, ScanRows, Scanned, ScannedPart;
      var rects := rows[y].rects;
      UpdateSpanBounds(y, IsEmptyRow(rects, width));
      rows := rows[y := ImageRow(rects, rects[0].length, width - rects[|rects| - 1].length)];
      RowFinished(old(rows), rows, old(bounds), bounds, plane, width, row);
    }

    // Its top and bottom.
    method UpdateSpanBounds(y: nat, empty: bool)
      requires bounds.top <= y
      modifies `bounds
      ensures var s := UpdateSpan(Span(old(bounds).top, old(bounds).bottom), y, empty);
              bounds == old(bounds).(top := s.top, bottom := s.bottom)
    {
      if !empty && bounds.top == 0 {
        bounds := bounds.(top := y);
      }
      if bounds.top != 0 {
        if empty {
          if bounds.bottom == 0 {
            bounds := bounds.(bottom := y - 1);
          }
        } else if y == 31 {
          bounds := bounds.(bottom := y);
        } else {
          bounds := bounds.(bottom := 0);
        }
      }
    }

    method DeleteEmptyRows()
      requires forall y: nat :: y in rows <==> y < height
      modifies `rows
      ensures forall y: nat :: y in rows <==> y < height && bounds.top <= y <= bounds.bottom
      ensures forall y :: y in rows ==> rows[y] == old(rows)[y]
    {
      for i := 0 to bounds.top
        invariant forall y: nat :: y in rows <==> y < height && i <= y
        invariant forall y :: y in rows ==> rows[y] == old(rows)[y]
      {
        rows := rows - {i};
      }
      var i: int := height - 1;
      while i > bounds.bottom
        invariant bounds.bottom <= i < height || i == height - 1
        invariant forall y: nat :: y in rows <==> y < height && bounds.top <= y <= i
        invariant forall y :: y in rows ==> rows[y] == old(rows)[y]
      {
        rows := rows - {i};
        i := i - 1;
      }
    }

    // Everything after the pixel loops.
    method Print(ghost plane: Plane) returns (s: string)
      requires Scanned(rows, bounds, plane, width) && |plane| == height
      modifies `rows, `bounds
      ensures s == ImageFormat.Encode(plane, width)
    {
      hide Runs, RowLeft, RowRight, ScanRows, EncodedRow, EncodedBounds, KeptRows, Min, Max;
      DeleteEmptyRows();
      var values := Values(rows, height);
      ghost var kept := KeptRows(plane, width);
      ValuesAreKept(plane, rows, width);
      KeptAtTop(plane, width);
      if |values| != 0 {
        var lefts := seq(|values|, i requires 0 <= i < |values| => values[i].left);
        var rights := seq(|values|, i requires 0 <= i < |values| => values[i].right);
        assert lefts == Lefts(kept);
        assert rights == Rights(kept);
        bounds := bounds.(left := Min(lefts), right := Max(rights));
        if |values| == 1 && 0 in rows && IsEmptyRow(rows[0].rects, width) {
          return EMPTY_IMAGE;
        }
      }
      s := PrintRows(values, kept);
    }

    method PrintRows(values: seq<ImageRow>, ghost kept: Plane) returns (s: string)
      requires |values| == |kept|
      requires forall i :: 0 <= i < |kept| ==> values[i].rects == Runs(kept[i])
      ensures s == EncodedBounds(bounds) + EncodedRows(kept, bounds, width)
    {
      hide Runs, EncodedRow, EncodedBounds;
      s := EncodedBounds(bounds);
      for i := 0 to |values|
        invariant EncodedBounds(bounds) + EncodedRows(kept, bounds, width) == s + EncodedRows(kept[i..], bounds, width)
      {
        assert kept[i..][1..] == kept[i + 1..];
        s := s + EncodedRow(values[i].rects, bounds, width);
      }
    }
  }

  // When a single row is kept, it is row 0 exactly when no top was found.
  lemma KeptAtTop(plane: Plane, width: nat)
    requires IsPlane(plane, width)
    ensures var s := ScanRows(plane, width);
            s.top == 0 && KeptRows(plane, width) != [] ==> KeptRows(plane, width)[0] == plane[0]
  {
  }

  lemma {:induction false} ValuesInterval(rows: map<nat, ImageRow>, lo: nat, hi: nat, n: nat)
    requires lo <= hi
    requires forall y :: 0 <= y < n ==> (y in rows <==> lo <= y < hi)
    ensures var values := Values(rows, n);
            && |values| == (if n <= lo then 0 else if n <= hi then n - lo else hi - lo)
            && forall i :: 0 <= i < |values| ==> lo + i in rows && values[i] == rows[lo + i]
  {
    if n > 0 {
      ValuesInterval(rows, lo, hi, n - 1);
    }
  }

  lemma KeptRowsAre(plane: Plane, width: nat)
    ensures var s := ScanRows(plane, width); var kept := KeptRows(plane, width);
            && |kept| == (if plane == [] || s.bottom < s.top then 0 else s.bottom + 1 - s.top)
            && s.bottom < |plane| + 1
            && forall i :: 0 <= i < |kept| ==> s.top + i < |plane| && kept[i] == plane[s.top + i]
  {
  }

  lemma ValuesAreKept(plane: Plane, rows: map<nat, ImageRow>, width: nat)
    requires IsPlane(plane, width)
    requires forall y: nat :: y in rows <==> y < |plane| && ScanRows(plane, width).top <= y <= ScanRows(plane, width).bottom
    requires forall y :: y in rows ==> rows[y] == ImageRow(Runs(plane[y]), RowLeft(plane[y]), RowRight(plane[y]))
    ensures var values := Values(rows, |plane|); var kept := KeptRows(plane, width);
            && |values| == |kept|
            && forall i :: 0 <= i < |kept| ==> kept[i] != [] && values[i] == ImageRow(Runs(kept[i]), RowLeft(kept[i]), RowRight(kept[i]))
  {
    hide Runs, RowLeft, RowRight, ScanRows, KeptRows;
    var s := ScanRows(plane, width);
    KeptRowsAre(plane, width);
    if plane == [] || s.bottom < s.top {
      ValuesInterval(rows, 0, 0, |plane|);
    } else {
      ValuesInterval(rows, s.top, s.bottom + 1, |plane|);
    }
  }
}
