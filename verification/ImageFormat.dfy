// What Image.encode computes (packages/nouns-sdk/src/image/image.ts), over a plane of colour
// indices: plane[y][x] is 0 for a transparent pixel. The class in Image.dfy is proved against it.
module ImageFormat {
  import opened Hex
  import opened RunLength

  type Plane = seq<seq<nat>>

  datatype Bounds = Bounds(top: nat, right: nat, bottom: nat, left: nat)

  // The rows found so far to hold the image, 0 standing for "not found yet".
  datatype Span = Span(top: nat, bottom: nat)

  const EMPTY_IMAGE: string := "0x0000000000"

  ghost predicate IsPlane(plane: Plane, width: nat) {
    width >= 1 && forall y :: 0 <= y < |plane| ==> |plane[y]| == width
  }

  ghost predicate Blank(row: seq<nat>) {
    forall x :: 0 <= x < |row| ==> row[x] == 0
  }

  predicate IsEmptyRow(rects: seq<Rect>, width: nat) {
    rects != [] && rects[0] == Rect(width, 0)
  }

  function UpdateSpan(s: Span, y: nat, empty: bool): Span
    requires s.top <= y
  {
    var top := if !empty && s.top == 0 then y else s.top;
    if top == 0 then Span(0, s.bottom)
    else if empty then Span(top, if s.bottom == 0 then y - 1 else s.bottom)
    else if y == 31 then Span(top, y)
    else Span(top, 0)
  }

  function ScanRows(plane: Plane, width: nat): (s: Span)
    ensures s.top == 0 || s.top < |plane|
    ensures s.bottom == 0 || s.bottom < |plane|
  {
    if plane == [] then Span(0, 0)
    else
      var y := |plane| - 1;
      UpdateSpan(ScanRows(plane[..y], width), y, IsEmptyRow(Runs(plane[y]), width))
  }

  // The rows left once those above the top and below the bottom are deleted.
  function KeptRows(plane: Plane, width: nat): Plane {
    var s := ScanRows(plane, width);
    if plane == [] || s.bottom < s.top then [] else plane[s.top..s.bottom + 1]
  }

  function RowLeft(row: seq<nat>): nat
    requires row != []
  {
    RunsNonEmpty(row);
    Runs(row)[0].length
  }

  function RowRight(row: seq<nat>): nat
    requires row != []
  {
    RunsNonEmpty(row);
    LastRunFits(row);
    |row| - Runs(row)[|Runs(row)| - 1].length
  }

  function Min(numbers: seq<nat>): nat
    requires numbers != []
  {
    var n := |numbers| - 1;
    if n == 0 then numbers[0]
    else
      var before := Min(numbers[..n]);
      if before < numbers[n] then before else numbers[n]
  }

  function Max(numbers: seq<nat>): nat
    requires numbers != []
  {
    var n := |numbers| - 1;
    if n == 0 then numbers[0]
    else
      var before := Max(numbers[..n]);
      if before > numbers[n] then before else numbers[n]
  }

  function Lefts(rows: Plane): seq<nat>
    requires forall y :: 0 <= y < |rows| ==> rows[y] != []
  {
    seq(|rows|, y requires 0 <= y < |rows| => RowLeft(rows[y]))
  }

  function Rights(rows: Plane): seq<nat>
    requires forall y :: 0 <= y < |rows| ==> rows[y] != []
  {
    seq(|rows|, y requires 0 <= y < |rows| => RowRight(rows[y]))
  }

  function ImageBounds(plane: Plane, width: nat): Bounds
    requires forall y :: 0 <= y < |plane| ==> plane[y] != []
  {
    var s := ScanRows(plane, width);
    var kept := KeptRows(plane, width);
    if kept == [] then Bounds(s.top, 0, s.bottom, 0)
    else Bounds(s.top, Max(Rights(kept)), s.bottom, Min(Lefts(kept)))
  }

  // The numbers written for the i-th run of a row: length, colour, or nothing when cropped away.
  function EmitRun(rects: seq<Rect>, i: nat, b: Bounds, width: nat): seq<int>
    requires i < |rects|
  {
    var Rect(length, colorIndex) := rects[i];
    if i == 0 && i == |rects| - 1 then [b.right - b.left, colorIndex]
    else if i == 0 && length > b.left then [length - b.left, colorIndex]
    else if i == 0 && length == b.left then []
    else if i == |rects| - 1 && length > width - b.right then [length - (width - b.right), colorIndex]
    else if i == |rects| - 1 && length == width - b.right then []
    else [length, colorIndex]
  }

  function EmitFrom(rects: seq<Rect>, i: nat, b: Bounds, width: nat): seq<int>
    requires i <= |rects|
    decreases |rects| - i
  {
    if i == |rects| then [] else EmitRun(rects, i, b, width) + EmitFrom(rects, i + 1, b, width)
  }

  // Buffer.from keeps the low byte of each number.
  function ToBytes(numbers: seq<int>): (bytes: seq<Byte>)
    ensures |bytes| == |numbers|
  {
    seq(|numbers|, i requires 0 <= i < |numbers| => numbers[i] % 256)
  }

  function EncodedBounds(b: Bounds): string {
    "0x00" + ToPaddedHex(b.top, 2) + ToPaddedHex(b.right, 2) + ToPaddedHex(b.bottom, 2) + ToPaddedHex(b.left, 2)
  }

  function EncodedRow(rects: seq<Rect>, b: Bounds, width: nat): string {
    HexBytes(ToBytes(EmitFrom(rects, 0, b, width)))
  }

  function EncodedRows(rows: Plane, b: Bounds, width: nat): string {
    if rows == [] then []
    else EncodedRow(Runs(rows[0]), b, width) + EncodedRows(rows[1..], b, width)
  }

  function Encode(plane: Plane, width: nat): string
    requires forall y :: 0 <= y < |plane| ==> plane[y] != []
  {
    var kept := KeptRows(plane, width);
    var b := ImageBounds(plane, width);
    if |kept| == 1 && b.top == 0 && IsEmptyRow(Runs(kept[0]), width) then EMPTY_IMAGE
    else EncodedBounds(b) + EncodedRows(kept, b, width)
  }

  // ----- Rows, runs and blankness

  lemma RunsNonEmpty(row: seq<nat>)
    requires row != []
    ensures Runs(row) != []
  {
  }

  lemma LastRunFits(row: seq<nat>)
    requires row != []
    ensures 0 < Runs(row)[|Runs(row)| - 1].length <= |row|
  {
    RunsExpand(row);
    LastRun(Runs(row));
  }

  lemma EmptyRowIffBlank(row: seq<nat>)
    requires row != []
    ensures IsEmptyRow(Runs(row), |row|) <==> Blank(row)
  {
    RunsExpand(row);
    FirstRun(Runs(row));
    if Blank(row) {
      assert row[0] == Runs(row)[0].colorIndex;
    }
  }

  // ----- The top/bottom state machine

  // Complete description of the span after all rows of the plane.
  ghost predicate SpanFound(plane: Plane, s: Span) {
    if s.top == 0 then
      s.bottom == 0 && forall y :: 1 <= y < |plane| ==> Blank(plane[y])
    else
      var last := |plane| - 1;
      && s.top <= last
      && !Blank(plane[s.top])
      && (forall y :: 1 <= y < s.top ==> Blank(plane[y]))
      && (if Blank(plane[last]) then
            && s.top <= s.bottom < last
            && !Blank(plane[s.bottom])
            && forall y :: s.bottom < y <= last ==> Blank(plane[y])
          else
            s.bottom == if last == 31 then 31 else 0)
  }

  lemma {:induction false} ScanRowsFound(plane: Plane, width: nat)
    requires IsPlane(plane, width)
    ensures SpanFound(plane, ScanRows(plane, width))
  {
    if plane != [] {
      var y := |plane| - 1;
      ScanRowsFound(plane[..y], width);
      EmptyRowIffBlank(plane[y]);
    }
  }

  // ----- Left and right bounds

  lemma {:induction false} MinIsLeast(numbers: seq<nat>)
    requires numbers != []
    ensures forall i :: 0 <= i < |numbers| ==> Min(numbers) <= numbers[i]
    ensures Min(numbers) in numbers
  {
    var n := |numbers| - 1;
    if n > 0 {
      MinIsLeast(numbers[..n]);
    }
  }

  lemma {:induction false} MaxIsGreatest(numbers: seq<nat>)
    requires numbers != []
    ensures forall i :: 0 <= i < |numbers| ==> numbers[i] <= Max(numbers)
    ensures Max(numbers) in numbers
  {
    var n := |numbers| - 1;
    if n > 0 {
      MaxIsGreatest(numbers[..n]);
    }
  }

  // The bounds enclose every kept row's own bounds and are each attained.
  lemma BoundsEnclose(rows: Plane)
    requires rows != [] && forall y :: 0 <= y < |rows| ==> rows[y] != []
    ensures forall y :: 0 <= y < |rows| ==> Min(Lefts(rows)) <= RowLeft(rows[y]) && RowRight(rows[y]) <= Max(Rights(rows))
    ensures exists y :: 0 <= y < |rows| && Min(Lefts(rows)) == RowLeft(rows[y])
    ensures exists y :: 0 <= y < |rows| && Max(Rights(rows)) == RowRight(rows[y])
  {
    MinIsLeast(Lefts(rows));
    MaxIsGreatest(Rights(rows));
    forall y | 0 <= y < |rows|
      ensures Min(Lefts(rows)) <= RowLeft(rows[y]) && RowRight(rows[y]) <= Max(Rights(rows))
    {
      assert Lefts(rows)[y] == RowLeft(rows[y]);
      assert Rights(rows)[y] == RowRight(rows[y]);
    }
  }

  // ----- Cropping

  function Flatten(rects: seq<Rect>): seq<int> {
    if rects == [] then [] else [rects[0].length, rects[0].colorIndex] + Flatten(rects[1..])
  }

  lemma {:induction false} FlattenConcat(a: seq<Rect>, b: seq<Rect>)
    ensures Flatten(a + b) == Flatten(a) + Flatten(b)
  {
    if a == [] {
      assert a + b == b;
    } else {
      FlattenConcat(a[1..], b);
      assert (a + b)[1..] == a[1..] + b;
    }
  }

  // The bounds lie within the row and cut into its first and last runs at most.
  ghost predicate Crops(rects: seq<Rect>, b: Bounds, width: nat) {
    && rects != []
    && b.left <= b.right <= width
    && b.left <= rects[0].length
    && width - rects[|rects| - 1].length <= b.right
  }

  // The runs between the left and right bounds.
  function Trimmed(rects: seq<Rect>, b: Bounds, width: nat): seq<Rect>
    requires Crops(rects, b, width)
  {
    var n := |rects| - 1;
    if n == 0 then [Rect(b.right - b.left, rects[0].colorIndex)]
    else TrimFirst(rects, b) + rects[1..n] + TrimLast(rects, b, width)
  }

  function TrimFirst(rects: seq<Rect>, b: Bounds): seq<Rect>
    requires |rects| > 1 && b.left <= rects[0].length
  {
    if rects[0].length == b.left then [] else [Rect(rects[0].length - b.left, rects[0].colorIndex)]
  }

  function TrimLast(rects: seq<Rect>, b: Bounds, width: nat): seq<Rect>
    requires |rects| > 1 && width - rects[|rects| - 1].length <= b.right <= width
  {
    var last := rects[|rects| - 1];
    if last.length == width - b.right then [] else [Rect(last.length - (width - b.right), last.colorIndex)]
  }

  lemma {:induction false} EmitMiddle(rects: seq<Rect>, i: nat, b: Bounds, width: nat)
    requires Crops(rects, b, width) && 1 <= i < |rects|
    ensures EmitFrom(rects, i, b, width) == Flatten(rects[i..|rects| - 1] + TrimLast(rects, b, width))
    decreases |rects| - i
  {
    var n := |rects| - 1;
    var tail := TrimLast(rects, b, width);
    if i == n {
      assert rects[i..n] + tail == tail;
      assert EmitFrom(rects, n + 1, b, width) == [];
    } else {
      EmitMiddle(rects, i + 1, b, width);
      assert rects[i..n] + tail == [rects[i]] + (rects[i + 1..n] + tail);
    }
  }

  lemma EmitIsTrimmed(rects: seq<Rect>, b: Bounds, width: nat)
    requires Crops(rects, b, width)
    ensures EmitFrom(rects, 0, b, width) == Flatten(Trimmed(rects, b, width))
  {
    if |rects| == 1 {
      assert EmitFrom(rects, 1, b, width) == [];
    } else {
      EmitMiddle(rects, 1, b, width);
      var rest := rects[1..|rects| - 1] + TrimLast(rects, b, width);
      assert Trimmed(rects, b, width) == TrimFirst(rects, b) + rest;
      FlattenConcat(TrimFirst(rects, b), rest);
    }
  }

  lemma ExpandOne(r: Rect)
    ensures Expand([r]) == Repeat(r.colorIndex, r.length)
    ensures TotalLength([r]) == r.length
  {
    assert [r][..0] == [];
  }

  lemma ExpandEnds(first: seq<Rect>, mid: seq<Rect>, last: seq<Rect>)
    ensures Expand(first + mid + last) == Expand(first) + Expand(mid) + Expand(last)
  {
    ExpandConcat(first + mid, last);
    ExpandConcat(first, mid);
  }

  lemma RepeatSlice(c: nat, n: nat, i: nat, j: nat)
    requires i <= j <= n
    ensures Repeat(c, n)[i..j] == Repeat(c, j - i)
  {
  }

  lemma CutEnds(front: seq<nat>, mid: seq<nat>, back: seq<nat>, i: nat, j: nat)
    requires i <= |front| && j <= |back|
    ensures (front + mid + back)[i..|front| + |mid| + j] == front[i..] + mid + back[..j]
  {
  }

  lemma TrimmedExpands(rects: seq<Rect>, b: Bounds, width: nat)
    requires Crops(rects, b, width) && TotalLength(rects) == width
    ensures |Expand(rects)| == width
    ensures Expand(Trimmed(rects, b, width)) == Expand(rects)[b.left..b.right]
  {
    ExpandLength(rects);
    var n := |rects| - 1;
    var first, last := rects[0], rects[n];
    if n == 0 {
      assert rects == [first];
      ExpandOne(first);
      ExpandOne(Rect(b.right - b.left, first.colorIndex));
      RepeatSlice(first.colorIndex, first.length, b.left, b.right);
    } else {
      TrimmedExpandsEnds(rects, b, width);
    }
  }

  lemma TrimmedExpandsEnds(rects: seq<Rect>, b: Bounds, width: nat)
    requires Crops(rects, b, width) && |rects| > 1 && TotalLength(rects) == width == |Expand(rects)|
    ensures Expand(Trimmed(rects, b, width)) == Expand(rects)[b.left..b.right]
  {
    hide Expand, Repeat, TrimFirst, TrimLast;
    var n := |rects| - 1;
    var first, last := rects[0], rects[n];
    var mid := Expand(rects[1..n]);
    var front, back := Repeat(first.colorIndex, first.length), Repeat(last.colorIndex, last.length);
    assert Expand(rects) == front + mid + back by {
      assert rects == [first] + rects[1..n] + [last];
      ExpandEnds([first], rects[1..n], [last]);
      ExpandOne(first);
      ExpandOne(last);
    }
    var j := last.length - (width - b.right);
    assert Expand(Trimmed(rects, b, width)) == front[b.left..] + mid + back[..j] by {
      ExpandEnds(TrimFirst(rects, b), rects[1..n], TrimLast(rects, b, width));
      ExpandTrimFirst(rects, b);
      ExpandTrimLast(rects, b, width);
      RepeatSlice(first.colorIndex, first.length, b.left, first.length);
      RepeatSlice(last.colorIndex, last.length, 0, j);
    }
    CutEnds(front, mid, back, b.left, j);
  }

  lemma TrimmedRuns(rects: seq<Rect>, b: Bounds, width: nat)
    requires Crops(rects, b, width)
    requires forall i :: 0 <= i < |rects| ==> rects[i].length > 0
    ensures b.left < b.right ==> forall i :: 0 <= i < |Trimmed(rects, b, width)| ==> Trimmed(rects, b, width)[i].length > 0
    ensures forall r <- Trimmed(rects, b, width) :: exists i :: 0 <= i < |rects| && rects[i].colorIndex == r.colorIndex
  {
    var n := |rects| - 1;
    assert rects[0].colorIndex == rects[0].colorIndex && rects[n].colorIndex == rects[n].colorIndex;
  }

  // Whatever its border pixels, a kept row is written as runs that stand for exactly its pixels
  // between the bounds; none is empty when the box is not.
  lemma CropExact(row: seq<nat>, b: Bounds)
    requires Crops(Runs(row), b, |row|)
    ensures var written := Trimmed(Runs(row), b, |row|);
            && EmitFrom(Runs(row), 0, b, |row|) == Flatten(written)
            && Expand(written) == row[b.left..b.right]
            && TotalLength(written) == b.right - b.left
            && (b.left < b.right ==> forall i :: 0 <= i < |written| ==> written[i].length > 0)
            && (forall r <- written :: r.colorIndex in row)
  {
    RunsExpand(row);
    RunColours(row);
    ExpandLength(Runs(row));
    EmitIsTrimmed(Runs(row), b, |row|);
    TrimmedExpands(Runs(row), b, |row|);
    ExpandLength(Trimmed(Runs(row), b, |row|));
    TrimmedRuns(Runs(row), b, |row|);
  }

  lemma ExpandTrimFirst(rects: seq<Rect>, b: Bounds)
    requires |rects| > 1 && b.left <= rects[0].length
    ensures Expand(TrimFirst(rects, b)) == Repeat(rects[0].colorIndex, rects[0].length - b.left)
  {
    ExpandOne(Rect(rects[0].length - b.left, rects[0].colorIndex));
  }

  lemma ExpandTrimLast(rects: seq<Rect>, b: Bounds, width: nat)
    requires |rects| > 1 && width - rects[|rects| - 1].length <= b.right <= width
    ensures Expand(TrimLast(rects, b, width)) ==
            Repeat(rects[|rects| - 1].colorIndex, rects[|rects| - 1].length - (width - b.right))
  {
    var last := rects[|rects| - 1];
    ExpandOne(Rect(last.length - (width - b.right), last.colorIndex));
  }

  lemma {:induction false} ExpandColours(rects: seq<Rect>)
    requires forall i :: 0 <= i < |rects| ==> rects[i].length > 0
    ensures forall i :: 0 <= i < |rects| ==> rects[i].colorIndex in Expand(rects)
  {
    if rects != [] {
      var n := |rects| - 1;
      ExpandColours(rects[..n]);
      assert Expand(rects) == Expand(rects[..n]) + Repeat(rects[n].colorIndex, rects[n].length);
      assert Expand(rects)[|Expand(rects[..n])|] == rects[n].colorIndex;
      forall i | 0 <= i < |rects|
        ensures rects[i].colorIndex in Expand(rects)
      {
        assert i < n ==> rects[..n][i] == rects[i];
      }
    }
  }

  lemma RunColours(row: seq<nat>)
    ensures forall i :: 0 <= i < |Runs(row)| ==> Runs(row)[i].colorIndex in row
  {
    RunsExpand(row);
    ExpandColours(Runs(row));
  }
}
