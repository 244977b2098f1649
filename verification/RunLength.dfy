// Runs of equal colour indices: Image.appendPixelToRect in packages/nouns-sdk/src/image/image.ts.
module RunLength {

  datatype Rect = Rect(length: nat, colorIndex: nat)

  function Repeat(c: nat, n: nat): (s: seq<nat>)
    ensures |s| == n
    ensures forall i :: 0 <= i < n ==> s[i] == c
  {
    if n == 0 then [] else Repeat(c, n - 1) + [c]
  }

  // The pixels a run list stands for.
  function Expand(rects: seq<Rect>): seq<nat> {
    if rects == [] then []
    else Expand(rects[..|rects| - 1]) + Repeat(rects[|rects| - 1].colorIndex, rects[|rects| - 1].length)
  }

  function TotalLength(rects: seq<Rect>): nat {
    if rects == [] then 0 else TotalLength(rects[..|rects| - 1]) + rects[|rects| - 1].length
  }

  function AppendPixel(rects: seq<Rect>, c: nat): seq<Rect> {
    if rects == [] || rects[|rects| - 1].colorIndex != c then rects + [Rect(1, c)]
    else rects[|rects| - 1 := Rect(rects[|rects| - 1].length + 1, c)]
  }

  // The run list of a row, one pixel at a time from the left.
  function Runs(row: seq<nat>): seq<Rect> {
    if row == [] then [] else AppendPixel(Runs(row[..|row| - 1]), row[|row| - 1])
  }

  predicate Canonical(rects: seq<Rect>) {
    && (forall i :: 0 <= i < |rects| ==> rects[i].length > 0)
    && (forall i :: 0 < i < |rects| ==> rects[i - 1].colorIndex != rects[i].colorIndex)
  }

  lemma ExpandSnoc(rects: seq<Rect>, r: Rect)
    ensures Expand(rects + [r]) == Expand(rects) + Repeat(r.colorIndex, r.length)
    ensures TotalLength(rects + [r]) == TotalLength(rects) + r.length
  {
    assert (rects + [r])[..|rects|] == rects;
  }

  lemma {:induction false} ExpandConcat(a: seq<Rect>, b: seq<Rect>)
    ensures Expand(a + b) == Expand(a) + Expand(b)
    ensures TotalLength(a + b) == TotalLength(a) + TotalLength(b)
  {
    if b == [] {
      assert a + b == a;
    } else {
      var last := b[|b| - 1];
      assert a + b == (a + b[..|b| - 1]) + [last];
      ExpandSnoc(a + b[..|b| - 1], last);
      ExpandConcat(a, b[..|b| - 1]);
    }
  }

  lemma {:induction false} ExpandLength(rects: seq<Rect>)
    ensures |Expand(rects)| == TotalLength(rects)
  {
    if rects != [] {
      ExpandLength(rects[..|rects| - 1]);
    }
  }

  lemma AppendPixelExpands(rects: seq<Rect>, c: nat)
    ensures Expand(AppendPixel(rects, c)) == Expand(rects) + [c]
  {
    var n := |rects| - 1;
    if rects == [] || rects[n].colorIndex != c {
      ExpandSnoc(rects, Rect(1, c));
      assert Repeat(c, 1) == [c];
    } else {
      var k := rects[n].length;
      assert AppendPixel(rects, c) == rects[..n] + [Rect(k + 1, c)];
      ExpandSnoc(rects[..n], Rect(k + 1, c));
      assert Expand(rects[..n]) + (Repeat(c, k) + [c]) == Expand(rects) + [c];
    }
  }

  // The runs of a row stand for that row, and no two neighbours share a colour.
  lemma {:induction false} RunsExpand(row: seq<nat>)
    ensures Expand(Runs(row)) == row
    ensures Canonical(Runs(row))
  {
    hide Expand, Canonical, AppendPixel;
    NothingCanonical();
    if row != [] {
      var front, c := row[..|row| - 1], row[|row| - 1];
      RunsExpand(front);
      assert Runs(row) == AppendPixel(Runs(front), c);
      hide Runs;
      AppendPixelExpands(Runs(front), c);
      AppendPixelCanonical(Runs(front), c);
      assert row == front + [c];
    }
  }

  lemma NothingCanonical()
    ensures Canonical([]) && Expand([]) == []
  {
  }

  lemma AppendPixelCanonical(rects: seq<Rect>, c: nat)
    requires Canonical(rects)
    ensures Canonical(AppendPixel(rects, c))
  {
  }

  lemma RunsSnoc(row: seq<nat>, c: nat)
    ensures Runs(row + [c]) == AppendPixel(Runs(row), c)
  {
    assert (row + [c])[..|row|] == row;
  }

  // n pixels of one colour at once: they lengthen the last run or add one run.
  function AppendRun(rects: seq<Rect>, c: nat, n: nat): seq<Rect> {
    if n == 0 then rects
    else if rects == [] || rects[|rects| - 1].colorIndex != c then rects + [Rect(n, c)]
    else rects[|rects| - 1 := Rect(rects[|rects| - 1].length + n, c)]
  }

  lemma AppendRunStep(rects: seq<Rect>, c: nat, n: nat)
    ensures AppendPixel(AppendRun(rects, c, n), c) == AppendRun(rects, c, n + 1)
  {
  }

  lemma {:induction false} RunsAppendRun(row: seq<nat>, c: nat, n: nat)
    ensures Runs(row + Repeat(c, n)) == AppendRun(Runs(row), c, n)
  {
    if n == 0 {
      assert row + Repeat(c, n) == row;
    } else {
      RunsAppendRun(row, c, n - 1);
      RunsSnoc(row + Repeat(c, n - 1), c);
      assert row + Repeat(c, n) == row + Repeat(c, n - 1) + [c];
      AppendRunStep(Runs(row), c, n - 1);
    }
  }

  // No run list with the same pixels is shorter, and none of the same size differs.
  lemma {:induction false} RunsShortestUnique(rects: seq<Rect>)
    ensures |Runs(Expand(rects))| <= |rects|
    ensures |Runs(Expand(rects))| == |rects| ==> rects == Runs(Expand(rects))
  {
    if rects != [] {
      var init, last := rects[..|rects| - 1], rects[|rects| - 1];
      assert Expand(rects) == Expand(init) + Repeat(last.colorIndex, last.length);
      assert rects == init + [last];
      hide Expand, Runs, Repeat;
      RunsShortestUnique(init);
      RunsAppendRun(Expand(init), last.colorIndex, last.length);
      AppendRunLength(Runs(Expand(init)), last.colorIndex, last.length);
    }
  }

  // Appending a run adds at most one entry, and adds one only as it stands.
  lemma AppendRunLength(rects: seq<Rect>, c: nat, n: nat)
    ensures |rects| <= |AppendRun(rects, c, n)| <= |rects| + 1
    ensures |AppendRun(rects, c, n)| == |rects| + 1 ==> AppendRun(rects, c, n) == rects + [Rect(n, c)]
  {
  }

  // A canonical run list is the one the encoder builds for its pixels.
  lemma {:induction false} CanonicalIsRuns(rects: seq<Rect>)
    requires Canonical(rects)
    ensures Runs(Expand(rects)) == rects
  {
    if rects != [] {
      var init, last := rects[..|rects| - 1], rects[|rects| - 1];
      CanonicalIsRuns(init);
      RunsAppendRun(Expand(init), last.colorIndex, last.length);
      assert rects == init + [last];
    }
  }

  // The first and last runs in terms of pixels.
  lemma {:induction false} FirstRun(rects: seq<Rect>)
    requires Canonical(rects) && rects != []
    ensures rects[0].length <= |Expand(rects)|
    ensures forall x :: 0 <= x < rects[0].length ==> Expand(rects)[x] == rects[0].colorIndex
    ensures |rects| > 1 ==> rects[0].length < |Expand(rects)|
    ensures |rects| > 1 ==> Expand(rects)[rects[0].length] != rects[0].colorIndex
    ensures |rects| == 1 ==> rects[0].length == |Expand(rects)|
  {
    var init, last := rects[..|rects| - 1], rects[|rects| - 1];
    if |rects| == 1 {
      assert init == [];
      assert Expand(rects) == Repeat(last.colorIndex, last.length);
    } else {
      FirstRun(init);
      assert Expand(rects) == Expand(init) + Repeat(last.colorIndex, last.length);
      assert Expand(rects)[|Expand(init)|] == last.colorIndex;
    }
  }

  lemma LastRun(rects: seq<Rect>)
    requires Canonical(rects) && rects != []
    ensures var n := |Expand(rects)|; var k := rects[|rects| - 1].length;
            && 0 < k <= n
            && (forall x :: n - k <= x < n ==> Expand(rects)[x] == rects[|rects| - 1].colorIndex)
            && (|rects| > 1 ==> k < n && Expand(rects)[n - k - 1] != rects[|rects| - 1].colorIndex)
  {
    var init, last := rects[..|rects| - 1], rects[|rects| - 1];
    if |rects| > 1 {
      var before := init[|init| - 1];
      assert Expand(init) == Expand(init[..|init| - 1]) + Repeat(before.colorIndex, before.length);
    }
  }
}
