// PNGCollectionEncoder (packages/nouns-sdk/src/image/png-collection-encoder.ts): one growing palette
// shared by every image encoded.
module Encoder {
  import opened Wrappers
  import opened Hex
  import opened ImageFormat
  import opened Palette
  import opened Images
  import opened Svg
  import opened RoundTrip

  datatype Png = Png(width: nat, height: nat, rgbaAt: PixelSource)

  const TRANSPARENT: string := ""

  // The colour map after the constructor has set the first n given colours.
  function SeededUpTo(given: seq<string>, n: nat): Colors
    requires n <= |given|
  {
    if n == 0 then Put(Colors([], map[]), TRANSPARENT, 0)
    else Put(SeededUpTo(given, n - 1), given[n - 1], n - 1)
  }

  function Seeded(given: seq<string>): Colors {
    SeededUpTo(given, |given|)
  }

  function PaletteAfter(c: Colors, pngs: seq<Png>): Colors {
    if pngs == [] then c
    else
      var png := pngs[|pngs| - 1];
      InsertAll(PaletteAfter(c, pngs[..|pngs| - 1]), NamesAbove(png.rgbaAt, png.width, png.height))
  }

  // The plane of colour indices of the i-th image, as indices stood when it was encoded.
  function PlaneAt(c: Colors, pngs: seq<Png>, i: nat): Plane
    requires i < |pngs|
  {
    PlaneOf(pngs[i].rgbaAt, pngs[i].width, pngs[i].height, PaletteAfter(c, pngs[..i + 1]).index)
  }

  function RleAt(c: Colors, pngs: seq<Png>, i: nat): string
    requires i < |pngs| && pngs[i].width >= 1
  {
    Encode(PlaneAt(c, pngs, i), pngs[i].width)
  }

  datatype Call = Call(name: string, png: Png, folder: Option<string>)

  // All an encoder holds: the image names in the order of the Map's keys.
  datatype Collection = Collection(colors: Colors, imageNames: seq<string>, images: map<string, string>,
                                   folders: map<string, seq<string>>)

  // An empty folder name counts as none.
  predicate FiledIn(call: Call, folder: string) {
    call.folder == Some(folder) && folder != ""
  }

  function Filed(folders: map<string, seq<string>>, folder: Option<string>, name: string): map<string, seq<string>> {
    if folder == None || folder == Some("") then folders
    else folders[folder.value := (if folder.value in folders then folders[folder.value] else []) + [name]]
  }

  function AddImage(c: Collection, call: Call): Collection
    requires call.png.width >= 1
  {
    var png := call.png;
    var colors := InsertAll(c.colors, NamesAbove(png.rgbaAt, png.width, png.height));
    Collection(colors,
      if call.name in c.images then c.imageNames else c.imageNames + [call.name],
      c.images[call.name := Encode(PlaneOf(png.rgbaAt, png.width, png.height, colors.index), png.width)],
      Filed(c.folders, call.folder, call.name))
  }

  class PNGCollectionEncoder {
    const colors: ColorMap
    var imageNames: seq<string>
    var images: map<string, string>
    var folders: map<string, seq<string>>

    ghost function View(): Collection
      reads this, colors
    {
      Collection(colors.View(), imageNames, images, folders)
    }

    constructor (given: seq<string>)
      ensures fresh(colors)
      ensures View() == Collection(Seeded(given), [], map[], map[])
    {
      var m := new ColorMap();
      m.Set(TRANSPARENT, 0);
      for i := 0 to |given|
        invariant fresh(m) && m.View() == SeededUpTo(given, i)
      {
        m.Set(given[i], i);
      }
      colors := m;
      imageNames, images, folders := [], map[], map[];
    }

    method EncodeImage(name: string, png: Png, folder: Option<string>) returns (rle: string)
      requires png.width >= 1
      modifies this, colors
      ensures View() == AddImage(old(View()), Call(name, png, folder))
      ensures rle == images[name]
    {
      hide Encode, PlaneOf, InsertAll, NamesAbove;
      var image := new Image(png.width, png.height);
      rle := image.ToRLE(png.rgbaAt, colors);
      if name !in images {
        imageNames := imageNames + [name];
      }
      images := images[name := rle];
      if folder.Some? && folder.value != "" {
        if folder.value !in folders {
          folders := folders[folder.value := []];
        }
        folders := folders[folder.value := folders[folder.value] + [name]];
      }
      assert folders == Filed(old(folders), folder, name);
      hide Filed;
    }
  }

  // ----- When a given palette starts in order

  ghost predicate Distinct(names: seq<string>) {
    forall i, j :: 0 <= i < j < |names| ==> names[i] != names[j]
  }

  // The first colour is the transparent one, or is given twice in a row so that its second index
  // makes room for it; after the first colour there are neither repeats nor the transparent one.
  ghost predicate StartsInOrder(given: seq<string>) {
    given == [] ||
    (&& (given[0] == TRANSPARENT || (|given| > 1 && given[0] == given[1]))
     && TRANSPARENT !in given[1..]
     && Distinct(given[1..]))
  }

  ghost predicate SeedFacts(given: seq<string>, n: nat, c: Colors)
    requires n <= |given|
  {
    && c.keys != [] && c.keys[0] == TRANSPARENT
    && (n > 0 && given[0] != TRANSPARENT ==> |c.keys| > 1 && c.keys[1] == given[0])
    && (forall k :: k in c.index ==> (k == TRANSPARENT && c.index[k] == 0) || (c.index[k] < n && given[c.index[k]] == k))
    && (forall i :: 0 <= i < n ==> given[i] in c.index && c.index[given[i]] >= i)
  }

  lemma SeedFactsStep(given: seq<string>, n: nat, c: Colors)
    requires n < |given| && SeedFacts(given, n, c)
    requires n == 0 ==> c == Colors([TRANSPARENT], map[TRANSPARENT := 0])
    ensures SeedFacts(given, n + 1, Put(c, given[n], n))
  {
    var c' := Put(c, given[n], n);
    forall i | 0 <= i < n + 1
      ensures given[i] in c'.index && c'.index[given[i]] >= i
    {
    }
  }

  lemma {:induction false} SeededFacts(given: seq<string>, n: nat)
    requires n <= |given|
    ensures SeedFacts(given, n, SeededUpTo(given, n))
  {
    hide SeedFacts, Put, SeededUpTo;
    SeededNone(given);
    if n == 0 {
      NoSeedFacts(given);
    } else {
      SeededFacts(given, n - 1);
      SeedFactsStep(given, n - 1, SeededUpTo(given, n - 1));
      SeededStep(given, n);
    }
  }

  lemma SeededStep(given: seq<string>, n: nat)
    requires 0 < n <= |given|
    ensures SeededUpTo(given, n) == Put(SeededUpTo(given, n - 1), given[n - 1], n - 1)
  {
  }

  lemma NoSeedFacts(given: seq<string>)
    ensures SeedFacts(given, 0, Colors([TRANSPARENT], map[TRANSPARENT := 0]))
  {
  }

  lemma SeededNone(given: seq<string>)
    ensures SeededUpTo(given, 0) == Colors([TRANSPARENT], map[TRANSPARENT := 0])
  {
    assert SeededUpTo(given, 0) == Put(Colors([], map[]), TRANSPARENT, 0);
  }

  lemma PutFresh(c: Colors, key: string)
    requires Ordered(c) && key !in c.index
    ensures Ordered(Put(c, key, |c.keys|))
    ensures Put(c, key, |c.keys|).keys == c.keys + [key]
  {
  }

  lemma SeededOne(given: seq<string>)
    requires given != []
    ensures SeededUpTo(given, 0) == Colors([TRANSPARENT], map[TRANSPARENT := 0])
    ensures SeededUpTo(given, 1) ==
            if given[0] == TRANSPARENT then SeededUpTo(given, 0)
            else Colors([TRANSPARENT, given[0]], map[TRANSPARENT := 0, given[0] := 0])
  {
    var c := SeededUpTo(given, 0);
    assert c == Put(Colors([], map[]), TRANSPARENT, 0);
    assert SeededUpTo(given, 1) == Put(c, given[0], 0);
  }

  lemma SeededTwo(given: seq<string>)
    requires StartsInOrder(given) && |given| >= 2
    ensures Ordered(SeededUpTo(given, 2)) && SeededUpTo(given, 2).keys == [TRANSPARENT, given[1]]
  {
    var key := given[1];
    assert key == given[1..][0] != TRANSPARENT && (given[0] == TRANSPARENT || given[0] == key);
    hide StartsInOrder;
    SeededOne(given);
    assert SeededUpTo(given, 2) == Put(SeededUpTo(given, 1), key, 1);
    hide SeededUpTo, Put, Ordered;
    AfterTransparent(key);
  }

  lemma AfterTransparent(key: string)
    requires key != TRANSPARENT
    ensures var first := Colors([TRANSPARENT], map[TRANSPARENT := 0]); var next := Put(first, key, 1);
            && Ordered(next) && next.keys == [TRANSPARENT, key]
            && Put(Colors([TRANSPARENT, key], map[TRANSPARENT := 0, key := 0]), key, 1) == next
  {
    var first := Colors([TRANSPARENT], map[TRANSPARENT := 0]);
    assert Ordered(first);
    hide Ordered;
    PutFresh(first, key);
    assert map[TRANSPARENT := 0, key := 0][key := 1] == map[TRANSPARENT := 0][key := 1];
  }

  // Past the first two colours, every given colour is new.
  lemma LaterAreNew(given: seq<string>, n: nat, i: nat)
    requires StartsInOrder(given) && 2 <= n < |given| && i < n
    ensures given[n] != TRANSPARENT && given[i] != given[n]
  {
    var tail := given[1..];
    assert tail[n - 1] == given[n] && tail[0] == given[1];
    if i > 0 {
      assert tail[i - 1] == given[i];
    }
  }

  lemma SeedStep(given: seq<string>, n: nat, c: Colors)
    requires 1 <= n < |given| && Ordered(c) && c.keys == [TRANSPARENT] + given[1..n] && given[n] !in c.index
    ensures Ordered(Put(c, given[n], n)) && Put(c, given[n], n).keys == [TRANSPARENT] + given[1..n + 1]
  {
    PutFresh(c, given[n]);
    hide Put, Ordered;
    assert given[1..n + 1] == given[1..n] + [given[n]];
  }

  lemma {:induction false} SeededInOrder(given: seq<string>, n: nat)
    requires 2 <= n <= |given| && StartsInOrder(given)
    ensures Ordered(SeededUpTo(given, n)) && SeededUpTo(given, n).keys == [TRANSPARENT] + given[1..n]
  {
    hide Ordered, StartsInOrder, Put;
    if n == 2 {
      SeededTwo(given);
      assert given[1..2] == [given[1]];
    } else {
      SeededInOrder(given, n - 1);
      SeededFresh(given, n - 1);
      SeedStep(given, n - 1, SeededUpTo(given, n - 1));
    }
  }

  lemma SeededFresh(given: seq<string>, n: nat)
    requires 2 <= n < |given| && StartsInOrder(given)
    ensures given[n] !in SeededUpTo(given, n).index
  {
    hide StartsInOrder, SeededUpTo;
    SeededFacts(given, n);
    forall i: nat | i < n
      ensures given[n] != TRANSPARENT && given[i] != given[n]
    {
      LaterAreNew(given, n, i);
    }
  }

  lemma OrderForcesStart(given: seq<string>)
    requires Ordered(Seeded(given)) && given != []
    ensures StartsInOrder(given)
  {
    var n, c := |given|, Seeded(given);
    SeededFacts(given, n);
    assert c.index[given[n - 1]] == n - 1;
    var last := |c.keys| - 1;
    assert c.index[c.keys[last]] == last;
    assert |c.keys| == n;
    forall p | 1 <= p < n
      ensures given[1..][p - 1] == c.keys[p] != TRANSPARENT
    {
      assert c.index[c.keys[p]] == p && c.index[c.keys[0]] == 0;
    }
    forall p, q | 0 <= p < q < n - 1
      ensures given[1..][p] != given[1..][q]
    {
      assert c.index[c.keys[p + 1]] == p + 1 && c.index[c.keys[q + 1]] == q + 1;
    }
    if given[0] != TRANSPARENT {
      assert c.index[c.keys[1]] == 1;
    }
  }

  // A given palette leaves every key with its position as its index in exactly these cases.
  lemma SeedOrderExact(given: seq<string>)
    ensures Ordered(Seeded(given)) <==> StartsInOrder(given)
  {
    if given == [] {
      assert Seeded(given) == Colors([TRANSPARENT], map[TRANSPARENT := 0]);
    } else {
      if Ordered(Seeded(given)) {
        OrderForcesStart(given);
      }
      if StartsInOrder(given) {
        if |given| == 1 { SeededOne(given); } else { SeededInOrder(given, |given|); }
      }
    }
  }

  // ----- Many images, one palette

  lemma {:induction false} PaletteGrows(c: Colors, pngs: seq<Png>, i: nat)
    requires Ordered(c) && i <= |pngs|
    ensures Ordered(PaletteAfter(c, pngs))
    ensures Extends(PaletteAfter(c, pngs[..i]), PaletteAfter(c, pngs))
    ensures Extends(c, PaletteAfter(c, pngs))
  {
    hide Insert, InsertAll, NamesAbove, Ordered;
    var n := |pngs| - 1;
    if i == |pngs| {
      assert pngs[..i] == pngs;
      if n >= 0 {
        PaletteGrows(c, pngs[..n], n);
        InsertAllGrows(PaletteAfter(c, pngs[..n]), NamesAbove(pngs[n].rgbaAt, pngs[n].width, pngs[n].height));
      }
    } else {
      PaletteGrows(c, pngs[..n], i);
      assert pngs[..n][..i] == pngs[..i];
      InsertAllGrows(PaletteAfter(c, pngs[..n]), NamesAbove(pngs[n].rgbaAt, pngs[n].width, pngs[n].height));
    }
  }

  function AlphaPlane(png: Png): (plane: Plane)
    ensures |plane| == png.height
    ensures forall y :: 0 <= y < png.height ==> |plane[y]| == png.width
    ensures forall y, x :: 0 <= y < png.height && 0 <= x < png.width ==>
              plane[y][x] == if png.rgbaAt(x, y).a == 0 then 0 else 1
  {
    seq(png.height, y requires 0 <= y < png.height =>
      seq<nat>(png.width, x requires 0 <= x < png.width => if png.rgbaAt(x, y).a == 0 then 0 else 1))
  }

  // An image the format can hold: at most 256 by 256, with a clear border.
  ghost predicate Encodable(png: Png) {
    && 1 <= png.width <= 256 && png.height <= 256
    && BorderClear(AlphaPlane(png), png.width)
  }

  // The pixel of an image at a cell, if there is an opaque one.
  function OpaqueAt(png: Png, x: nat, y: nat): Option<RGBA> {
    if x < png.width && y < png.height && png.rgbaAt(x, y).a != 0 then Some(png.rgbaAt(x, y)) else None
  }

  // The fill is the pixel's red, green and blue, a byte each, read as one hexadecimal number.
  predicate ColoredAs(fill: Option<string>, pixel: Option<RGBA>) {
    match pixel
    case None => fill == None
    case Some(p) => fill.Some? && |fill.value| == 6 && ParseHex(fill.value) == Some(65536 * p.r + 256 * p.g + p.b)
  }

  function NameAt(pixel: Option<RGBA>): Option<string> {
    match pixel
    case None => None
    case Some(p) => Some(HexName(p))
  }

  lemma NameColors(pixel: Option<RGBA>)
    ensures ColoredAs(NameAt(pixel), pixel)
  {
    if pixel.Some? {
      RgbToHexExact(pixel.value.r, pixel.value.g, pixel.value.b);
    }
  }

  // The pixel of the topmost part opaque at a cell, among the chosen images.
  function TopOpaque(pngs: seq<Png>, chosen: seq<nat>, x: nat, y: nat): Option<RGBA>
    requires forall k :: 0 <= k < |chosen| ==> chosen[k] < |pngs|
  {
    if chosen == [] then None
    else
      var n := |chosen| - 1;
      var top := OpaqueAt(pngs[chosen[n]], x, y);
      if top.Some? then top else TopOpaque(pngs, chosen[..n], x, y)
  }

  function Parts(c: Colors, pngs: seq<Png>, chosen: seq<nat>): seq<string>
    requires forall k :: 0 <= k < |chosen| ==> chosen[k] < |pngs| && pngs[chosen[k]].width >= 1
  {
    seq(|chosen|, k requires 0 <= k < |chosen| => RleAt(c, pngs, chosen[k]))
  }

  lemma {:induction false} RowNamesMember(rgbaAt: PixelSource, n: nat, x: nat, y: nat)
    requires x < n
    ensures HexName(rgbaAt(x, y)) in RowNames(rgbaAt, n, y)
  {
    hide HexName;
    var names, last := RowNames(rgbaAt, n - 1, y), HexName(rgbaAt(n - 1, y));
    assert RowNames(rgbaAt, n, y) == names + [last];
    if x < n - 1 {
      RowNamesMember(rgbaAt, n - 1, x, y);
    }
    hide RowNames;
  }

  lemma {:induction false} NamesAboveMember(rgbaAt: PixelSource, width: nat, n: nat, x: nat, y: nat)
    requires x < width && y < n
    ensures HexName(rgbaAt(x, y)) in NamesAbove(rgbaAt, width, n)
  {
    hide HexName, RowNames;
    var above, last := NamesAbove(rgbaAt, width, n - 1), RowNames(rgbaAt, width, n - 1);
    assert NamesAbove(rgbaAt, width, n) == above + last;
    if y < n - 1 {
      NamesAboveMember(rgbaAt, width, n - 1, x, y);
    } else {
      RowNamesMember(rgbaAt, width, x, y);
    }
    hide NamesAbove;
  }

  // Once an image is encoded, every colour it has keeps its name and its index.
  lemma NameKept(c: Colors, pngs: seq<Png>, i: nat, x: nat, y: nat)
    requires Ordered(c) && c.keys != [] && c.keys[0] == TRANSPARENT && i < |pngs|
    requires y < pngs[i].height && x < pngs[i].width
    ensures var then_, final, name := PaletteAfter(c, pngs[..i + 1]), PaletteAfter(c, pngs), HexName(pngs[i].rgbaAt(x, y));
            && name in then_.index && final.keys != [] && final.keys[0] == TRANSPARENT
            && then_.index[name] < |final.keys| && final.keys[then_.index[name]] == name
  {
    hide InsertAll, NamesAbove, HexName, PaletteAfter, Ordered;
    var png := pngs[i];
    PaletteGrows(c, pngs, i + 1);
    PaletteGrows(c, pngs[..i + 1], i);
    PaletteGrows(c, pngs[..i], i);
    NamesAboveMember(png.rgbaAt, png.width, png.height, x, y);
    PaletteStep(c, pngs, i);
    InsertAllGrows(PaletteAfter(c, pngs[..i]), NamesAbove(png.rgbaAt, png.width, png.height));
    NameStays(PaletteAfter(c, pngs[..i + 1]), PaletteAfter(c, pngs), HexName(png.rgbaAt(x, y)));
    FirstStays(c, PaletteAfter(c, pngs));
  }

  lemma NameStays(c: Colors, c': Colors, name: string)
    requires Ordered(c) && Extends(c, c') && name in c.index
    ensures c.index[name] < |c'.keys| && c'.keys[c.index[name]] == name
  {
  }

  lemma FirstStays(c: Colors, c': Colors)
    requires c.keys != [] && Extends(c, c')
    ensures c'.keys != [] && c'.keys[0] == c.keys[0]
  {
  }

  lemma PaletteStep(c: Colors, pngs: seq<Png>, i: nat)
    requires i < |pngs|
    ensures PaletteAfter(c, pngs[..i + 1]) ==
            InsertAll(PaletteAfter(c, pngs[..i]), NamesAbove(pngs[i].rgbaAt, pngs[i].width, pngs[i].height))
  {
    assert pngs[..i + 1][..i] == pngs[..i];
    hide InsertAll, NamesAbove;
  }

  // What holds of one image of a run: its plane has the indices of the final palette, so its
  // opaque pixels want exactly their own colours and its border is as clear as its alpha's.
  lemma PlaneFinal(c: Colors, pngs: seq<Png>, i: nat, x: nat, y: nat)
    requires Ordered(c) && c.keys != [] && c.keys[0] == TRANSPARENT && i < |pngs|
    requires y < pngs[i].height && x < pngs[i].width
    ensures var final := PaletteAfter(c, pngs); var p := pngs[i].rgbaAt(x, y);
            && PlaneAt(c, pngs, i)[y][x] < |final.keys|
            && (p.a == 0 <==> PlaneAt(c, pngs, i)[y][x] == 0)
            && (p.a != 0 ==> final.keys[PlaneAt(c, pngs, i)[y][x]] == HexName(p))
  {
    var png, p := pngs[i], pngs[i].rgbaAt(x, y);
    assert PlaneAt(c, pngs, i)[y][x] == IndexOf(p, PaletteAfter(c, pngs[..i + 1]).index);
    RgbToHexInjective(p.r, p.g, p.b, p.r, p.g, p.b);
    assert HexName(p) != TRANSPARENT;
    hide PaletteAfter, PlaneAt, HexName, Ordered;
    NameKept(c, pngs, i, x, y);
  }

  // The border conditions only look at which pixels are transparent.
  lemma BorderOfSameZeros(a: Plane, b: Plane, width: nat)
    requires IsPlane(a, width) && IsPlane(b, width) && |a| == |b|
    requires forall y, x :: 0 <= y < |a| && 0 <= x < width ==> (a[y][x] == 0 <==> b[y][x] == 0)
    ensures BorderClear(a, width) ==> BorderClear(b, width)
  {
    forall y | 0 <= y < |a|
      ensures Blank(a[y]) <==> Blank(b[y])
    {
    }
  }

  lemma PlaneShape(c: Colors, pngs: seq<Png>, i: nat)
    requires i < |pngs|
    ensures |PlaneAt(c, pngs, i)| == pngs[i].height
    ensures forall row <- PlaneAt(c, pngs, i) :: |row| == pngs[i].width
  {
    hide PaletteAfter;
  }

  // Indices fit into a byte and are 0 exactly where the image is transparent.
  lemma PlaneIndices(c: Colors, pngs: seq<Png>, i: nat)
    requires Ordered(c) && c.keys != [] && c.keys[0] == TRANSPARENT && i < |pngs|
    requires |PaletteAfter(c, pngs).keys| <= 256
    ensures var plane, png := PlaneAt(c, pngs, i), pngs[i];
            && |plane| == png.height && (forall row <- plane :: |row| == png.width)
            && (forall y, x :: 0 <= y < png.height && 0 <= x < png.width ==> plane[y][x] < 256)
            && (forall y, x :: 0 <= y < png.height && 0 <= x < png.width ==> (plane[y][x] == 0 <==> png.rgbaAt(x, y).a == 0))
  {
    PlaneShape(c, pngs, i);
    hide PlaneAt, PaletteAfter, Ordered, HexName;
    forall y, x | 0 <= y < pngs[i].height && 0 <= x < pngs[i].width
      ensures PlaneAt(c, pngs, i)[y][x] < 256
      ensures PlaneAt(c, pngs, i)[y][x] == 0 <==> pngs[i].rgbaAt(x, y).a == 0
    {
      PlaneFinal(c, pngs, i, x, y);
    }
  }

  lemma PlaneEncodable(c: Colors, pngs: seq<Png>, i: nat)
    requires Ordered(c) && c.keys != [] && c.keys[0] == TRANSPARENT && i < |pngs|
    requires Encodable(pngs[i]) && |PaletteAfter(c, pngs).keys| <= 256
    ensures Fits(PlaneAt(c, pngs, i), pngs[i].width)
    ensures BorderClear(PlaneAt(c, pngs, i), pngs[i].width)
  {
    hide BorderClear, PlaneAt, PaletteAfter, Ordered;
    PlaneIndices(c, pngs, i);
    BorderOfSameZeros(AlphaPlane(pngs[i]), PlaneAt(c, pngs, i), pngs[i].width);
  }

  lemma WantedIsColour(c: Colors, pngs: seq<Png>, i: nat, x: nat, y: nat)
    requires Ordered(c) && c.keys != [] && c.keys[0] == TRANSPARENT && i < |pngs|
    ensures Wanted(PlaneAt(c, pngs, i), PaletteAfter(c, pngs).keys, x, y) == NameAt(OpaqueAt(pngs[i], x, y))
  {
    hide HexName;
    if x < pngs[i].width && y < pngs[i].height {
      PlaneFinal(c, pngs, i, x, y);
    }
  }

  // One part against the final palette, whenever it was encoded.
  lemma PartShows(c: Colors, pngs: seq<Png>, i: nat, x: nat, y: nat)
    requires Ordered(c) && c.keys != [] && c.keys[0] == TRANSPARENT && i < |pngs|
    requires Encodable(pngs[i]) && |PaletteAfter(c, pngs).keys| <= 256
    ensures var decoded := DecodeImage(RleAt(c, pngs, i));
            && decoded.Some?
            && var shown := Shown(PaintPart(decoded.value, PaletteAfter(c, pngs).keys), x, y);
               shown == NameAt(OpaqueAt(pngs[i], x, y)) && ColoredAs(shown, OpaqueAt(pngs[i], x, y))
  {
    NameColors(OpaqueAt(pngs[i], x, y));
    hide ColoredAs, NameAt, OpaqueAt;
    hide DecodeImage, Encode, PaintPart, Shown, PlaneAt, PaletteAfter, HexName, Fits, BorderClear, Encodable, Wanted;
    PlaneEncodable(c, pngs, i);
    EncodableWidth(pngs[i]);
    RoundTripExact(PlaneAt(c, pngs, i), pngs[i].width, PaletteAfter(c, pngs).keys);
    WantedIsColour(c, pngs, i, x, y);
  }

  lemma EncodableWidth(png: Png)
    requires Encodable(png)
    ensures png.width >= 1
  {
  }

  lemma {:induction false} LayersTop(c: Colors, pngs: seq<Png>, chosen: seq<nat>, x: nat, y: nat)
    requires Ordered(c) && c.keys != [] && c.keys[0] == TRANSPARENT
    requires |PaletteAfter(c, pngs).keys| <= 256
    requires forall k :: 0 <= k < |chosen| ==> chosen[k] < |pngs| && pngs[chosen[k]].width >= 1 && Encodable(pngs[chosen[k]])
    ensures var painted := PaintParts(Parts(c, pngs, chosen), PaletteAfter(c, pngs).keys);
            painted.Some? && Shown(painted.value, x, y) == NameAt(TopOpaque(pngs, chosen, x, y))
  {
    hide DecodeImage, RleAt, PaintPart, PaletteAfter, HexName, Encodable, Ordered, Shown, OpaqueAt, ColoredAs;
    var palette := PaletteAfter(c, pngs).keys;
    var parts := Parts(c, pngs, chosen);
    if chosen == [] {
      assert parts == [];
      ShownNowhere([], x, y);
    } else {
      var n := |chosen| - 1;
      LayersTop(c, pngs, chosen[..n], x, y);
      PartShows(c, pngs, chosen[n], x, y);
      assert parts[..n] == Parts(c, pngs, chosen[..n]) && parts[n] == RleAt(c, pngs, chosen[n]);
      hide Parts;
      ShownConcat(PaintParts(parts[..n], palette).value, PaintPart(DecodeImage(parts[n]).value, palette), x, y);
    }
  }

  // Any choice of images, encoded at any time by one encoder and layered against its final palette,
  // shows at every cell the colour of the topmost opaque part.
  lemma LayersShow(c: Colors, pngs: seq<Png>, chosen: seq<nat>, x: nat, y: nat)
    requires Ordered(c) && c.keys != [] && c.keys[0] == TRANSPARENT
    requires |PaletteAfter(c, pngs).keys| <= 256
    requires forall k :: 0 <= k < |chosen| ==> chosen[k] < |pngs| && pngs[chosen[k]].width >= 1 && Encodable(pngs[chosen[k]])
    ensures var painted := PaintParts(Parts(c, pngs, chosen), PaletteAfter(c, pngs).keys);
            && painted.Some?
            && var shown, top := Shown(painted.value, x, y), TopOpaque(pngs, chosen, x, y);
               shown == NameAt(top) && ColoredAs(shown, top)
  {
    NameColors(TopOpaque(pngs, chosen, x, y));
    hide ColoredAs, NameAt, TopOpaque, PaintParts, Parts, PaletteAfter, Encodable, Ordered, Shown;
    LayersTop(c, pngs, chosen, x, y);
  }

  // ----- The collection after any calls

  predicate AllWide(calls: seq<Call>) {
    forall k :: 0 <= k < |calls| ==> calls[k].png.width >= 1
  }

  function EncodeAll(given: seq<string>, calls: seq<Call>): Collection
    requires AllWide(calls)
  {
    if calls == [] then Collection(Seeded(given), [], map[], map[])
    else AddImage(EncodeAll(given, calls[..|calls| - 1]), calls[|calls| - 1])
  }

  function Pngs(calls: seq<Call>): seq<Png> {
    seq(|calls|, k requires 0 <= k < |calls| => calls[k].png)
  }

  // The last call with the name, if any.
  function LastCall(calls: seq<Call>, name: string): (r: Option<nat>)
    ensures match r
            case Some(i) => i < |calls| && calls[i].name == name && forall j :: i < j < |calls| ==> calls[j].name != name
            case None => forall j :: 0 <= j < |calls| ==> calls[j].name != name
  {
    if calls == [] then None
    else
      var n := |calls| - 1;
      if calls[n].name == name then Some(n) else LastCall(calls[..n], name)
  }

  // The names in the order of their first calls.
  function FirstNames(calls: seq<Call>): seq<string> {
    if calls == [] then []
    else
      var n := |calls| - 1;
      var before := FirstNames(calls[..n]);
      if calls[n].name in before then before else before + [calls[n].name]
  }

  function FolderNames(calls: seq<Call>, folder: string): seq<string> {
    if calls == [] then []
    else
      var n := |calls| - 1;
      FolderNames(calls[..n], folder) + if FiledIn(calls[n], folder) then [calls[n].name] else []
  }

  lemma {:induction false} NamesAreCalled(calls: seq<Call>, name: string)
    ensures name in FirstNames(calls) <==> LastCall(calls, name).Some?
    ensures Distinct(FirstNames(calls))
  {
    if calls != [] {
      NamesAreCalled(calls[..|calls| - 1], name);
    }
  }

  lemma AddedColors(c: Collection, call: Call)
    requires call.png.width >= 1
    ensures AddImage(c, call).colors == InsertAll(c.colors, NamesAbove(call.png.rgbaAt, call.png.width, call.png.height))
  {
    hide InsertAll, NamesAbove, Encode, PlaneOf;
  }

  lemma PngsSnoc(calls: seq<Call>)
    ensures |Pngs(calls)| == |calls|
    ensures calls != [] ==> var n := |calls| - 1; Pngs(calls)[..n] == Pngs(calls[..n]) && Pngs(calls)[n] == calls[n].png
  {
  }

  lemma {:induction false} ColorsAfter(given: seq<string>, calls: seq<Call>)
    requires AllWide(calls)
    ensures EncodeAll(given, calls).colors == PaletteAfter(Seeded(given), Pngs(calls))
  {
    hide InsertAll, NamesAbove, AddImage, Seeded, Pngs;
    PngsSnoc(calls);
    if calls != [] {
      var n := |calls| - 1;
      ColorsAfter(given, calls[..n]);
      AddedColors(EncodeAll(given, calls[..n]), calls[n]);
    }
  }

  lemma AddedImage(given: seq<string>, calls: seq<Call>)
    requires AllWide(calls) && calls != []
    ensures var n := |calls| - 1; var c := EncodeAll(given, calls[..n]);
            EncodeAll(given, calls).images == c.images[calls[n].name := RleAt(Seeded(given), Pngs(calls), n)]
  {
    var n := |calls| - 1;
    hide InsertAll, NamesAbove, Encode, PlaneOf, Seeded, PaletteAfter, Filed;
    ColorsAfter(given, calls);
    assert Pngs(calls)[..n + 1] == Pngs(calls);
  }

  // The string of an image is not touched by later calls.
  lemma RleStays(c: Colors, calls: seq<Call>, n: nat, i: nat)
    requires i < n <= |calls| && AllWide(calls)
    ensures RleAt(c, Pngs(calls[..n]), i) == RleAt(c, Pngs(calls), i)
  {
    assert Pngs(calls[..n])[..i + 1] == Pngs(calls)[..i + 1];
    hide Encode, PaletteAfter, PlaneOf;
  }

  // Every name holds the string of its last call, and nothing else is held.
  lemma {:induction false} ImagesAfter(given: seq<string>, calls: seq<Call>, name: string)
    requires AllWide(calls)
    ensures var images, last := EncodeAll(given, calls).images, LastCall(calls, name);
            && (name in images <==> last.Some?)
            && (last.Some? ==> images[name] == RleAt(Seeded(given), Pngs(calls), last.value))
  {
    if calls != [] {
      var n := |calls| - 1;
      hide RleAt, Seeded, Pngs, AddImage;
      ImagesAfter(given, calls[..n], name);
      AddedImage(given, calls);
      var last := LastCall(calls[..n], name);
      if last.Some? {
        RleStays(Seeded(given), calls, n, last.value);
      }
    }
  }

  lemma {:induction false} FoldersAfter(given: seq<string>, calls: seq<Call>, folder: string)
    requires AllWide(calls)
    ensures var folders := EncodeAll(given, calls).folders;
            && (folder in folders <==> FolderNames(calls, folder) != [])
            && (folder in folders ==> folders[folder] == FolderNames(calls, folder))
  {
    if calls != [] {
      hide InsertAll, NamesAbove, Encode, PlaneOf;
      FoldersAfter(given, calls[..|calls| - 1], folder);
    }
  }

  lemma {:induction false} ImageNamesAfter(given: seq<string>, calls: seq<Call>)
    requires AllWide(calls)
    ensures EncodeAll(given, calls).imageNames == FirstNames(calls)
  {
    if calls != [] {
      var n := |calls| - 1;
      hide InsertAll, NamesAbove, Encode, PlaneOf;
      ImageNamesAfter(given, calls[..n]);
      ImagesAfter(given, calls[..n], calls[n].name);
      NamesAreCalled(calls[..n], calls[n].name);
    }
  }

  // After any calls on a new encoder: one palette grown through all of them; under every name ever
  // given, and no other, the string of the last image given it; the names listed in the order they
  // first came; and in every folder the names filed there, call by call.
  lemma CollectionExact(given: seq<string>, calls: seq<Call>, name: string, folder: string)
    requires AllWide(calls)
    ensures var c, pngs, last := EncodeAll(given, calls), Pngs(calls), LastCall(calls, name);
            && c.colors == PaletteAfter(Seeded(given), pngs)
            && (name in c.images <==> last.Some?)
            && (last.Some? ==> c.images[name] == RleAt(Seeded(given), pngs, last.value))
            && c.imageNames == FirstNames(calls) && Distinct(c.imageNames)
            && (name in c.imageNames <==> name in c.images)
            && (folder in c.folders <==> FolderNames(calls, folder) != [])
            && (folder in c.folders ==> c.folders[folder] == FolderNames(calls, folder))
  {
    hide EncodeAll, LastCall, FirstNames, FolderNames, RleAt, PaletteAfter, Pngs;
    ColorsAfter(given, calls);
    ImagesAfter(given, calls, name);
    ImageNamesAfter(given, calls);
    NamesAreCalled(calls, name);
    FoldersAfter(given, calls, folder);
  }

  function LastCalls(calls: seq<Call>, names: seq<string>): (r: seq<nat>)
    requires forall name <- names :: LastCall(calls, name).Some?
    ensures |r| == |names| && forall k :: 0 <= k < |r| ==> r[k] < |calls| && calls[r[k]].name == names[k]
  {
    seq(|names|, k requires 0 <= k < |names| => LastCall(calls, names[k]).value)
  }

  function Stored(c: Collection, names: seq<string>): seq<string>
    requires forall name <- names :: name in c.images
  {
    seq(|names|, k requires 0 <= k < |names| => c.images[names[k]])
  }

  lemma StoredAreParts(given: seq<string>, calls: seq<Call>, names: seq<string>)
    requires AllWide(calls) && forall name <- names :: LastCall(calls, name).Some?
    ensures forall name <- names :: name in EncodeAll(given, calls).images
    ensures Stored(EncodeAll(given, calls), names) == Parts(Seeded(given), Pngs(calls), LastCalls(calls, names))
  {
    hide EncodeAll, LastCall, RleAt, Seeded;
    var c := EncodeAll(given, calls);
    forall name | name in names
      ensures name in c.images && c.images[name] == RleAt(Seeded(given), Pngs(calls), LastCall(calls, name).value)
    {
      ImagesAfter(given, calls, name);
    }
  }

  // Any stack of names taken from the collection and drawn with its palette shows at every cell the
  // colour of the topmost part opaque there, each name standing for the last image given it.
  lemma StackShows(given: seq<string>, calls: seq<Call>, names: seq<string>, x: nat, y: nat)
    requires StartsInOrder(given) && AllWide(calls)
    requires |EncodeAll(given, calls).colors.keys| <= 256
    requires forall name <- names :: LastCall(calls, name).Some? && Encodable(calls[LastCall(calls, name).value].png)
    ensures var c := EncodeAll(given, calls);
            && (forall name <- names :: name in c.images)
            && var painted := PaintParts(Stored(c, names), c.colors.keys);
               && painted.Some?
               && var shown, top := Shown(painted.value, x, y), TopOpaque(Pngs(calls), LastCalls(calls, names), x, y);
                  shown == NameAt(top) && ColoredAs(shown, top)
  {
    var c, seeded, pngs, chosen := EncodeAll(given, calls), Seeded(given), Pngs(calls), LastCalls(calls, names);
    SeededFacts(given, |given|);
    hide EncodeAll, LastCall, PaletteAfter, Stored, Parts, PaintParts, Encodable, StartsInOrder, Ordered, Shown, TopOpaque, Pngs, Seeded;
    SeedOrderExact(given);
    ColorsAfter(given, calls);
    StoredAreParts(given, calls, names);
    assert forall k :: 0 <= k < |names| ==> names[k] in names;
    LayersShow(seeded, pngs, chosen, x, y);
  }
}
