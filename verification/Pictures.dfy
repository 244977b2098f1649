// From pixels to pictures: images encoded by one encoder, stacked by name, rendered to text by the SDK
// or by the contract, and read back from that text.
module Pictures {
  import opened Wrappers
  import opened Hex
  import opened ImageFormat
  import opened Palette
  import opened Images
  import opened Svg
  import opened RoundTrip
  import opened Encoder
  import opened OnchainSvg
  import opened SvgText
  import opened OnchainImages

  // The text is a picture on the background that has, at every pixel, the red, green and blue of the
  // topmost image opaque at its cell, and nothing where none is.
  ghost predicate ShowsStack(text: Option<string>, background: string, pngs: seq<Png>, chosen: seq<nat>)
    requires forall k :: 0 <= k < |chosen| ==> chosen[k] < |pngs|
  {
    && text.Some?
    && var picture := ReadPicture(text.value);
       && picture.Some? && picture.value.background == background
       && forall px: nat, py: nat ::
            ColoredAs(PixelShown(picture.value.boxes, px, py), TopOpaque(pngs, chosen, px / 10, py / 10))
  }

  // ----- Colour names can stand in an attribute

  predicate HexDigits(s: string) {
    forall c <- s :: c in DIGITS
  }

  lemma {:induction false} HexIsDigits(n: nat)
    ensures HexDigits(ToHex(n))
  {
    if n >= 16 {
      HexIsDigits(n / 16);
    }
  }

  lemma {:induction false} PaddedIsDigits(s: string, width: nat)
    requires HexDigits(s)
    ensures HexDigits(PadStart(s, width))
    decreases width - |s|
  {
    if |s| < width {
      assert DIGITS[0] == '0';
      PaddedIsDigits(['0'] + s, width);
    }
  }

  lemma NamePlain(p: RGBA)
    ensures Plain(HexName(p))
  {
    HexIsDigits(p.r);
    HexIsDigits(p.g);
    HexIsDigits(p.b);
    PaddedIsDigits(ToHex(p.r), 2);
    PaddedIsDigits(ToHex(p.g), 2);
    PaddedIsDigits(ToHex(p.b), 2);
    assert HexDigits(HexName(p));
    hide ToPaddedHex;
  }

  lemma {:induction false} RowNamesPlain(rgbaAt: PixelSource, x: nat, y: nat)
    ensures PlainNames(RowNames(rgbaAt, x, y))
  {
    hide Plain, HexName;
    if x > 0 {
      RowNamesPlain(rgbaAt, x - 1, y);
      NamePlain(rgbaAt(x - 1, y));
    }
  }

  lemma {:induction false} NamesAbovePlain(rgbaAt: PixelSource, width: nat, y: nat)
    ensures PlainNames(NamesAbove(rgbaAt, width, y))
  {
    hide Plain, RowNames;
    if y > 0 {
      NamesAbovePlain(rgbaAt, width, y - 1);
      RowNamesPlain(rgbaAt, width, y - 1);
    }
  }

  lemma {:induction false} InsertedPlain(c: Colors, names: seq<string>)
    requires PlainNames(c.keys) && PlainNames(names)
    ensures PlainNames(InsertAll(c, names).keys)
  {
    hide Plain;
    if names != [] {
      InsertedPlain(c, names[..|names| - 1]);
    }
  }

  lemma {:induction false} SeededPlain(given: seq<string>, n: nat)
    requires PlainNames(given) && n <= |given|
    ensures PlainNames(SeededUpTo(given, n).keys)
  {
    if n == 0 {
      SeededNone(given);
      assert Plain(TRANSPARENT);
    } else {
      hide Plain;
      SeededPlain(given, n - 1);
    }
  }

  lemma {:induction false} PalettePlain(c: Colors, pngs: seq<Png>)
    requires PlainNames(c.keys)
    ensures PlainNames(PaletteAfter(c, pngs).keys)
  {
    hide PlainNames, InsertAll, NamesAbove;
    if pngs != [] {
      var n := |pngs| - 1;
      PalettePlain(c, pngs[..n]);
      NamesAbovePlain(pngs[n].rgbaAt, pngs[n].width, pngs[n].height);
      InsertedPlain(PaletteAfter(c, pngs[..n]), NamesAbove(pngs[n].rgbaAt, pngs[n].width, pngs[n].height));
    }
  }

  lemma CollectionPlain(given: seq<string>, calls: seq<Call>)
    requires PlainNames(given) && AllWide(calls)
    ensures PlainNames(EncodeAll(given, calls).colors.keys)
  {
    hide PlainNames, EncodeAll, PaletteAfter, SeededUpTo;
    ColorsAfter(given, calls);
    SeededPlain(given, |given|);
    PalettePlain(Seeded(given), Pngs(calls));
  }

  // ----- Stacks

  // Every name has an image, and the last one given it can be encoded.
  ghost predicate Stackable(given: seq<string>, calls: seq<Call>, names: seq<string>)
    requires AllWide(calls)
  {
    && StartsInOrder(given) && PlainNames(given)
    && |EncodeAll(given, calls).colors.keys| <= 256
    && forall name <- names :: LastCall(calls, name).Some? && Encodable(calls[LastCall(calls, name).value].png)
  }

  lemma StackShowsAll(given: seq<string>, calls: seq<Call>, names: seq<string>)
    requires AllWide(calls) && Stackable(given, calls, names)
    ensures var c := EncodeAll(given, calls);
            && (forall name <- names :: name in c.images)
            && var painted := PaintParts(Stored(c, names), c.colors.keys);
               && painted.Some?
               && forall x: nat, y: nat :: ColoredAs(Shown(painted.value, x, y), TopOpaque(Pngs(calls), LastCalls(calls, names), x, y))
  {
    StackShows(given, calls, names, 0, 0);
    hide EncodeAll, Encodable, PaintParts, Shown, TopOpaque, ColoredAs, StartsInOrder, PlainNames, Stored, Pngs;
    var c := EncodeAll(given, calls);
    forall x: nat, y: nat
      ensures ColoredAs(Shown(PaintParts(Stored(c, names), c.colors.keys).value, x, y),
                        TopOpaque(Pngs(calls), LastCalls(calls, names), x, y))
    {
      StackShows(given, calls, names, x, y);
    }
  }

  lemma DepictedStack(text: Option<string>, background: string, painted: seq<SvgRect>, pngs: seq<Png>, chosen: seq<nat>)
    requires forall k :: 0 <= k < |chosen| ==> chosen[k] < |pngs|
    requires Depicts(text, background, painted)
    requires forall x: nat, y: nat :: ColoredAs(Shown(painted, x, y), TopOpaque(pngs, chosen, x, y))
    ensures ShowsStack(text, background, pngs, chosen)
  {
    hide ReadPicture, PixelShown, Shown, TopOpaque, ColoredAs;
  }

  // The text buildSVG returns for any stack of names from an encoder, drawn with its palette, is a
  // picture with the right colour at every pixel.
  lemma SdkStackShows(given: seq<string>, calls: seq<Call>, names: seq<string>, background: string)
    requires AllWide(calls) && Stackable(given, calls, names) && Plain(background)
    ensures var c := EncodeAll(given, calls);
            && (forall name <- names :: name in c.images)
            && ShowsStack(SdkSvg(Stored(c, names), c.colors.keys, background), background, Pngs(calls), LastCalls(calls, names))
  {
    StackShowsAll(given, calls, names);
    assert PlainNames(given);
    hide EncodeAll, Stackable, PaintParts, Shown, TopOpaque, ColoredAs, PlainNames, Stored, SdkSvg, ShowsStack, Depicts, Plain;
    var c := EncodeAll(given, calls);
    CollectionPlain(given, calls);
    SdkDepicts(Stored(c, names), c.colors.keys, background);
    DepictedStack(SdkSvg(Stored(c, names), c.colors.keys, background), background,
                  PaintParts(Stored(c, names), c.colors.keys).value, Pngs(calls), LastCalls(calls, names));
  }

  // ----- The same through the contract

  // At most 32 by 32 cells: the contract's table goes no further.
  ghost predicate SmallEnough(calls: seq<Call>, names: seq<string>) {
    forall name <- names :: LastCall(calls, name).Some? ==>
      calls[LastCall(calls, name).value].png.width <= 32 && calls[LastCall(calls, name).value].png.height <= 32
  }

  // The bytes of one stored image, within the contract's reach.
  ghost predicate Reaches(data: seq<Byte>, text: string, palettes: Palettes) {
    HexText(data) == text && PartDrawable(data, palettes) && data != [] && data[0] == 0
  }

  lemma StoredReaches(c: Colors, pngs: seq<Png>, i: nat, palettes: Palettes) returns (data: seq<Byte>)
    requires Ordered(c) && c.keys != [] && c.keys[0] == TRANSPARENT && i < |pngs|
    requires Encodable(pngs[i]) && pngs[i].width <= 32 && pngs[i].height <= 32
    requires |PaletteAfter(c, pngs).keys| <= 256 && PaletteAt(palettes, 0) == PaletteAfter(c, pngs).keys
    ensures Reaches(data, RleAt(c, pngs, i), palettes)
  {
    hide Encode, BorderClear, PlaneAt, PaletteAfter, Ordered, HexText, PartDrawable, HexName, PaletteAt;
    PlaneEncodable(c, pngs, i);
    PlaneShape(c, pngs, i);
    var plane, width := PlaneAt(c, pngs, i), pngs[i].width;
    forall y, x | 0 <= y < |plane| && 0 <= x < width
      ensures plane[y][x] < |PaletteAt(palettes, 0)|
    {
      PlaneFinal(c, pngs, i, x, y);
    }
    data := EncodedCarries(plane, width, palettes);
  }

  lemma NamedReaches(given: seq<string>, calls: seq<Call>, name: string, palettes: Palettes) returns (data: seq<Byte>)
    requires AllWide(calls) && Stackable(given, calls, [name]) && SmallEnough(calls, [name])
    requires PaletteAt(palettes, 0) == EncodeAll(given, calls).colors.keys
    ensures name in EncodeAll(given, calls).images
    ensures Reaches(data, EncodeAll(given, calls).images[name], palettes)
  {
    assert name in [name];
    SeededFacts(given, |given|);
    hide EncodeAll, Encodable, PaletteAfter, RleAt, PaletteAt, Reaches, Ordered, Seeded, StartsInOrder, PlainNames, Pngs, LastCall;
    var i := LastCall(calls, name).value;
    SeedOrderExact(given);
    ColorsAfter(given, calls);
    ImagesAfter(given, calls, name);
    PngAt(calls, i);
    data := StoredReaches(Seeded(given), Pngs(calls), i, palettes);
  }

  lemma PngAt(calls: seq<Call>, i: nat)
    requires i < |calls|
    ensures |Pngs(calls)| == |calls| && Pngs(calls)[i] == calls[i].png
  {
  }

  lemma {:induction false} AllReach(given: seq<string>, calls: seq<Call>, names: seq<string>, palettes: Palettes) returns (parts: seq<seq<Byte>>)
    requires AllWide(calls) && Stackable(given, calls, names) && SmallEnough(calls, names)
    requires PaletteAt(palettes, 0) == EncodeAll(given, calls).colors.keys
    ensures |parts| == |names|
    ensures forall k :: 0 <= k < |names| ==>
              names[k] in EncodeAll(given, calls).images && Reaches(parts[k], EncodeAll(given, calls).images[names[k]], palettes)
  {
    hide EncodeAll, Encodable, PaletteAt, Reaches, StartsInOrder, PlainNames, LastCall;
    if names == [] {
      parts := [];
    } else {
      var n := |names| - 1;
      assert names[n] in names && forall name <- names[..n] :: name in names;
      var before := AllReach(given, calls, names[..n], palettes);
      var last := NamedReaches(given, calls, names[n], palettes);
      parts := before + [last];
    }
  }

  ghost predicate ContractShowsStack(c: Collection, names: seq<string>, palettes: Palettes, background: string,
                                     pngs: seq<Png>, chosen: seq<nat>, parts: seq<seq<Byte>>)
    requires (forall name <- names :: name in c.images) && forall k :: 0 <= k < |chosen| ==> chosen[k] < |pngs|
  {
    HexParts(parts) == Stored(c, names) && ShowsStack(ContractSvg(parts, palettes, background), background, pngs, chosen)
  }

  lemma AllDrawn(c: Collection, names: seq<string>, palettes: Palettes, parts: seq<seq<Byte>>)
    requires |parts| == |names| < 256
    requires forall k :: 0 <= k < |names| ==> names[k] in c.images && Reaches(parts[k], c.images[names[k]], palettes)
    requires forall name <- names :: name in c.images
    ensures HexParts(parts) == Stored(c, names) && AllDrawable(parts, palettes)
    ensures forall p :: 0 <= p < |parts| && parts[p] != [] ==> PaletteAt(palettes, parts[p][0]) == PaletteAt(palettes, 0)
  {
    hide HexText, PartDrawable, PaletteAt;
    assert HexParts(parts) == Stored(c, names);
  }

  // With the encoder's palette stored as palette 0, the contract draws any stack of fewer than 256
  // images of at most 32 by 32 cells from the bytes of what the encoder stored, and its text too has
  // the right colour at every pixel.
  lemma ContractStackShows(given: seq<string>, calls: seq<Call>, names: seq<string>, palettes: Palettes, background: string)
    requires AllWide(calls) && Stackable(given, calls, names) && SmallEnough(calls, names) && Plain(background)
    requires PaletteAt(palettes, 0) == EncodeAll(given, calls).colors.keys && |names| < 256
    ensures var c := EncodeAll(given, calls);
            && (forall name <- names :: name in c.images)
            && exists parts :: ContractShowsStack(c, names, palettes, background, Pngs(calls), LastCalls(calls, names), parts)
  {
    StackShowsAll(given, calls, names);
    assert PlainNames(given);
    hide EncodeAll, Stackable, SmallEnough, PaintParts, Shown, TopOpaque, ColoredAs, PlainNames, ContractSvg, ShowsStack, Depicts,
         Plain, HexText, PaletteAt, Stored, HexParts, AllDrawable, Reaches;
    var c := EncodeAll(given, calls);
    var parts := AllReach(given, calls, names, palettes);
    CollectionPlain(given, calls);
    AllDrawn(c, names, palettes, parts);
    ContractDepicts(parts, palettes, c.colors.keys, background);
    DepictedStack(ContractSvg(parts, palettes, background), background,
                  PaintParts(Stored(c, names), c.colors.keys).value, Pngs(calls), LastCalls(calls, names));
    assert ContractShowsStack(c, names, palettes, background, Pngs(calls), LastCalls(calls, names), parts);
  }
}
